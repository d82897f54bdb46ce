# Console core: commands, variables and line evaluation

A Dafny model of the game's console, `src/con.c`. The console keeps two
registries:

- a list of commands, each a name and a handler;
- a list of variables, each a name and a value that is an integer, a
  boolean or a string.

Each list keeps its records in registration order. Each is searched from
the head for the first record whose name agrees with the query in its first
32 bytes (`strncmp(.., 32)`).

`ConEval` takes one line and works in three steps:

1. It splits the line in place. Each delimiter among the first
   `strnlen(line, 256)` bytes is overwritten with NUL, up to eight of them,
   and a pointer to each following byte is recorded.
2. It looks up the first token as a command and runs it on all the tokens.
3. Failing that, it looks the token up as a variable. The variable is
   printed when no argument follows, and set through `ConCmd_Set` when
   exactly one argument follows.

`ConCmd_Set` infers the value's kind from its text (integer, boolean,
else string). It updates the first matching variable, or links a new one
at the tail under the first 32 bytes of the name. `ConInit` registers `set`
before anything else.

The model is organised as follows:

- `wrappers.dfy`: `Option`, standing for a pointer that may be NULL.
- `cstrings.dfy`: the libc behaviour the console relies on. It covers C
  strings in a buffer, `strncmp`/`strncpy` with 32 bytes, `IsInteger`,
  `atoi` and `%i`.
- `tokenizer.dfy`: the splitting loop. `Tokenize` runs it as a method on an
  `array<char>` holding the line and its terminator. Specification
  functions over the text say what it computes:
  - `Cuts`: the bytes it overwrites;
  - `Starts`: the `cmd_argv` offsets;
  - `Tokens`: the strings the pointers denote.
- `registry.dfy`: records, first-match lookup, kind inference,
  set-or-create and the print format, all on values.
- `evaluator.dfy`: the whole console as a value `State`. `RunSet`,
  `Dispatch` and `Eval` give one `ConCmd_Set` or `ConEval` as a function of
  the state. Here too are the invariant `WellFormed` and the lemmas that
  relate several steps.
- `con.dfy`: the class `Console`, whose fields the methods update in place.
  Each method is proved against the matching function in `Evaluator`.

Behaviour worth knowing about:

- Words beyond the ninth are not dropped. After the eighth cut the loop
  stops, so the last argument runs to the end of the line, separators
  included: "a b c d e f g h i j" gives the ninth argument "i j"
  (`Tokenizer.ExcessWordsGlued`).
- `IsInteger("")` holds, so `ConCmd_Set` with an empty `argv[2]` stores
  the integer 0. An example is the line `set x ` with a trailing space.
  There is no quoting: the line `set x ""` stores the two-character string
  `""` (`Evaluator.TrailingSpaceStoresZero`, `Evaluator.QuotesAreKept`).
- A variable named with two or more arguments does nothing, and `ConEval`
  still returns true. The comment above `ConEval` (src/con.c:138) says it
  fails.
- `char` is taken as signed, as on x86. Every byte from 0x80 up therefore
  compares below `' '` and splits tokens like a space.

## Model

| member | source | states |
|---|---|---|
| CStrings.IsInteger | src/con.c:50-56 | true exactly when every byte of the string is a decimal digit; the empty string qualifies |
| CStrings.StrnEqualIsNameMatch | src/con.c:63 | the byte walk of `strncmp(a, b, 32) == 0` holds exactly when the first 32 bytes of the two names are equal |
| CStrings.Trunc | src/con.c:105-106 | the stored name is a prefix of the name, of length the smaller of 32 and the name's length: exactly the first 32 bytes `strncpy` keeps |
| CStrings.StrnEqual | src/con.c:63 | no contract: `strncmp(a + i, b + i, n) == 0` walked byte by byte; `StrnEqualIsNameMatch` says what it decides |
| CStrings.Atoi | src/con.c:115 | no contract: `atoi` on a digit string, most significant digit first; `AtoiDecimal` relates it to `Decimal` |
| CStrings.Decimal | src/con.c:172 | the digits `%i` prints for a non-negative value: at least one, all decimal digits, no leading zero |
| CStrings.IntToString | src/con.c:172 | no contract: `%i` for any `int`, a minus sign before the digits of a negative value; `FormatShowsValue` and `InferValueText` state what reading it back gives |
| CStrings.AtoiDecimal | src/con.c:115 | `atoi` of the digits `%i` prints for a non-negative integer gives that integer back |
| CStrings.CStr | src/con.c:154 | the string a pointer into a buffer denotes is the longest NUL-free run from that offset, ending at a NUL or the buffer's end |
| Tokenizer.IsDelim | src/con.c:152 | no contract: `line[i] <= ' '` for a signed `char`; `CutIff` states which delimiters are cut |
| Tokenizer.ScanLen | src/con.c:143 | no contract: `strnlen(line, 256)` for a text without NUL; `Cuts` and `CutIff` state that no byte at or past it is cut |
| Tokenizer.Tokens | src/con.c:150-154 | between 1 and 9 tokens; `BlankedTokens` states they are the strings the `cmd_argv` pointers denote, `TokensRejoin` and `SplitRejoin` that they split the line losslessly |
| Tokenizer.Cuts | src/con.c:143-156 | the overwritten positions ascend, number at most 8, lie below `strnlen(line, 256)` and each holds a delimiter |
| Tokenizer.Tokenize | src/con.c:143-156 | the loop on the buffer returns the `cmd_argv` offsets `Starts` of the text and leaves the text with NUL at exactly the cut positions |
| Tokenizer.CutIff | src/con.c:151-153 | a position is overwritten if and only if it is a delimiter in the scanned part with fewer than 8 delimiters before it |
| Tokenizer.ArgcIsCappedDelimCount | src/con.c:150-156 | `cmd_argc` is the number of delimiters in the scanned part, capped at 8 |
| Tokenizer.TokenAtCStr | src/con.c:150-154 | for any cut list, the C string at the start of token k in the blanked buffer is token k |
| Tokenizer.BlankedTokens | src/con.c:150-154 | `cmd_argv[k]` read as a C string after the split is token k of the original line |
| Tokenizer.ArgStringsAreTokens | src/con.c:150-154 | every offset lies in the buffer, and the strings at all of them are the tokens |
| Tokenizer.TokensText | src/con.c:150-154 | every token of a line of text is a C string without NUL |
| Tokenizer.TokensRejoin | src/con.c:150-156 | the tokens joined by the bytes that were overwritten give back the line: splitting loses nothing |
| Tokenizer.SplitRejoin | src/con.c:150-156 | words joined by at most 8 delimiters, none inside a word, split back into the same words and the same delimiters |
| Tokenizer.TokensOfWord | src/con.c:150-156 | a line without delimiters is one token, so `cmd_argc` is 0 |
| Tokenizer.TokensOfThreeWords | src/con.c:150-156 | "a b c" with single spaces splits into a, b and c |
| Tokenizer.DoubleSpaceGivesEmptyToken | src/con.c:152-154 | runs of delimiters are not collapsed: "set  x 5" gives the tokens "set", "", "x", "5" |
| Tokenizer.ExcessWordsGlued | src/con.c:151-154 | with nine or more words the first eight are tokens and the rest of the line, separators included, is the ninth |
| Registry.FirstMatch | src/con.c:58-70 | the lookup returns the index of the first name agreeing with the query in 32 bytes, or None when no name does |
| Registry.FirstMatchUnique | src/con.c:62-67 | any walk that stops at the first agreeing name returns what `FirstMatch` returns |
| Registry.FirstMatchAppend | src/con.c:98-104 | a record linked at the tail is found only when no earlier record agrees, so a duplicate name never changes a lookup |
| Registry.Infer | src/con.c:113-126 | the value is an integer exactly for all-digit text, and then it is `atoi` of the text; a boolean exactly for "true"/"false" otherwise, else the string itself |
| Registry.InferValueText | src/con.c:113-126 | a value is one `set` can produce if and only if inferring it from its own text gives it back |
| Registry.InferIsInferable | src/con.c:113-126 | every inferred value is one `set` can produce |
| Registry.StoredName | src/con.c:105-106 | the name stored for a new variable is at most 32 bytes and agrees with the name it came from |
| Registry.Lookup | src/con.c:58-70 | a variable's value is found exactly when a name agrees |
| Registry.SetVar | src/con.c:96-126 | no contract: the first record agreeing with the name gets the inferred value, else a record is linked at the tail; `SetThenLookup`, `SetStores`, `SetFrame`, `SetShape`, `SetKeepsUnique` and `SetIdempotent` describe it |
| Registry.SetStores | src/con.c:96-126 | when the record found already holds the name `set` would store, the record found after setting is that name with the inferred value |
| Registry.SetThenLookup | src/con.c:96-126 | after setting a name, looking it up gives the inferred value |
| Registry.SetFrame | src/con.c:96-126 | setting a name leaves the lookup of every name that does not agree with it unchanged |
| Registry.SetShape | src/con.c:98-111 | the list grows by one exactly when the name was new, and existing records keep their names |
| Registry.SetKeepsUnique | src/con.c:96-106 | setting keeps variable names pairwise distinct in 32 bytes |
| Registry.SetIdempotent | src/con.c:96-126 | setting the same text twice leaves the list as setting it once |
| Registry.Format | src/con.c:170-181 | no contract: the line printed for a variable, integers in decimal, booleans as true or false, strings in double quotes; `FormatShowsValue` describes it |
| Registry.FormatShowsValue | src/con.c:170-181 | the printed line starts with the name and " = ", then holds text that infers back to the value, or the string in quotes |
| Evaluator.InitState | src/con.c:214 | the state after registering `set` is well-formed |
| Evaluator.RunSet | src/con.c:86-128 | with argc other than 2 only the complaint is printed; otherwise nothing is printed and the name then looks up to the inferred value |
| Evaluator.Run | src/con.c:161-162 | running a handler never changes the command list (foreign handlers taken not to touch the console) |
| Evaluator.Dispatch | src/con.c:159-190 | the command list is unchanged (foreign handlers taken not to touch the console); the result is true exactly when a command or a variable agrees with the first token; on false only the complaint is printed |
| Evaluator.Eval | src/con.c:142-191 | no contract: `Dispatch` on the tokens of the line; `EvalKeepsWellFormed` and `LineSetThenShow` describe it, and `Con.Console.Eval` is proved against it |
| Evaluator.TrailingSpaceStoresZero | src/con.c:113-115 | for any name x without delimiters, the line "set x " splits into "set", x and an empty value text, which is read as the integer 0 |
| Evaluator.QuotesAreKept | src/con.c:122-125 | for any name x without delimiters, the line `set x ""` splits into "set", x and the two quote characters, which are read as that string |
| Evaluator.StoredNameAgrees | src/con.c:105-106 | in a well-formed list, the record found for a name holds exactly the name `set` would store |
| Evaluator.RunSetKeepsWellFormed | src/con.c:86-128 | `ConCmd_Set` keeps the state well-formed |
| Evaluator.DispatchKeepsWellFormed | src/con.c:159-190 | every dispatch keeps the state well-formed |
| Evaluator.EvalKeepsWellFormed | src/con.c:142-191 | evaluating any line of text keeps the state well-formed |
| Evaluator.SetIsBuiltin | src/con.c:160-162 | with `set` registered first, a first token agreeing with "set" always runs `ConCmd_Set` on all tokens |
| Evaluator.SetWrongArgs | src/con.c:89-92 | `set` with other than two arguments prints its complaint, changes nothing else and returns true |
| Evaluator.SetThenShow | src/con.c:170-181 | after `set x text`, naming `x` alone prints the stored name and the inferred value |
| Evaluator.AssignIsSet | src/con.c:182-187 | `x text` on an existing variable no command shadows is the same step as `set x text` |
| Evaluator.SetTwice | src/con.c:96-126 | repeating `set x text` leaves the state as the first one did |
| Evaluator.ExtraArgsIgnored | src/con.c:170-190 | naming a variable with two or more arguments changes nothing and returns true |
| Evaluator.ForeignCommandRuns | src/con.c:160-162 | another handler runs once on all tokens, and the console's registries and output are untouched (foreign handlers taken not to touch the console) |
| Evaluator.LineSetThenShow | src/con.c:142-191 | the line "set x text" then the line "x" prints the value the text was read as |
| Con.Console.constructor | src/con.c:210-216 | the new console is the initial state: no variables and `set` as the only command |
| Con.Console.AddCmd | src/con.c:193-208 | the command is linked at the tail and nothing else changes; a valid console stays valid |
| Con.Console.FindVar | src/con.c:58-70 | the walk returns the first variable whose name agrees in 32 bytes, or None when none does |
| Con.Console.FindCmd | src/con.c:72-84 | the walk returns the first command whose name agrees in 32 bytes, or None when none does |
| Con.Console.Set | src/con.c:86-128 | the console's new state is `RunSet` of the old one, and it stays valid |
| Con.Console.RunHandler | src/con.c:161-162 | the console's new state is `Run` of the old one |
| Con.Console.ShowOrAssign | src/con.c:170-187 | a variable alone is printed, with one argument it is set, with more nothing changes |
| Con.Console.Dispatch | src/con.c:159-190 | result and new state are `Evaluator.Dispatch` of the old state |
| Con.Console.Eval | src/con.c:142-191 | result and new state are `Evaluator.Eval` of the old state on the line's text; the buffer is left split; the console stays valid |

## Left out

- The mutex `conLock` and all locking: the model is single-threaded.
- Reading `config.cfg` in `ConInit` and evaluating each of its lines: file
  I/O. The model's initial state is the console right after
  `ConAddCmd("set", ConCmd_Set)`.
- `printf`: modelled as a list of printed lines, without the trailing
  newline.
- Handlers registered from elsewhere: only their runs are recorded, as an
  identity with `argc` and `argv`. What they do is not part of this model,
  and they are taken not to change the console. In the source a handler
  may call `ConAddCmd`, `ConCmd_Set` or `ConEval` (the lock is recursive,
  src/con.c:216); such re-entry is not modelled.
- Memory management:
  - `malloc` and `free` are not modelled, nor the `free` of the old string
    value;
  - the model takes a new record's `next` to be NULL. In the source it is
    left uninitialised (src/con.c:99, 194), so a lookup that passes the last
    record (every miss in `ConVar` or `ConCmd`, src/con.c:62, 76) reads an
    indeterminate pointer;
  - the string copy at src/con.c:124-125 allocates one byte too few and
    writes its terminator past the heap block; the model stores the whole
    string.
- `cmd_argv` has 8 slots, but the loop can fill a ninth. The model keeps
  all nine offsets and does not model the out-of-bounds write.
- The `memset` of `cmd_argv`, whose arguments are swapped: it writes
  nothing the evaluation later reads.
- A stored name of exactly 32 bytes has no terminator. It is printed here
  as those 32 bytes.
- `ConInit` registers `set` before the mutex is initialised; without
  locking this has no effect on the model.
- Con.Console.Set: integer values are unbounded, so the overflow of `atoi`
  and `int` on long digit strings is not modelled.
- Lines are byte strings without NUL. Characters above U+00FF have no
  meaning here, and `char` is taken as signed.
