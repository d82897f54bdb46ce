/** What one `ConEval` does to the console, as a function of the console's
    state: the line is split into tokens, the first token is looked up as a
    command and then as a variable, and the command runs, the variable is
    printed or set, or a complaint is printed. */
module Evaluator {
  import opened Wrappers
  import opened CStrings
  import opened Tokenizer
  import opened Registry

  /** One run of a registered handler other than `set`: its identity and the
      `argc`/`argv` it was given. What such a handler does is not part of the
      console. */
  datatype Call = Call(id: nat, argc: nat, argv: seq<string>)

  /** The console: both registries, the lines printed so far (without their
      trailing newline) and the foreign handler runs so far. */
  datatype State = State(vars: seq<Var>, cmds: seq<Cmd>, out: seq<string>, calls: seq<Call>)

  /** The result of `ConEval`: its `lsuccess_t` and the new state. */
  datatype Reply = Reply(ok: bool, st: State)

  const SET_NAME: string := "set"
  const WRONG_ARGS: string := "set: wrong number of arguments"
  const NO_SUCH: string := "no such command or variable: "

  /** The state `ConInit` leaves before it reads a configuration file: no
      variables, and `set` as the only command. */
  function InitState(): (st: State)
    ensures WellFormed(st)
  {
    State([], [Cmd(SET_NAME, SetHandler)], [], [])
  }

  /** `set` heads the command list. */
  predicate SetFirst(cmds: seq<Cmd>) {
    |cmds| >= 1 && cmds[0] == Cmd(SET_NAME, SetHandler)
  }

  /** What every reachable state satisfies: `set` is the first command, so
      no later registration can hide it; names are C strings; variable names
      are the at most 32 bytes `strncpy` kept and agree pairwise in none; and
      every value is one `set` can produce. */
  ghost predicate WellFormed(st: State) {
    SetFirst(st.cmds) &&
    (forall i :: 0 <= i < |st.cmds| ==> IsText(st.cmds[i].name)) &&
    (forall i :: 0 <= i < |st.vars| ==>
      IsText(st.vars[i].name) && |st.vars[i].name| <= NAME_LEN && Inferable(st.vars[i].value)) &&
    UniqueNames(st.vars)
  }

  /** `ConCmd_Set(argc, argv)`: with anything but two arguments it complains;
      otherwise it sets the variable `argv[1]` from the text `argv[2]`. */
  function RunSet(st: State, argc: nat, argv: seq<string>): (r: State)
    requires |argv| == argc + 1
    ensures r.cmds == st.cmds && r.calls == st.calls
    ensures argc != 2 ==> r == st.(out := st.out + [WRONG_ARGS])
    ensures argc == 2 ==> r.out == st.out && Lookup(r.vars, argv[1]) == Some(Infer(argv[2]))
  {
    if argc != 2 then st.(out := st.out + [WRONG_ARGS])
    else
      SetThenLookup(st.vars, argv[1], argv[2]);
      st.(vars := SetVar(st.vars, argv[1], argv[2]))
  }

  /** A registered handler run on the tokens. */
  function Run(st: State, h: Handler, argc: nat, argv: seq<string>): (r: State)
    requires |argv| == argc + 1
    ensures r.cmds == st.cmds
  {
    match h
    case SetHandler => RunSet(st, argc, argv)
    case Foreign(id) => st.(calls := st.calls + [Call(id, argc, argv)])
  }

  /** The part of `ConEval` after the split: `argv` holds `cmd_argc + 1`
      tokens. A command found by the first token runs with all of them. A
      variable found by it is printed when it stands alone and set when one
      argument follows (as `set name value` would); with more arguments
      nothing happens. Both cases succeed. A first token that names neither
      is reported and fails. */
  function Dispatch(st: State, argv: seq<string>): (r: Reply)
    requires |argv| >= 1
    ensures r.st.cmds == st.cmds
    ensures r.ok <==>
      FirstMatch(CmdNames(st.cmds), argv[0]).Some? || FirstMatch(VarNames(st.vars), argv[0]).Some?
    ensures !r.ok ==> r.st == st.(out := st.out + [NO_SUCH + argv[0]])
  {
    var argc := |argv| - 1;
    match FirstMatch(CmdNames(st.cmds), argv[0])
    case Some(c) => Reply(true, Run(st, st.cmds[c].handler, argc, argv))
    case None =>
      match FirstMatch(VarNames(st.vars), argv[0])
      case None => Reply(false, st.(out := st.out + [NO_SUCH + argv[0]]))
      case Some(v) =>
        if argc == 0 then Reply(true, st.(out := st.out + [Format(st.vars[v])]))
        else if argc == 1 then Reply(true, RunSet(st, 2, [SET_NAME, argv[0], argv[1]]))
        else Reply(true, st)
  }

  /** `ConEval(line)` for a line of text. */
  function Eval(st: State, line: string): (r: Reply)
    requires IsText(line)
  {
    Dispatch(st, Tokens(line))
  }

  /** The name `set` stores for `x` is the one a well-formed list already
      holds for it, when it holds one. */
  lemma StoredNameAgrees(st: State, x: string)
    requires WellFormed(st)
    ensures match FirstMatch(VarNames(st.vars), x)
      case Some(k) => st.vars[k].name == StoredName(x)
      case None => true
  {
    match FirstMatch(VarNames(st.vars), x)
    case Some(k) =>
      assert NameMatch(VarNames(st.vars)[k], x);
    case None =>
  }

  /** `set` keeps a state well-formed. */
  lemma RunSetKeepsWellFormed(st: State, argc: nat, argv: seq<string>)
    requires WellFormed(st) && |argv| == argc + 1
    requires forall k :: 0 <= k < |argv| ==> IsText(argv[k])
    ensures WellFormed(RunSet(st, argc, argv))
  {
    if argc == 2 {
      var name, text := argv[1], argv[2];
      var r := SetVar(st.vars, name, text);
      SetKeepsUnique(st.vars, name, text);
      InferIsInferable(text);
      forall i | 0 <= i < |r|
        ensures IsText(r[i].name) && |r[i].name| <= NAME_LEN && Inferable(r[i].value)
      {
        if i < |st.vars| {
          assert VarNames(r)[i] == VarNames(st.vars)[i] by { SetShape(st.vars, name, text); }
        }
      }
    }
  }

  /** Every step of the console keeps its state well-formed. */
  lemma DispatchKeepsWellFormed(st: State, argv: seq<string>)
    requires WellFormed(st) && |argv| >= 1
    requires forall k :: 0 <= k < |argv| ==> IsText(argv[k])
    ensures WellFormed(Dispatch(st, argv).st)
  {
    var argc := |argv| - 1;
    match FirstMatch(CmdNames(st.cmds), argv[0])
    case Some(c) =>
      if st.cmds[c].handler == SetHandler {
        RunSetKeepsWellFormed(st, argc, argv);
      }
    case None =>
      match FirstMatch(VarNames(st.vars), argv[0])
      case None =>
      case Some(v) =>
        if argc == 1 {
          RunSetKeepsWellFormed(st, 2, [SET_NAME, argv[0], argv[1]]);
        }
  }

  /** `set` is always the built-in: whatever was registered later, a first
      token that agrees with "set" runs `ConCmd_Set`. */
  lemma SetIsBuiltin(st: State, argv: seq<string>)
    requires SetFirst(st.cmds) && |argv| >= 1 && NameMatch(argv[0], SET_NAME)
    ensures Dispatch(st, argv) == Reply(true, RunSet(st, |argv| - 1, argv))
  {
    assert IsFirstMatch(CmdNames(st.cmds), argv[0], Some(0));
    FirstMatchUnique(CmdNames(st.cmds), argv[0], Some(0));
  }

  /** `set` with anything but a name and a value prints its complaint,
      changes nothing else, and still succeeds. */
  lemma SetWrongArgs(st: State, argv: seq<string>)
    requires SetFirst(st.cmds) && |argv| >= 1 && argv[0] == SET_NAME && |argv| != 3
    ensures Dispatch(st, argv) == Reply(true, st.(out := st.out + [WRONG_ARGS]))
  {
    SetIsBuiltin(st, argv);
  }

  /** Naming a variable after setting it prints the stored name and the
      value the text was read as. */
  lemma SetThenShow(st: State, x: string, text: string)
    requires WellFormed(st)
    requires FirstMatch(CmdNames(st.cmds), x).None?
    ensures var st1 := Dispatch(st, [SET_NAME, x, text]).st;
      Dispatch(st1, [x]) == Reply(true, st1.(out := st1.out + [Format(Var(StoredName(x), Infer(text)))]))
  {
    SetIsBuiltin(st, [SET_NAME, x, text]);
    StoredNameAgrees(st, x);
    SetStores(st.vars, x, text);
  }

  /** `name value` on an existing variable that no command shadows is the
      same step as `set name value`. */
  lemma AssignIsSet(st: State, x: string, text: string)
    requires SetFirst(st.cmds)
    requires FirstMatch(CmdNames(st.cmds), x).None? && Lookup(st.vars, x).Some?
    ensures Dispatch(st, [x, text]) == Dispatch(st, [SET_NAME, x, text])
  {
    SetIsBuiltin(st, [SET_NAME, x, text]);
  }

  /** Setting a variable a second time to the same text changes nothing
      more. */
  lemma SetTwice(st: State, x: string, text: string)
    requires SetFirst(st.cmds)
    ensures var st1 := Dispatch(st, [SET_NAME, x, text]).st;
      Dispatch(st1, [SET_NAME, x, text]).st == st1
  {
    SetIsBuiltin(st, [SET_NAME, x, text]);
    var st1 := Dispatch(st, [SET_NAME, x, text]).st;
    SetIsBuiltin(st1, [SET_NAME, x, text]);
    SetIdempotent(st.vars, x, text);
  }

  /** A variable named with two or more arguments: nothing happens, and the
      evaluation still reports success. */
  lemma ExtraArgsIgnored(st: State, argv: seq<string>)
    requires |argv| >= 3
    requires FirstMatch(CmdNames(st.cmds), argv[0]).None? && Lookup(st.vars, argv[0]).Some?
    ensures Dispatch(st, argv) == Reply(true, st)
  {
  }

  /** A registered handler other than `set` is run once with all the tokens,
      and the console itself does not change. */
  lemma ForeignCommandRuns(st: State, argv: seq<string>, c: nat, id: nat)
    requires |argv| >= 1
    requires FirstMatch(CmdNames(st.cmds), argv[0]) == Some(c) && st.cmds[c].handler == Foreign(id)
    ensures Dispatch(st, argv) == Reply(true, st.(calls := st.calls + [Call(id, |argv| - 1, argv)]))
  {
  }

  /** Evaluating any line of text keeps the state well-formed. */
  lemma EvalKeepsWellFormed(st: State, line: string)
    requires WellFormed(st) && IsText(line)
    ensures WellFormed(Eval(st, line).st)
  {
    TokensText(line);
    DispatchKeepsWellFormed(st, Tokens(line));
  }

  /** The line "set x " with a trailing space gives `set` an empty value
      text, which `IsInteger` accepts: the variable becomes the integer 0. */
  lemma TrailingSpaceStoresZero(x: string)
    requires NoDelim(x) && |x| + 5 <= SCAN_LIMIT
    ensures Tokens(SET_NAME + " " + x + " ") == [SET_NAME, x, ""]
    ensures Infer("") == IntV(0)
  {
    SetNameIsWord();
    TokensOfThreeWords(SET_NAME, x, "");
    assert SET_NAME + " " + x + " " + "" == SET_NAME + " " + x + " ";
  }

  /** Nothing is unquoted: the line `set x ""` gives `set` the two quote
      characters as its value text, and they are stored as that string. */
  lemma QuotesAreKept(x: string)
    requires NoDelim(x) && |x| + 5 <= SCAN_LIMIT
    ensures Tokens(SET_NAME + " " + x + " " + QUOTES) == [SET_NAME, x, QUOTES]
    ensures Infer(QUOTES) == StrV(QUOTES)
  {
    SetNameIsWord();
    assert NoDelim(QUOTES) && !IsDigit(QUOTES[0]);
    TokensOfThreeWords(SET_NAME, x, QUOTES);
  }

  /** Two double-quote characters. */
  const QUOTES: string := "\"\""

  lemma SetNameIsWord()
    ensures IsText(SET_NAME) && NoDelim(SET_NAME)
  {
  }

  /** The line "set x v" followed by the line "x" prints the value `v` was
      read as, for a name and a text that hold no delimiter and a name that
      no command shadows. */
  lemma LineSetThenShow(st: State, x: string, text: string)
    requires WellFormed(st) && IsText(x) && IsText(text)
    requires NoDelim(x) && NoDelim(text) && |x| + 5 <= SCAN_LIMIT
    requires FirstMatch(CmdNames(st.cmds), x).None?
    ensures IsText(SET_NAME + " " + x + " " + text)
    ensures var r1 := Eval(st, SET_NAME + " " + x + " " + text);
      r1 == Dispatch(st, [SET_NAME, x, text]) && r1.ok &&
      Eval(r1.st, x) == Reply(true, r1.st.(out := r1.st.out + [Format(Var(StoredName(x), Infer(text)))]))
  {
    SetNameIsWord();
    TokensOfThreeWords(SET_NAME, x, text);
    TokensOfWord(x);
    var t := [SET_NAME, x, text];
    var line := SET_NAME + " " + x + " " + text;
    SetIsBuiltin(st, t);
    SetThenShow(st, x, text);
    var r1 := Dispatch(st, t);
    assert Eval(st, line) == r1;
    assert Eval(r1.st, x) == Dispatch(r1.st, [x]);
  }
}
