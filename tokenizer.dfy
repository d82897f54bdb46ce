/** The splitting loop at the start of `ConEval`: it walks the first
    `strnlen(line, 256)` bytes of the line, overwrites each delimiter with a
    NUL and records a pointer to the byte after it, until eight such cuts
    have been made. Runs of delimiters are not collapsed.

    The specification functions work on the line's text `s`; the method
    `Tokenize` works in place on the buffer `s + [NUL]`. */
module Tokenizer {
  import opened CStrings

  /** MAX_CMD_ARGS: the loop stops once this many cuts have been made. */
  const MAX_CMD_ARGS: nat := 8

  /** The bound given to `strnlen`: bytes past it are never cut. */
  const SCAN_LIMIT: nat := 256

  /** `line[i] <= ' '` with a signed `char`: control bytes, the space, and
      every byte with the high bit set (a negative `char`). */
  predicate IsDelim(c: char) {
    c <= ' ' || c >= '\U{80}'
  }

  /** `strnlen(line, 256)` for a text without NUL. */
  function ScanLen(s: string): (n: nat) {
    if |s| < SCAN_LIMIT then |s| else SCAN_LIMIT
  }

  /** The positions below `hi` that hold a delimiter, in ascending order. */
  function DelimsBelow(s: string, hi: nat): (d: seq<nat>)
    requires hi <= |s|
    ensures forall k :: 0 <= k < |d| ==> d[k] < hi && IsDelim(s[d[k]])
    ensures forall k :: 0 < k < |d| ==> d[k - 1] < d[k]
  {
    if hi == 0 then []
    else DelimsBelow(s, hi - 1) + (if IsDelim(s[hi - 1]) then [hi - 1] else [])
  }

  /** Scanning further only appends delimiter positions. */
  lemma {:induction false} DelimsBelowPrefix(s: string, i: nat, j: nat)
    requires i <= j <= |s|
    ensures DelimsBelow(s, i) <= DelimsBelow(s, j)
    decreases j - i
  {
    if i < j {
      DelimsBelowPrefix(s, i, j - 1);
    }
  }

  /** A list of cut positions inside `s`, each after the one before. */
  predicate IsCutList(s: string, c: seq<nat>) {
    && (forall k :: 0 <= k < |c| ==> c[k] < |s|)
    && (forall k :: 0 < k < |c| ==> c[k - 1] < c[k])
  }

  /** In a cut list, a later cut lies further right. */
  lemma {:induction false} CutListAscending(s: string, c: seq<nat>, j: nat, k: nat)
    requires IsCutList(s, c) && j < k < |c|
    ensures c[j] < c[k]
    decreases k - j
  {
    if j + 1 < k {
      CutListAscending(s, c, j, k - 1);
    }
  }

  lemma CutListStrict(s: string, c: seq<nat>)
    requires IsCutList(s, c)
    ensures forall j, k :: 0 <= j < k < |c| ==> c[j] < c[k]
  {
    forall j, k | 0 <= j < k < |c|
      ensures c[j] < c[k]
    {
      CutListAscending(s, c, j, k);
    }
  }

  /** The positions `ConEval` overwrites with NUL: the first MAX_CMD_ARGS
      delimiters among the first `strnlen(line, 256)` bytes. */
  function Cuts(s: string): (c: seq<nat>)
    ensures IsCutList(s, c) && |c| <= MAX_CMD_ARGS
    ensures forall k :: 0 <= k < |c| ==> c[k] < ScanLen(s) && IsDelim(s[c[k]])
  {
    var d := DelimsBelow(s, ScanLen(s));
    if |d| <= MAX_CMD_ARGS then d else d[..MAX_CMD_ARGS]
  }

  /** The offsets stored in `cmd_argv`: the line itself, then the byte after
      each cut. */
  function StartsOf(c: seq<nat>): (t: seq<nat>)
    ensures |t| == |c| + 1 && t[0] == 0
    ensures forall k :: 0 <= k < |c| ==> t[k + 1] == c[k] + 1
  {
    seq(|c| + 1, k requires 0 <= k <= |c| => if k == 0 then 0 else c[k - 1] + 1)
  }

  function Starts(s: string): (starts: seq<nat>) {
    StartsOf(Cuts(s))
  }

  /** `s` with the bytes at the cut positions replaced by NUL, one cut at a
      time as the loop makes them. */
  function BlankAt(s: string, c: seq<nat>): (b: string)
    requires forall k :: 0 <= k < |c| ==> c[k] < |s|
    ensures |b| == |s|
  {
    if c == [] then s else BlankAt(s, c[..|c| - 1])[c[|c| - 1] := NUL]
  }

  /** A byte of the blanked text is NUL exactly at the cuts. */
  lemma {:induction false} BlankAtIndex(s: string, c: seq<nat>, i: nat)
    requires forall k :: 0 <= k < |c| ==> c[k] < |s|
    requires i < |s|
    ensures BlankAt(s, c)[i] == if i in c then NUL else s[i]
  {
    if c != [] {
      var c' := c[..|c| - 1];
      BlankAtIndex(s, c', i);
      assert c == c' + [c[|c| - 1]];
      assert i in c <==> i in c' || i == c[|c| - 1];
    }
  }

  /** The line's text as `ConEval` leaves it. */
  function Blank(s: string): (b: string) {
    BlankAt(s, Cuts(s))
  }

  /** The strings the argument pointers denote, for a cut list `c` whose
      cuts lie at or after `from`: the first token runs from `from` to the
      first cut, each later one from the byte after a cut to the next cut,
      and the last one to the end of the line, through any delimiter that
      was not cut. */
  function TokensFrom(s: string, c: seq<nat>, from: nat): (t: seq<string>)
    requires IsCutList(s, c) && from <= |s| && (c != [] ==> from <= c[0])
    ensures |t| == |c| + 1
    decreases |c|
  {
    if c == [] then [s[from..]]
    else [s[from..c[0]]] + TokensFrom(s, c[1..], c[0] + 1)
  }

  function TokensAt(s: string, c: seq<nat>): (t: seq<string>)
    requires IsCutList(s, c)
    ensures |t| == |c| + 1
  {
    TokensFrom(s, c, 0)
  }

  /** Token k of a cut list runs from the byte after cut k - 1 (or from
      `from`) up to cut k (or to the end of the line). */
  lemma {:induction false} TokensFromIndex(s: string, c: seq<nat>, from: nat, k: nat)
    requires IsCutList(s, c) && from <= |s| && (c != [] ==> from <= c[0])
    requires k <= |c|
    ensures TokenBounds(s, c, from, k)
    decreases |c|
  {
    if k > 0 {
      CutListTail(s, c);
      TokensFromIndex(s, c[1..], c[0] + 1, k - 1);
      TokensFromIndexStep(s, c, from, k);
    }
  }

  /** Token `k` read from `from` is the stretch between the cut before it
      (or `from`) and the cut after it (or the end of the line). */
  predicate TokenBounds(s: string, c: seq<nat>, from: nat, k: nat)
    requires IsCutList(s, c) && from <= |s| && (c != [] ==> from <= c[0]) && k <= |c|
  {
    var start := if k == 0 then from else c[k - 1] + 1;
    var end := if k < |c| then c[k] else |s|;
    start <= end <= |s| && TokensFrom(s, c, from)[k] == s[start..end]
  }

  /** The inductive step of `TokensFromIndex`: token `k > 0` read from
      `from` is token `k - 1` read after the first cut. */
  lemma TokensFromIndexStep(s: string, c: seq<nat>, from: nat, k: nat)
    requires IsCutList(s, c) && from <= |s| && c != [] && from <= c[0] && 0 < k <= |c|
    requires IsCutList(s, c[1..]) && c[0] < |s| && (c[1..] != [] ==> c[0] + 1 <= c[1..][0])
    requires TokenBounds(s, c[1..], c[0] + 1, k - 1)
    ensures TokenBounds(s, c, from, k)
  {
    assert TokensFrom(s, c, from)[k] == TokensFrom(s, c[1..], c[0] + 1)[k - 1];
  }

  /** `cmd_argv[0..cmd_argc]` read as C strings after the split. */
  function Tokens(s: string): (t: seq<string>)
    ensures 1 <= |t| <= MAX_CMD_ARGS + 1
  {
    TokensAt(s, Cuts(s))
  }

  /** One step of the loop at position `i`: the byte there is still the
      original one, and cutting it extends the blanked text and the argument
      offsets by that one cut. */
  lemma {:induction false} LoopStep(s: string, i: nat)
    requires i < |s|
    ensures BlankAt(s, DelimsBelow(s, i))[i] == s[i]
    ensures DelimsBelow(s, i + 1) ==
      DelimsBelow(s, i) + (if IsDelim(s[i]) then [i] else [])
    ensures BlankAt(s, DelimsBelow(s, i) + [i]) == BlankAt(s, DelimsBelow(s, i))[i := NUL]
    ensures StartsOf(DelimsBelow(s, i) + [i]) == StartsOf(DelimsBelow(s, i)) + [i + 1]
  {
    var d := DelimsBelow(s, i);
    assert (d + [i])[..|d|] == d;
    BlankAtIndex(s, d, i);
  }

  /** `LoopStep` read on the buffer the loop holds: the blanked text so far
      followed by the terminator. */
  lemma LoopStepOn(s: string, i: nat, cuts: seq<nat>, b: seq<char>)
    requires i < |s| && cuts == DelimsBelow(s, i) && b == BlankAt(s, cuts) + [NUL]
    ensures b[i] == s[i]
    ensures !IsDelim(s[i]) ==> DelimsBelow(s, i + 1) == cuts
    ensures IsDelim(s[i]) ==>
      DelimsBelow(s, i + 1) == cuts + [i] &&
      b[i := NUL] == BlankAt(s, cuts + [i]) + [NUL] &&
      StartsOf(cuts + [i]) == StartsOf(cuts) + [i + 1]
  {
    LoopStep(s, i);
    var t := BlankAt(s, cuts);
    assert b[i] == t[i];
    assert b[i := NUL] == t[i := NUL] + [NUL];
  }

  /** When the loop stops, the cuts it made are exactly `Cuts(s)`. */
  lemma LoopExit(s: string, i: nat)
    requires i <= ScanLen(s)
    requires |DelimsBelow(s, i)| <= MAX_CMD_ARGS
    requires i == ScanLen(s) || |DelimsBelow(s, i)| == MAX_CMD_ARGS
    ensures Cuts(s) == DelimsBelow(s, i)
  {
    DelimsBelowPrefix(s, i, ScanLen(s));
  }

  /** The splitting loop of `ConEval`, on the caller's buffer: it returns
      the offsets of `cmd_argv[0..cmd_argc]` and leaves NUL at each cut. */
  method Tokenize(line: array<char>) returns (argv: seq<nat>)
    requires IsCLine(line[..])
    modifies line
    ensures argv == Starts(Text(old(line[..])))
    ensures line[..] == Blank(Text(old(line[..]))) + [NUL]
  {
    ghost var s := Text(line[..]);
    var len := if line.Length - 1 < SCAN_LIMIT then line.Length - 1 else SCAN_LIMIT;
    var i, argc := 0, 0;
    ghost var cuts: seq<nat> := [];
    argv := [0];
    while i < len && argc < MAX_CMD_ARGS
      invariant 0 <= i <= len == ScanLen(s) <= |s| == line.Length - 1
      invariant cuts == DelimsBelow(s, i)
      invariant argc == |cuts| <= MAX_CMD_ARGS
      invariant argv == StartsOf(cuts)
      invariant line[..] == BlankAt(s, cuts) + [NUL]
    {
      LoopStepOn(s, i, cuts, line[..]);
      if line[i] <= ' ' || line[i] >= '\U{80}' {
        line[i] := NUL;
        argc := argc + 1;
        argv := argv + [i + 1];
        cuts := cuts + [i];
      }
      i := i + 1;
    }
    LoopExit(s, i);
  }

  /** A stretch of the blanked text free of cuts, ending at a cut or at
      the end of the text, is read back as that stretch of the original. */
  lemma CStrOfBlank(s: string, c: seq<nat>, start: nat, end: nat)
    requires IsText(s) && forall k :: 0 <= k < |c| ==> c[k] < |s|
    requires start <= end <= |s|
    requires forall j :: 0 <= j < |c| ==> c[j] < start || end <= c[j]
    requires end < |s| ==> end in c
    ensures CStr(BlankAt(s, c) + [NUL], start) == s[start..end]
  {
    var buf := BlankAt(s, c) + [NUL];
    forall i | start <= i < end
      ensures buf[i] == s[i]
    {
      assert i !in c;
      BlankAtIndex(s, c, i);
    }
    if end < |s| {
      BlankAtIndex(s, c, end);
    }
    CStrUpTo(buf, start, end);
    assert buf[start..end] == s[start..end];
  }

  /** For any cut list: the C string at the start of token k in the blanked
      buffer is token k. */
  lemma TokenAtCStr(s: string, c: seq<nat>, k: nat)
    requires IsText(s) && IsCutList(s, c) && k <= |c|
    ensures CStr(BlankAt(s, c) + [NUL], StartsOf(c)[k]) == TokensAt(s, c)[k]
  {
    var start := if k == 0 then 0 else c[k - 1] + 1;
    var end := if k < |c| then c[k] else |s|;
    forall j | 0 <= j < |c|
      ensures c[j] < start || end <= c[j]
    {
      if j < k - 1 {
        CutListAscending(s, c, j, k - 1);
      } else if k < j {
        CutListAscending(s, c, k, j);
      }
    }
    CStrOfBlank(s, c, start, end);
    assert StartsOf(c)[k] == start;
    TokensFromIndex(s, c, 0, k);
  }

  /** Reading `cmd_argv[k]` as a C string out of the blanked buffer gives
      token k: each token ends at the NUL written over the next cut, the last
      one at the line's own terminator. */
  lemma BlankedTokens(s: string, k: nat)
    requires IsText(s) && k < |Starts(s)|
    ensures CStr(Blank(s) + [NUL], Starts(s)[k]) == Tokens(s)[k]
  {
    TokenAtCStr(s, Cuts(s), k);
  }

  /** The delimiter positions below `hi`, as a set. */
  function DelimSet(s: string, hi: nat): (d: set<nat>)
    requires hi <= |s|
  {
    set p: nat | p < hi && IsDelim(s[p])
  }

  /** The ordered list holds each delimiter position exactly once. */
  lemma {:induction false} DelimCount(s: string, hi: nat)
    requires hi <= |s|
    ensures |DelimsBelow(s, hi)| == |DelimSet(s, hi)|
  {
    if hi == 0 {
      assert DelimSet(s, 0) == {};
    } else {
      DelimCount(s, hi - 1);
      if IsDelim(s[hi - 1]) {
        assert DelimSet(s, hi) == DelimSet(s, hi - 1) + {hi - 1};
      } else {
        assert DelimSet(s, hi) == DelimSet(s, hi - 1);
      }
    }
  }

  /** `cmd_argc` after the loop: the number of delimiters among the first
      `strnlen(line, 256)` bytes, capped at MAX_CMD_ARGS. */
  lemma ArgcIsCappedDelimCount(s: string)
    ensures |Cuts(s)| == if |DelimSet(s, ScanLen(s))| < MAX_CMD_ARGS
                         then |DelimSet(s, ScanLen(s))| else MAX_CMD_ARGS
  {
    DelimCount(s, ScanLen(s));
  }

  /** Position p is overwritten with NUL exactly when it is a delimiter in
      the scanned part with fewer than MAX_CMD_ARGS delimiters before it. */
  lemma CutIff(s: string, p: nat)
    requires p < |s|
    ensures p in Cuts(s) <==>
      p < ScanLen(s) && IsDelim(s[p]) && |DelimSet(s, p)| < MAX_CMD_ARGS
  {
    var d := DelimsBelow(s, ScanLen(s));
    var c := Cuts(s);
    var n := |DelimsBelow(s, p)|;
    DelimCount(s, p);
    if p < ScanLen(s) && IsDelim(s[p]) {
      DelimAt(s, p, ScanLen(s));
      assert c == d[..|c|];
      if p in c {
        var j :| 0 <= j < |c| && c[j] == p;
        CutListStrict(s, d);
        assert j == n;
      }
      if n < MAX_CMD_ARGS {
        assert c[n] == p;
      }
    }
  }

  /** A delimiter at `p` is the entry after those below `p`. */
  lemma DelimAt(s: string, p: nat, hi: nat)
    requires p < hi <= |s| && IsDelim(s[p])
    ensures |DelimsBelow(s, p)| < |DelimsBelow(s, hi)|
    ensures DelimsBelow(s, hi)[|DelimsBelow(s, p)|] == p
  {
    DelimsBelowPrefix(s, p + 1, hi);
    assert DelimsBelow(s, p + 1) == DelimsBelow(s, p) + [p];
  }

  /** The line rebuilt from its tokens: each token followed by the cut byte
      that ended it, then the last token. */
  function Rejoin(t: seq<string>, seps: string): (line: string)
    requires |t| == |seps| + 1
    decreases |seps|
  {
    if seps == [] then t[0] else t[0] + [seps[0]] + Rejoin(t[1..], seps[1..])
  }

  /** The bytes at the cuts, in order. */
  function SepsAt(s: string, c: seq<nat>): (b: string)
    requires IsCutList(s, c)
    ensures |b| == |c|
  {
    seq(|c|, k requires 0 <= k < |c| => s[c[k]])
  }

  /** The bytes the loop overwrote, in order. */
  function CutBytes(s: string): (b: string)
    ensures |b| == |Cuts(s)|
    ensures forall k :: 0 <= k < |b| ==> IsDelim(b[k])
  {
    SepsAt(s, Cuts(s))
  }

  /** Splitting loses nothing: for any cut list, the tokens and the cut
      bytes between them give back the line from `from` on. */
  lemma {:induction false} TokensFromRejoin(s: string, c: seq<nat>, from: nat)
    requires IsCutList(s, c) && from <= |s| && (c != [] ==> from <= c[0])
    ensures Rejoin(TokensFrom(s, c, from), SepsAt(s, c)) == s[from..]
    decreases |c|
  {
    if c != [] {
      CutListTail(s, c);
      TokensFromRejoin(s, c[1..], c[0] + 1);
      TokensFromRejoinStep(s, c, from);
    }
  }

  /** The inductive step of `TokensFromRejoin`: the first token and cut
      byte in front of what the later cuts rejoin to. */
  lemma TokensFromRejoinStep(s: string, c: seq<nat>, from: nat)
    requires IsCutList(s, c) && c != [] && from <= c[0]
    requires IsCutList(s, c[1..]) && c[0] < |s| && (c[1..] != [] ==> c[0] + 1 <= c[1..][0])
    requires Rejoin(TokensFrom(s, c[1..], c[0] + 1), SepsAt(s, c[1..])) == s[c[0] + 1..]
    ensures Rejoin(TokensFrom(s, c, from), SepsAt(s, c)) == s[from..]
  {
    var p, tail := c[0], c[1..];
    var rest := TokensFrom(s, tail, p + 1);
    assert SepsAt(s, c) == [s[p]] + SepsAt(s, tail);
    RejoinCons(rest, SepsAt(s, tail), s[from..p], s[p]);
    SplitAt(s, from, p);
  }

  /** The cuts after the first one form a cut list starting past it. */
  lemma CutListTail(s: string, c: seq<nat>)
    requires IsCutList(s, c) && c != []
    ensures c[0] < |s| && IsCutList(s, c[1..])
    ensures c[1..] != [] ==> c[0] + 1 <= c[1..][0]
  {
  }

  /** The text from `from` is the stretch before `p`, the byte at `p` and the
      text after it. */
  lemma SplitAt(s: string, from: nat, p: nat)
    requires from <= p < |s|
    ensures s[from..] == s[from..p] + [s[p]] + s[p + 1..]
  {
  }

  /** One more token and separator in front. */
  lemma RejoinCons(t: seq<string>, seps: string, w: string, c: char)
    requires |t| == |seps| + 1
    ensures Rejoin([w] + t, [c] + seps) == w + [c] + Rejoin(t, seps)
  {
    assert ([w] + t)[1..] == t;
    assert ([c] + seps)[1..] == seps;
  }

  /** Token by token and cut by cut, the split line is the original line. */
  lemma TokensRejoin(s: string)
    ensures Rejoin(Tokens(s), CutBytes(s)) == s
  {
    TokensFromRejoin(s, Cuts(s), 0);
  }

  /** A word that the loop never cuts. */
  predicate NoDelim(w: string) {
    forall i :: 0 <= i < |w| ==> !IsDelim(w[i])
  }

  /** A stretch without delimiters adds no cut. */
  lemma {:induction false} DelimsBelowSkip(s: string, lo: nat, hi: nat)
    requires lo <= hi <= |s|
    requires forall i :: lo <= i < hi ==> !IsDelim(s[i])
    ensures DelimsBelow(s, hi) == DelimsBelow(s, lo)
    decreases hi - lo
  {
    if lo < hi {
      DelimsBelowSkip(s, lo, hi - 1);
    }
  }

  /** A line holding one word is that one token: `cmd_argc` is 0. */
  lemma TokensOfWord(a: string)
    requires NoDelim(a)
    ensures Tokens(a) == [a]
  {
    DelimsBelowSkip(a, 0, ScanLen(a));
    assert Cuts(a) == [];
  }

  /** Every token of a line of text is a C string of its own. */
  lemma TokensText(s: string)
    requires IsText(s)
    ensures forall k :: 0 <= k < |Tokens(s)| ==> IsText(Tokens(s)[k])
  {
    forall k | 0 <= k < |Tokens(s)|
      ensures IsText(Tokens(s)[k])
    {
      TokensFromIndex(s, Cuts(s), 0, k);
    }
  }

  /** The C strings at the given offsets of a buffer. */
  function ArgStrings(buf: seq<char>, starts: seq<nat>): (argv: seq<string>)
    requires forall k :: 0 <= k < |starts| ==> starts[k] <= |buf|
    ensures |argv| == |starts|
  {
    seq(|starts|, k requires 0 <= k < |starts| => CStr(buf, starts[k]))
  }

  /** After the split, the strings the argument pointers denote are the
      tokens of the original text. */
  lemma ArgStringsAreTokens(s: string)
    requires IsText(s)
    ensures forall k :: 0 <= k < |Starts(s)| ==> Starts(s)[k] <= |Blank(s) + [NUL]|
    ensures ArgStrings(Blank(s) + [NUL], Starts(s)) == Tokens(s)
  {
    var argv := ArgStrings(Blank(s) + [NUL], Starts(s));
    forall k | 0 <= k < |argv|
      ensures argv[k] == Tokens(s)[k]
    {
      BlankedTokens(s, k);
    }
  }

  /** Offsets moved right by `n`. */
  function Shift(c: seq<nat>, n: nat): (d: seq<nat>)
    ensures |d| == |c| && forall k :: 0 <= k < |c| ==> d[k] == c[k] + n
  {
    seq(|c|, k requires 0 <= k < |c| => c[k] + n)
  }

  /** Where `Rejoin(t, seps)` holds its separators. */
  function SepPositions(t: seq<string>, seps: string): (p: seq<nat>)
    requires |t| == |seps| + 1
    ensures |p| == |seps|
    decreases |seps|
  {
    if seps == [] then []
    else [|t[0]|] + Shift(SepPositions(t[1..], seps[1..]), |t[0]| + 1)
  }

  /** The delimiters below `hi` depend only on the bytes below `hi`. */
  lemma {:induction false} DelimsBelowSamePrefix(s: string, u: string, hi: nat)
    requires hi <= |s| && hi <= |u| && s[..hi] == u[..hi]
    ensures DelimsBelow(s, hi) == DelimsBelow(u, hi)
  {
    if hi > 0 {
      assert s[..hi - 1] == u[..hi - 1] && s[hi - 1] == u[hi - 1] by {
        assert s[..hi][..hi - 1] == s[..hi - 1] && u[..hi][..hi - 1] == u[..hi - 1];
        assert s[..hi][hi - 1] == s[hi - 1] && u[..hi][hi - 1] == u[hi - 1];
      }
      DelimsBelowSamePrefix(s, u, hi - 1);
    }
  }

  lemma ShiftAppend(a: seq<nat>, b: seq<nat>, n: nat)
    ensures Shift(a + b, n) == Shift(a, n) + Shift(b, n)
  {
  }

  /** The delimiters of `x + y` below `|x| + j`: those of `x`, then those of
      `y` below `j`, moved right by `|x|`. */
  lemma {:induction false} DelimsBelowConcat(x: string, y: string, j: nat)
    requires j <= |y|
    ensures DelimsBelow(x + y, |x| + j) == DelimsBelow(x, |x|) + Shift(DelimsBelow(y, j), |x|)
  {
    if j == 0 {
      assert (x + y)[..|x|] == x[..|x|];
      DelimsBelowSamePrefix(x + y, x, |x|);
    } else {
      DelimsBelowConcat(x, y, j - 1);
      var a := DelimsBelow(y, j - 1);
      var e: seq<nat> := if IsDelim(y[j - 1]) then [j - 1] else [];
      assert DelimsBelow(y, j) == a + e;
      ShiftAppend(a, e, |x|);
      assert (x + y)[|x| + j - 1] == y[j - 1];
      assert Shift(e, |x|) == if IsDelim((x + y)[|x| + j - 1]) then [|x| + j - 1] else [];
    }
  }

  /** Below the start of the last word, the delimiters of a line of words
      are exactly its separators. */
  lemma {:induction false} RejoinDelims(t: seq<string>, seps: string, line: string)
    requires |t| == |seps| + 1 && line == Rejoin(t, seps) && Separated(t, seps)
    ensures |t[|seps|]| <= |line|
    ensures DelimsBelow(line, |line| - |t[|seps|]|) == SepPositions(t, seps)
    decreases |seps|
  {
    if seps != [] {
      var w, c, last := t[0], seps[0], t[|seps|];
      var rest := Rejoin(t[1..], seps[1..]);
      assert t[1..][|seps[1..]|] == last;
      RejoinDelims(t[1..], seps[1..], rest);
      var sp := SepPositions(t[1..], seps[1..]);
      RejoinDelimsStep(w, c, rest, |last|, sp, line, SepPositions(t, seps));
    }
  }

  /** The inductive step of `RejoinDelims`: one word and delimiter in front
      of a line whose delimiters below its last word are `sp`. */
  lemma RejoinDelimsStep(w: string, c: char, rest: string, n: nat, sp: seq<nat>,
                         line: string, full: seq<nat>)
    requires NoDelim(w) && IsDelim(c) && n <= |rest|
    requires DelimsBelow(rest, |rest| - n) == sp
    requires line == w + [c] + rest && full == [|w|] + Shift(sp, |w| + 1)
    ensures n <= |line| && DelimsBelow(line, |line| - n) == full
  {
    WordDelimThen(w, c, rest, |rest| - n);
  }

  /** The delimiters of a word, one delimiter and a rest. */
  lemma WordDelimThen(w: string, c: char, rest: string, j: nat)
    requires NoDelim(w) && IsDelim(c) && j <= |rest|
    ensures DelimsBelow(w + [c] + rest, |w| + 1 + j) == [|w|] + Shift(DelimsBelow(rest, j), |w| + 1)
  {
    DelimsBelowConcat(w + [c], rest, j);
    WordThenDelim(w, c);
  }

  /** Each word but the last is free of delimiters and each separator is
      one. */
  predicate Separated(t: seq<string>, seps: string)
    requires |t| == |seps| + 1
    decreases |seps|
  {
    seps == [] || (IsDelim(seps[0]) && NoDelim(t[0]) && Separated(t[1..], seps[1..]))
  }

  lemma {:induction false} SeparatedAll(t: seq<string>, seps: string)
    requires |t| == |seps| + 1
    requires forall k :: 0 <= k < |seps| ==> IsDelim(seps[k]) && NoDelim(t[k])
    ensures Separated(t, seps)
    decreases |seps|
  {
    if seps != [] {
      forall k | 0 <= k < |seps[1..]|
        ensures IsDelim(seps[1..][k]) && NoDelim(t[1..][k])
      {
        assert seps[1..][k] == seps[k + 1] && t[1..][k] == t[k + 1];
      }
      SeparatedAll(t[1..], seps[1..]);
    }
  }

  /** A word followed by one delimiter has that one delimiter. */
  lemma WordThenDelim(w: string, c: char)
    requires NoDelim(w) && IsDelim(c)
    ensures DelimsBelow(w + [c], |w| + 1) == [|w|]
  {
    DelimsBelowSkip(w + [c], 0, |w|);
  }

  /** Tokens read from a suffix of a line are the tokens of that suffix. */
  lemma {:induction false} TokensFromShift(x: string, y: string, c: seq<nat>, from: nat)
    requires IsCutList(y, c) && from <= |y| && (c != [] ==> from <= c[0])
    ensures IsCutList(x + y, Shift(c, |x|))
    ensures TokensFrom(x + y, Shift(c, |x|), |x| + from) == TokensFrom(y, c, from)
    decreases |c|
  {
    if c == [] {
      assert (x + y)[|x| + from..] == y[from..];
    } else {
      CutListTail(y, c);
      TokensFromShift(x, y, c[1..], c[0] + 1);
      TokensFromShiftStep(x, y, c, from);
    }
  }

  /** The inductive step of `TokensFromShift`: the first token in front of
      the tokens after the first cut. */
  lemma TokensFromShiftStep(x: string, y: string, c: seq<nat>, from: nat)
    requires IsCutList(y, c) && c != [] && from <= c[0]
    requires IsCutList(y, c[1..]) && c[0] < |y| && (c[1..] != [] ==> c[0] + 1 <= c[1..][0])
    requires IsCutList(x + y, Shift(c[1..], |x|))
    requires TokensFrom(x + y, Shift(c[1..], |x|), |x| + c[0] + 1) == TokensFrom(y, c[1..], c[0] + 1)
    ensures IsCutList(x + y, Shift(c, |x|))
    ensures TokensFrom(x + y, Shift(c, |x|), |x| + from) == TokensFrom(y, c, from)
  {
    var d := Shift(c, |x|);
    assert d[1..] == Shift(c[1..], |x|);
    assert (x + y)[|x| + from..|x| + c[0]] == y[from..c[0]];
  }

  /** The separator positions of a line of words cut it into those words. */
  lemma {:induction false} RejoinTokensFrom(t: seq<string>, seps: string, line: string)
    requires |t| == |seps| + 1 && line == Rejoin(t, seps)
    ensures IsCutList(line, SepPositions(t, seps))
    ensures TokensFrom(line, SepPositions(t, seps), 0) == t
    decreases |seps|
  {
    if seps == [] {
      assert line[0..] == t[0];
    } else {
      var rest := Rejoin(t[1..], seps[1..]);
      RejoinTokensFrom(t[1..], seps[1..], rest);
      TokensFromWordDelim(t[0], seps[0], rest, SepPositions(t[1..], seps[1..]));
      assert t == [t[0]] + t[1..];
    }
  }

  /** Cutting a word, one separator and a rest at the separator and then
      where the rest is cut gives the word and the rest's tokens. */
  lemma TokensFromWordDelim(w: string, c: char, rest: string, p: seq<nat>)
    requires IsCutList(rest, p)
    ensures IsCutList(w + [c] + rest, [|w|] + Shift(p, |w| + 1))
    ensures TokensFrom(w + [c] + rest, [|w|] + Shift(p, |w| + 1), 0) == [w] + TokensFrom(rest, p, 0)
  {
    var x := w + [c];
    var q := [|w|] + Shift(p, |x|);
    TokensFromShift(x, rest, p, 0);
    assert q[1..] == Shift(p, |x|);
    assert (x + rest)[0..|w|] == w;
  }

  /** Two lines with the same words are the same line only with the same
      separators. */
  lemma {:induction false} RejoinSepsInjective(t: seq<string>, a: string, b: string)
    requires |t| == |a| + 1 == |b| + 1
    requires Rejoin(t, a) == Rejoin(t, b)
    ensures a == b
    decreases |a|
  {
    if a != [] {
      var n := |t[0]|;
      assert Rejoin(t, a)[n] == a[0] && Rejoin(t, b)[n] == b[0];
      var ra := Rejoin(t[1..], a[1..]);
      var rb := Rejoin(t[1..], b[1..]);
      assert ra == Rejoin(t, a)[n + 1..] && rb == Rejoin(t, b)[n + 1..];
      RejoinSepsInjective(t[1..], a[1..], b[1..]);
      assert a == [a[0]] + a[1..] && b == [b[0]] + b[1..];
    }
  }

  /** The inverse of `TokensRejoin`: words without delimiters joined by
      delimiters are split back into those words and those delimiters, as
      long as every separator lies in the first 256 bytes and there are at
      most eight of them. With exactly eight, the last word may hold
      delimiters of its own: it is the ninth argument, whole. */
  lemma SplitRejoin(t: seq<string>, seps: string)
    requires |t| == |seps| + 1 && |seps| <= MAX_CMD_ARGS
    requires forall k :: 0 <= k < |seps| ==> IsDelim(seps[k]) && NoDelim(t[k])
    requires |seps| == MAX_CMD_ARGS || NoDelim(t[|seps|])
    requires |Rejoin(t, seps)| - |t[|seps|]| <= SCAN_LIMIT
    ensures Tokens(Rejoin(t, seps)) == t
    ensures CutBytes(Rejoin(t, seps)) == seps
  {
    var s := Rejoin(t, seps);
    SeparatedAll(t, seps);
    RejoinDelims(t, seps, s);
    RejoinLast(t, seps);
    CutsBeforeLast(s, t[|seps|], SepPositions(t, seps));
    RejoinTokensFrom(t, seps, s);
    TokensRejoin(s);
    RejoinSepsInjective(t, CutBytes(s), seps);
  }

  /** The loop cuts a line exactly at `sp` when `sp` are the delimiters
      before its last word, and either they number eight or the last word
      has none. */
  lemma CutsBeforeLast(s: string, last: string, sp: seq<nat>)
    requires |last| <= |s| && s[|s| - |last|..] == last
    requires |s| - |last| <= SCAN_LIMIT
    requires DelimsBelow(s, |s| - |last|) == sp && |sp| <= MAX_CMD_ARGS
    requires |sp| == MAX_CMD_ARGS || NoDelim(last)
    ensures Cuts(s) == sp
  {
    var i := |s| - |last|;
    if |sp| == MAX_CMD_ARGS {
      LoopExit(s, i);
    } else {
      NoDelimTail(s, i, ScanLen(s));
      LoopExit(s, ScanLen(s));
    }
  }

  /** A tail free of delimiters adds no cut. */
  lemma NoDelimTail(s: string, i: nat, hi: nat)
    requires i <= hi <= |s| && NoDelim(s[i..])
    ensures DelimsBelow(s, hi) == DelimsBelow(s, i)
  {
    forall j | i <= j < hi
      ensures !IsDelim(s[j])
    {
      assert s[j] == s[i..][j - i];
    }
    DelimsBelowSkip(s, i, hi);
  }

  /** A line of words ends with its last word. */
  lemma {:induction false} RejoinLast(t: seq<string>, seps: string)
    requires |t| == |seps| + 1
    ensures |t[|seps|]| <= |Rejoin(t, seps)|
    ensures Rejoin(t, seps)[|Rejoin(t, seps)| - |t[|seps|]|..] == t[|seps|]
    decreases |seps|
  {
    if seps != [] {
      RejoinLast(t[1..], seps[1..]);
      assert t[1..][|seps[1..]|] == t[|seps|];
    }
  }

  /** Runs of delimiters are not collapsed: two spaces in a row give an
      empty argument. */
  lemma DoubleSpaceGivesEmptyToken()
    ensures Tokens("set  x 5") == ["set", "", "x", "5"]
  {
    var t := ["set", "", "x", "5"];
    assert Rejoin(t, "   ") == "set  x 5";
    SplitRejoin(t, "   ");
  }

  /** Joining the words from `n` on first and then the rest gives the same
      line. */
  lemma {:induction false} RejoinRegroup(t: seq<string>, seps: string, n: nat)
    requires |t| == |seps| + 1 && n <= |seps|
    ensures Rejoin(t, seps) == Rejoin(t[..n] + [Rejoin(t[n..], seps[n..])], seps[..n])
    decreases n
  {
    var u := t[..n] + [Rejoin(t[n..], seps[n..])];
    if n == 0 {
      assert t[0..] == t && seps[0..] == seps;
    } else {
      RejoinRegroup(t[1..], seps[1..], n - 1);
      assert t[1..][n - 1..] == t[n..] && seps[1..][n - 1..] == seps[n..];
      assert u[1..] == t[1..][..n - 1] + [Rejoin(t[n..], seps[n..])];
      assert seps[..n][1..] == seps[1..][..n - 1];
    }
  }

  /** A line of nine or more words: the first eight are arguments of
      their own and everything after the eighth separator, separators
      included, is the ninth (so "a b c d e f g h i j" ends in the argument
      "i j"). Nothing is dropped. */
  lemma ExcessWordsGlued(t: seq<string>, seps: string)
    requires |t| == |seps| + 1 && |seps| >= MAX_CMD_ARGS
    requires forall k :: 0 <= k < MAX_CMD_ARGS ==> IsDelim(seps[k]) && NoDelim(t[k])
    requires |Rejoin(t, seps)| - |Rejoin(t[MAX_CMD_ARGS..], seps[MAX_CMD_ARGS..])| <= SCAN_LIMIT
    ensures Tokens(Rejoin(t, seps)) ==
      t[..MAX_CMD_ARGS] + [Rejoin(t[MAX_CMD_ARGS..], seps[MAX_CMD_ARGS..])]
  {
    var n := MAX_CMD_ARGS;
    var u := t[..n] + [Rejoin(t[n..], seps[n..])];
    RejoinRegroup(t, seps, n);
    assert u[n] == Rejoin(t[n..], seps[n..]);
    SplitRejoin(u, seps[..n]);
  }

  /** A line of three words separated by single spaces splits into them. */
  lemma TokensOfThreeWords(a: string, b: string, c: string)
    requires NoDelim(a) && NoDelim(b) && NoDelim(c)
    requires |a| + |b| + 2 <= SCAN_LIMIT
    ensures IsText(a) && IsText(b) && IsText(c) ==> IsText(a + " " + b + " " + c)
    ensures Tokens(a + " " + b + " " + c) == [a, b, c]
  {
    var t := [a, b, c];
    assert Rejoin(t[2..], "") == c;
    assert Rejoin(t[1..], " ") == b + " " + c;
    assert Rejoin(t, "  ") == a + " " + (b + " " + c);
    assert a + " " + (b + " " + c) == a + " " + b + " " + c;
    SplitRejoin(t, "  ");
  }
}
