/** The C string behaviour the console relies on: NUL-terminated buffers, the
    32-byte name buffers written by `strncpy` and compared by `strncmp`,
    `IsInteger`, `atoi` on a digit string and `printf`'s `%i`.

    A C `char` is one byte; here a `char` below U+0100 stands for that byte. */
module CStrings {

  const NUL: char := '\0'

  /** MAX_VAR_LENGTH: bytes allocated for a stored variable name, and the
      length every name comparison looks at. */
  const NAME_LEN: nat := 32

  /** `s` is the text of a C string: one byte per char and no NUL inside. */
  predicate IsText(s: string) {
    forall i :: 0 <= i < |s| ==> s[i] != NUL && s[i] < '\U{100}'
  }

  /** A caller-owned line buffer: the text followed by its terminator. */
  predicate IsCLine(buf: seq<char>) {
    |buf| >= 1 && buf[|buf| - 1] == NUL && IsText(buf[..|buf| - 1])
  }

  /** The text of a line buffer, without the terminator. */
  function Text(buf: seq<char>): (s: string)
    requires IsCLine(buf)
    ensures IsText(s) && buf == s + [NUL]
  {
    buf[..|buf| - 1]
  }

  /** The C string a `char*` to offset `p` of `buf` denotes: the longest run
      of non-NUL bytes starting at `p`. */
  function CStr(buf: seq<char>, p: nat): (r: string)
    requires p <= |buf|
    ensures p + |r| <= |buf| && r == buf[p..p + |r|]
    ensures forall i :: 0 <= i < |r| ==> r[i] != NUL
    ensures p + |r| == |buf| || buf[p + |r|] == NUL
    decreases |buf| - p
  {
    if p == |buf| || buf[p] == NUL then [] else [buf[p]] + CStr(buf, p + 1)
  }

  /** The string at `p` ends at the first NUL at or after `p`. */
  lemma CStrUpTo(buf: seq<char>, p: nat, q: nat)
    requires p <= q <= |buf|
    requires forall i :: p <= i < q ==> buf[i] != NUL
    requires q == |buf| || buf[q] == NUL
    ensures CStr(buf, p) == buf[p..q]
  {
  }

  /** The first NAME_LEN bytes of a name: what `strncpy` into a 32-byte
      buffer keeps, and all that `strncmp(.., 32)` looks at. */
  function Trunc(s: string): (r: string)
    ensures |r| == if |s| <= NAME_LEN then |s| else NAME_LEN
    ensures |r| <= NAME_LEN && r <= s
    ensures |s| <= NAME_LEN ==> r == s
  {
    if |s| <= NAME_LEN then s else s[..NAME_LEN]
  }

  /** The byte `s[i]` as C reads it: past the end of the text lies the NUL. */
  function ByteAt(s: string, i: nat): (c: char) {
    if i < |s| then s[i] else NUL
  }

  /** `strncmp(a + i, b + i, n) == 0`, walked byte by byte as libc does: it
      stops with "equal" after n bytes or after a NUL both strings share. */
  function StrnEqual(a: string, b: string, i: nat, n: nat): (equal: bool)
    decreases n
  {
    if n == 0 then true
    else if ByteAt(a, i) != ByteAt(b, i) then false
    else if ByteAt(a, i) == NUL then true
    else StrnEqual(a, b, i + 1, n - 1)
  }

  /** Two names denote the same record: `!strncmp(a, b, 32)`. */
  predicate NameMatch(a: string, b: string) {
    Trunc(a) == Trunc(b)
  }

  /** The byte walk of `strncmp` agrees with comparing the first 32 bytes of
      both names, for strings with no NUL inside. */
  lemma {:induction false} StrnEqualIsNameMatch(a: string, b: string)
    requires IsText(a) && IsText(b)
    ensures StrnEqual(a, b, 0, NAME_LEN) <==> NameMatch(a, b)
  {
    StrnEqualFrom(a, b, 0, NAME_LEN);
    var m := NAME_LEN;
    assert a[..if |a| < m then |a| else m] == Trunc(a);
    assert b[..if |b| < m then |b| else m] == Trunc(b);
  }

  lemma {:induction false} StrnEqualFrom(a: string, b: string, i: nat, n: nat)
    requires IsText(a) && IsText(b)
    requires i <= |a| && i <= |b|
    requires a[..i] == b[..i]
    ensures StrnEqual(a, b, i, n) <==>
      a[..if |a| < i + n then |a| else i + n] == b[..if |b| < i + n then |b| else i + n]
    decreases n
  {
    var ea := if |a| < i + n then |a| else i + n;
    var eb := if |b| < i + n then |b| else i + n;
    if n == 0 {
    } else if ByteAt(a, i) != ByteAt(b, i) {
      if i < ea && i < eb {
        assert a[..ea][i] != b[..eb][i];
      } else {
        assert |a[..ea]| != |b[..eb]|;
      }
    } else if ByteAt(a, i) == NUL {
      assert i == |a| && i == |b|;
    } else {
      assert a[..i + 1] == a[..i] + [a[i]] && b[..i + 1] == b[..i] + [b[i]];
      StrnEqualFrom(a, b, i + 1, n - 1);
    }
  }

  predicate IsDigit(c: char) {
    '0' <= c <= '9'
  }

  /** What `IsInteger` decides: no byte outside '0'..'9' (so "" qualifies). */
  predicate AllDigits(s: string) {
    forall i :: 0 <= i < |s| ==> IsDigit(s[i])
  }

  /** `IsInteger`: a scan that rejects at the first byte outside '0'..'9'. */
  method IsInteger(s: string) returns (r: bool)
    ensures r <==> AllDigits(s)
  {
    var i := 0;
    while i < |s|
      invariant 0 <= i <= |s|
      invariant forall j :: 0 <= j < i ==> IsDigit(s[j])
    {
      if s[i] < '0' || s[i] > '9' {
        return false;
      }
      i := i + 1;
    }
    return true;
  }

  /** `atoi` on a string of decimal digits, read most significant first;
      `atoi("")` is 0. Unbounded: the model has no `int` overflow. */
  function Atoi(s: string): (n: nat)
    requires AllDigits(s)
  {
    if s == [] then 0
    else Atoi(s[..|s| - 1]) * 10 + (s[|s| - 1] as int - '0' as int)
  }

  /** The decimal digits `printf("%i")` writes for a non-negative value. */
  function Decimal(n: nat): (r: string)
    ensures |r| >= 1 && AllDigits(r)
    ensures |r| > 1 ==> r[0] != '0'
  {
    var d := [(n % 10 + '0' as int) as char];
    if n < 10 then d else Decimal(n / 10) + d
  }

  /** `printf("%i")` for any `int`: a minus sign before the digits of a
      negative value. */
  function IntToString(i: int): (r: string) {
    if i < 0 then "-" + Decimal(-i) else Decimal(i)
  }

  /** Printing a stored integer and reading the digits back with `atoi`
      gives the same integer. */
  lemma {:induction false} AtoiDecimal(n: nat)
    ensures Atoi(Decimal(n)) == n
  {
    var r := Decimal(n);
    if n >= 10 {
      AtoiDecimal(n / 10);
      assert r[..|r| - 1] == Decimal(n / 10);
    }
  }
}
