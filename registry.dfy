/** The console's two registries: the list of variables and the list of
    commands, each kept in registration order (new records are linked at
    the tail), and each searched from the head for the first record whose
    name agrees with the query in its first 32 bytes. */
module Registry {
  import opened Wrappers
  import opened CStrings

  /** A variable's value, tagged by the kind `set` inferred for it. */
  datatype Value = IntV(i: int) | BoolV(b: bool) | StrV(s: string)

  /** A variable record: its stored name (the at most 32 bytes `strncpy`
      copied) and its value. */
  datatype Var = Var(name: string, value: Value)

  /** What a command runs: the built-in `ConCmd_Set`, or a handler some other
      part of the program registered, known here only by an identity. */
  datatype Handler = SetHandler | Foreign(id: nat)

  datatype Cmd = Cmd(name: string, handler: Handler)

  /** The names of the variable list, in order: what the lookups compare. */
  function VarNames(vars: seq<Var>): (n: seq<string>)
    ensures |n| == |vars| && forall i :: 0 <= i < |vars| ==> n[i] == vars[i].name
  {
    seq(|vars|, i requires 0 <= i < |vars| => vars[i].name)
  }

  /** The same projection over the command list (the two record types
      share no common supertype). */
  function CmdNames(cmds: seq<Cmd>): (n: seq<string>)
    ensures |n| == |cmds| && forall i :: 0 <= i < |cmds| ==> n[i] == cmds[i].name
  {
    seq(|cmds|, i requires 0 <= i < |cmds| => cmds[i].name)
  }

  /** `r` is what a walk from the head returns: the index of the first name
      that agrees with `q`, or None when no name does. */
  predicate IsFirstMatch(names: seq<string>, q: string, r: Option<nat>) {
    match r
    case None => forall i :: 0 <= i < |names| ==> !NameMatch(names[i], q)
    case Some(k) =>
      k < |names| && NameMatch(names[k], q) &&
      forall i :: 0 <= i < k ==> !NameMatch(names[i], q)
  }

  /** The lookup both `ConVar` and `ConCmd` perform. */
  function FirstMatch(names: seq<string>, q: string): (r: Option<nat>)
    ensures IsFirstMatch(names, q, r)
  {
    if names == [] then None
    else if NameMatch(names[0], q) then Some(0)
    else match FirstMatch(names[1..], q)
      case None => None
      case Some(k) => Some(k + 1)
  }

  /** A lookup has one answer: any walk that meets `IsFirstMatch` returns the
      record `FirstMatch` names. */
  lemma FirstMatchUnique(names: seq<string>, q: string, r: Option<nat>)
    requires IsFirstMatch(names, q, r)
    ensures r == FirstMatch(names, q)
  {
    var f := FirstMatch(names, q);
    assert IsFirstMatch(names, q, f);
  }

  /** A record linked at the tail is reached only when no earlier record has
      a matching name: registering a second command or variable under a name
      already taken leaves every lookup as it was. */
  lemma {:induction false} FirstMatchAppend(names: seq<string>, n: string, q: string)
    ensures FirstMatch(names + [n], q) ==
      if FirstMatch(names, q).Some? then FirstMatch(names, q)
      else if NameMatch(n, q) then Some(|names|)
      else None
  {
    var f := FirstMatch(names, q);
    var g := FirstMatch(names + [n], q);
    assert IsFirstMatch(names + [n], q, g);
    if f.Some? {
      assert IsFirstMatch(names + [n], q, f);
      FirstMatchUnique(names + [n], q, f);
    } else if NameMatch(n, q) {
      assert IsFirstMatch(names + [n], q, Some(|names|));
      FirstMatchUnique(names + [n], q, Some(|names|));
    } else {
      assert IsFirstMatch(names + [n], q, None);
      FirstMatchUnique(names + [n], q, None);
    }
  }

  /** The kind `ConCmd_Set` infers from the text it is given: digits only
      (the empty text included) make an integer, exactly "true" or "false" a
      boolean, anything else a string holding a copy of the text. */
  function Infer(text: string): (v: Value)
    ensures v.IntV? <==> AllDigits(text)
    ensures v.BoolV? <==> !AllDigits(text) && (text == "true" || text == "false")
    ensures v.BoolV? ==> (v.b <==> text == "true")
    ensures v.StrV? ==> v.s == text
    ensures v.IntV? ==> v.i >= 0
    ensures v.IntV? ==> AllDigits(text) && v.i == Atoi(text)
  {
    if AllDigits(text) then IntV(Atoi(text))
    else if text == "true" then BoolV(true)
    else if text == "false" then BoolV(false)
    else StrV(text)
  }

  /** The text that, given to `set`, produces a value: the decimal digits of
      an integer, "true" or "false", or the string itself. */
  function ValueText(v: Value): (text: string) {
    match v
    case IntV(i) => IntToString(i)
    case BoolV(b) => if b then "true" else "false"
    case StrV(s) => s
  }

  /** The values `set` can produce: integers are never negative and a string
      is never one that would have been read as an integer or boolean. */
  predicate Inferable(v: Value) {
    match v
    case IntV(i) => i >= 0
    case BoolV(_) => true
    case StrV(s) => !AllDigits(s) && s != "true" && s != "false"
  }

  /** Every value `set` produces is `Inferable`, and reading its text back
      gives the same value: the kind inference loses nothing but leading
      zeros. */
  lemma InferValueText(v: Value)
    ensures Inferable(v) <==> Infer(ValueText(v)) == v
  {
    match v
    case IntV(i) =>
      if i >= 0 {
        AtoiDecimal(i);
      } else {
        assert ValueText(v)[0] == '-';
      }
    case BoolV(b) =>
      assert !AllDigits("true") by { assert !IsDigit("true"[0]); }
      assert !AllDigits("false") by { assert !IsDigit("false"[0]); }
    case StrV(s) =>
  }

  lemma InferIsInferable(text: string)
    ensures Inferable(Infer(text))
  {
  }

  /** The text `set` stores for a new name: `Trunc`, the first 32 bytes of
      it, named for its use here and carrying the fact every lookup after
      the store relies on, that the stored name agrees with the name it came
      from. */
  function StoredName(name: string): (r: string)
    ensures |r| <= NAME_LEN && NameMatch(r, name)
  {
    Trunc(name)
  }

  /** `ConCmd_Set` on the variable list: the first record whose name agrees
      with `name` gets the inferred value, its stored name kept; when none
      does, a record under the truncated name is linked at the tail. */
  function SetVar(vars: seq<Var>, name: string, text: string): (r: seq<Var>)
  {
    match FirstMatch(VarNames(vars), name)
    case Some(k) => vars[k := vars[k].(value := Infer(text))]
    case None => vars + [Var(StoredName(name), Infer(text))]
  }

  /** The value a lookup of `q` reaches, if any. */
  function Lookup(vars: seq<Var>, q: string): (r: Option<Value>)
    ensures r.Some? <==> FirstMatch(VarNames(vars), q).Some?
  {
    match FirstMatch(VarNames(vars), q)
    case Some(k) => Some(vars[k].value)
    case None => None
  }

  /** No two records in the variable list share a name in their first 32
      bytes; `set` never creates a second record for a name. */
  predicate UniqueNames(vars: seq<Var>) {
    forall i, j :: 0 <= i < j < |vars| ==> !NameMatch(vars[i].name, vars[j].name)
  }

  /** After `set name text`, looking `name` up gives the inferred value. */
  lemma SetThenLookup(vars: seq<Var>, name: string, text: string)
    ensures Lookup(SetVar(vars, name, text), name) == Some(Infer(text))
  {
    var r := SetVar(vars, name, text);
    match FirstMatch(VarNames(vars), name)
    case Some(k) =>
      assert IsFirstMatch(VarNames(r), name, Some(k));
      FirstMatchUnique(VarNames(r), name, Some(k));
    case None =>
      assert VarNames(r) == VarNames(vars) + [StoredName(name)];
      FirstMatchAppend(VarNames(vars), StoredName(name), name);
  }

  /** When the record a name finds already holds the name `set` would
      store, the record found after `set name text` is exactly that name
      with the inferred value. */
  lemma SetStores(vars: seq<Var>, name: string, text: string)
    requires match FirstMatch(VarNames(vars), name)
      case Some(k) => vars[k].name == StoredName(name)
      case None => true
    ensures var r := SetVar(vars, name, text);
      FirstMatch(VarNames(r), name).Some? &&
      r[FirstMatch(VarNames(r), name).value] == Var(StoredName(name), Infer(text))
  {
    var r := SetVar(vars, name, text);
    match FirstMatch(VarNames(vars), name)
    case Some(j) =>
      assert IsFirstMatch(VarNames(r), name, Some(j));
      FirstMatchUnique(VarNames(r), name, Some(j));
    case None =>
      assert VarNames(r) == VarNames(vars) + [StoredName(name)];
      FirstMatchAppend(VarNames(vars), StoredName(name), name);
  }

  /** `set name text` leaves the lookup of every name that does not agree
      with `name` as it was. */
  lemma SetFrame(vars: seq<Var>, name: string, text: string, q: string)
    requires !NameMatch(q, name)
    ensures Lookup(SetVar(vars, name, text), q) == Lookup(vars, q)
  {
    var r := SetVar(vars, name, text);
    match FirstMatch(VarNames(vars), name)
    case Some(k) =>
      assert VarNames(r) == VarNames(vars);
      var f := FirstMatch(VarNames(vars), q);
      if f.Some? {
        assert f.value != k;
      }
    case None =>
      assert VarNames(r) == VarNames(vars) + [StoredName(name)];
      FirstMatchAppend(VarNames(vars), StoredName(name), q);
  }

  /** The list grows by one record exactly when the name was new, and the
      records already there keep their names. */
  lemma SetShape(vars: seq<Var>, name: string, text: string)
    ensures var r := SetVar(vars, name, text);
      |r| == |vars| + (if Lookup(vars, name).None? then 1 else 0) &&
      VarNames(r)[..|vars|] == VarNames(vars)
  {
  }

  /** `set` keeps the variable names distinct. */
  lemma SetKeepsUnique(vars: seq<Var>, name: string, text: string)
    requires UniqueNames(vars)
    ensures UniqueNames(SetVar(vars, name, text))
  {
    var r := SetVar(vars, name, text);
    match FirstMatch(VarNames(vars), name)
    case Some(k) =>
      assert VarNames(r) == VarNames(vars);
    case None =>
      forall i | 0 <= i < |vars|
        ensures !NameMatch(r[i].name, r[|vars|].name)
      {
        assert !NameMatch(VarNames(vars)[i], name);
      }
  }

  /** Setting the same text twice is the same as setting it once. */
  lemma SetIdempotent(vars: seq<Var>, name: string, text: string)
    ensures SetVar(SetVar(vars, name, text), name, text) == SetVar(vars, name, text)
  {
    var r := SetVar(vars, name, text);
    SetThenLookup(vars, name, text);
    var k := FirstMatch(VarNames(r), name).value;
    match FirstMatch(VarNames(vars), name)
    case Some(j) =>
      assert IsFirstMatch(VarNames(r), name, Some(j));
      FirstMatchUnique(VarNames(r), name, Some(j));
    case None =>
      assert VarNames(r) == VarNames(vars) + [StoredName(name)];
      FirstMatchAppend(VarNames(vars), StoredName(name), name);
  }

  /** The line `ConEval` prints for a variable named without arguments:
      "name = value", integers in decimal, booleans as true or false,
      strings between double quotes. */
  function Format(v: Var): (line: string)
  {
    v.name + " = " +
    match v.value
    case IntV(i) => IntToString(i)
    case BoolV(b) => if b then "true" else "false"
    case StrV(s) => "\"" + s + "\""
  }

  /** The printed line names the variable, and after " = " holds the text
      that sets the value again (between quotes for a string). */
  lemma FormatShowsValue(v: Var)
    requires Inferable(v.value)
    ensures var p := |v.name| + 3;
      var line := Format(v);
      p <= |line| && line[..p] == v.name + " = " &&
      (if v.value.StrV? then line[p..] == "\"" + v.value.s + "\""
       else Infer(line[p..]) == v.value)
  {
    InferValueText(v.value);
    var p := |v.name| + 3;
    var line := Format(v);
    assert line[p..] == if v.value.StrV? then "\"" + v.value.s + "\"" else ValueText(v.value);
  }
}
