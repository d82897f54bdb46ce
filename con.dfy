/** The console object: the two registries, which `ConAddCmd` and
    `ConCmd_Set` update in place, and the output and handler logs that stand
    for `printf` and for calls into handlers registered elsewhere. Each
    method is proved against the function in `Evaluator` that specifies it. */
module Con {
  import opened Wrappers
  import opened CStrings
  import opened Tokenizer
  import opened Registry
  import opened Evaluator

  class Console {
    /** `firstConVar` .. `lastConVar`, head first. */
    var vars: seq<Var>
    /** `firstConCmd` .. `lastConCmd`, head first. */
    var cmds: seq<Cmd>
    /** The lines printed, oldest first. */
    var out: seq<string>
    /** The runs of handlers registered elsewhere, oldest first. */
    var calls: seq<Call>

    /** The console's fields as one value. */
    function Snapshot(): (st: State)
      reads this
    {
      State(vars, cmds, out, calls)
    }

    ghost predicate Valid()
      reads this
    {
      WellFormed(Snapshot())
    }

    /** `ConInit` up to the configuration file: `set` is registered. */
    constructor ()
      ensures Snapshot() == InitState() && Valid()
    {
      vars, cmds, out, calls := [], [], [], [];
      new;
      AddCmd(SET_NAME, SetHandler);
    }

    /** `ConAddCmd`: the command is linked at the tail of the list. */
    method AddCmd(name: string, h: Handler)
      requires IsText(name)
      modifies this
      ensures Snapshot() == old(Snapshot()).(cmds := old(cmds) + [Cmd(name, h)])
      ensures old(Valid()) ==> Valid()
    {
      cmds := cmds + [Cmd(name, h)];
    }

    /** `ConVar`: the walk from the head that stops at the first record whose
        name `strncmp` finds equal to `name` in 32 bytes. */
    method FindVar(name: string) returns (r: Option<nat>)
      requires Valid() && IsText(name)
      ensures IsFirstMatch(VarNames(vars), name, r)
    {
      var i := 0;
      while i < |vars|
        invariant 0 <= i <= |vars|
        invariant forall j :: 0 <= j < i ==> !NameMatch(vars[j].name, name)
      {
        StrnEqualIsNameMatch(vars[i].name, name);
        if StrnEqual(vars[i].name, name, 0, NAME_LEN) {
          return Some(i);
        }
        i := i + 1;
      }
      return None;
    }

    /** `ConCmd`: the same walk over the command list. */
    method FindCmd(name: string) returns (r: Option<nat>)
      requires Valid() && IsText(name)
      ensures IsFirstMatch(CmdNames(cmds), name, r)
    {
      var i := 0;
      while i < |cmds|
        invariant 0 <= i <= |cmds|
        invariant forall j :: 0 <= j < i ==> !NameMatch(cmds[j].name, name)
      {
        StrnEqualIsNameMatch(cmds[i].name, name);
        if StrnEqual(cmds[i].name, name, 0, NAME_LEN) {
          return Some(i);
        }
        i := i + 1;
      }
      return None;
    }

    /** `ConCmd_Set`. */
    method Set(argc: nat, argv: seq<string>)
      requires Valid() && |argv| == argc + 1
      requires forall k :: 0 <= k < |argv| ==> IsText(argv[k])
      modifies this
      ensures Snapshot() == RunSet(old(Snapshot()), argc, argv) && Valid()
    {
      if argc != 2 {
        out := out + [WRONG_ARGS];
        return;
      }
      RunSetKeepsWellFormed(Snapshot(), argc, argv);
      var r := FindVar(argv[1]);
      FirstMatchUnique(VarNames(vars), argv[1], r);
      var isInt := IsInteger(argv[2]);
      var value: Value;
      if isInt {
        value := IntV(Atoi(argv[2]));
      } else if argv[2] == "true" {
        value := BoolV(true);
      } else if argv[2] == "false" {
        value := BoolV(false);
      } else {
        value := StrV(argv[2]);
      }
      match r {
        case None =>
          vars := vars + [Var(Trunc(argv[1]), value)];
        case Some(k) =>
          vars := vars[k := vars[k].(value := value)];
      }
    }

    /** A registered handler run on the tokens. */
    method RunHandler(h: Handler, argc: nat, argv: seq<string>)
      requires Valid() && |argv| == argc + 1
      requires forall k :: 0 <= k < |argv| ==> IsText(argv[k])
      modifies this
      ensures Snapshot() == Run(old(Snapshot()), h, argc, argv) && Valid()
    {
      match h {
        case SetHandler =>
          Set(argc, argv);
        case Foreign(id) =>
          calls := calls + [Call(id, argc, argv)];
      }
    }

    /** The variable branch of `ConEval`: print the variable `vars[j]` when
        the name stands alone, set it when one argument follows. */
    method ShowOrAssign(j: nat, argv: seq<string>)
      requires Valid() && j < |vars| && |argv| >= 1
      requires forall k :: 0 <= k < |argv| ==> IsText(argv[k])
      modifies this
      ensures var st := old(Snapshot());
        Snapshot() ==
          if |argv| == 1 then st.(out := st.out + [Format(st.vars[j])])
          else if |argv| == 2 then RunSet(st, 2, [SET_NAME, argv[0], argv[1]])
          else st
      ensures Valid()
    {
      if |argv| == 1 {
        out := out + [Format(vars[j])];
      } else if |argv| == 2 {
        Set(2, [SET_NAME, argv[0], argv[1]]);
      }
    }

    /** The lookup and dispatch half of `ConEval`, on the tokens. */
    method Dispatch(argv: seq<string>) returns (ok: bool)
      requires Valid() && |argv| >= 1
      requires forall k :: 0 <= k < |argv| ==> IsText(argv[k])
      modifies this
      ensures Reply(ok, Snapshot()) == Evaluator.Dispatch(old(Snapshot()), argv)
      ensures Valid()
    {
      var c := FindCmd(argv[0]);
      FirstMatchUnique(CmdNames(cmds), argv[0], c);
      match c {
        case Some(i) =>
          RunHandler(cmds[i].handler, |argv| - 1, argv);
          ok := true;
        case None =>
          var v := FindVar(argv[0]);
          FirstMatchUnique(VarNames(vars), argv[0], v);
          match v {
            case None =>
              out := out + [NO_SUCH + argv[0]];
              ok := false;
            case Some(j) =>
              ShowOrAssign(j, argv);
              ok := true;
          }
      }
    }

    /** `ConEval`: split the line in place, read the argument pointers as C
        strings, and dispatch on them. */
    method Eval(line: array<char>) returns (ok: bool)
      requires Valid() && IsCLine(line[..])
      modifies this, line
      ensures Reply(ok, Snapshot()) == Evaluator.Eval(old(Snapshot()), Text(old(line[..])))
      ensures line[..] == Blank(Text(old(line[..]))) + [NUL]
      ensures Valid()
    {
      ghost var s := Text(line[..]);
      var starts := Tokenize(line);
      ArgStringsAreTokens(s);
      var argv := ArgStrings(line[..], starts);
      TokensText(s);
      ok := Dispatch(argv);
    }
  }
}
