/** Where prefix assignments go: `X=1 command` (brush-core/src/interp.rs:1365-1410 and
    1622-1690). */
module Prefix {
  import opened Wrappers
  import opened Results
  import opened Interp
  import E = Environment

  /** Values that are expanded already, so that expanding them again changes nothing. */
  ghost predicate Literal(w: World, assignments: seq<Assignment>, sup: bool) {
    forall i, s | 0 <= i < |assignments| ::
      w.expandValue(assignments[i].value, sup, s) == Expansion(Ok(assignments[i].value), false, s)
  }

  /** The name is visible, and where it is visible is the scope of an outer command. */
  predicate BoundByCommand(env: E.Stack, name: string) {
    var found := E.Lookup(env, name, E.Anywhere);
    found.Some? && env[found.value].scope.Command?
  }

  function With(env: E.Stack, vars: map<string, E.Variable>): E.Stack { env + [E.Frame(E.Command, vars)] }

  /** What a list of assignments makes of an empty scope: the last one for a name counts. */
  function Vars(assignments: seq<Assignment>, vars: map<string, E.Variable>): map<string, E.Variable> {
    if assignments == [] then vars
    else Vars(assignments[1..], vars[assignments[0].name := E.Variable(E.Str(assignments[0].value), true, false)])
  }

  /** Scopes that only prefix assignments have written to. */
  predicate Plain(vars: map<string, E.Variable>) {
    forall name | name in vars :: vars[name] == E.Variable(vars[name].value, true, false) && vars[name].value.Str?
  }

  lemma LookupWith(env: E.Stack, vars: map<string, E.Variable>, name: string, policy: E.Policy)
    requires policy.Anywhere?
    ensures E.Lookup(With(env, vars), name, policy)
            == if name in vars then Some(|env|) else E.Lookup(env, name, policy)
  {
    if name !in vars {
      E.AnywhereIgnoresLocals(env, name, |env|, 0, 0);
      FindInPrefix(With(env, vars), env, name, |env|);
    }
  }

  lemma {:induction false} FindInPrefix(a: E.Stack, b: E.Stack, name: string, n: nat)
    requires n <= |b| <= |a| && a[..|b|] == b
    ensures E.Find(a, name, E.Anywhere, n, 0) == E.Find(b, name, E.Anywhere, n, 0)
  {
    if n > 0 {
      assert a[n - 1] == a[..|b|][n - 1];
      var count := E.CountLocal(b[n - 1].scope, 0);
      FindInPrefix(a, b, name, n - 1);
      E.AnywhereIgnoresLocals(a, name, n - 1, count, 0);
      E.AnywhereIgnoresLocals(b, name, n - 1, count, 0);
    }
  }

  lemma SetOnTop(env: E.Stack, vars: map<string, E.Variable>, name: string, v: E.Variable)
    ensures E.SetIn(With(env, vars), |env|, name, v) == With(env, vars[name := v])
  {
  }

  lemma SetBelow(env: E.Stack, vars: map<string, E.Variable>, i: nat, name: string, v: E.Variable)
    requires i < |env|
    ensures E.SetIn(With(env, vars), i, name, v) == With(E.SetIn(env, i, name, v), vars)
  {
  }

  /** One assignment writes to the command's own scope, unless the name is visible in that of an
      outer command; then it writes there. */
  lemma WrittenIs(env: E.Stack, vars: map<string, E.Variable>, name: string, value: string, allexport: bool)
    requires Plain(vars)
    ensures var r := Written(With(env, vars), name, value, true, allexport);
            if name in vars || !BoundByCommand(env, name)
            then r == Ok(With(env, vars[name := E.Variable(E.Str(value), true, false)]))
            else
              var i := E.Lookup(env, name, E.Anywhere).value;
              r == if env[i].vars[name].readonly then Err(Failure(GENERAL_ERROR, false))
                   else Ok(With(E.SetIn(env, i, name, E.Assigned(env[i].vars[name], value, true)), vars))
  {
    LookupWith(env, vars, name, E.Anywhere);
    E.TopmostIs(With(env, vars), E.Command, |env|);
    SetOnTop(env, vars, name, E.Variable(E.Str(value), true, false));
    if name !in vars && BoundByCommand(env, name) {
      var i := E.Lookup(env, name, E.Anywhere).value;
      SetBelow(env, vars, i, name, E.Assigned(env[i].vars[name], value, true));
    }
  }

  /** Exactly when a prefix assignment, whatever its value, leaves everything below the scope of
      its own command as it is: the name is not visible in the scope of an outer command, or it
      is readonly there and the assignment fails. */
  lemma StaysInsideIff(env: E.Stack, name: string, allexport: bool)
    ensures (forall value :: var r := Written(With(env, map[]), name, value, true, allexport);
                             r.Ok? ==> r.value != [] && r.value[..|r.value| - 1] == env)
            <==> !(BoundByCommand(env, name) && !env[E.Lookup(env, name, E.Anywhere).value].vars[name].readonly)
  {
    forall value
      ensures var r := Written(With(env, map[]), name, value, true, allexport);
              r.Ok? && !BoundByCommand(env, name) ==> r.value != [] && r.value[..|r.value| - 1] == env
    {
      WrittenIs(env, map[], name, value, allexport);
    }
    if BoundByCommand(env, name) {
      var i := E.Lookup(env, name, E.Anywhere).value;
      var v := env[i].vars[name];
      var value := E.Scalar(v.value).GetOr("") + "x";
      WrittenIs(env, map[], name, value, allexport);
      if !v.readonly {
        var env' := E.SetIn(env, i, name, E.Assigned(v, value, true));
        assert E.Scalar(env'[i].vars[name].value) == Some(value);
        assert |value| == |E.Scalar(v.value).GetOr("")| + 1;
        assert With(env', map[])[..|env|] == env';
        assert env' != env;
      }
      forall value
        ensures v.readonly ==> Written(With(env, map[]), name, value, true, allexport).Err?
      {
        WrittenIs(env, map[], name, value, allexport);
      }
    }
  }

  /** If no assigned name is visible in the scope of an outer command, all the assignments
      succeed and go to the command's own scope; nothing else changes. */
  lemma {:induction false} AssignAllIs(w: World, assignments: seq<Assignment>, sup: bool, s: Shell, env: E.Stack,
                                       vars: map<string, E.Variable>)
    requires Literal(w, assignments, sup) && Plain(vars) && s.env == With(env, vars)
    requires forall i :: 0 <= i < |assignments| ==> !BoundByCommand(env, assignments[i].name)
    ensures AssignAll(w, assignments, true, sup, s)
            == Expansion(Ok(()), false, s.(env := With(env, Vars(assignments, vars))))
  {
    if assignments != [] {
      var a := assignments[0];
      var vars' := vars[a.name := E.Variable(E.Str(a.value), true, false)];
      var s' := s.(env := With(env, vars'));
      assert w.expandValue(a.value, sup, s) == Expansion(Ok(a.value), false, s);
      WrittenIs(env, vars, a.name, a.value, s.options.allexport);
      assert Assign(w, a, true, sup, s) == Expansion(Ok(()), false, s');
      assert Literal(w, assignments[1..], sup) by {
        forall i, t | 0 <= i < |assignments[1..]|
          ensures w.expandValue(assignments[1..][i].value, sup, t) == Expansion(Ok(assignments[1..][i].value), false, t)
        {
          assert assignments[1..][i] == assignments[i + 1];
        }
      }
      AssignAllIs(w, assignments[1..], sup, s', env, vars');
      assert Vars(assignments, vars) == Vars(assignments[1..], vars');
    }
  }

  // ----- After the command ----------------------------------------------------------------------

  lemma {:induction false} TopmostBelow(env: E.Stack, vars: map<string, E.Variable>)
    ensures E.Topmost(With(env, vars), E.Global) == E.Topmost(env, E.Global)
  {
    assert With(env, vars)[..|env|] == env;
  }

  lemma BashCommandBelow(env: E.Stack, vars: map<string, E.Variable>, text: string)
    requires "BASH_COMMAND" !in vars
    ensures WithBashCommand(With(env, vars), text) == With(WithBashCommand(env, text), vars)
  {
    var name := "BASH_COMMAND";
    LookupWith(env, vars, name, E.Anywhere);
    TopmostBelow(env, vars);
    var found := E.Lookup(env, name, E.Anywhere);
    if found.Some? {
      SetBelow(env, vars, found.value, name, E.Assigned(env[found.value].vars[name], text, false));
    } else if E.Topmost(env, E.Global).Some? {
      var v := E.Assigned(E.FRESH, text, false);
      SetBelow(env, vars, E.Topmost(env, E.Global).value, name, v.(exported := v.exported || false));
    }
  }

  lemma LastArgBelow(env: E.Stack, vars: map<string, E.Variable>, lastArg: string)
    requires "_" !in vars
    ensures WithLastArg(With(env, vars), lastArg) == With(WithLastArg(env, lastArg), vars)
  {
    LookupWith(env, vars, "_", E.Anywhere);
    TopmostBelow(env, vars);
    if E.Topmost(env, E.Global).Some? {
      var v := E.Variable(E.Str(lastArg), false, false);
      SetBelow(env, vars, E.Topmost(env, E.Global).value, "_", v.(exported := v.exported || false));
    }
  }

  lemma {:induction false} VarsNames(assignments: seq<Assignment>, vars: map<string, E.Variable>, name: string)
    requires name !in vars && forall i :: 0 <= i < |assignments| ==> assignments[i].name != name
    ensures name !in Vars(assignments, vars)
  {
    if assignments != [] {
      var a := assignments[0];
      VarsNames(assignments[1..], vars[a.name := E.Variable(E.Str(a.value), true, false)], name);
    }
  }

  /** An external command takes the whole of its scope with it, and changes nothing but what is
      outside. */
  lemma RunExternalIs(w: World, name: string, args: seq<string>, s: Shell, env: E.Stack, vars: map<string, E.Variable>)
    requires s.env == With(env, vars) && "_" !in vars
    ensures var m := RunExternal(w, name, args, s);
            m.Done? && m.shell == s.(env := WithLastArg(env, LastArg(args)), outside := m.shell.outside)
  {
    LastArgBelow(env, vars, LastArg(args));
    assert Popped(With(WithLastArg(env, LastArg(args)), vars)) == WithLastArg(env, LastArg(args));
  }

  lemma ExecuteExternalIs(w: World, assignments: seq<Assignment>, args: seq<string>, sup: bool, s: Shell, env: E.Stack,
                          vars: map<string, E.Variable>)
    requires args != [] && Resolve(w, CommandName(w, args), s).External?
    requires "_" !in vars && "BASH_COMMAND" !in vars
    requires AssignAll(w, assignments, true, sup, s.(env := Pushed(s.env, E.Command)))
             == Expansion(Ok(()), false, s.(env := With(env, vars)))
    ensures var during := s.(env := With(WithBashCommand(env, Joined(args)), vars));
            var m := ExecuteCommand(w, assignments, args, sup, s);
            && m == RunExternal(w, CommandName(w, args), args, during)
            && m.Done?
            && m.shell == s.(env := WithLastArg(WithBashCommand(env, Joined(args)), LastArg(args)), outside := m.shell.outside)
  {
    BashCommandBelow(env, vars, Joined(args));
    var during := s.(env := With(WithBashCommand(env, Joined(args)), vars));
    assert Resolve(w, CommandName(w, args), during) == Resolve(w, CommandName(w, args), s);
    RunExternalIs(w, CommandName(w, args), args, during, WithBashCommand(env, Joined(args)), vars);
  }

  /** A command that is neither builtin nor function, found or not, leaves nothing of its prefix
      assignments: apart from `_` and BASH_COMMAND, which every command sets, the variables are
      what they were. While it runs, it is given the assigned names as exported variables on top
      of all others. */
  lemma ExternalLeavesNoTrace(w: World, assignments: seq<Assignment>, args: seq<string>, sup: bool, s: Shell)
    requires args != [] && Literal(w, assignments, sup) && Resolve(w, CommandName(w, args), s).External?
    requires forall i :: 0 <= i < |assignments| ==>
               !BoundByCommand(s.env, assignments[i].name) && assignments[i].name != "_"
               && assignments[i].name != "BASH_COMMAND"
    ensures var m := ExecuteCommand(w, assignments, args, sup, s);
            && m.Done?
            && m.shell == s.(env := WithLastArg(WithBashCommand(s.env, Joined(args)), LastArg(args)), outside := m.shell.outside)
    ensures var during := s.(env := With(WithBashCommand(s.env, Joined(args)), Vars(assignments, map[])));
            ExecuteCommand(w, assignments, args, sup, s) == RunExternal(w, CommandName(w, args), args, during)
  {
    AssignAllIs(w, assignments, sup, s.(env := Pushed(s.env, E.Command)), s.env, map[]);
    VarsNames(assignments, map[], "_");
    VarsNames(assignments, map[], "BASH_COMMAND");
    ExecuteExternalIs(w, assignments, args, sup, s, s.env, Vars(assignments, map[]));
  }

  lemma AssignOneOutside(w: World, a: Assignment, sup: bool, s: Shell)
    requires Literal(w, [a], sup) && BoundByCommand(s.env, a.name)
    requires !s.env[E.Lookup(s.env, a.name, E.Anywhere).value].vars[a.name].readonly
    ensures var i := E.Lookup(s.env, a.name, E.Anywhere).value;
            AssignAll(w, [a], true, sup, s.(env := Pushed(s.env, E.Command)))
            == Expansion(Ok(()), false,
                         s.(env := With(E.SetIn(s.env, i, a.name, E.Assigned(s.env[i].vars[a.name], a.value, true)), map[])))
  {
    var s' := s.(env := Pushed(s.env, E.Command));
    assert w.expandValue([a][0].value, sup, s') == Expansion(Ok(a.value), false, s');
    WrittenIs(s.env, map[], a.name, a.value, s.options.allexport);
    assert [a][1..] == [];
  }

  /** When the name is visible in the scope of an outer command, as it is inside a function that
      was itself called with a prefix assignment to that name, the assignment outlives the
      command: the outer binding keeps the new value. */
  lemma AssignmentOutlivesCommand(w: World, a: Assignment, args: seq<string>, sup: bool, s: Shell)
    requires args != [] && Literal(w, [a], sup) && Resolve(w, CommandName(w, args), s).External?
    requires BoundByCommand(s.env, a.name) && a.name != "_" && a.name != "BASH_COMMAND"
    requires !s.env[E.Lookup(s.env, a.name, E.Anywhere).value].vars[a.name].readonly
    ensures var m := ExecuteCommand(w, [a], args, sup, s);
            m.Done? && E.Read(m.shell.env, a.name, E.Anywhere).Some?
            && E.Scalar(E.Read(m.shell.env, a.name, E.Anywhere).value.value) == Some(a.value)
  {
    var i := E.Lookup(s.env, a.name, E.Anywhere).value;
    var v := E.Assigned(s.env[i].vars[a.name], a.value, true);
    var env := E.SetIn(s.env, i, a.name, v);
    AssignOneOutside(w, a, sup, s);
    ExecuteExternalIs(w, [a], args, sup, s, env, map[]);
    ReadAfterSet(s.env, i, a.name, v);
    BashCommandKeeps(env, Joined(args), a.name);
    LastArgKeeps(WithBashCommand(env, Joined(args)), LastArg(args), a.name);
  }

  lemma ReadAfterSet(env: E.Stack, i: nat, name: string, v: E.Variable)
    requires E.Lookup(env, name, E.Anywhere) == Some(i)
    ensures E.Read(E.SetIn(env, i, name, v), name, E.Anywhere) == Some(v)
  {
    E.FindDependsOn(env, E.SetIn(env, i, name, v), name, E.Anywhere, |env|, 0);
  }

  lemma BashCommandKeeps(env: E.Stack, text: string, name: string)
    requires name != "BASH_COMMAND"
    ensures E.Read(WithBashCommand(env, text), name, E.Anywhere) == E.Read(env, name, E.Anywhere)
  {
    if E.Updated(env, "BASH_COMMAND", text, E.Anywhere, E.Global, false).Ok? {
      E.UpdateKeepsOthers(env, "BASH_COMMAND", text, E.Anywhere, E.Global, false, name, E.Anywhere);
    }
  }

  lemma LastArgKeeps(env: E.Stack, lastArg: string, name: string)
    requires name != "_"
    ensures E.Read(WithLastArg(env, lastArg), name, E.Anywhere) == E.Read(env, name, E.Anywhere)
  {
    E.FindDependsOn(env, WithLastArg(env, lastArg), name, E.Anywhere, |env|, 0);
  }

  // ----- Assignments to the shell ---------------------------------------------------------------

  /** An assignment that is no prefix is what the environment's own update does, in the scope where the name
      is visible, or else in the global one. */
  lemma PlainAssignmentIsUpdate(env: E.Stack, name: string, value: string, allexport: bool)
    ensures Written(env, name, value, false, allexport)
            == match E.Updated(env, name, value, E.Anywhere, E.Global, allexport)
               case Ok(env') => Ok(env')
               case Err(_) => Err(Failure(GENERAL_ERROR, false))
  {
    hide E.Lookup, E.Topmost;
  }

  /** Assignments are made from left to right, each in the shell that those before it left, up to the first
      that fails. */
  lemma {:induction false} AssignAllSplits(w: World, a: seq<Assignment>, b: seq<Assignment>, prefix: bool, sup: bool, s: Shell)
    ensures var first := AssignAll(w, a, prefix, sup, s);
            var second := AssignAll(w, b, prefix, sup, first.shell);
            AssignAll(w, a + b, prefix, sup, s)
            == if first.value.Err? then first else second.(setStatus := first.setStatus || second.setStatus)
  {
    hide Assign;
    if a == [] {
      assert a + b == b;
    } else {
      assert (a + b)[0] == a[0] && (a + b)[1..] == a[1..] + b;
      AssignAllSplits(w, a[1..], b, prefix, sup, Assign(w, a[0], prefix, sup, s).shell);
    }
  }

  /** The last argument of a command goes to the global `_`, unless the one that is visible is readonly. */
  lemma LastArgIsKept(env: E.Stack, lastArg: string)
    ensures var v := E.Read(env, "_", E.Anywhere);
            var after := WithLastArg(env, lastArg);
            if v.Some? && v.value.readonly then after == env
            else if exists i :: 0 <= i < |env| && env[i].scope.Global?
            then E.Read(after, "_", E.OnlyInGlobal) == Some(E.Variable(E.Str(lastArg), false, false))
            else after == env
  {
    var at := E.Topmost(env, E.Global);
    if at.Some? {
      var after := E.SetIn(env, at.value, "_", E.Variable(E.Str(lastArg), false, false));
      E.LookupIs(after, "_", E.OnlyInGlobal);
      assert E.Holds(after, "_", Some(E.Global), at.value);
      var found := E.Lookup(after, "_", E.OnlyInGlobal);
      assert found.Some? && E.Holds(after, "_", Some(E.Global), found.value);
      hide E.Lookup;
    }
  }

  /** BASH_COMMAND holds the words of the command with a space between each two, unless it is readonly or
      there is no global scope for it. */
  lemma BashCommandIsRead(env: E.Stack, args: seq<string>)
    requires exists i :: 0 <= i < |env| && env[i].scope.Global?
    ensures var v := E.Read(env, "BASH_COMMAND", E.Anywhere);
            var after := E.Read(WithBashCommand(env, Joined(args)), "BASH_COMMAND", E.Anywhere);
            if v.Some? && v.value.readonly then after == v
            else after.Some? && E.Scalar(after.value.value) == Some(Joined(args))
  {
    E.ReadAfterUpdate(env, "BASH_COMMAND", Joined(args), E.Anywhere, E.Global, false);
    hide Joined;
    var i :| 0 <= i < |env| && env[i].scope.Global?;
    assert E.Topmost(env, E.Global).Some?;
  }

  lemma {:induction false} JoinedIs(a: seq<string>, b: seq<string>)
    requires a != [] && b != []
    ensures Joined(a + b) == Joined(a) + " " + Joined(b)
    ensures |a| == 1 ==> Joined(a) == a[0]
  {
    if |a| == 1 {
      assert (a + b)[0] == a[0] && (a + b)[1..] == b;
    } else {
      assert (a + b)[0] == a[0] && (a + b)[1..] == a[1..] + b;
      JoinedIs(a[1..], b);
      assert a[0] + " " + (Joined(a[1..]) + " " + Joined(b)) == a[0] + " " + Joined(a[1..]) + " " + Joined(b);
    }
  }
}
