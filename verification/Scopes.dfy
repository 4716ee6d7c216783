/** Balance: whatever a run does, the scopes on the stack are those it began with and those of the
    function calls that it is in; the depths of calls and subshells count just those; and the
    handler for ERR never runs inside itself (brush-core/src/interp.rs:347-447 and 1377-1411,
    brush-core/src/commands.rs:365-592 and 751-800, brush-core/src/shell/traps.rs:37-88). */
module Scopes {
  import opened Wrappers
  import opened Results
  import opened Interp
  import opened Machine
  import E = Environment

  function Kinds(env: E.Stack): seq<E.Scope> {
    seq(|env|, i requires 0 <= i < |env| => env[i].scope)
  }

  /** What is put on for a nested run and taken off after it. */
  datatype Shape = Shape(scopes: seq<E.Scope>, calls: nat, subshells: nat, inErrTrap: bool)

  function ShapeOf(s: Shell): Shape { Shape(Kinds(s.env), s.callDepth, s.subshells, s.inErrTrap) }

  /** Builtins and expansions may change any variable and any option, but leave these as they are. */
  ghost predicate KeepsShape(w: World) {
    && (forall words, sup, s: Shell :: ShapeOf(w.expandWords(words, sup, s).shell) == ShapeOf(s))
    && (forall text, sup, s: Shell :: ShapeOf(w.expandValue(text, sup, s).shell) == ShapeOf(s))
    && (forall expr, sup, s: Shell :: ShapeOf(w.evaluate(expr, sup, s).shell) == ShapeOf(s))
    && (forall name | name in w.builtins :: BuiltinKeepsShape(w.builtins[name]))
  }

  ghost predicate BuiltinKeepsShape(b: Registration) {
    forall args, sup, s: Shell :: ShapeOf(b.run(args, sup, s).shell) == ShapeOf(s)
  }

  // ----- One change -----------------------------------------------------------------------------

  lemma SetInKinds(env: E.Stack, i: nat, name: string, v: E.Variable)
    requires i < |env|
    ensures Kinds(E.SetIn(env, i, name, v)) == Kinds(env)
  {
  }

  lemma AddedKinds(env: E.Stack, name: string, v: E.Variable, target: E.Scope)
    ensures var r := E.Added(env, name, v, target, false); r.Ok? ==> Kinds(r.value) == Kinds(env)
  {
    var i := E.Topmost(env, target);
    if i.Some? {
      SetInKinds(env, i.value, name, v.(exported := v.exported || false));
    }
  }

  lemma UpdatedKinds(env: E.Stack, name: string, text: string)
    ensures var r := E.Updated(env, name, text, E.Anywhere, E.Global, false); r.Ok? ==> Kinds(r.value) == Kinds(env)
  {
    var i := E.Lookup(env, name, E.Anywhere);
    if i.Some? {
      SetInKinds(env, i.value, name, E.Assigned(env[i.value].vars[name], text, false));
    } else {
      AddedKinds(env, name, E.Assigned(E.FRESH, text, false), E.Global);
    }
  }

  lemma WrittenKinds(env: E.Stack, name: string, value: string, prefix: bool, allexport: bool)
    ensures var r := Written(env, name, value, prefix, allexport); r.Ok? ==> Kinds(r.value) == Kinds(env)
  {
    var i := E.Lookup(env, name, E.Anywhere);
    if i.Some? {
      SetInKinds(env, i.value, name, E.Assigned(env[i.value].vars[name], value, prefix || allexport));
    }
    AddedKinds(env, name, E.Variable(E.Str(value), prefix || allexport, false), if prefix then E.Command else E.Global);
  }

  lemma LastArgKinds(env: E.Stack, lastArg: string)
    ensures Kinds(WithLastArg(env, lastArg)) == Kinds(env)
  {
    AddedKinds(env, "_", E.Variable(E.Str(lastArg), false, false), E.Global);
  }

  lemma BashCommandKinds(env: E.Stack, text: string)
    ensures Kinds(WithBashCommand(env, text)) == Kinds(env)
  {
    UpdatedKinds(env, "BASH_COMMAND", text);
  }

  lemma PushedKinds(env: E.Stack, scope: E.Scope)
    ensures Kinds(Pushed(env, scope)) == Kinds(env) + [scope]
  {
  }

  lemma PoppedKinds(env: E.Stack, kinds: seq<E.Scope>, scope: E.Scope)
    requires Kinds(env) == kinds + [scope]
    ensures env != [] && env[|env| - 1].scope == scope && Kinds(Popped(env)) == kinds
  {
    assert |env| == |Kinds(env)|;
    assert Kinds(env)[|env| - 1] == scope;
    assert forall i :: 0 <= i < |kinds| ==> Kinds(env)[i] == kinds[i];
  }

  lemma AssignShape(w: World, a: Assignment, prefix: bool, sup: bool, s: Shell)
    requires KeepsShape(w)
    ensures ShapeOf(Assign(w, a, prefix, sup, s).shell) == ShapeOf(s)
  {
    var e := w.expandValue(a.value, sup, s);
    if e.value.Ok? {
      WrittenKinds(e.shell.env, a.name, e.value.value, prefix, e.shell.options.allexport);
    }
  }

  lemma {:induction false} AssignAllShape(w: World, assignments: seq<Assignment>, prefix: bool, sup: bool, s: Shell)
    requires KeepsShape(w)
    ensures ShapeOf(AssignAll(w, assignments, prefix, sup, s).shell) == ShapeOf(s)
  {
    if assignments != [] {
      AssignShape(w, assignments[0], prefix, sup, s);
      AssignAllShape(w, assignments[1..], prefix, sup, Assign(w, assignments[0], prefix, sup, s).shell);
    }
  }

  // ----- One move -------------------------------------------------------------------------------

  /** The shape of a nested run, given that of the construct that waits for it. */
  predicate Fits(f: Frame, inner: Shape, outer: Shape) {
    match f
    case FunctionEnd(_, _, _) => inner == outer.(scopes := outer.scopes + [E.Command, E.Local], calls := outer.calls + 1)
    case SubshellEnd(parent, _) => inner == outer.(subshells := outer.subshells + 1, inErrTrap := false) && ShapeOf(parent) == outer
    case TrapEnd(_, _, _) => inner == outer.(inErrTrap := true) && !outer.inErrTrap
    case _ => inner == outer
  }

  /** A move of a construct that has the given shape. */
  predicate Stays(m: Move, shape: Shape) {
    match m
    case Done(_, s) => ShapeOf(s) == shape
    case Call(_, _, s, f) => Fits(f, ShapeOf(s), shape)
  }

  /** The shape of a command in its own scope. */
  function InScope(shape: Shape): Shape { shape.(scopes := shape.scopes + [E.Command]) }

  lemma LeaveScopeStays(r: Result<ExecutionResult, Failure>, lastArg: string, s: Shell, shape: Shape)
    requires ShapeOf(s) == InScope(shape)
    ensures Stays(LeaveScope(r, lastArg, s), shape)
  {
    LastArgKinds(s.env, lastArg);
    PoppedKinds(WithLastArg(s.env, lastArg), shape.scopes, E.Command);
  }

  lemma DispatchStays(w: World, args: seq<string>, sup: bool, s: Shell, shape: Shape)
    requires KeepsShape(w) && args != [] && ShapeOf(s) == InScope(shape)
    ensures Stays(Dispatch(w, args, sup, s), shape)
  {
    var name := CommandName(w, args);
    match Resolve(w, name, s)
    case Builtin(b) =>
      var reply := b.run(args, sup, s);
      assert BuiltinKeepsShape(b);
      var r := if reply.value.Err? && b.special && s.options.posix then Err(reply.value.error.(fatal := true))
               else reply.value;
      LeaveScopeStays(r, LastArg(args), reply.shell, shape);
    case ShellFunction(_) =>
      LeaveScopeStays(Err(Failure(GENERAL_ERROR, false)), LastArg(args), s, shape);
      PushedKinds(s.env, E.Local);
      assert shape.scopes + [E.Command] + [E.Local] == shape.scopes + [E.Command, E.Local];
    case External => ExternalStays(w, name, args, s, shape);
  }

  lemma ExternalStays(w: World, name: string, args: seq<string>, s: Shell, shape: Shape)
    requires ShapeOf(s) == InScope(shape)
    ensures Stays(RunExternal(w, name, args, s), shape)
  {
    var path := if '/' in name then Some(name) else w.findInPath(name, s);
    if path.None? {
      LeaveScopeStays(Err(Failure(NOT_FOUND, false)), LastArg(args), s, shape);
    } else {
      var spawned := w.spawn(path.value, args, s);
      var r := match spawned.code
               case Ok(code) => Ok(ExecutionResult(Normal, code))
               case Err(f) => Err(f);
      LeaveScopeStays(r, LastArg(args), s.(outside := spawned.outside), shape);
    }
  }

  /** Every path of a command with words, be it a builtin, a function, an external command, not
      found, or a prefix assignment that fails, takes off just the scope that was put on for it;
      a function call that is still to run has it and the function's own scope on top. */
  lemma ExecuteCommandStays(w: World, assignments: seq<Assignment>, args: seq<string>, sup: bool, s: Shell)
    requires KeepsShape(w) && args != []
    ensures Stays(ExecuteCommand(w, assignments, args, sup, s), ShapeOf(s))
  {
    var shape := ShapeOf(s);
    var s' := s.(env := Pushed(s.env, E.Command));
    PushedKinds(s.env, E.Command);
    AssignAllShape(w, assignments, true, sup, s');
    var e := AssignAll(w, assignments, true, sup, s');
    if e.value.Err? {
      PoppedKinds(e.shell.env, shape.scopes, E.Command);
    } else {
      BashCommandKinds(e.shell.env, Joined(args));
      DispatchStays(w, args, sup, e.shell.(env := WithBashCommand(e.shell.env, Joined(args))), shape);
    }
  }

  lemma EnterSimpleStays(w: World, assignments: seq<Assignment>, words: seq<string>, sup: bool, s: Shell)
    requires KeepsShape(w)
    ensures Stays(EnterSimple(w, assignments, words, sup, s), ShapeOf(s))
  {
    var e := w.expandWords(words, sup, s);
    if e.value.Ok? {
      if e.value.value == [] {
        AssignAllShape(w, assignments, false, sup, e.shell);
        LastArgKinds(AssignAll(w, assignments, false, sup, e.shell).shell.env, "");
      } else {
        ExecuteCommandStays(w, assignments, e.value.value, sup, e.shell);
      }
    }
  }

  lemma NextValueStays(variable: string, values: seq<string>, body: CompoundList, last: ExecutionResult, sup: bool, s: Shell)
    ensures Stays(NextValue(variable, values, body, last, sup, s), ShapeOf(s))
  {
    if values != [] {
      UpdatedKinds(s.env, variable, values[0]);
    }
  }

  lemma {:induction false} NextPipelineStays(additional: Additional, last: ExecutionResult, sup: bool, s: Shell)
    ensures Stays(NextPipeline(additional, last, sup, s), ShapeOf(s))
  {
    if !additional.End? {
      NextPipelineStays(additional.rest, last, sup, s);
    }
  }

  lemma NextRoundStays(w: World, test: Option<string>, updater: Option<string>, body: CompoundList,
                       last: ExecutionResult, sup: bool, s: Shell)
    requires KeepsShape(w)
    ensures Stays(NextRound(w, test, updater, body, last, sup, s), ShapeOf(s))
  {
    if test.Some? {
      assert ShapeOf(w.evaluate(test.value, sup, s).shell) == ShapeOf(s);
    }
  }

  lemma EffectShape(w: World, expr: Option<string>, sup: bool, s: Shell)
    requires KeepsShape(w)
    ensures ShapeOf(Effect(w, expr, sup, s).shell) == ShapeOf(s)
  {
  }

  lemma EnterCommandStays(w: World, c: Command, sup: bool, s: Shell)
    requires KeepsShape(w)
    ensures Stays(EnterCommand(w, c, sup, s), ShapeOf(s))
  {
    match c
    case Simple(assignments, words) => EnterSimpleStays(w, assignments, words, sup, s);
    case ForClause(variable, values, body) =>
      if values.None? {
        NextValueStays(variable, s.args, body, SUCCESS, sup, s);
      } else {
        var e := w.expandWords(values.value, sup, s);
        if e.value.Ok? {
          NextValueStays(variable, e.value.value, body, SUCCESS, sup, e.shell);
        }
      }
    case ArithmeticFor(initializer, test, updater, body) =>
      EffectShape(w, initializer, sup, s);
      NextRoundStays(w, test, updater, body, SUCCESS, sup, Effect(w, initializer, sup, s).shell);
    case _ =>
  }

  lemma EnterStays(w: World, task: Task, sup: bool, s: Shell)
    requires KeepsShape(w)
    ensures Stays(Enter(w, task, sup, s), ShapeOf(s))
  {
    if task.RunCommand? {
      EnterCommandStays(w, task.command, sup, s);
    }
  }

  /** At the end of a function call the function's scope is on top and the command's below it. */
  lemma LeaveFunctionStays(f: Frame, r: Result<ExecutionResult, Failure>, s: Shell, shape: Shape)
    requires f.FunctionEnd? && Fits(f, ShapeOf(s), shape)
    ensures Stays(LeaveFunction(f, r, s), shape)
  {
    assert shape.scopes + [E.Command, E.Local] == (shape.scopes + [E.Command]) + [E.Local];
    PoppedKinds(s.env, shape.scopes + [E.Command], E.Local);
    LeaveScopeStays(FunctionResult(r), f.lastArg, Returned(f.args, s), shape);
  }

  lemma LeaveOkStays(w: World, f: Frame, result: ExecutionResult, s: Shell, shape: Shape)
    requires KeepsShape(w) && !CatchesErrors(f) && ShapeOf(s) == shape
    ensures Stays(LeaveOk(w, f, result, s), shape)
  {
    match f
    case AndOrRest(additional, sup) => NextPipelineStays(additional, result, sup, s);
    case ForBody(variable, values, body, sup) => NextValueStays(variable, values, body, AfterBody(result).0, sup, s);
    case ArithmeticBody(test, updater, body, sup) =>
      EffectShape(w, updater, sup, s);
      NextRoundStays(w, test, updater, body, AfterBody(result).0, sup, Effect(w, updater, sup, s).shell);
    case _ =>
  }

  lemma LeaveStays(w: World, f: Frame, r: Result<ExecutionResult, Failure>, s: Shell, shape: Shape)
    requires KeepsShape(w) && Fits(f, ShapeOf(s), shape)
    ensures Stays(Leave(w, f, r, s), shape)
  {
    if f.FunctionEnd? {
      LeaveFunctionStays(f, r, s, shape);
    } else if !CatchesErrors(f) && r.Ok? {
      LeaveOkStays(w, f, r.value, s, shape);
    }
  }

  // ----- Every reachable configuration ----------------------------------------------------------

  /** The shape below what a frame's nested run has put on. */
  function Under(f: Frame, inner: Shape): Shape {
    match f
    case FunctionEnd(_, _, _) =>
      if |inner.scopes| >= 2 && inner.calls > 0
      then inner.(scopes := inner.scopes[..|inner.scopes| - 2], calls := inner.calls - 1)
      else inner
    case SubshellEnd(parent, _) => ShapeOf(parent)
    case TrapEnd(_, _, _) => inner.(inErrTrap := false)
    case _ => inner
  }

  lemma UnderFits(f: Frame, inner: Shape, outer: Shape)
    requires Fits(f, inner, outer)
    ensures Under(f, inner) == outer
  {
    if f.FunctionEnd? {
      assert (outer.scopes + [E.Command, E.Local])[..|outer.scopes|] == outer.scopes;
    }
  }

  /** Taking off what each waiting frame accounts for leads from the present shape to `base`. */
  predicate Balanced(frames: seq<Frame>, shape: Shape, base: Shape) {
    if frames == [] then shape == base
    else Fits(frames[0], shape, Under(frames[0], shape)) && Balanced(frames[1..], Under(frames[0], shape), base)
  }

  predicate IsBalanced(c: Config, base: Shape) {
    match c.move
    case Done(_, s) => Balanced(c.frames, ShapeOf(s), base)
    case Call(_, _, s, f) => Balanced([f] + c.frames, ShapeOf(s), base)
  }

  lemma StaysIsBalanced(m: Move, frames: seq<Frame>, shape: Shape, base: Shape)
    requires Stays(m, shape) && Balanced(frames, shape, base)
    ensures IsBalanced(Config(m, frames), base)
  {
    if m.Call? {
      assert ([m.frame] + frames)[1..] == frames;
      UnderFits(m.frame, ShapeOf(m.shell), shape);
    }
  }

  lemma StepKeepsBalance(w: World, c: Config, base: Shape)
    requires KeepsShape(w) && IsBalanced(c, base)
    ensures IsBalanced(Step(w, c), base)
  {
    hide Enter, Leave;
    match c.move
    case Call(task, sup, s, f) =>
      EnterStays(w, task, sup, s);
      StaysIsBalanced(Enter(w, task, sup, s), [f] + c.frames, ShapeOf(s), base);
    case Done(r, s) =>
      if c.frames != [] {
        var f, shape := c.frames[0], Under(c.frames[0], ShapeOf(s));
        LeaveStays(w, f, r, s, shape);
        StaysIsBalanced(Leave(w, f, r, s), c.frames[1..], shape, base);
      }
  }

  /** In every configuration that a run reaches, the scopes on the stack are those it began
      with, and a command scope and a local scope for each function call it is in; the depths
      count the calls and subshells it is in; and the handler for ERR is marked as running just
      while it is, in this subshell. */
  lemma {:induction false} AlwaysBalanced(w: World, n: nat, c: Config, base: Shape)
    requires KeepsShape(w) && IsBalanced(c, base)
    ensures IsBalanced(Steps(w, n, c), base)
  {
    hide Step, IsBalanced;
    if n > 0 {
      StepKeepsBalance(w, c, base);
      AlwaysBalanced(w, n - 1, Step(w, c), base);
    }
  }

  /** A run that ends, however it ends, leaves as many scopes of the same kinds as it found. */
  lemma RunKeepsShape(w: World, fuel: nat, task: Task, sup: bool, s: Shell)
    requires KeepsShape(w) && Run(w, fuel, task, sup, s).Finished?
    ensures ShapeOf(Run(w, fuel, task, sup, s).shell) == ShapeOf(s)
  {
    hide Enter, Drive, Steps;
    var m := Enter(w, task, sup, s);
    var n := DriveIsSteps(w, fuel, m, []);
    EnterStays(w, task, sup, s);
    StaysIsBalanced(m, [], ShapeOf(s), ShapeOf(s));
    AlwaysBalanced(w, n, Config(m, []), ShapeOf(s));
  }

  /** The handlers that wait for each other in the innermost subshell. */
  function Handlers(frames: seq<Frame>): nat {
    if frames == [] || frames[0].SubshellEnd? then 0
    else Handlers(frames[1..]) + if frames[0].TrapEnd? then 1 else 0
  }

  /** The number of function calls in progress. */
  function Calls(frames: seq<Frame>): nat {
    if frames == [] then 0 else Calls(frames[1..]) + if frames[0].FunctionEnd? then 1 else 0
  }

  lemma {:induction false} BalancedCounts(frames: seq<Frame>, shape: Shape, base: Shape)
    requires Balanced(frames, shape, base) && !base.inErrTrap
    ensures Handlers(frames) == if shape.inErrTrap then 1 else 0
    ensures shape.calls == base.calls + Calls(frames)
    ensures |shape.scopes| == |base.scopes| + 2 * Calls(frames)
  {
    if frames != [] {
      BalancedCounts(frames[1..], Under(frames[0], shape), base);
    }
  }

  /** So, from a start outside any handler on, the handler for ERR never runs inside itself, and
      the call depth that limits recursion is the number of calls in progress. */
  lemma HandlerNeverNests(w: World, n: nat, task: Task, sup: bool, s: Shell)
    requires KeepsShape(w) && !s.inErrTrap
    ensures var c := Steps(w, n, Config(Enter(w, task, sup, s), []));
            var frames := if c.move.Call? then [c.move.frame] + c.frames else c.frames;
            && Handlers(frames) <= 1
            && c.move.shell.callDepth == s.callDepth + Calls(frames)
            && |c.move.shell.env| == |s.env| + 2 * Calls(frames)
  {
    hide Enter, Steps;
    EnterStays(w, task, sup, s);
    StaysIsBalanced(Enter(w, task, sup, s), [], ShapeOf(s), ShapeOf(s));
    AlwaysBalanced(w, n, Config(Enter(w, task, sup, s), []), ShapeOf(s));
    var c := Steps(w, n, Config(Enter(w, task, sup, s), []));
    BalancedCounts(if c.move.Call? then [c.move.frame] + c.frames else c.frames, ShapeOf(c.move.shell), ShapeOf(s));
    assert |Kinds(c.move.shell.env)| == |c.move.shell.env| && |Kinds(s.env)| == |s.env|;
  }
}
