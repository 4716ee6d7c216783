/** No condition of an `if`, `while` or `until`, no member of an and-or list but the last, and
    nothing in a negated pipeline ends the shell through errexit (brush-core/src/interp.rs:347-447):
    all these run suppressed, and a suppressed run comes back with an exit only if something that
    it called asked for one. */
module Survival {
  import opened Wrappers
  import opened Results
  import opened Interp
  import opened Requests
  import E = Environment

  /** Neither an exit nor an error that becomes one. */
  predicate Stays(r: Result<ExecutionResult, Failure>) {
    match r
    case Ok(result) => !result.flow.ExitShell?
    case Err(f) => !f.fatal
  }

  predicate FailsFatally<T>(r: Result<T, Failure>) { r.Err? && r.error.fatal }

  /** In POSIX mode, a failing special builtin and a function with the name of one are fatal. */
  predicate AsksForExit(w: World, q: Request) {
    match q
    case Words(words, sup, s) => FailsFatally(w.expandWords(words, sup, s).value)
    case Value(text, sup, s) => FailsFatally(w.expandValue(text, sup, s).value)
    case Expression(expr, sup, s) => FailsFatally(w.evaluate(expr, sup, s).value)
    case BuiltinCall(name, args, sup, s) =>
      name in w.builtins
      && var r := w.builtins[name].run(args, sup, s).value;
         !Stays(r) || (r.Err? && w.builtins[name].special && s.options.posix)
    case PathSearch(_, _) => false
    case Spawning(file, args, s) => FailsFatally(w.spawn(file, args, s).code)
    case Definition(name, s) => s.options.posix && name in w.builtins && w.builtins[name].special
  }

  predicate NoneAsks(w: World, requests: set<Request>) { forall q <- requests :: !AsksForExit(w, q) }

  predicate FrameStays(f: Frame) {
    && f.sup
    && (f.WhileCondition? ==> !f.last.flow.ExitShell?)
    && (f.TrapEnd? ==> !f.result.flow.ExitShell?)
  }

  predicate MoveStays(m: Move) {
    match m
    case Done(r, _) => Stays(r)
    case Call(_, sup, _, f) => sup && FrameStays(f)
  }

  lemma {:induction false} AssignAllStays(w: World, assignments: seq<Assignment>, prefix: bool, s: Shell)
    requires NoneAsks(w, OfAssignments(w, assignments, prefix, true, s))
    ensures !FailsFatally(AssignAll(w, assignments, prefix, true, s).value)
  {
    if assignments != [] {
      assert !AsksForExit(w, Value(assignments[0].value, true, s));
      var e := Assign(w, assignments[0], prefix, true, s);
      if e.value.Ok? {
        AssignAllStays(w, assignments[1..], prefix, e.shell);
      }
    }
  }

  lemma DispatchStays(w: World, args: seq<string>, s: Shell)
    requires args != [] && NoneAsks(w, OfDispatch(w, args, true, s))
    ensures MoveStays(Dispatch(w, args, true, s))
  {
    hide WithLastArg;
    var name := CommandName(w, args);
    match Resolve(w, name, s)
    case Builtin(_) => assert !AsksForExit(w, BuiltinCall(name, args, true, s));
    case ShellFunction(_) =>
    case External =>
      var path := if '/' in name then Some(name) else w.findInPath(name, s);
      assert path.None? || !AsksForExit(w, Spawning(path.value, args, s));
  }

  lemma EnterSimpleStays(w: World, assignments: seq<Assignment>, words: seq<string>, s: Shell)
    requires NoneAsks(w, OfSimple(w, assignments, words, true, s))
    ensures MoveStays(EnterSimple(w, assignments, words, true, s))
  {
    hide Dispatch, OfDispatch, OfAssignments, AssignAll;
    var e := w.expandWords(words, true, s);
    assert !AsksForExit(w, Words(words, true, s));
    if e.value.Ok? {
      if e.value.value == [] {
        AssignAllStays(w, assignments, false, e.shell);
      } else {
        var s' := e.shell.(env := Pushed(e.shell.env, E.Command));
        AssignAllStays(w, assignments, true, s');
        var g := AssignAll(w, assignments, true, true, s');
        if g.value.Ok? {
          DispatchStays(w, e.value.value, g.shell.(env := WithBashCommand(g.shell.env, Joined(e.value.value))));
        }
      }
    }
  }

  lemma RoundStays(w: World, expr: Option<string>, test: Option<string>, s: Shell)
    requires NoneAsks(w, OfRound(w, expr, test, true, s))
    ensures var reply := Effect(w, expr, true, s);
            && !FailsFatally(reply.value)
            && (reply.value.Ok? ==> !FailsFatally(TestOf(w, test, true, reply.shell).value))
  {
    var reply := Effect(w, expr, true, s);
    assert expr.None? || !AsksForExit(w, Expression(expr.value, true, s));
    assert reply.value.Err? || test == None || test.value == "" || !AsksForExit(w, Expression(test.value, true, reply.shell));
  }

  lemma {:induction false} NextPipelineStays(additional: Additional, last: ExecutionResult, s: Shell)
    requires !last.flow.ExitShell?
    ensures MoveStays(NextPipeline(additional, last, true, s))
  {
    if !additional.End? {
      NextPipelineStays(additional.rest, last, s);
    }
  }

  lemma EnterStays(w: World, task: Task, s: Shell)
    requires NoneAsks(w, OfEnter(w, task, true, s))
    ensures MoveStays(Enter(w, task, true, s))
  {
    hide EnterSimple, OfSimple, OfRound, Effect, TestOf;
    if task.RunCommand? {
      match task.command
      case Simple(assignments, words) => EnterSimpleStays(w, assignments, words, s);
      case ForClause(_, Some(values), _) => assert !AsksForExit(w, Words(values, true, s));
      case Arithmetic(expr) => assert !AsksForExit(w, Expression(expr, true, s));
      case ArithmeticFor(initializer, test, _, _) => RoundStays(w, initializer, test, s);
      case FunctionDefinition(name, _) => assert !AsksForExit(w, Definition(name, s));
      case _ =>
    }
  }

  lemma LeaveStays(w: World, f: Frame, r: Result<ExecutionResult, Failure>, s: Shell)
    requires FrameStays(f) && Stays(r) && NoneAsks(w, OfLeave(w, f, r, s))
    ensures MoveStays(Leave(w, f, r, s))
  {
    hide OfRound, Effect, TestOf, WithLastArg;
    if f.AndOrRest? && r.Ok? {
      NextPipelineStays(f.additional, r.value, s);
    } else if f.ArithmeticBody? && r.Ok? && !AfterBody(r.value).1 {
      RoundStays(w, f.updater, f.test, s);
    }
  }

  lemma {:induction false} DriveStays(w: World, fuel: nat, m: Move)
    requires NoneAsks(w, OfDrive(w, fuel, m)) && MoveStays(m) && Drive(w, fuel, m).Finished?
    ensures Stays(Drive(w, fuel, m).result)
    decreases fuel
  {
    hide Enter, Leave, OfEnter, OfLeave, AsksForExit;
    if m.Call? {
      var inner := Enter(w, m.task, m.sup, m.shell);
      EnterStays(w, m.task, m.shell);
      DriveStays(w, fuel - 1, inner);
      var o := Drive(w, fuel - 1, inner);
      LeaveStays(w, m.frame, o.result, o.shell);
      DriveStays(w, fuel - 1, Leave(w, m.frame, o.result, o.shell));
    }
  }

  /** Where a construct suppresses errexit for a nested run of its own. */
  predicate IsConditional(f: Frame) {
    || f.IfCondition? || f.WhileCondition?
    || (f.AndOrRest? && !f.additional.End?)
    || (f.PipelineEnd? && f.bang)
  }

  lemma {:induction false} ConditionsAreSuppressed(additional: Additional, last: ExecutionResult, sup: bool, s: Shell)
    ensures var m := NextPipeline(additional, last, sup, s); m.Call? && IsConditional(m.frame) ==> m.sup
  {
    if !additional.End? {
      ConditionsAreSuppressed(additional.rest, last, sup, s);
    }
  }

  lemma EnterSuppresses(w: World, task: Task, sup: bool, s: Shell)
    ensures var m := Enter(w, task, sup, s); m.Call? && IsConditional(m.frame) ==> m.sup
  {
    hide AssignAll, WithBashCommand, WithLastArg;
  }

  lemma LeaveSuppresses(w: World, f: Frame, r: Result<ExecutionResult, Failure>, s: Shell)
    ensures var m := Leave(w, f, r, s); m.Call? && IsConditional(m.frame) ==> m.sup
  {
    hide WithBashCommand, WithLastArg;
    if f.AndOrRest? && r.Ok? {
      ConditionsAreSuppressed(f.additional, r.value, f.sup, s);
    }
  }

  /** Whatever the options are, and however a condition, a member of an and-or list but the last,
      or the command of a negated pipeline fails: if the nested run that a construct makes for it
      comes back with an exit, then among all that this run called there is something that asked
      for one. */
  lemma ConditionExitsOnlyIfAsked(w: World, fuel: nat, task: Task, sup: bool, f: Frame,
                                  r: Result<ExecutionResult, Failure>, s: Shell, m: Move)
    requires m == Enter(w, task, sup, s) || m == Leave(w, f, r, s)
    requires m.Call? && IsConditional(m.frame)
    requires var o := Run(w, fuel, m.task, m.sup, m.shell); o.Finished? && !Stays(o.result)
    ensures exists q <- OfRun(w, fuel, m.task, m.sup, m.shell) :: AsksForExit(w, q)
  {
    hide Enter, Leave, Drive, OfEnter, OfDrive, AsksForExit;
    EnterSuppresses(w, task, sup, s);
    LeaveSuppresses(w, f, r, s);
    if NoneAsks(w, OfRun(w, fuel, m.task, true, m.shell)) {
      EnterStays(w, m.task, m.shell);
      DriveStays(w, fuel, Enter(w, m.task, true, m.shell));
    }
  }
}
