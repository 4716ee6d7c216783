/** The suppress_errexit flag (brush-core/src/interp.rs:347-447): under it a run neither depends
    on the errexit option or the handler for ERR nor does anything that an unsuppressed run
    without the two would not do. */
module Suppression {
  import opened Wrappers
  import opened Results
  import opened Interp
  import opened Requests
  import E = Environment

  // ----- What is compared -----------------------------------------------------------------------

  /** errexit off and no handler for ERR. */
  function Off(s: Shell): Shell { s.(options := s.options.(errexit := false), errTrap := None) }

  function OffReply<T>(r: Reply<T>): Reply<T> { r.(shell := Off(r.shell)) }

  function OffExpansion<T>(e: Expansion<T>): Expansion<T> { e.(shell := Off(e.shell)) }

  function OffOutcome(o: Outcome): Outcome {
    match o
    case OutOfFuel => OutOfFuel
    case Finished(r, s) => Finished(r, Off(s))
  }

  /** What is called neither looks at the two nor turns them on, nor at the suppression that it
      is told of: its reply without them, suppressed or not, is its suppressed reply. It may ask
      for an exit, and it may turn them off. */
  ghost predicate IsIndifferent(w: World, q: Request) {
    match q
    case Words(words, _, s) => forall sup :: w.expandWords(words, sup, Off(s)) == OffExpansion(w.expandWords(words, true, s))
    case Value(text, _, s) => forall sup :: w.expandValue(text, sup, Off(s)) == OffExpansion(w.expandValue(text, true, s))
    case Expression(expr, _, s) => forall sup :: w.evaluate(expr, sup, Off(s)) == OffReply(w.evaluate(expr, true, s))
    case BuiltinCall(name, args, _, s) =>
      name in w.builtins ==>
        forall sup :: w.builtins[name].run(args, sup, Off(s)) == OffReply(w.builtins[name].run(args, true, s))
    case PathSearch(name, s) => w.findInPath(name, Off(s)) == w.findInPath(name, s)
    case Spawning(file, args, s) => w.spawn(file, args, Off(s)) == w.spawn(file, args, s)
    case Definition(_, _) => true
  }

  ghost predicate AllIndifferent(w: World, requests: set<Request>) { forall q <- requests :: IsIndifferent(w, q) }

  /** The frame g waits without the two for what f waits for suppressed. */
  predicate MirrorsFrame(g: Frame, f: Frame) {
    g == (if f.SubshellEnd? then f.(parent := Off(f.parent)) else f).(sup := g.sup)
  }

  /** The move n does without the two what m does suppressed. */
  predicate Mirrors(n: Move, m: Move) {
    match m
    case Done(r, s) => n == Done(r, Off(s))
    case Call(task, sup, s, f) =>
      && sup && f.sup
      && n.Call? && n.task == task && n.shell == Off(s) && MirrorsFrame(n.frame, f)
  }

  // ----- One move -------------------------------------------------------------------------------

  lemma AssignMirrors(w: World, a: Assignment, prefix: bool, sup: bool, s: Shell)
    requires IsIndifferent(w, Value(a.value, true, s))
    ensures Assign(w, a, prefix, sup, Off(s)) == OffExpansion(Assign(w, a, prefix, true, s))
  {
    hide Written;
    assert w.expandValue(a.value, sup, Off(s)) == OffExpansion(w.expandValue(a.value, true, s));
  }

  lemma {:induction false} AssignAllMirrors(w: World, assignments: seq<Assignment>, prefix: bool, sup: bool, s: Shell)
    requires AllIndifferent(w, OfAssignments(w, assignments, prefix, true, s))
    ensures AssignAll(w, assignments, prefix, sup, Off(s)) == OffExpansion(AssignAll(w, assignments, prefix, true, s))
  {
    hide Assign, IsIndifferent;
    if assignments != [] {
      assert IsIndifferent(w, Value(assignments[0].value, true, s));
      AssignMirrors(w, assignments[0], prefix, sup, s);
      var e := Assign(w, assignments[0], prefix, true, s);
      if e.value.Ok? {
        AssignAllMirrors(w, assignments[1..], prefix, sup, e.shell);
      }
    }
  }

  lemma LeaveScopeMirrors(r: Result<ExecutionResult, Failure>, lastArg: string, s: Shell)
    ensures Mirrors(LeaveScope(r, lastArg, Off(s)), LeaveScope(r, lastArg, s))
  {
  }

  lemma BuiltinMirrors(w: World, name: string, args: seq<string>, sup: bool, s: Shell)
    requires name in w.builtins && IsIndifferent(w, BuiltinCall(name, args, true, s))
    ensures Mirrors(RunBuiltin(w.builtins[name], args, sup, Off(s)), RunBuiltin(w.builtins[name], args, true, s))
  {
    hide LeaveScope;
    var b := w.builtins[name];
    var reply := b.run(args, true, s);
    assert b.run(args, sup, Off(s)) == OffReply(reply);
    var r := if reply.value.Err? && b.special && s.options.posix then Err(reply.value.error.(fatal := true))
             else reply.value;
    LeaveScopeMirrors(r, LastArg(args), reply.shell);
  }

  lemma ExternalMirrors(w: World, name: string, args: seq<string>, s: Shell)
    requires AllIndifferent(w, OfExternal(w, name, args, s))
    ensures Mirrors(RunExternal(w, name, args, Off(s)), RunExternal(w, name, args, s))
  {
    hide LeaveScope;
    assert '/' in name || IsIndifferent(w, PathSearch(name, s));
    var path := if '/' in name then Some(name) else w.findInPath(name, s);
    if path.None? {
      LeaveScopeMirrors(Err(Failure(NOT_FOUND, false)), LastArg(args), s);
    } else {
      assert IsIndifferent(w, Spawning(path.value, args, s));
      var spawned := w.spawn(path.value, args, s);
      var r := match spawned.code
               case Ok(code) => Ok(ExecutionResult(Normal, code))
               case Err(f) => Err(f);
      LeaveScopeMirrors(r, LastArg(args), s.(outside := spawned.outside));
    }
  }

  lemma DispatchMirrors(w: World, args: seq<string>, sup: bool, s: Shell)
    requires args != [] && AllIndifferent(w, OfDispatch(w, args, true, s))
    ensures Mirrors(Dispatch(w, args, sup, Off(s)), Dispatch(w, args, true, s))
  {
    hide LeaveScope, RunBuiltin, RunExternal, OfExternal, IsIndifferent;
    var name := CommandName(w, args);
    match Resolve(w, name, s)
    case Builtin(_) =>
      assert IsIndifferent(w, BuiltinCall(name, args, true, s));
      BuiltinMirrors(w, name, args, sup, s);
    case ShellFunction(_) => LeaveScopeMirrors(Err(Failure(GENERAL_ERROR, false)), LastArg(args), s);
    case External => ExternalMirrors(w, name, args, s);
  }

  lemma ExecuteCommandMirrors(w: World, assignments: seq<Assignment>, args: seq<string>, sup: bool, s: Shell)
    requires args != [] && AllIndifferent(w, OfCommand(w, assignments, args, true, s))
    ensures Mirrors(ExecuteCommand(w, assignments, args, sup, Off(s)), ExecuteCommand(w, assignments, args, true, s))
  {
    hide Dispatch, OfDispatch, OfAssignments, AssignAll, IsIndifferent, WithBashCommand;
    var s' := s.(env := Pushed(s.env, E.Command));
    AssignAllMirrors(w, assignments, true, sup, s');
    var e := AssignAll(w, assignments, true, true, s');
    if e.value.Ok? {
      DispatchMirrors(w, args, sup, e.shell.(env := WithBashCommand(e.shell.env, Joined(args))));
    }
  }

  lemma EnterSimpleMirrors(w: World, assignments: seq<Assignment>, words: seq<string>, sup: bool, s: Shell)
    requires AllIndifferent(w, OfSimple(w, assignments, words, true, s))
    ensures Mirrors(EnterSimple(w, assignments, words, sup, Off(s)), EnterSimple(w, assignments, words, true, s))
  {
    hide ExecuteCommand, OfCommand, OfAssignments, AssignAll, WithLastArg;
    assert IsIndifferent(w, Words(words, true, s));
    var e := w.expandWords(words, true, s);
    assert w.expandWords(words, sup, Off(s)) == OffExpansion(e);
    if e.value.Ok? {
      if e.value.value == [] {
        AssignAllMirrors(w, assignments, false, sup, e.shell);
      } else {
        ExecuteCommandMirrors(w, assignments, e.value.value, sup, e.shell);
      }
    }
  }

  lemma RoundMirrors(w: World, expr: Option<string>, test: Option<string>, sup: bool, s: Shell)
    requires AllIndifferent(w, OfRound(w, expr, test, true, s))
    ensures Effect(w, expr, sup, Off(s)) == OffReply(Effect(w, expr, true, s))
    ensures var reply := Effect(w, expr, true, s);
            reply.value.Ok? ==> TestOf(w, test, sup, Off(reply.shell)) == OffReply(TestOf(w, test, true, reply.shell))
  {
    var reply := Effect(w, expr, true, s);
    if expr.Some? {
      assert IsIndifferent(w, Expression(expr.value, true, s));
      assert w.evaluate(expr.value, sup, Off(s)) == OffReply(reply);
    }
    if reply.value.Ok? && test.Some? && test.value != "" {
      assert IsIndifferent(w, Expression(test.value, true, reply.shell));
      assert w.evaluate(test.value, sup, Off(reply.shell)) == OffReply(w.evaluate(test.value, true, reply.shell));
    }
  }

  lemma {:induction false} NextPipelineMirrors(additional: Additional, last: ExecutionResult, sup: bool, s: Shell)
    ensures Mirrors(NextPipeline(additional, last, sup, Off(s)), NextPipeline(additional, last, true, s))
  {
    if !additional.End? {
      NextPipelineMirrors(additional.rest, last, sup, s);
    }
  }

  lemma NextValueMirrors(variable: string, values: seq<string>, body: CompoundList, last: ExecutionResult, sup: bool, s: Shell)
    ensures Mirrors(NextValue(variable, values, body, last, sup, Off(s)), NextValue(variable, values, body, last, true, s))
  {
  }

  lemma EnterForMirrors(w: World, variable: string, values: seq<string>, body: CompoundList, sup: bool, s: Shell)
    requires IsIndifferent(w, Words(values, true, s))
    ensures Mirrors(EnterFor(w, variable, Some(values), body, sup, Off(s)), EnterFor(w, variable, Some(values), body, true, s))
  {
    hide NextValue;
    var e := w.expandWords(values, true, s);
    assert w.expandWords(values, sup, Off(s)) == OffExpansion(e);
    if e.value.Ok? {
      NextValueMirrors(variable, e.value.value, body, SUCCESS, sup, e.shell);
    }
  }

  lemma EnterArithmeticMirrors(w: World, expr: string, sup: bool, s: Shell)
    requires IsIndifferent(w, Expression(expr, true, s))
    ensures Mirrors(EnterArithmetic(w, expr, sup, Off(s)), EnterArithmetic(w, expr, true, s))
  {
    assert w.evaluate(expr, sup, Off(s)) == OffReply(w.evaluate(expr, true, s));
  }

  lemma EnterArithmeticForMirrors(w: World, c: Command, sup: bool, s: Shell)
    requires c.ArithmeticFor? && AllIndifferent(w, OfRound(w, c.initializer, c.test, true, s))
    ensures Mirrors(EnterArithmeticFor(w, c, sup, Off(s)), EnterArithmeticFor(w, c, true, s))
  {
    hide OfRound, Effect, TestOf, IsIndifferent;
    RoundMirrors(w, c.initializer, c.test, sup, s);
  }

  lemma EnterCommandMirrors(w: World, c: Command, sup: bool, s: Shell)
    requires AllIndifferent(w, OfEnterCommand(w, c, true, s))
    ensures Mirrors(EnterCommand(w, c, sup, Off(s)), EnterCommand(w, c, true, s))
  {
    hide EnterSimple, OfSimple, OfRound, NextValue, EnterArithmetic, EnterArithmeticFor, IsIndifferent;
    match c
    case Simple(assignments, words) => EnterSimpleMirrors(w, assignments, words, sup, s);
    case ForClause(variable, None, body) => NextValueMirrors(variable, s.args, body, SUCCESS, sup, s);
    case ForClause(variable, Some(values), body) =>
      assert IsIndifferent(w, Words(values, true, s));
      EnterForMirrors(w, variable, values, body, sup, s);
    case Arithmetic(expr) =>
      assert IsIndifferent(w, Expression(expr, true, s));
      EnterArithmeticMirrors(w, expr, sup, s);
    case ArithmeticFor(_, _, _, _) => EnterArithmeticForMirrors(w, c, sup, s);
    case _ =>
  }

  lemma EnterMirrors(w: World, task: Task, sup: bool, s: Shell)
    requires AllIndifferent(w, OfEnter(w, task, true, s))
    ensures Mirrors(Enter(w, task, sup, Off(s)), Enter(w, task, true, s))
  {
    hide EnterCommand, OfEnterCommand, IsIndifferent;
    if task.RunCommand? {
      EnterCommandMirrors(w, task.command, sup, s);
    }
  }

  lemma LeaveFunctionMirrors(f: Frame, r: Result<ExecutionResult, Failure>, s: Shell)
    requires f.FunctionEnd?
    ensures Mirrors(LeaveFunction(f, r, Off(s)), LeaveFunction(f, r, s))
  {
    hide LeaveScope;
    LeaveScopeMirrors(FunctionResult(r), f.lastArg, Returned(f.args, s));
    LeaveScopeMirrors(Err(Failure(GENERAL_ERROR, false)), f.lastArg, s.(env := Popped(s.env)));
  }

  lemma LeaveRoundMirrors(w: World, g: Frame, f: Frame, result: ExecutionResult, s: Shell)
    requires f.ArithmeticBody? && f.sup && MirrorsFrame(g, f) && AllIndifferent(w, OfLeave(w, f, Ok(result), s))
    ensures Mirrors(LeaveRound(w, g, result, Off(s)), LeaveRound(w, f, result, s))
  {
    hide OfRound, Effect, TestOf;
    if !AfterBody(result).1 {
      RoundMirrors(w, f.updater, f.test, g.sup, s);
    }
  }

  lemma LeaveLoopMirrors(w: World, g: Frame, f: Frame, result: ExecutionResult, s: Shell)
    requires f.ForBody? || f.WhileBody? || f.WhileCondition?
    requires f.sup && MirrorsFrame(g, f)
    ensures Mirrors(LeaveOk(w, g, result, Off(s)), LeaveOk(w, f, result, s))
  {
    hide NextValue;
    if f.ForBody? {
      NextValueMirrors(f.variable, f.values, f.body, AfterBody(result).0, g.sup, s);
    }
  }

  lemma LeaveOkMirrors(w: World, g: Frame, f: Frame, result: ExecutionResult, s: Shell)
    requires f.sup && MirrorsFrame(g, f) && !CatchesErrors(f) && AllIndifferent(w, OfLeave(w, f, Ok(result), s))
    ensures Mirrors(LeaveOk(w, g, result, Off(s)), LeaveOk(w, f, result, s))
  {
    hide OfLeave, LeaveRound, LeaveForBody, LeaveTest, LeaveWhileBody;
    if f.AndOrRest? {
      NextPipelineMirrors(f.additional, result, g.sup, s);
    } else if f.ArithmeticBody? {
      LeaveRoundMirrors(w, g, f, result, s);
    } else if f.ForBody? || f.WhileBody? || f.WhileCondition? {
      LeaveLoopMirrors(w, g, f, result, s);
    }
  }

  lemma LeaveMirrors(w: World, g: Frame, f: Frame, r: Result<ExecutionResult, Failure>, s: Shell)
    requires f.sup && MirrorsFrame(g, f) && AllIndifferent(w, OfLeave(w, f, r, s))
    ensures Mirrors(Leave(w, g, r, Off(s)), Leave(w, f, r, s))
  {
    hide OfLeave, LeaveOk, LeaveFunction;
    if f.FunctionEnd? {
      LeaveFunctionMirrors(f, r, s);
      FunctionEndHasNoFlag(g, f, r, s);
    } else if !CatchesErrors(f) && r.Ok? {
      LeaveOkMirrors(w, g, f, r.value, s);
    }
  }

  lemma FunctionEndHasNoFlag(g: Frame, f: Frame, r: Result<ExecutionResult, Failure>, s: Shell)
    requires f.FunctionEnd? && MirrorsFrame(g, f)
    ensures LeaveFunction(g, r, Off(s)) == LeaveFunction(f, r, Off(s))
  {
  }

  // ----- Whole runs -----------------------------------------------------------------------------

  lemma {:induction false} DriveMirrors(w: World, fuel: nat, n: Move, m: Move)
    requires AllIndifferent(w, OfDrive(w, fuel, m)) && Mirrors(n, m)
    ensures Drive(w, fuel, n) == OffOutcome(Drive(w, fuel, m))
    decreases fuel
  {
    hide Enter, Leave, OfEnter, OfLeave, IsIndifferent, MirrorsFrame;
    if m.Call? && fuel > 0 {
      var inner, outer := Enter(w, m.task, true, m.shell), Enter(w, m.task, n.sup, n.shell);
      EnterMirrors(w, m.task, n.sup, m.shell);
      DriveMirrors(w, fuel - 1, outer, inner);
      var o := Drive(w, fuel - 1, inner);
      DriveCall(w, fuel, m, o);
      DriveCall(w, fuel, n, OffOutcome(o));
      if o.Finished? {
        LeaveMirrors(w, n.frame, m.frame, o.result, o.shell);
        DriveMirrors(w, fuel - 1, Leave(w, n.frame, o.result, Off(o.shell)), Leave(w, m.frame, o.result, o.shell));
      }
    }
  }

  /** A suppressed run ends as a run that is not suppressed ends with errexit off and without a
      handler for ERR, with the same result and in the same shell but for these two, unless
      something that the suppressed run calls looks at the two or turns them on. */
  lemma SuppressedIsErrexitOff(w: World, fuel: nat, task: Task, sup: bool, s: Shell)
    requires AllIndifferent(w, OfRun(w, fuel, task, true, s))
    ensures Run(w, fuel, task, sup, Off(s)) == OffOutcome(Run(w, fuel, task, true, s))
  {
    hide Enter, Drive, OfEnter, OfDrive, IsIndifferent;
    EnterMirrors(w, task, sup, s);
    DriveMirrors(w, fuel, Enter(w, task, sup, Off(s)), Enter(w, task, true, s));
  }

  /** Where no handler for ERR is set, it is the same as errexit being off. */
  lemma WithoutHandlerItIsErrexitAlone(w: World, fuel: nat, task: Task, s: Shell)
    requires AllIndifferent(w, OfRun(w, fuel, task, true, s)) && s.errTrap.None?
    ensures Run(w, fuel, task, false, s.(options := s.options.(errexit := false)))
            == OffOutcome(Run(w, fuel, task, true, s))
  {
    hide Run, OfRun, IsIndifferent;
    SuppressedIsErrexitOff(w, fuel, task, false, s);
  }

  // ----- Why the handler for ERR is part of it --------------------------------------------------

  /** A world in which the expansion of words leaves a trace, and arithmetic gives 0. */
  const NOISY: World := World(
    (words, sup, s: Shell) => Expansion(Ok([]), false, s.(outside := s.outside + [""])),
    (text, sup, s) => Expansion(Ok(text), false, s),
    (expr, sup, s) => Reply(Ok(0), s),
    map[],
    (name, s) => None,
    (file, args, s: Shell) => Spawned(Ok(0), s.outside))

  const WORDLESS: CompoundList := Item(AndOrList(Pipeline(false, Simple([], [])), End), Nothing)

  const FAILING: Task := RunPipeline(Pipeline(false, Arithmetic("0")))

  const TRAPPED: Shell :=
    Shell([], 0, Options(false, false, false, false, false, None), Some([WORDLESS]), false, 0, 0, [], map[], [])

  lemma CallIs(w: World, fuel: nat, m: Move, r: Result<ExecutionResult, Failure>, s: Shell)
    requires m.Call? && fuel > 0 && Drive(w, fuel - 1, Enter(w, m.task, m.sup, m.shell)) == Finished(r, s)
    ensures Drive(w, fuel, m) == Drive(w, fuel - 1, Leave(w, m.frame, r, s))
  {
  }

  /** The handler leaves its trace. */
  lemma HandlerRuns(s: Shell)
    requires s == TRAPPED.(status := 1, inErrTrap := true)
    ensures Drive(NOISY, 6, Enter(NOISY, RunProgram([WORDLESS]), false, s))
            == Finished(Ok(SUCCESS), s.(status := 0, outside := [""]))
  {
    var w, s' := NOISY, s.(status := 0, outside := [""]);
    assert EnterSimple(w, [], [], false, s) == Completed(SUCCESS, s');
    CallIs(w, 3, Enter(w, RunPipeline(WORDLESS.first.first), false, s), Ok(SUCCESS), s');
    CallIs(w, 4, Enter(w, RunAndOr(WORDLESS.first), false, s), Ok(SUCCESS), s');
    CallIs(w, 5, Enter(w, RunList(WORDLESS), false, s), Ok(SUCCESS), s');
    CallIs(w, 6, Enter(w, RunProgram([WORDLESS]), false, s), Ok(SUCCESS), s');
  }

  lemma NoisyIsIndifferent(requests: set<Request>)
    ensures AllIndifferent(NOISY, requests)
  {
  }

  lemma FailingSuppressed()
    ensures Run(NOISY, 8, FAILING, true, TRAPPED) == Finished(Ok(ExecutionResult(Normal, 1)), TRAPPED.(status := 1))
  {
    CallIs(NOISY, 8, Enter(NOISY, FAILING, true, TRAPPED), Ok(ExecutionResult(Normal, 1)), TRAPPED.(status := 1));
  }

  lemma FailingUnsuppressed()
    ensures Run(NOISY, 8, FAILING, false, TRAPPED)
            == Finished(Ok(ExecutionResult(Normal, 1)), TRAPPED.(status := 1, outside := [""]))
  {
    var failed, s := Ok(ExecutionResult(Normal, 1)), TRAPPED.(status := 1);
    CallIs(NOISY, 8, Enter(NOISY, FAILING, false, TRAPPED), failed, s);
    var m := Leave(NOISY, PipelineEnd(false, false), failed, s);
    assert m == Call(RunProgram([WORDLESS]), false, s.(inErrTrap := true), TrapEnd(1, failed.value, false));
    HandlerRuns(m.shell);
    CallIs(NOISY, 7, m, Ok(SUCCESS), m.shell.(status := 0, outside := [""]));
  }

  /** With a handler for ERR, a suppressed run and a run with errexit off can end in different
      shells: suppression keeps the handler from running too. */
  lemma HandlerTellsApart()
    ensures AllIndifferent(NOISY, OfRun(NOISY, 8, FAILING, true, TRAPPED)) && !TRAPPED.options.errexit
    ensures Run(NOISY, 8, FAILING, true, TRAPPED) == Finished(Ok(ExecutionResult(Normal, 1)), TRAPPED.(status := 1))
    ensures Run(NOISY, 8, FAILING, false, TRAPPED)
            == Finished(Ok(ExecutionResult(Normal, 1)), TRAPPED.(status := 1, outside := [""]))
  {
    hide Run, OfRun, IsIndifferent;
    NoisyIsIndifferent(OfRun(NOISY, 8, FAILING, true, TRAPPED));
    FailingSuppressed();
    FailingUnsuppressed();
  }
}
