/** How far an exit, a return and a failure under errexit go (brush-core/src/interp.rs:347-447,
    brush-core/src/commands.rs:751-800), in shells with and without a handler for ERR. */
module Exits {
  import opened Wrappers
  import opened Results
  import opened Interp
  import opened Machine
  import opened Scopes
  import opened Signals
  import E = Environment

  function Leaving(flow: Flow, code: ExitCode): ExecutionResult
    requires flow.ExitShell? || flow.ReturnFromFunctionOrScript?
  {
    ExecutionResult(flow, code)
  }

  /** What an exit gets through: everything but a subshell and the handler of a trap. */
  predicate LetsExitThrough(f: Frame) { !f.SubshellEnd? && !f.TrapEnd? }

  predicate AllLetExitThrough(frames: seq<Frame>) { forall i :: 0 <= i < |frames| ==> LetsExitThrough(frames[i]) }

  /** What a return gets through on its way to the function. */
  predicate LetsReturnThrough(f: Frame) { LetsExitThrough(f) && !f.FunctionEnd? }

  predicate AllLetReturnThrough(frames: seq<Frame>) { forall i :: 0 <= i < |frames| ==> LetsReturnThrough(frames[i]) }

  lemma {:induction false} LeavingGoesThrough(frames: seq<Frame>, flow: Flow, code: ExitCode)
    requires (flow.ExitShell? && AllLetExitThrough(frames)) || (flow.ReturnFromFunctionOrScript? && AllLetReturnThrough(frames))
    ensures GoesThrough(frames, Leaving(flow, code))
    ensures PassedAll(frames, Leaving(flow, code)) == Leaving(flow, CodeAfter(frames, code))
  {
    if frames != [] {
      LeavingGoesThrough(frames[1..], flow, Passed(frames[0], Leaving(flow, code)).code);
    }
  }

  // ----- Exits ----------------------------------------------------------------------------------

  /** An exit ends every construct around it, function calls included, up to the innermost
      subshell; only negations change its code; the scopes that are left are those of that
      subshell. It takes one step for each construct unless a handler for ERR hears it. */
  lemma ExitUnwinds(w: World, frames: seq<Frame>, outer: seq<Frame>, code: ExitCode, s: Shell, base: Shape)
    returns (s': Shell)
    requires AllLetExitThrough(frames) && Balanced(frames, ShapeOf(s), base)
    requires s.errTrap.None? || Silent(frames, Leaving(ExitShell, code))
    ensures Steps(w, |frames|, Config(Completed(Leaving(ExitShell, code), s), frames + outer))
            == Config(Completed(Leaving(ExitShell, CodeAfter(frames, code)), s'), outer)
    ensures ShapeOf(s') == base
  {
    hide GoesThrough, PassedAll, CodeAfter, Balanced, Steps, Silent;
    LeavingGoesThrough(frames, ExitShell, code);
    s' := ExitPassesThrough(w, frames, outer, Leaving(ExitShell, code), s, base);
  }

  /** Handlers for ERR that run on the way change nothing of this. */
  lemma ExitUnwindsPastHandlers(w: World, fuel: nat, frames: seq<Frame>, outer: seq<Frame>, code: ExitCode, s: Shell,
                                base: Shape)
    returns (s': Shell)
    requires KeepsShape(w) && AllLetExitThrough(frames) && Balanced(frames, ShapeOf(s), base)
    requires DriveAll(w, fuel, Completed(Leaving(ExitShell, code), s), frames + outer).Finished?
    ensures DriveAll(w, fuel, Completed(Leaving(ExitShell, code), s), frames + outer)
            == DriveAll(w, fuel, Completed(Leaving(ExitShell, CodeAfter(frames, code)), s'), outer)
    ensures ShapeOf(s') == base
  {
    hide GoesThrough, PassedAll, CodeAfter, Balanced, DriveAll, KeepsShape;
    LeavingGoesThrough(frames, ExitShell, code);
    s' := Unwinds(w, fuel, frames, outer, Leaving(ExitShell, code), s, base);
  }

  // ----- Failures under errexit -----------------------------------------------------------------

  const PLAIN: Frame := PipelineEnd(false, false)

  /** A pipeline that fails where nothing suppresses errexit is an exit with the code of the
      failure if errexit is on, and still is when the handler for ERR has run. */
  lemma FailureIsExit(w: World, fuel: nat, code: ExitCode, s: Shell)
    requires KeepsShape(w) && code != 0
    requires Drive(w, fuel, Leave(w, PLAIN, Ok(ExecutionResult(Normal, code)), s)).Finished?
    ensures var o := Drive(w, fuel, Leave(w, PLAIN, Ok(ExecutionResult(Normal, code)), s));
            && o.result == Ok(ExecutionResult(if o.shell.options.errexit then ExitShell else Normal, code))
            && ShapeOf(o.shell) == ShapeOf(s)
            && (!Delivers(s) ==> o.shell == s.(status := code))
  {
    hide Drive, Enter, Kinds, KeepsShape;
    var m := Leave(w, PLAIN, Ok(ExecutionResult(Normal, code)), s);
    if m.Call? {
      var failed := s.(status := code, inErrTrap := true);
      assert m == Call(RunProgram(s.errTrap.value), false, failed, TrapEnd(code, ExecutionResult(Normal, code), false));
      FailureHandlerEnds(w, fuel, m);
    } else {
      DriveDone(w, fuel, m);
    }
  }

  lemma DriveDone(w: World, fuel: nat, m: Move)
    requires m.Done?
    ensures Drive(w, fuel, m) == Finished(m.result, m.shell)
  {
  }

  lemma FailureHandlerEnds(w: World, fuel: nat, m: Move)
    requires KeepsShape(w) && m.Call? && m.task.RunProgram? && m.frame.TrapEnd? && Drive(w, fuel, m).Finished?
    requires !m.frame.sup && !m.frame.result.IsSuccess() && m.frame.result.IsNormalFlow() && m.shell.inErrTrap
    ensures var o := Drive(w, fuel, m);
            && o.result == Ok(m.frame.result.(flow := if o.shell.options.errexit then ExitShell else Normal))
            && ShapeOf(o.shell) == ShapeOf(m.shell.(inErrTrap := false))
  {
    hide Kinds, NextProgram, KeepsShape;
    var inner := Enter(w, m.task, m.sup, m.shell);
    var o := Drive(w, fuel - 1, inner);
    ProgramHasResult(w, fuel - 1, m.task.program, SUCCESS, m.sup, m.shell);
    RunKeepsShape(w, fuel - 1, m.task, m.sup, m.shell);
  }

  /** And as such it ends all that is around it, whatever handlers for ERR do on the way, as long
      as the first leaves errexit on. */
  lemma FailureExits(w: World, fuel: nat, frames: seq<Frame>, outer: seq<Frame>, code: ExitCode, s: Shell, base: Shape)
    returns (s': Shell)
    requires KeepsShape(w) && AllLetExitThrough(frames) && Balanced(frames, ShapeOf(s), base) && code != 0
    requires DriveAll(w, fuel, Completed(ExecutionResult(Normal, code), s), [PLAIN] + frames + outer).Finished?
    requires var o := Drive(w, fuel, Leave(w, PLAIN, Ok(ExecutionResult(Normal, code)), s));
             o.Finished? ==> o.shell.options.errexit
    ensures DriveAll(w, fuel, Completed(ExecutionResult(Normal, code), s), [PLAIN] + frames + outer)
            == DriveAll(w, fuel, Completed(Leaving(ExitShell, CodeAfter(frames, code)), s'), outer)
    ensures ShapeOf(s') == base
  {
    hide Leave, Balanced, KeepsShape, Kinds, CodeAfter;
    var failed := ExecutionResult(Normal, code);
    assert ([PLAIN] + frames + outer)[1..] == frames + outer;
    var m := Leave(w, PLAIN, Ok(failed), s);
    assert DriveAll(w, fuel, Completed(failed, s), [PLAIN] + frames + outer) == DriveAll(w, fuel, m, frames + outer);
    var o := Drive(w, fuel, m);
    FailureIsExit(w, fuel, code, s);
    SameOutcomeDrivesAll(w, fuel, m, Completed(Leaving(ExitShell, code), o.shell), frames + outer);
    s' := ExitUnwindsPastHandlers(w, fuel, frames, outer, code, o.shell, base);
  }

  /** Without a handler it takes one step for each construct. */
  lemma FailureSteps(w: World, frames: seq<Frame>, outer: seq<Frame>, code: ExitCode, s: Shell, base: Shape)
    returns (s': Shell)
    requires AllLetExitThrough(frames) && s.errTrap.None? && Balanced(frames, ShapeOf(s), base)
    requires s.options.errexit && code != 0
    ensures Steps(w, 1 + |frames|, Config(Completed(ExecutionResult(Normal, code), s), [PLAIN] + frames + outer))
            == Config(Completed(Leaving(ExitShell, CodeAfter(frames, code)), s'), outer)
    ensures ShapeOf(s') == base
  {
    hide Balanced, Kinds, CodeAfter;
    var start := Config(Completed(ExecutionResult(Normal, code), s), [PLAIN] + frames + outer);
    var failed := s.(status := code);
    assert ([PLAIN] + frames + outer)[1..] == frames + outer;
    assert Step(w, start) == Config(Completed(Leaving(ExitShell, code), failed), frames + outer);
    s' := ExitUnwinds(w, frames, outer, code, failed, base);
  }

  // ----- Returns --------------------------------------------------------------------------------

  /** A return ends the loops and lists of its function and no more: the call ends normally with
      the code returned, but for negations on the way, and the caller has its own arguments, call
      depth and scopes back and goes on. It takes one step for each construct unless a handler
      for ERR hears it. */
  lemma ReturnSteps(w: World, frames: seq<Frame>, f: Frame, outer: seq<Frame>, code: ExitCode, s: Shell, shape: Shape)
    returns (s': Shell)
    requires AllLetReturnThrough(frames) && f.FunctionEnd? && Balanced([f], ShapeOf(s), shape)
    requires Delivers(s) ==> Silent(frames, Leaving(ReturnFromFunctionOrScript, code))
    ensures Steps(w, |frames| + 1, Config(Completed(Leaving(ReturnFromFunctionOrScript, code), s), frames + [f] + outer))
            == Config(Completed(ExecutionResult(Normal, CodeAfter(frames, code)), s'), outer)
    ensures s'.args == f.args && ShapeOf(s') == shape
  {
    hide Leave, GoesThrough, PassedAll, CodeAfter, Kinds, ShellAfterAll, Silent, Balanced;
    var r := Leaving(ReturnFromFunctionOrScript, code);
    LeavingGoesThrough(frames, ReturnFromFunctionOrScript, code);
    assert frames + [f] + outer == frames + ([f] + outer);
    PassesThrough(w, frames, [f] + outer, r, s);
    ShellAfterIs(frames, r, s);
    var left, last := Leaving(ReturnFromFunctionOrScript, CodeAfter(frames, code)), ShellAfterAll(frames, r, s);
    FunctionReturns(w, f, left.code, last, shape);
    s' := Leave(w, f, Ok(left), last).shell;
    assert ([f] + outer)[1..] == outer;
    var reached := Config(Completed(left, last), [f] + outer);
    assert Steps(w, 1, reached) == Step(w, reached);
    StepsAdd(w, |frames|, 1, Config(Completed(r, s), frames + [f] + outer));
  }

  /** Handlers for ERR that run on the way change nothing of this. */
  lemma ReturnEndsFunction(w: World, fuel: nat, frames: seq<Frame>, f: Frame, outer: seq<Frame>, code: ExitCode, s: Shell,
                           shape: Shape)
    returns (s': Shell)
    requires KeepsShape(w) && AllLetReturnThrough(frames) && f.FunctionEnd? && Balanced(frames + [f], ShapeOf(s), shape)
    requires DriveAll(w, fuel, Completed(Leaving(ReturnFromFunctionOrScript, code), s), frames + [f] + outer).Finished?
    ensures DriveAll(w, fuel, Completed(Leaving(ReturnFromFunctionOrScript, code), s), frames + [f] + outer)
            == DriveAll(w, fuel, Completed(ExecutionResult(Normal, CodeAfter(frames, code)), s'), outer)
    ensures s'.args == f.args && ShapeOf(s') == shape
  {
    hide Leave, KeepsShape, GoesThrough, PassedAll, CodeAfter, Kinds, DriveAll;
    var r := Leaving(ReturnFromFunctionOrScript, code);
    LeavingGoesThrough(frames, ReturnFromFunctionOrScript, code);
    assert frames + [f] + outer == frames + ([f] + outer);
    var middle := BalancedSplits(frames, [f], ShapeOf(s), shape);
    var last := Unwinds(w, fuel, frames, [f] + outer, r, s, middle);
    var left := Leaving(ReturnFromFunctionOrScript, CodeAfter(frames, code));
    FunctionReturns(w, f, left.code, last, shape);
    LeaveFirst(w, fuel, f, left, last, outer);
    s' := Leave(w, f, Ok(left), last).shell;
  }

  lemma FunctionReturns(w: World, f: Frame, code: ExitCode, s: Shell, shape: Shape)
    requires f.FunctionEnd? && Balanced([f], ShapeOf(s), shape)
    ensures var m := Leave(w, f, Ok(Leaving(ReturnFromFunctionOrScript, code)), s);
            && m.Done? && m.result == Ok(ExecutionResult(Normal, code))
            && m.shell.args == f.args && ShapeOf(m.shell) == shape
  {
    assert [f][1..] == [];
    LeaveFunctionStays(f, Ok(Leaving(ReturnFromFunctionOrScript, code)), s, shape);
    assert shape.scopes + [E.Command, E.Local] == (shape.scopes + [E.Command]) + [E.Local];
    PoppedKinds(s.env, shape.scopes + [E.Command], E.Local);
  }

  /** A subshell changes nothing in its parent, whatever runs in it: no signal, exit or error comes
      out of it, and the parent goes on in the shell that it was in. */
  lemma SubshellIsIsolated(w: World, fuel: nat, list: CompoundList, sup: bool, s: Shell)
    requires Run(w, fuel, RunCommand(Subshell(list)), sup, s).Finished?
    ensures var o := Run(w, fuel, RunCommand(Subshell(list)), sup, s);
            o.result.Ok? && o.result.value.flow.Normal? && o.shell == s.(outside := o.shell.outside)
  {
    var m := Enter(w, RunCommand(Subshell(list)), sup, s);
    DriveCall(w, fuel, m, Drive(w, fuel - 1, Enter(w, RunList(list), sup, Cloned(s))));
  }
}
