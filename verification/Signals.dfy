/** How a result that is not of normal flow (a signal to loops, a return, an exit) makes its way
    through the constructs that wait for it, negations and handlers for ERR included
    (brush-core/src/interp.rs:347-447 and the loops behind it, brush-core/src/commands.rs:751-800). */
module Signals {
  import opened Wrappers
  import opened Results
  import opened Interp
  import opened Machine
  import opened Scopes
  import E = Environment

  /** A loop that waits for one run of its body. */
  predicate WaitsForBody(f: Frame) { f.ForBody? || f.WhileBody? || f.ArithmeticBody? }

  predicate IsLoop(f: Frame) { WaitsForBody(f) || f.WhileCondition? }

  predicate IsNegation(f: Frame) { f.PipelineEnd? && f.bang }

  function Negated(code: ExitCode): ExitCode { if code == 0 then 1 else 0 }

  /** The exit code after a negation for each one on the way. */
  function CodeAfter(frames: seq<Frame>, code: ExitCode): ExitCode {
    if frames == [] then code
    else CodeAfter(frames[1..], if IsNegation(frames[0]) then Negated(code) else code)
  }

  function Negations(frames: seq<Frame>): nat {
    if frames == [] then 0 else Negations(frames[1..]) + if IsNegation(frames[0]) then 1 else 0
  }

  /** What is left of a code is its parity. */
  lemma {:induction false} CodeIsParity(frames: seq<Frame>, code: ExitCode)
    ensures var n := Negations(frames);
            CodeAfter(frames, code) == if n == 0 then code else if n % 2 == 1 then Negated(code) else Negated(Negated(code))
  {
    if frames != [] {
      CodeIsParity(frames[1..], if IsNegation(frames[0]) then Negated(code) else code);
    }
  }

  /** What comes out of a construct: a negation changes the code, a loop uses up a level. */
  function Passed(f: Frame, r: ExecutionResult): ExecutionResult {
    if IsNegation(f) then r.(code := Negated(r.code))
    else if IsLoop(f) then r.(flow := Decremented(r.flow))
    else r
  }

  function PassedAll(frames: seq<Frame>, r: ExecutionResult): ExecutionResult {
    if frames == [] then r else PassedAll(frames[1..], Passed(frames[0], r))
  }

  /** Subshells and handlers stop everything, functions everything but an exit, and a loop goes
      on after a `continue` that is meant for it. */
  predicate LetsThrough(f: Frame, r: ExecutionResult) {
    && !r.IsNormalFlow()
    && !f.SubshellEnd? && !f.TrapEnd? && (f.FunctionEnd? ==> r.flow.ExitShell?)
    && !(WaitsForBody(f) && r.flow == ContinueLoop(0))
  }

  predicate GoesThrough(frames: seq<Frame>, r: ExecutionResult) {
    frames == [] || (LetsThrough(frames[0], r) && GoesThrough(frames[1..], Passed(frames[0], r)))
  }

  /** The end of a pipeline that a handler for ERR may hear. */
  predicate IsHeard(f: Frame, r: ExecutionResult) { f.PipelineEnd? && !f.bang && !f.sup && r.code != 0 }

  predicate Silent(frames: seq<Frame>, r: ExecutionResult) {
    frames == [] || (!IsHeard(frames[0], r) && Silent(frames[1..], Passed(frames[0], r)))
  }

  // ----- One construct --------------------------------------------------------------------------

  predicate SetsStatus(f: Frame) { !f.AndOrRest? && !f.IfCondition? }

  function ShellAfter(f: Frame, r: ExecutionResult, s: Shell): Shell {
    if SetsStatus(f) then s.(status := Passed(f, r).code) else s
  }

  lemma PassesOn(w: World, f: Frame, r: ExecutionResult, s: Shell)
    requires LetsThrough(f, r) && !f.FunctionEnd? && !(IsHeard(f, r) && Delivers(s))
    ensures Leave(w, f, Ok(r), s) == Completed(Passed(f, r), ShellAfter(f, r, s))
  {
  }

  /** An exit takes the scopes of the function calls that it ends with it. */
  lemma ExitLeavesFunction(w: World, f: Frame, r: ExecutionResult, s: Shell, shape: Shape)
    requires f.FunctionEnd? && r.flow.ExitShell? && Fits(f, ShapeOf(s), shape)
    ensures var m := Leave(w, f, Ok(r), s);
            m.Done? && m.result == Ok(r) && m.shell.errTrap == s.errTrap && ShapeOf(m.shell) == shape
  {
    LeaveFunctionStays(f, Ok(r), s, shape);
    assert shape.scopes + [E.Command, E.Local] == (shape.scopes + [E.Command]) + [E.Local];
    PoppedKinds(s.env, shape.scopes + [E.Command], E.Local);
  }

  // ----- Step by step ---------------------------------------------------------------------------

  function ShellAfterAll(frames: seq<Frame>, r: ExecutionResult, s: Shell): Shell {
    if frames == [] then s else ShellAfterAll(frames[1..], Passed(frames[0], r), ShellAfter(frames[0], r, s))
  }

  predicate InOneFunction(frames: seq<Frame>) { forall i :: 0 <= i < |frames| ==> !frames[i].FunctionEnd? }

  /** Inside one function, and with no handler that hears it, each construct takes one step. */
  lemma {:induction false} PassesThrough(w: World, frames: seq<Frame>, outer: seq<Frame>, r: ExecutionResult, s: Shell)
    requires GoesThrough(frames, r) && InOneFunction(frames) && (Delivers(s) ==> Silent(frames, r))
    ensures Steps(w, |frames|, Config(Completed(r, s), frames + outer))
            == Config(Completed(PassedAll(frames, r), ShellAfterAll(frames, r, s)), outer)
  {
    hide Leave;
    if frames == [] {
      assert frames + outer == outer;
    } else {
      PassesOn(w, frames[0], r, s);
      assert (frames + outer)[1..] == frames[1..] + outer;
      PassesThrough(w, frames[1..], outer, Passed(frames[0], r), ShellAfter(frames[0], r, s));
    }
  }

  /** All that changes is the status, and that is the code as it came out in the end. */
  lemma {:induction false} ShellAfterIs(frames: seq<Frame>, r: ExecutionResult, s: Shell)
    ensures PassedAll(frames, r).code == CodeAfter(frames, r.code)
    ensures ShellAfterAll(frames, r, s)
            == if exists i :: 0 <= i < |frames| && SetsStatus(frames[i]) then s.(status := CodeAfter(frames, r.code)) else s
  {
    if frames != [] {
      var f, rest := frames[0], frames[1..];
      ShellAfterIs(rest, Passed(f, r), ShellAfter(f, r, s));
      if i :| 0 <= i < |rest| && SetsStatus(rest[i]) {
        assert SetsStatus(frames[i + 1]);
      } else {
        NothingNegated(rest, Passed(f, r).code);
        assert forall i :: 1 <= i < |frames| ==> frames[i] == rest[i - 1];
      }
    }
  }

  lemma {:induction false} NothingNegated(frames: seq<Frame>, code: ExitCode)
    requires forall i :: 0 <= i < |frames| ==> !SetsStatus(frames[i])
    ensures CodeAfter(frames, code) == code
  {
    if frames != [] {
      NothingNegated(frames[1..], code);
    }
  }

  /** An exit goes through function calls too. */
  lemma {:induction false} ExitPassesThrough(w: World, frames: seq<Frame>, outer: seq<Frame>, r: ExecutionResult, s: Shell,
                                             base: Shape)
    returns (s': Shell)
    requires r.flow.ExitShell? && GoesThrough(frames, r) && Balanced(frames, ShapeOf(s), base)
    requires s.errTrap.None? || Silent(frames, r)
    ensures Steps(w, |frames|, Config(Completed(r, s), frames + outer)) == Config(Completed(PassedAll(frames, r), s'), outer)
    ensures ShapeOf(s') == base
  {
    hide Leave;
    if frames == [] {
      assert frames + outer == outer;
      s' := s;
    } else {
      var f, shape := frames[0], Under(frames[0], ShapeOf(s));
      if f.FunctionEnd? {
        ExitLeavesFunction(w, f, r, s, shape);
      } else {
        PassesOn(w, f, r, s);
      }
      assert (frames + outer)[1..] == frames[1..] + outer;
      s' := ExitPassesThrough(w, frames[1..], outer, Passed(f, r), Leave(w, f, Ok(r), s).shell, base);
    }
  }

  // ----- With a handler for ERR -----------------------------------------------------------------

  /** A program has a result, whatever fails in it. */
  lemma {:induction false} ProgramHasResult(w: World, fuel: nat, program: Program, last: ExecutionResult, sup: bool, s: Shell)
    requires Drive(w, fuel, NextProgram(program, last, sup, s)).Finished?
    ensures Drive(w, fuel, NextProgram(program, last, sup, s)).result.Ok?
    decreases fuel
  {
    hide Enter, Leave;
    var m := NextProgram(program, last, sup, s);
    if m.Call? {
      var o := Drive(w, fuel - 1, Enter(w, m.task, m.sup, m.shell));
      var result := Settled(o.result, o.shell);
      ProgramGoesOn(w, m.frame, o.result, o.shell);
      ProgramHasResult(w, fuel - 1, program[1..], result, sup, o.shell.(status := result.code));
    }
  }

  lemma ProgramGoesOn(w: World, f: Frame, r: Result<ExecutionResult, Failure>, s: Shell)
    requires f.ProgramRest?
    ensures Leave(w, f, r, s) == NextProgram(f.program, Settled(r, s), f.sup, s.(status := Settled(r, s).code))
  {
  }

  /** The handler's end brings back the result that the handler was run for. */
  lemma HandlerPassesOn(w: World, fuel: nat, f: Frame, r: ExecutionResult, s: Shell)
    requires KeepsShape(w) && LetsThrough(f, r) && IsHeard(f, r) && Delivers(s)
    requires Drive(w, fuel, Leave(w, f, Ok(r), s)).Finished?
    ensures var o := Drive(w, fuel, Leave(w, f, Ok(r), s)); o.result == Ok(r) && ShapeOf(o.shell) == ShapeOf(s)
  {
    hide Drive, Enter, Kinds;
    var s' := s.(status := r.code);
    var m := Leave(w, f, Ok(r), s);
    assert m == Call(RunProgram(s.errTrap.value), false, s'.(inErrTrap := true), TrapEnd(r.code, r, false));
    HandlerEnds(w, fuel, m);
  }

  lemma HandlerEnds(w: World, fuel: nat, m: Move)
    requires KeepsShape(w) && m.Call? && m.task.RunProgram? && m.frame.TrapEnd? && Drive(w, fuel, m).Finished?
    requires !m.frame.result.IsNormalFlow() && m.shell.inErrTrap
    ensures var o := Drive(w, fuel, m);
            o.result == Ok(m.frame.result) && ShapeOf(o.shell) == ShapeOf(m.shell.(inErrTrap := false))
  {
    hide Leave, Kinds, NextProgram;
    var inner := Enter(w, m.task, m.sup, m.shell);
    var o := Drive(w, fuel - 1, inner);
    ProgramHasResult(w, fuel - 1, m.task.program, SUCCESS, m.sup, m.shell);
    RunKeepsShape(w, fuel - 1, m.task, m.sup, m.shell);
    TrapEnds(w, m.frame, o.result.value, o.shell);
  }

  lemma TrapEnds(w: World, f: Frame, r: ExecutionResult, s: Shell)
    requires f.TrapEnd? && !f.result.IsNormalFlow()
    ensures Leave(w, f, Ok(r), s) == Completed(f.result, s.(inErrTrap := false, status := f.status))
  {
  }

  /** Whatever handlers for ERR do on the way, the result that arrives is the one that set out,
      with the levels that the loops used up and the negations; and every construct on the way
      is ended and has taken its scopes, depths and flags with it. */
  lemma {:induction false} Unwinds(w: World, fuel: nat, frames: seq<Frame>, outer: seq<Frame>, r: ExecutionResult, s: Shell,
                                   base: Shape)
    returns (s': Shell)
    requires KeepsShape(w) && GoesThrough(frames, r) && Balanced(frames, ShapeOf(s), base)
    requires DriveAll(w, fuel, Completed(r, s), frames + outer).Finished?
    ensures DriveAll(w, fuel, Completed(r, s), frames + outer) == DriveAll(w, fuel, Completed(PassedAll(frames, r), s'), outer)
    ensures ShapeOf(s') == base
    decreases |frames|
  {
    hide Leave, KeepsShape, Delivers, IsHeard;
    if frames == [] {
      assert frames + outer == outer;
      s' := s;
    } else {
      var f, shape := frames[0], Under(frames[0], ShapeOf(s));
      assert (frames + outer)[0] == f && (frames + outer)[1..] == frames[1..] + outer;
      var m := Leave(w, f, Ok(r), s);
      assert DriveAll(w, fuel, Completed(r, s), frames + outer) == DriveAll(w, fuel, m, frames[1..] + outer);
      var o := Drive(w, fuel, m);
      OneUnwinds(w, fuel, f, r, s, shape);
      SameOutcomeDrivesAll(w, fuel, m, Completed(Passed(f, r), o.shell), frames[1..] + outer);
      s' := Unwinds(w, fuel, frames[1..], outer, Passed(f, r), o.shell, base);
    }
  }

  lemma OneUnwinds(w: World, fuel: nat, f: Frame, r: ExecutionResult, s: Shell, shape: Shape)
    requires KeepsShape(w) && LetsThrough(f, r) && Fits(f, ShapeOf(s), shape)
    requires Drive(w, fuel, Leave(w, f, Ok(r), s)).Finished?
    ensures var o := Drive(w, fuel, Leave(w, f, Ok(r), s)); o.result == Ok(Passed(f, r)) && ShapeOf(o.shell) == shape
  {
    hide Leave, KeepsShape, Delivers;
    if f.FunctionEnd? {
      ExitLeavesFunction(w, f, r, s, shape);
    } else if IsHeard(f, r) && Delivers(s) {
      HandlerPassesOn(w, fuel, f, r, s);
    } else {
      PassesOn(w, f, r, s);
    }
  }

  lemma SameOutcomeDrivesAll(w: World, fuel: nat, m: Move, n: Move, frames: seq<Frame>)
    requires Drive(w, fuel, m) == Drive(w, fuel, n)
    ensures DriveAll(w, fuel, m, frames) == DriveAll(w, fuel, n, frames)
  {
    hide Drive, Leave;
  }

  lemma LeaveFirst(w: World, fuel: nat, f: Frame, r: ExecutionResult, s: Shell, outer: seq<Frame>)
    ensures DriveAll(w, fuel, Completed(r, s), [f] + outer) == DriveAll(w, fuel, Leave(w, f, Ok(r), s), outer)
  {
    hide Leave;
    assert ([f] + outer)[1..] == outer;
  }

  /** Balance up to any frame in between. */
  lemma {:induction false} BalancedSplits(frames: seq<Frame>, rest: seq<Frame>, shape: Shape, base: Shape) returns (middle: Shape)
    requires Balanced(frames + rest, shape, base)
    ensures Balanced(frames, shape, middle) && Balanced(rest, middle, base)
  {
    if frames == [] {
      assert frames + rest == rest;
      middle := shape;
    } else {
      assert (frames + rest)[1..] == frames[1..] + rest;
      middle := BalancedSplits(frames[1..], rest, Under(frames[0], shape), base);
    }
  }
}
