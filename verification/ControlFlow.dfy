/** What `break n` and `continue n` do to the loops around them, wherever they stand
    (brush-core/src/interp.rs:1028-1063 and the other loops). */
module ControlFlow {
  import opened Wrappers
  import opened Results
  import opened Interp
  import opened Machine
  import opened Scopes
  import opened Signals
  import E = Environment

  /** What a signal to a loop gets through; functions, subshells and trap handlers stop it. */
  predicate Transparent(f: Frame) { !f.FunctionEnd? && !f.SubshellEnd? && !f.TrapEnd? }

  predicate AllTransparent(frames: seq<Frame>) { forall i :: 0 <= i < |frames| ==> Transparent(frames[i]) }

  function Loops(frames: seq<Frame>): nat {
    if frames == [] then 0 else Loops(frames[1..]) + if IsLoop(frames[0]) then 1 else 0
  }

  /** The number of frames up to the n-th loop, that loop included. */
  function Through(frames: seq<Frame>, n: nat): (k: nat)
    requires 1 <= n <= Loops(frames)
    ensures k <= |frames|
  {
    if IsLoop(frames[0]) && n == 1 then 1
    else 1 + Through(frames[1..], if IsLoop(frames[0]) then n - 1 else n)
  }

  function Signal(isBreak: bool, levels: nat, code: ExitCode): ExecutionResult {
    ExecutionResult(if isBreak then BreakLoop(levels) else ContinueLoop(levels), code)
  }

  /** A signal with enough levels goes through all the loops, ends each and uses up a level at
      each. */
  lemma {:induction false} SignalGoesThrough(frames: seq<Frame>, isBreak: bool, levels: nat, code: ExitCode)
    requires AllTransparent(frames) && levels >= Loops(frames)
    ensures GoesThrough(frames, Signal(isBreak, levels, code)) && InOneFunction(frames)
    ensures PassedAll(frames, Signal(isBreak, levels, code))
            == Signal(isBreak, levels - Loops(frames), CodeAfter(frames, code))
  {
    if frames != [] {
      var f := frames[0];
      SignalGoesThrough(frames[1..], isBreak, if IsLoop(f) then levels - 1 else levels, Passed(f, Signal(isBreak, levels, code)).code);
    }
  }

  lemma {:induction false} ThroughIs(frames: seq<Frame>, n: nat)
    requires 1 <= n <= Loops(frames)
    ensures var k := Through(frames, n);
            k > 0 && IsLoop(frames[k - 1]) && Loops(frames[..k - 1]) == n - 1
  {
    if !(IsLoop(frames[0]) && n == 1) {
      var n' := if IsLoop(frames[0]) then n - 1 else n;
      ThroughIs(frames[1..], n');
      var k := Through(frames, n);
      assert frames[..k - 1][1..] == frames[1..][..k - 2];
    } else {
      assert frames[..0] == [];
    }
  }

  /** The loops and constructs inside the n-th loop. */
  function Inside(frames: seq<Frame>, n: nat): seq<Frame>
    requires 1 <= n <= Loops(frames)
  {
    var k := Through(frames, n);
    if k == 0 then [] else frames[..k - 1]
  }

  /** A signal of n levels reaches the n-th loop at level 0, all the loops inside it ended. */
  lemma SignalReaches(w: World, frames: seq<Frame>, outer: seq<Frame>, isBreak: bool, n: nat, s: Shell)
    requires AllTransparent(frames) && 1 <= n <= Loops(frames)
    requires Delivers(s) ==> Silent(Inside(frames, n), Signal(isBreak, n - 1, 0))
    ensures var k, inner, r := Through(frames, n), Inside(frames, n), Signal(isBreak, n - 1, 0);
            k > 0 && IsLoop(frames[k - 1])
            && Steps(w, k, Config(Completed(r, s), frames + outer))
               == Config(Leave(w, frames[k - 1], Ok(Signal(isBreak, 0, CodeAfter(inner, 0))), ShellAfterAll(inner, r, s)),
                         frames[k..] + outer)
  {
    hide Leave, ShellAfterAll, PassedAll, GoesThrough, Silent, CodeAfter;
    ThroughIs(frames, n);
    var k, inner, r := Through(frames, n), Inside(frames, n), Signal(isBreak, n - 1, 0);
    var rest := frames[k - 1..] + outer;
    assert frames + outer == inner + rest;
    SignalGoesThrough(inner, isBreak, n - 1, 0);
    PassesThrough(w, inner, rest, r, s);
    StepsAdd(w, k - 1, 1, Config(Completed(r, s), frames + outer));
    assert rest[0] == frames[k - 1] && rest[1..] == frames[k..] + outer;
    var reached := Config(Completed(PassedAll(inner, r), ShellAfterAll(inner, r, s)), rest);
    assert Steps(w, 1, reached) == Step(w, reached);
  }

  /** `break n` inside d loops. If n <= d, it ends exactly the n innermost loops, and the rest
      goes on as after a loop that ended with the status that the negations inside it make of 0. */
  lemma BreakEndsLoops(w: World, frames: seq<Frame>, outer: seq<Frame>, n: nat, s: Shell)
    requires AllTransparent(frames) && 1 <= n < 128 && n <= Loops(frames)
    requires Delivers(s) ==> Silent(Inside(frames, n), BreakResult(n))
    ensures var k, code := Through(frames, n), CodeAfter(Inside(frames, n), 0);
            && k > 0 && IsLoop(frames[k - 1]) && Loops(frames[..k]) == n
            && code == Negations(Inside(frames, n)) % 2
            && Steps(w, k, Config(Completed(BreakResult(n), s), frames + outer))
               == Config(Completed(ExecutionResult(Normal, code), s.(status := code)), frames[k..] + outer)
  {
    hide Steps, Loops, Through, ShellAfterAll, CodeAfter, Silent, Leave;
    SignalReaches(w, frames, outer, true, n, s);
    ThroughIs(frames, n);
    var k, inner, r := Through(frames, n), Inside(frames, n), BreakResult(n);
    CodeIsParity(inner, 0);
    ShellAfterIs(inner, r, s);
    BreakIsEndOfLoop(w, frames[k - 1], CodeAfter(inner, 0), ShellAfterAll(inner, r, s));
    LoopsOfMore(frames, k - 1);
  }

  lemma BreakIsEndOfLoop(w: World, f: Frame, code: ExitCode, s: Shell)
    requires IsLoop(f)
    ensures Leave(w, f, Ok(Signal(true, 0, code)), s) == Completed(ExecutionResult(Normal, code), s.(status := code))
  {
  }

  lemma {:induction false} LoopsOfMore(frames: seq<Frame>, k: nat)
    requires k < |frames|
    ensures Loops(frames[..k + 1]) == Loops(frames[..k]) + if IsLoop(frames[k]) then 1 else 0
  {
    if k == 0 {
      assert frames[..0] == [] && frames[..1][1..] == [];
    } else {
      assert frames[..k + 1][1..] == frames[1..][..k] && frames[..k][1..] == frames[1..][..k - 1];
      LoopsOfMore(frames[1..], k - 1);
    }
  }

  /** `continue n` inside d loops, n <= d: the n - 1 innermost loops end, and the n-th goes on
      exactly as if its body had just ended normally, with the status that the negations inside
      it make of 0. Only if the signal comes out of the condition of the n-th loop does that loop
      end too. */
  lemma ContinueResumesLoop(w: World, frames: seq<Frame>, outer: seq<Frame>, n: nat, s: Shell)
    requires AllTransparent(frames) && 1 <= n < 128 && n <= Loops(frames)
    requires Delivers(s) ==> Silent(Inside(frames, n), ContinueResult(n))
    ensures var k, inner := Through(frames, n), Inside(frames, n);
            && k > 0 && IsLoop(frames[k - 1]) && Loops(inner) == n - 1
            && CodeAfter(inner, 0) == Negations(inner) % 2
            && var ended := ExecutionResult(Normal, CodeAfter(inner, 0));
               var next := Steps(w, k, Config(Completed(ContinueResult(n), s), frames + outer));
               && next.frames == frames[k..] + outer
               && if WaitsForBody(frames[k - 1])
                  then next.move == Leave(w, frames[k - 1], Ok(ended), ShellAfterAll(inner, ContinueResult(n), s))
                  else next.move == Completed(ended, s.(status := ended.code))
  {
    hide Steps, Loops, Through, Leave, ShellAfterAll, CodeAfter, Silent;
    SignalReaches(w, frames, outer, false, n, s);
    ThroughIs(frames, n);
    var k, inner, r := Through(frames, n), Inside(frames, n), ContinueResult(n);
    CodeIsParity(inner, 0);
    ShellAfterIs(inner, r, s);
    ContinueIsEndOfBody(w, frames[k - 1], CodeAfter(inner, 0), ShellAfterAll(inner, r, s));
  }

  lemma ContinueIsEndOfBody(w: World, f: Frame, code: ExitCode, s: Shell)
    requires IsLoop(f)
    ensures Leave(w, f, Ok(Signal(false, 0, code)), s)
            == if WaitsForBody(f) then Leave(w, f, Ok(ExecutionResult(Normal, code)), s)
               else Completed(ExecutionResult(Normal, code), s.(status := code))
  {
  }

  /** With fewer than n loops around, both end all d of them, and level n - 1 - d survives. */
  lemma TooManyLevels(w: World, frames: seq<Frame>, outer: seq<Frame>, isBreak: bool, n: nat, s: Shell)
    requires AllTransparent(frames) && Loops(frames) < n < 128
    requires Delivers(s) ==> Silent(frames, Signal(isBreak, n - 1, 0))
    ensures var r := if isBreak then BreakResult(n) else ContinueResult(n);
            Steps(w, |frames|, Config(Completed(r, s), frames + outer))
            == Config(Completed(Signal(isBreak, n - 1 - Loops(frames), CodeAfter(frames, 0)), ShellAfterAll(frames, r, s)), outer)
  {
    hide Steps, Loops, ShellAfterAll, PassedAll, GoesThrough, Silent, CodeAfter;
    SignalGoesThrough(frames, isBreak, n - 1, 0);
    PassesThrough(w, frames, outer, Signal(isBreak, n - 1, 0), s);
  }

  /** The end of a subshell or of a function call takes what survives: the subshell ends normally,
      and the call ends normally with error 99, whatever handlers for ERR do on the way; and the
      scopes are the caller's again. */
  lemma BoundaryTakesSignal(w: World, fuel: nat, frames: seq<Frame>, f: Frame, outer: seq<Frame>, isBreak: bool, n: nat,
                            s: Shell, base: Shape)
    returns (s': Shell)
    requires KeepsShape(w) && AllTransparent(frames) && Loops(frames) < n < 128
    requires (f.SubshellEnd? || f.FunctionEnd?) && Balanced(frames + [f], ShapeOf(s), base)
    requires var r := if isBreak then BreakResult(n) else ContinueResult(n);
             DriveAll(w, fuel, Completed(r, s), frames + [f] + outer).Finished?
    ensures var r := if isBreak then BreakResult(n) else ContinueResult(n);
            var code := if f.SubshellEnd? then CodeAfter(frames, 0) else UNIMPLEMENTED;
            && ShapeOf(s') == base
            && DriveAll(w, fuel, Completed(r, s), frames + [f] + outer)
               == DriveAll(w, fuel, Completed(ExecutionResult(Normal, code), s'), outer)
  {
    hide Leave, KeepsShape, GoesThrough, PassedAll, CodeAfter, Loops, Kinds, DriveAll;
    var r := Signal(isBreak, n - 1, 0);
    SignalGoesThrough(frames, isBreak, n - 1, 0);
    assert frames + [f] + outer == frames + ([f] + outer);
    var middle := BalancedSplits(frames, [f], ShapeOf(s), base);
    var last := Unwinds(w, fuel, frames, [f] + outer, r, s, middle);
    var left := Signal(isBreak, n - 1 - Loops(frames), CodeAfter(frames, 0));
    BoundaryLeft(w, f, isBreak, left.flow.levels, left.code, last, base);
    LeaveFirst(w, fuel, f, left, last, outer);
    s' := Leave(w, f, Ok(left), last).shell;
  }

  lemma BoundaryLeft(w: World, f: Frame, isBreak: bool, levels: nat, code: ExitCode, s: Shell, base: Shape)
    requires (f.SubshellEnd? || f.FunctionEnd?) && Balanced([f], ShapeOf(s), base)
    ensures var m := Leave(w, f, Ok(Signal(isBreak, levels, code)), s);
            && m.Done? && m.result == Ok(ExecutionResult(Normal, if f.SubshellEnd? then code else UNIMPLEMENTED))
            && ShapeOf(m.shell) == base
  {
    var r := Signal(isBreak, levels, code);
    assert [f][1..] == [];
    if f.FunctionEnd? {
      LeaveFunctionStays(f, Ok(r), s, base);
      assert base.scopes + [E.Command, E.Local] == (base.scopes + [E.Command]) + [E.Local];
      PoppedKinds(s.env, base.scopes + [E.Command], E.Local);
    }
  }
}
