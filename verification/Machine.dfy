/** The interpreter as a machine that makes one move at a time on a stack of waiting frames,
    and the proof that its runs and the nested runs of the interpreter are the same. */
module Machine {
  import opened Wrappers
  import opened Results
  import opened Interp

  /** The innermost frame comes first. */
  datatype Config = Config(move: Move, frames: seq<Frame>)

  function Step(w: World, c: Config): Config {
    match c.move
    case Call(task, sup, s, frame) => Config(Enter(w, task, sup, s), [frame] + c.frames)
    case Done(r, s) => if c.frames == [] then c else Config(Leave(w, c.frames[0], r, s), c.frames[1..])
  }

  function Steps(w: World, n: nat, c: Config): Config {
    if n == 0 then c else Steps(w, n - 1, Step(w, c))
  }

  lemma {:induction false} StepsAdd(w: World, a: nat, b: nat, c: Config)
    ensures Steps(w, a + b, c) == Steps(w, b, Steps(w, a, c))
  {
    hide Step;
    if a > 0 {
      StepsAdd(w, a - 1, b, Step(w, c));
    }
  }

  /** More fuel does not change the outcome of a run that ended. */
  lemma {:induction false} FuelIsEnough(w: World, a: nat, b: nat, m: Move)
    requires a <= b && Drive(w, a, m).Finished?
    ensures Drive(w, b, m) == Drive(w, a, m)
    decreases a
  {
    hide Enter, Leave;
    if m.Call? {
      var inner := Enter(w, m.task, m.sup, m.shell);
      FuelIsEnough(w, a - 1, b - 1, inner);
      var o := Drive(w, a - 1, inner);
      FuelIsEnough(w, a - 1, b - 1, Leave(w, m.frame, o.result, o.shell));
    }
  }

  /** A nested run that ends is a run of the machine that brings it back to the same frames. */
  lemma {:induction false} DriveIsSteps(w: World, fuel: nat, m: Move, frames: seq<Frame>) returns (n: nat)
    requires Drive(w, fuel, m).Finished?
    ensures var o := Drive(w, fuel, m);
            Steps(w, n, Config(m, frames)) == Config(Done(o.result, o.shell), frames)
    decreases fuel
  {
    hide Enter, Leave;
    n := 0;
    if m.Call? {
      var c := Config(m, frames);
      var inner := Enter(w, m.task, m.sup, m.shell);
      var o := Drive(w, fuel - 1, inner);
      var outer := Leave(w, m.frame, o.result, o.shell);
      var a := DriveIsSteps(w, fuel - 1, inner, [m.frame] + frames);
      var b := DriveIsSteps(w, fuel - 1, outer, frames);
      assert Step(w, Config(Done(o.result, o.shell), [m.frame] + frames)) == Config(outer, frames);
      StepsAdd(w, a, 1 + b, Step(w, c));
      n := 1 + a + 1 + b;
    }
  }

  /** Drives the move of a configuration, then leaves its frames one by one. */
  function DriveAll(w: World, fuel: nat, m: Move, frames: seq<Frame>): Outcome
    decreases |frames|
  {
    var o := Drive(w, fuel, m);
    if o.OutOfFuel? || frames == [] then o
    else DriveAll(w, fuel, Leave(w, frames[0], o.result, o.shell), frames[1..])
  }

  lemma {:induction false} FuelIsEnoughForAll(w: World, a: nat, b: nat, m: Move, frames: seq<Frame>)
    requires a <= b && DriveAll(w, a, m, frames).Finished?
    ensures DriveAll(w, b, m, frames) == DriveAll(w, a, m, frames)
    decreases |frames|
  {
    hide Enter, Leave, Drive;
    FuelIsEnough(w, a, b, m);
    var o := Drive(w, a, m);
    if frames != [] {
      FuelIsEnoughForAll(w, a, b, Leave(w, frames[0], o.result, o.shell), frames[1..]);
    }
  }

  /** One step of the machine is worth at most one unit of fuel. */
  lemma DriveAllStep(w: World, fuel: nat, c: Config)
    requires var c' := Step(w, c); DriveAll(w, fuel, c'.move, c'.frames).Finished?
    ensures var c' := Step(w, c);
            DriveAll(w, fuel + 1, c.move, c.frames) == DriveAll(w, fuel, c'.move, c'.frames)
  {
    hide Enter, Leave;
    var c' := Step(w, c);
    FuelIsEnoughForAll(w, fuel, fuel + 1, c'.move, c'.frames);
    match c.move
    case Done(_, _) =>
    case Call(task, sup, s, frame) =>
      var inner := Drive(w, fuel, c'.move);
      assert c'.frames[0] == frame && c'.frames[1..] == c.frames;
      var outer := Leave(w, frame, inner.result, inner.shell);
      assert DriveAll(w, fuel, c'.move, c'.frames) == DriveAll(w, fuel, outer, c.frames);
      assert Drive(w, fuel + 1, c.move) == Drive(w, fuel, outer);
      var o := Drive(w, fuel, outer);
      if c.frames != [] {
        FuelIsEnoughForAll(w, fuel, fuel + 1, Leave(w, c.frames[0], o.result, o.shell), c.frames[1..]);
      }
  }

  lemma DriveAllDone(w: World, c: Config)
    requires c.move.Done? && c.frames == []
    ensures DriveAll(w, 0, c.move, c.frames) == Finished(c.move.result, c.move.shell)
  {
  }

  /** A run of the machine that ends is a nested run, with as much fuel as it has steps. */
  lemma {:induction false} StepsIsDriveAll(w: World, n: nat, c: Config)
    requires var last := Steps(w, n, c); last.move.Done? && last.frames == []
    ensures var last := Steps(w, n, c);
            DriveAll(w, n, c.move, c.frames) == Finished(last.move.result, last.move.shell)
  {
    hide Step, DriveAll;
    if n == 0 {
      DriveAllDone(w, c);
    } else {
      StepsIsDriveAll(w, n - 1, Step(w, c));
      DriveAllStep(w, n - 1, c);
    }
  }

  /** The two ways of running agree: a task has an outcome for some amount of fuel exactly if
      the machine, started on it with no frames, comes to rest with that outcome. */
  lemma NestedRunIsMachineRun(w: World, task: Task, sup: bool, s: Shell, r: Result<ExecutionResult, Failure>, s': Shell)
    ensures (exists fuel :: Run(w, fuel, task, sup, s) == Finished(r, s'))
            <==> (exists n :: Steps(w, n, Config(Enter(w, task, sup, s), [])) == Config(Done(r, s'), []))
  {
    hide Enter, Leave, Steps;
    var start := Config(Enter(w, task, sup, s), []);
    if fuel :| Run(w, fuel, task, sup, s) == Finished(r, s') {
      var n := DriveIsSteps(w, fuel, start.move, []);
      assert Steps(w, n, start) == Config(Done(r, s'), []);
    }
    if n :| Steps(w, n, start) == Config(Done(r, s'), []) {
      StepsIsDriveAll(w, n, start);
      assert Run(w, n, task, sup, s) == Finished(r, s');
    }
  }
}
