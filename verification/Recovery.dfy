/** Crash safety of a merge: wherever it is cut short, and however often the recovery is, a restart
    finds all of it or nothing, and when it does not (shellmux/src/commit.rs:107-260,
    shellmux/src/mux.rs:1194-1218). */
module Recovery {
  import opened Wrappers
  import opened Trees
  import opened Files
  import opened Replay
  import opened Links
  import opened Commit

  /** A merge of a job's snapshot into the seed. */
  datatype Job = Job(uid: string, n: nat, grant: string, change: Change)

  ghost predicate Fits(l: Layout, d: Disk, j: Job) {
    && IsChange(j.change) && WritesWork(j)
    && Begins(d.fs, RootsOf(l, j.uid), j.change)
    && j.n !in Remembered(d.history)
  }

  predicate WritesWork(j: Job) { forall p | p in j.change.writes :: p in j.change.work }

  lemma FitsWrites(l: Layout, d: Disk, j: Job)
    requires Fits(l, d, j)
    ensures WritesWork(j) && IsChange(j.change) && Begins(d.fs, RootsOf(l, j.uid), j.change)
  {
  }

  function Count(j: Job): nat { |j.change.removes| + |j.change.writes| }

  function Batch(hash: Hash, j: Job): (b: seq<Record>)
    requires WritesWork(j)
    ensures |b| == Count(j) + 1
  {
    [Begin(j.n, j.uid, j.grant, Some(Count(j)))] + Ops(hash, j.change)
  }

  // ----- What the log says ----------------------------------------------------------------------

  predicate IsOp(r: Record) { r.Move? || r.Delete? }

  predicate AllOps(records: seq<Record>) { forall i :: 0 <= i < |records| ==> IsOp(records[i]) }

  lemma {:induction false} DeletesAreOps(removes: seq<Path>)
    ensures AllOps(Deletes(removes))
  {
    if removes != [] {
      DeletesAreOps(removes[1..]);
    }
  }

  lemma {:induction false} MovesAreOps(hash: Hash, work: Tree, writes: seq<Path>)
    requires forall p | p in writes :: p in work
    ensures AllOps(Moves(hash, work, writes))
    decreases |writes|
  {
    if writes != [] {
      MovesAreOps(hash, work, writes[1..]);
    }
  }

  lemma ParseSnoc(log: seq<Record>, r: Record)
    ensures Parse(log + [r]) == AddRecord(Parse(log), r)
  {
    assert (log + [r])[..|log|] == log;
  }

  lemma {:induction false} ParseOps(log: seq<Record>, ts: seq<Transaction>, t: Transaction, ops: seq<Record>)
    requires Parse(log) == ts + [t] && AllOps(ops)
    ensures Parse(log + ops) == ts + [t.(records := t.records + ops)]
  {
    if ops == [] {
      assert log + ops == log && t.records + ops == t.records;
    } else {
      var init, r := ops[..|ops| - 1], ops[|ops| - 1];
      ParseOps(log, ts, t, init);
      assert log + ops == (log + init) + [r];
      ParseSnoc(log + init, r);
      assert (t.records + init) + [r] == t.records + ops;
      assert IsOp(r);
      var before := ts + [t.(records := t.records + init)];
      assert before[|before| - 1 := t.(records := t.records + ops)] == ts + [t.(records := t.records + ops)];
    }
  }

  function Opened(j: Job, records: seq<Record>): Transaction {
    Transaction(j.n, j.uid, j.grant, Some(Count(j)), records, false)
  }

  /** A batch of which only the first `k` records are in the log. */
  lemma ParseTorn(hash: Hash, log: seq<Record>, j: Job, k: nat)
    requires WritesWork(j) && 1 <= k <= Count(j) + 1
    ensures Parse(log + Batch(hash, j)[..k])
            == Parse(log) + [Opened(j, Ops(hash, j.change)[..k - 1])]
  {
    hide Parse, Deletes, Moves;
    var batch, ops := Batch(hash, j), Ops(hash, j.change);
    DeletesAreOps(j.change.removes);
    MovesAreOps(hash, j.change.work, j.change.writes);
    ParseSnoc(log, batch[0]);
    ParseOps(log + [batch[0]], Parse(log), Opened(j, []), ops[..k - 1]);
    assert log + batch[..k] == log + [batch[0]] + ops[..k - 1];
    assert [] + ops[..k - 1] == ops[..k - 1];
  }

  lemma ParseWhole(hash: Hash, log: seq<Record>, j: Job)
    requires WritesWork(j)
    ensures var t := Opened(j, Ops(hash, j.change));
            && Parse(log + Batch(hash, j)) == Parse(log) + [t]
            && Parse(log + Batch(hash, j) + [End(j.n)]) == Parse(log) + [t.(finished := true)]
  {
    hide Parse, Ops;
    var batch, ops := Batch(hash, j), Ops(hash, j.change);
    ParseTorn(hash, log, j, Count(j) + 1);
    assert batch[..Count(j) + 1] == batch && ops[..Count(j)] == ops;
    ParseSnoc(log + batch, End(j.n));
    assert (Parse(log) + [Opened(j, ops)])[..|Parse(log)|] == Parse(log);
  }

  lemma {:induction false} PathsOfDeletes(removes: seq<Path>, rest: seq<Record>)
    ensures PathsOf(Deletes(removes) + rest) == removes + PathsOf(rest)
  {
    var all := Deletes(removes) + rest;
    if removes == [] {
      assert all == rest;
    } else {
      assert all[0] == Delete(removes[0]) && all[1..] == Deletes(removes[1..]) + rest;
      PathsOfDeletes(removes[1..], rest);
      assert [removes[0]] + (removes[1..] + PathsOf(rest)) == removes + PathsOf(rest);
    }
  }

  lemma {:induction false} PathsOfMoves(hash: Hash, work: Tree, writes: seq<Path>)
    requires forall p | p in writes :: p in work
    ensures PathsOf(Moves(hash, work, writes)) == writes
    decreases |writes|
  {
    if writes != [] {
      var all := Moves(hash, work, writes);
      assert all[1..] == Moves(hash, work, writes[1..]);
      PathsOfMoves(hash, work, writes[1..]);
    }
  }

  // ----- A log with nothing to do ---------------------------------------------------------------

  /** Abandoned, or done and remembered. */
  predicate Idle(t: Transaction, remembered: set<nat>) {
    ValidFrame(t) && (Incomplete(t) || (t.finished && t.seqNo in remembered))
  }

  ghost predicate AllIdle(ts: seq<Transaction>, remembered: set<nat>) {
    forall i :: 0 <= i < |ts| ==> Idle(ts[i], remembered)
  }

  ghost predicate Clean(d: Disk) { AllIdle(Parse(d.log), Remembered(d.history)) }

  /** Idle transactions in front do not matter. */
  lemma {:induction false} IdleRecovers(hash: Hash, l: Layout, d: Disk, ts: seq<Transaction>, rest: seq<Transaction>, remembered: set<nat>)
    requires AllIdle(ts, remembered)
    ensures RecoverAll(hash, l, d, ts + rest, remembered) == RecoverAll(hash, l, d, rest, remembered)
    decreases |ts|
  {
    if ts == [] {
      assert ts + rest == rest;
    } else {
      assert (ts + rest)[0] == ts[0] && (ts + rest)[1..] == ts[1..] + rest;
      assert Idle(ts[0], remembered);
      assert RecoverOne(hash, l, d, ts[0], remembered) == Ok(d);
      IdleRecovers(hash, l, d, ts[1..], rest, remembered);
    }
  }

  lemma IdleIsValid(ts: seq<Transaction>, remembered: set<nat>)
    requires AllIdle(ts, remembered)
    ensures FirstBad(ts).None?
  {
  }

  /** A restart changes nothing then. */
  lemma CleanRecovers(hash: Hash, l: Layout, d: Disk)
    requires Clean(d)
    ensures Recovered(hash, l, d) == Ok(d)
  {
    var ts := Parse(d.log);
    IdleIsValid(ts, Remembered(d.history));
    IdleRecovers(hash, l, d, ts, [], Remembered(d.history));
    assert ts + [] == ts;
  }

  /** With one more transaction behind, a restart does what it does for that one. */
  lemma RecoversLast(hash: Hash, l: Layout, d: Disk, ts: seq<Transaction>, t: Transaction)
    requires Parse(d.log) == ts + [t] && AllIdle(ts, Remembered(d.history)) && ValidFrame(t)
    ensures Recovered(hash, l, d) == RecoverOne(hash, l, d, t, Remembered(d.history))
  {
    var all, remembered := Parse(d.log), Remembered(d.history);
    IdleIsValid(ts, remembered);
    assert all[..|all| - 1] == ts;
    IdleRecovers(hash, l, d, ts, [t], remembered);
    assert [t][1..] == [];
  }

  // ----- Any batch ------------------------------------------------------------------------------

  /** Frames with and without a count, from this version of the program or an older one. */
  function Framed(n: nat, uid: string, grant: string, count: Option<nat>, ops: seq<Record>, finished: bool): seq<Record> {
    [Begin(n, uid, grant, count)] + ops + if finished then [End(n)] else []
  }

  lemma ParseFramed(log: seq<Record>, n: nat, uid: string, grant: string, count: Option<nat>, ops: seq<Record>, finished: bool)
    requires AllOps(ops)
    ensures Parse(log + Framed(n, uid, grant, count, ops, finished))
            == Parse(log) + [Transaction(n, uid, grant, count, ops, finished)]
  {
    hide Parse;
    var begin := Begin(n, uid, grant, count);
    var t := Transaction(n, uid, grant, count, [], false);
    ParseSnoc(log, begin);
    ParseOps(log + [begin], Parse(log), t, ops);
    assert [] + ops == ops;
    var unfinished := log + [begin] + ops;
    if finished {
      ParseSnoc(unfinished, End(n));
      assert log + Framed(n, uid, grant, count, ops, true) == unfinished + [End(n)];
      assert (Parse(log) + [t.(records := ops)])[..|Parse(log)|] == Parse(log);
    } else {
      assert log + Framed(n, uid, grant, count, ops, false) == unfinished;
    }
  }

  lemma RefusesLast(hash: Hash, l: Layout, d: Disk, ts: seq<Transaction>, t: Transaction)
    requires Parse(d.log) == ts + [t] && AllIdle(ts, Remembered(d.history)) && !ValidFrame(t)
    ensures FirstBad(Parse(d.log)).Some? && Recovered(hash, l, d) == Err(FrameError(t))
  {
    IdleIsValid(ts, Remembered(d.history));
    assert (ts + [t])[..|ts|] == ts;
  }

  /** What a restart makes of a batch, by the number of operations that it declares and those that are
      there: too many are refused, and so are too few with an end; too few without one are abandoned, and
      just as many are carried out unless they have been. A batch that declares no number has to have its
      end. What is new is remembered. */
  lemma BatchIs(hash: Hash, l: Layout, d: Disk, n: nat, uid: string, grant: string, count: Option<nat>, ops: seq<Record>,
                finished: bool)
    requires Clean(d) && AllOps(ops) && n !in Remembered(d.history)
    ensures var d' := d.(log := d.log + Framed(n, uid, grant, count, ops, finished));
            var done := d'.(history := d.history + [Merge(n, grant, PathsOf(ops))]);
            Recovered(hash, l, d')
            == if count.None? then (if finished then Ok(done) else Err(LegacyUnfinished))
               else if |ops| > count.value || (finished && |ops| < count.value) then Err(BadFrame)
               else if |ops| < count.value then Ok(d')
               else if finished then Ok(done)
               else
                 match ApplyRecords(hash, d.fs, RootsOf(l, uid), ops)
                 case Err(e) => Err(e)
                 case Ok(fs) => Ok(done.(fs := fs, log := d'.log + [End(n)]))
  {
    hide Parse, ApplyRecords, PathsOf, Framed, Remembered, Recovered;
    var d' := d.(log := d.log + Framed(n, uid, grant, count, ops, finished));
    var t := Transaction(n, uid, grant, count, ops, finished);
    ParseFramed(d.log, n, uid, grant, count, ops, finished);
    if ValidFrame(t) {
      RecoversLast(hash, l, d', Parse(d.log), t);
    } else {
      RefusesLast(hash, l, d', Parse(d.log), t);
    }
  }

  // ----- A crash --------------------------------------------------------------------------------

  /** What the merge, and then restarts, have made of the files while they applied the records, each
      of them cut short. */
  ghost function CrashFiles(hash: Hash, l: Layout, fs: FileSystem, j: Job, cuts: seq<Cut>): FileSystem
    requires WritesWork(j)
    decreases |cuts|
  {
    if cuts == [] then fs
    else
      CutReplay(hash, CrashFiles(hash, l, fs, j, cuts[..|cuts| - 1]), RootsOf(l, j.uid), Ops(hash, j.change), cuts[|cuts| - 1])
  }

  /** How far a merge came: some of its records in the log; or all of them, and a number of attempts to
      apply them cut short; or after these a last one in full, and the end in the log too; or all. */
  datatype Stage = Torn(k: nat) | Applying(cuts: seq<Cut>) | Closed(cuts: seq<Cut>) | Merged(cuts: seq<Cut>)

  ghost predicate Reachable(hash: Hash, l: Layout, d: Disk, j: Job, stage: Stage)
    requires WritesWork(j)
  {
    match stage
    case Torn(k) => k <= Count(j)
    case Applying(_) => true
    case _ => Carry(hash, CrashFiles(hash, l, d.fs, j, stage.cuts), RootsOf(l, j.uid), j.change).Ok?
  }

  /** What a crash at that stage leaves on disk. */
  ghost function DiskAt(hash: Hash, l: Layout, d: Disk, j: Job, stage: Stage): Disk
    requires WritesWork(j) && Reachable(hash, l, d, j, stage)
  {
    match stage
    case Torn(k) => d.(log := d.log + Batch(hash, j)[..k])
    case Applying(cuts) => d.(log := d.log + Batch(hash, j), fs := CrashFiles(hash, l, d.fs, j, cuts))
    case Closed(cuts) => Closing(hash, l, d, j, cuts)
    case Merged(cuts) =>
      Closing(hash, l, d, j, cuts).(history := d.history + [Merge(j.n, j.grant, j.change.removes + j.change.writes)])
  }

  ghost function Closing(hash: Hash, l: Layout, d: Disk, j: Job, cuts: seq<Cut>): Disk
    requires WritesWork(j)
    requires Carry(hash, CrashFiles(hash, l, d.fs, j, cuts), RootsOf(l, j.uid), j.change).Ok?
  {
    d.(log := d.log + Batch(hash, j) + [End(j.n)],
       fs := Carry(hash, CrashFiles(hash, l, d.fs, j, cuts), RootsOf(l, j.uid), j.change).value)
  }

  lemma RememberedSnoc(history: seq<Merge>, m: Merge)
    ensures Remembered(history + [m]) == Remembered(history) + {m.seqNo}
  {
    assert forall x :: x in history + [m] <==> x in history || x == m;
  }

  lemma IdleStays(ts: seq<Transaction>, a: set<nat>, b: set<nat>)
    requires AllIdle(ts, a) && a <= b
    ensures AllIdle(ts, b)
  {
    assert forall i :: 0 <= i < |ts| ==> Idle(ts[i], a);
  }

  function MergeOf(j: Job): Merge { Merge(j.n, j.grant, j.change.removes + j.change.writes) }

  lemma MergedIsClean(hash: Hash, l: Layout, d: Disk, j: Job, cuts: seq<Cut>)
    requires Clean(d) && WritesWork(j) && Reachable(hash, l, d, j, Merged(cuts))
    ensures Clean(DiskAt(hash, l, d, j, Merged(cuts)))
  {
    hide Parse, Remembered, Ops, Carry, CrashFiles;
    ParseWhole(hash, d.log, j);
    RememberedSnoc(d.history, MergeOf(j));
    IdleStays(Parse(d.log), Remembered(d.history), Remembered(d.history + [MergeOf(j)]));
  }

  /** A batch that did not get into the log in full is abandoned: neither the files nor the history
      have changed. */
  lemma TornIsAbandoned(hash: Hash, l: Layout, d: Disk, j: Job, k: nat)
    requires Clean(d) && WritesWork(j) && k <= Count(j)
    ensures var d' := DiskAt(hash, l, d, j, Torn(k));
            Clean(d') && Recovered(hash, l, d') == Ok(d') && d'.fs == d.fs && d'.history == d.history
  {
    var d' := DiskAt(hash, l, d, j, Torn(k));
    if k == 0 {
      assert d'.log == d.log;
    } else {
      ParseTorn(hash, d.log, j, k);
    }
    CleanRecovers(hash, l, d');
  }

  lemma PathsAre(hash: Hash, j: Job)
    requires WritesWork(j)
    ensures PathsOf(Ops(hash, j.change)) == j.change.removes + j.change.writes
  {
    PathsOfDeletes(j.change.removes, Moves(hash, j.change.work, j.change.writes));
    PathsOfMoves(hash, j.change.work, j.change.writes);
  }

  /** With the batch in the log in full, a restart carries the differences out again, and if that
      gets through it closes the batch and makes the entry in the history that the merge itself
      would have made. */
  lemma ApplyingRecovers(hash: Hash, l: Layout, d: Disk, j: Job, cuts: seq<Cut>)
    requires Clean(d) && WritesWork(j) && j.n !in Remembered(d.history)
    ensures Recovered(hash, l, DiskAt(hash, l, d, j, Applying(cuts)))
            == match Carry(hash, CrashFiles(hash, l, d.fs, j, cuts), RootsOf(l, j.uid), j.change)
               case Err(e) => Err(e)
               case Ok(_) => Ok(DiskAt(hash, l, d, j, Merged(cuts)))
  {
    hide Parse, Ops, Carry, PathsOf, Remembered, Recovered, CrashFiles, ApplyRecords;
    var d', ops := DiskAt(hash, l, d, j, Applying(cuts)), Ops(hash, j.change);
    ParseWhole(hash, d.log, j);
    RecoversLast(hash, l, d', Parse(d.log), Opened(j, ops));
    OpsCarry(hash, d'.fs, RootsOf(l, j.uid), j.change);
    PathsAre(hash, j);
  }

  lemma ClosedIsRemembered(hash: Hash, l: Layout, d: Disk, j: Job, cuts: seq<Cut>)
    requires Clean(d) && WritesWork(j) && j.n !in Remembered(d.history) && Reachable(hash, l, d, j, Closed(cuts))
    ensures Recovered(hash, l, DiskAt(hash, l, d, j, Closed(cuts))) == Ok(DiskAt(hash, l, d, j, Merged(cuts)))
  {
    hide Parse, Ops, Carry, PathsOf, Remembered, Recovered, CrashFiles;
    var d', ops := DiskAt(hash, l, d, j, Closed(cuts)), Ops(hash, j.change);
    ParseWhole(hash, d.log, j);
    RecoversLast(hash, l, d', Parse(d.log), Opened(j, ops).(finished := true));
    PathsAre(hash, j);
  }

  // ----- What a crash leaves of the files -------------------------------------------------------

  lemma HalfRemovalIsSmaller(fs: FileSystem, r: Roots, p: Path, half: FileSystem)
    requires IsHalfway(fs, r, Delete(p), half)
    ensures Smaller(half, fs)
    ensures Remove(fs, r.seed, p).Ok? && PartOf(Remove(fs, r.seed, p).value.entries, half.entries)
  {
    hide Locate, IsDirectory;
    RemoveSucceeds(fs, r.seed, p);
    RemoveTakes(fs, r.seed, p);
    match Locate(fs, r.seed + p)
    case Here(x) =>
      if !SomeGone(fs, x, half, false) {
        var steps: nat :| PrunedTo(Without(fs, x), r.seed, p, steps, half);
        WithoutIsSmaller(fs, x);
        PrunedIsSmaller(Without(fs, x), r.seed, p, |p| - 1, steps);
        SmallerAgain(half, Without(fs, x), fs);
      }
    case Missing =>
      var steps: nat :| PrunedTo(fs, r.seed, p, steps, half);
      PrunedIsSmaller(fs, r.seed, p, |p| - 1, steps);
    case _ =>
  }

  /** Half a write where nothing but directories is in the way: the files are as they were. */
  lemma HalfWrite(fs: FileSystem, r: Roots, c: Change, p: Path, sha1: string, half: FileSystem)
    requires IsChange(c) && Near(fs, r, c) && OnlyWork(fs, r, c) && p in c.work
    requires IsHalfway(fs, r, Move(p, sha1), half)
    ensures half.entries == fs.entries && Near(half, r, c)
  {
    hide Locate, IsDirectory, IsDiff;
    TargetIsDirect(fs, r, c, p);
    forall y | y in fs.entries
      ensures y in half.entries
    {
      NothingBelow(fs, r, c, p, y);
    }
    assert half.entries == fs.entries;
    forall e | e in half.entries
      ensures !IsDirectory(half, e)
    {
      assert !IsDirectory(fs, e) && !Under(r.seed + p, e);
    }
    forall x | x in c.work
      ensures !IsDirectory(half, r.work + x)
    {
      OtherRoot(r.seed, r.work, p, x);
    }
  }

  lemma {:induction false} DeletesAt(removes: seq<Path>, rest: seq<Record>)
    requires removes != []
    ensures (Deletes(removes) + rest)[0] == Delete(removes[0])
    ensures (Deletes(removes) + rest)[1..] == Deletes(removes[1..]) + rest
  {
  }

  lemma MovesStep(hash: Hash, work: Tree, writes: seq<Path>)
    requires writes != [] && forall p | p in writes :: p in work
    ensures writes[0] in writes && writes[0] in work
    ensures var records := Moves(hash, work, writes);
            records[0] == Move(writes[0], hash(Content(work[writes[0]]))) && records[1..] == Moves(hash, work, writes[1..])
  {
    assert writes[0] in writes;
  }

  /** Whatever the restarts before it did, right or wrong, a crash leaves each path of the seed as
      before, as after, or gone. */
  lemma {:induction false} CutMovesIsNear(hash: Hash, fs: FileSystem, r: Roots, c: Change, writes: seq<Path>, cut: Cut)
    requires IsChange(c) && Near(fs, r, c) && OnlyWork(fs, r, c) && forall p | p in writes :: p in c.work
    ensures Near(CutReplay(hash, fs, r, Moves(hash, c.work, writes), cut), r, c)
    decreases |writes|
  {
    hide Near, OnlyWork, IsChange, MoveInto, IsHalfway, IsDirectory, Moves, Seen;
    if writes != [] {
      var p, records := writes[0], Moves(hash, c.work, writes);
      MovesStep(hash, c.work, writes);
      if cut.writes == 0 {
        if IsHalfway(fs, r, records[0], cut.half) {
          HalfWrite(fs, r, c, p, hash(Content(c.work[p])), cut.half);
        }
      } else {
        MoveOne(hash, fs, r, c, p);
        var m := MoveInto(hash, fs, r.seed, r.work, p, hash(Content(c.work[p])));
        if m.Ok? {
          if m.value != fs {
            WroteIsNear(fs, r, c, p);
          }
          CutMovesIsNear(hash, m.value, r, c, writes[1..], cut.(writes := cut.writes - 1));
        }
      }
    }
  }

  lemma {:induction false} CutIsNear(hash: Hash, fs: FileSystem, r: Roots, c: Change, removes: seq<Path>, cut: Cut)
    requires IsChange(c) && Near(fs, r, c)
    requires var s := RemoveAll(fs, r.seed, removes); s.Ok? ==> Near(s.value, r, c) && OnlyWork(s.value, r, c)
    ensures Near(CutReplay(hash, fs, r, Deletes(removes) + Moves(hash, c.work, c.writes), cut), r, c)
    decreases |removes|
  {
    hide Near, OnlyWork, IsDirectory, Remove, IsHalfway, Moves;
    var moves := Moves(hash, c.work, c.writes);
    if removes == [] {
      assert Deletes(removes) + moves == moves;
      CutMovesIsNear(hash, fs, r, c, c.writes, cut);
    } else {
      DeletesAt(removes, moves);
      var p := removes[0];
      if cut.writes == 0 {
        if IsHalfway(fs, r, Delete(p), cut.half) {
          HalfRemovalIsSmaller(fs, r, p, cut.half);
          NearShrinks(fs, cut.half, r, c);
        }
      } else if Remove(fs, r.seed, p).Ok? {
        RemoveTakes(fs, r.seed, p);
        NearShrinks(fs, Remove(fs, r.seed, p).value, r, c);
        CutIsNear(hash, Remove(fs, r.seed, p).value, r, c, removes[1..], cut.(writes := cut.writes - 1));
      }
    }
  }

  lemma {:induction false} CrashIsNear(hash: Hash, l: Layout, fs: FileSystem, j: Job, cuts: seq<Cut>)
    requires IsChange(j.change) && WritesWork(j) && Near(fs, RootsOf(l, j.uid), j.change)
    ensures Near(CrashFiles(hash, l, fs, j, cuts), RootsOf(l, j.uid), j.change)
    decreases |cuts|
  {
    hide Near, IsChange, CutReplay, RemoveAll;
    if cuts != [] {
      CrashIsNear(hash, l, fs, j, cuts[..|cuts| - 1]);
      var before := CrashFiles(hash, l, fs, j, cuts[..|cuts| - 1]);
      OnlyWorkIsLeft(before, RootsOf(l, j.uid), j.change);
      CutIsNear(hash, before, RootsOf(l, j.uid), j.change, j.change.removes, cuts[|cuts| - 1]);
    }
  }

  // ----- Atomicity ------------------------------------------------------------------------------

  /** A restart leaves all of the merge, with every file outside the seed and the snapshot as it was, or
      neither the files nor the history changed; and the log with nothing left to do. */
  ghost predicate IsAtomic(hash: Hash, l: Layout, d: Disk, j: Job, stage: Stage)
    requires WritesWork(j) && Reachable(hash, l, d, j, stage)
  {
    var r := Recovered(hash, l, DiskAt(hash, l, d, j, stage));
    && r.Ok? && Clean(r.value)
    && if stage.Torn? then r.value.fs == d.fs && r.value.history == d.history
       else
         && Shows(r.value.fs, l.seed, j.change.work)
         && Untouched(r.value.fs, RootsOf(l, j.uid), j.change)
         && r.value.history == d.history + [MergeOf(j)]
  }

  /** A merge is atomic, wherever it and the restarts after it are cut short, exactly if the removals,
      carried out again on the files as they are by then, are sound: they run into no file, and
      through whatever links they are led, in the seed, in the snapshot or anywhere else, they take
      nothing that the new tree still needs, and nothing outside the two. */
  lemma CrashIsAtomicIff(hash: Hash, l: Layout, d: Disk, j: Job, stage: Stage)
    requires Clean(d) && Fits(l, d, j) && Reachable(hash, l, d, j, stage)
    ensures IsAtomic(hash, l, d, j, stage)
            <==> (stage.Torn? || IsSound(CrashFiles(hash, l, d.fs, j, stage.cuts), RootsOf(l, j.uid), j.change))
  {
    hide Recovered, Carry, IsSound, Batch, IsChange, Clean, CrashFiles, Near, Begins;
    if stage.Torn? {
      TornIsAbandoned(hash, l, d, j, stage.k);
    } else {
      var r, fs := RootsOf(l, j.uid), CrashFiles(hash, l, d.fs, j, stage.cuts);
      BeginsBetween(d.fs, r, j.change);
      BetweenIsNear(d.fs, r, j.change);
      CrashIsNear(hash, l, d.fs, j, stage.cuts);
      CarryIff(hash, fs, r, j.change);
      ApplyingRecovers(hash, l, d, j, stage.cuts);
      if Carry(hash, fs, r, j.change).Ok? {
        MergedIsClean(hash, l, d, j, stage.cuts);
        ClosedIsRemembered(hash, l, d, j, stage.cuts);
        CleanRecovers(hash, l, DiskAt(hash, l, d, j, Merged(stage.cuts)));
      }
    }
  }

  /** Whatever crashes leave can be recovered from. */
  ghost predicate Recoverable(hash: Hash, l: Layout, d: Disk, j: Job)
    requires WritesWork(j)
  {
    forall cuts :: IsSound(CrashFiles(hash, l, d.fs, j, cuts), RootsOf(l, j.uid), j.change)
  }

  /** So a merge is atomic under every sequence of crashes, its own and those of restarts, exactly if
      what each sequence leaves is sound. */
  lemma CrashSafeIff(hash: Hash, l: Layout, d: Disk, j: Job)
    requires Clean(d) && Fits(l, d, j)
    ensures WritesWork(j)
    ensures (forall stage | Reachable(hash, l, d, j, stage) :: IsAtomic(hash, l, d, j, stage)) <==> Recoverable(hash, l, d, j)
  {
    hide IsAtomic, IsSound, Clean, Fits, CrashFiles;
    FitsWrites(l, d, j);
    forall stage | Reachable(hash, l, d, j, stage)
      ensures IsAtomic(hash, l, d, j, stage)
              <==> (stage.Torn? || IsSound(CrashFiles(hash, l, d.fs, j, stage.cuts), RootsOf(l, j.uid), j.change))
    {
      CrashIsAtomicIff(hash, l, d, j, stage);
    }
    if forall stage | Reachable(hash, l, d, j, stage) :: IsAtomic(hash, l, d, j, stage) {
      forall cuts
        ensures IsSound(CrashFiles(hash, l, d.fs, j, cuts), RootsOf(l, j.uid), j.change)
      {
        assert Reachable(hash, l, d, j, Applying(cuts));
      }
    }
  }

  // ----- When it is safe ------------------------------------------------------------------------

  lemma HalfIsBetween(fs: FileSystem, a: FileSystem, half: FileSystem, r: Roots, c: Change)
    requires Between(fs, r, c) && Between(a, r, c) && Smaller(half, fs) && PartOf(a.entries, half.entries)
    ensures Between(half, r, c)
  {
    NearShrinks(fs, half, r, c);
    hide Near, IsDirectory;
    forall p
      ensures Seen(a, r.seed, p).Some? ==> Seen(half, r.seed, p) == Seen(a, r.seed, p)
      ensures Seen(a, r.work, p).Some? ==> Seen(half, r.work, p) == Seen(a, r.work, p)
      ensures Seen(half, r.seed, p) == None || Seen(half, r.seed, p) == Seen(fs, r.seed, p)
      ensures Seen(half, r.work, p) == None || Seen(half, r.work, p) == Seen(fs, r.work, p)
    {
    }
    forall p | At(c.seed, p) == At(c.work, p)
      ensures Seen(half, r.seed, p) == At(c.seed, p)
    {
      assert Seen(a, r.seed, p) == At(c.seed, p) == Seen(fs, r.seed, p);
    }
    forall p
      ensures Seen(half, r.work, p) == At(c.work, p)
    {
      assert Seen(a, r.work, p) == At(c.work, p) == Seen(fs, r.work, p);
    }
    forall y | !Under(y, r.seed) && !Under(y, r.work)
      ensures At(half.entries, y) == At(c.files, y)
    {
      assert At(a.entries, y) == At(c.files, y) == At(fs.entries, y);
    }
  }

  lemma WroteIsBetween(fs: FileSystem, r: Roots, c: Change, p: Path)
    requires IsChange(c) && Between(fs, r, c) && OnlyWork(fs, r, c) && p in c.writes
    ensures p in c.work && Between(Wrote(fs, r.seed + p, c.work[p]), r, c)
  {
    hide Near, OnlyWork, IsDirectory;
    assert Written(c.seed, c.work, p);
    WroteIsNear(fs, r, c, p);
    var a := Wrote(fs, r.seed + p, c.work[p]);
    forall x
      ensures Seen(a, r.work, x) == At(c.work, x)
    {
      assert Seen(fs, r.work, x) == At(c.work, x);
    }
    WroteInSeed(fs, r, c, p);
    forall y | !Under(y, r.seed) && !Under(y, r.work)
      ensures At(a.entries, y) == At(c.files, y)
    {
      assert At(fs.entries, y) == At(c.files, y);
    }
  }

  lemma SameEntriesBetween(fs: FileSystem, a: FileSystem, r: Roots, c: Change)
    requires Between(fs, r, c) && Near(a, r, c) && a.entries == fs.entries
    ensures Between(a, r, c)
  {
    hide Near;
    forall p
      ensures Seen(a, r.seed, p) == Seen(fs, r.seed, p) && Seen(a, r.work, p) == Seen(fs, r.work, p)
    {
    }
    forall p
      ensures Seen(a, r.work, p) == At(c.work, p)
    {
      assert Seen(fs, r.work, p) == At(c.work, p);
    }
  }

  /** If each single removal keeps to what differs, a crash, too, leaves what both trees have alike. */
  lemma {:induction false} CutMovesIsBetween(hash: Hash, fs: FileSystem, r: Roots, c: Change, writes: seq<Path>, cut: Cut)
    requires IsChange(c) && Between(fs, r, c) && OnlyWork(fs, r, c)
    requires forall p | p in writes :: p in c.writes && p in c.work
    ensures Between(CutReplay(hash, fs, r, Moves(hash, c.work, writes), cut), r, c)
    decreases |writes|
  {
    hide Between, OnlyWork, IsChange, MoveInto, IsHalfway, IsDirectory, Moves, Seen;
    if writes != [] {
      var p, records := writes[0], Moves(hash, c.work, writes);
      MovesStep(hash, c.work, writes);
      BetweenIsNear(fs, r, c);
      if cut.writes == 0 {
        if IsHalfway(fs, r, records[0], cut.half) {
          HalfWrite(fs, r, c, p, hash(Content(c.work[p])), cut.half);
          SameEntriesBetween(fs, cut.half, r, c);
        }
      } else {
        MoveOne(hash, fs, r, c, p);
        var m := MoveInto(hash, fs, r.seed, r.work, p, hash(Content(c.work[p])));
        if m.Ok? {
          if m.value != fs {
            WroteIsNear(fs, r, c, p);
            WroteIsBetween(fs, r, c, p);
          }
          CutMovesIsBetween(hash, m.value, r, c, writes[1..], cut.(writes := cut.writes - 1));
        }
      }
    }
  }

  /** What single removals do to the trees that a crash may leave. */
  ghost predicate AllKeep(r: Roots, c: Change) {
    forall a, p | Between(a, r, c) && p in c.removes :: KeepsBetween(a, r, c, p)
  }

  lemma {:induction false} CutIsBetween(hash: Hash, fs: FileSystem, r: Roots, c: Change, removes: seq<Path>, cut: Cut)
    requires IsChange(c) && Between(fs, r, c) && AllKeep(r, c)
    requires forall p | p in removes :: p in c.removes
    requires var s := RemoveAll(fs, r.seed, removes); s.Ok? ==> OnlyWork(s.value, r, c)
    ensures Between(CutReplay(hash, fs, r, Deletes(removes) + Moves(hash, c.work, c.writes), cut), r, c)
    decreases |removes|
  {
    hide Between, OnlyWork, IsDirectory, Remove, IsHalfway, Moves, IsChange;
    ChangeWrites(c);
    var moves := Moves(hash, c.work, c.writes);
    if removes == [] {
      assert Deletes(removes) + moves == moves;
      CutMovesIsBetween(hash, fs, r, c, c.writes, cut);
    } else {
      DeletesAt(removes, moves);
      var p := removes[0];
      assert p in removes && KeepsBetween(fs, r, c, p);
      var a := Remove(fs, r.seed, p).value;
      if cut.writes == 0 {
        if IsHalfway(fs, r, Delete(p), cut.half) {
          HalfRemovalIsSmaller(fs, r, p, cut.half);
          HalfIsBetween(fs, a, cut.half, r, c);
        }
      } else {
        CutIsBetween(hash, a, r, c, removes[1..], cut.(writes := cut.writes - 1));
      }
    }
  }

  lemma ChangeWrites(c: Change)
    requires IsChange(c)
    ensures forall p | p in c.writes :: p in c.work
  {
  }

  lemma {:induction false} CrashIsBetween(hash: Hash, l: Layout, fs: FileSystem, j: Job, cuts: seq<Cut>)
    requires IsChange(j.change) && WritesWork(j) && Between(fs, RootsOf(l, j.uid), j.change)
    requires AllKeep(RootsOf(l, j.uid), j.change)
    ensures Between(CrashFiles(hash, l, fs, j, cuts), RootsOf(l, j.uid), j.change)
    decreases |cuts|
  {
    hide Between, IsChange, CutReplay, RemoveAll, AllKeep;
    if cuts != [] {
      CrashIsBetween(hash, l, fs, j, cuts[..|cuts| - 1]);
      var before := CrashFiles(hash, l, fs, j, cuts[..|cuts| - 1]);
      BetweenIsNear(before, RootsOf(l, j.uid), j.change);
      OnlyWorkIsLeft(before, RootsOf(l, j.uid), j.change);
      CutIsBetween(hash, before, RootsOf(l, j.uid), j.change, j.change.removes, cuts[|cuts| - 1]);
    }
  }

  /** A condition on single removals is enough: if each of them, on each tree that a crash may leave,
      goes through and takes only what differs, every crash can be recovered from, as long as nothing
      is to be written that cannot be copied. */
  lemma SinglesRecover(hash: Hash, l: Layout, d: Disk, j: Job)
    requires Fits(l, d, j) && AllKeep(RootsOf(l, j.uid), j.change)
    ensures WritesWork(j) && (Recoverable(hash, l, d, j) <==> NoSpecials(j.change))
  {
    hide IsSound, CrashFiles, Between, IsChange, NoSpecials, KeepsBetween;
    var r := RootsOf(l, j.uid);
    FitsWrites(l, d, j);
    BeginsBetween(d.fs, r, j.change);
    forall cuts
      ensures IsSound(CrashFiles(hash, l, d.fs, j, cuts), r, j.change) <==> NoSpecials(j.change)
    {
      CrashIsBetween(hash, l, d.fs, j, cuts);
      SinglesSuffice(CrashFiles(hash, l, d.fs, j, cuts), r, j.change);
    }
    var none: seq<Cut> := [];
    assert IsSound(CrashFiles(hash, l, d.fs, j, none), r, j.change) <==> NoSpecials(j.change);
  }

  lemma {:induction false} FullCut(hash: Hash, fs: FileSystem, r: Roots, records: seq<Record>, cut: Cut)
    requires cut.writes >= |records| && ApplyRecords(hash, fs, r, records).Ok?
    ensures CutReplay(hash, fs, r, records, cut) == ApplyRecords(hash, fs, r, records).value
    decreases |records|
  {
    hide ApplyRecord, IsHalfway;
    if records != [] {
      FullCut(hash, ApplyRecord(hash, fs, r, records[0]).value, r, records[1..], cut.(writes := cut.writes - 1));
    }
  }

  /** After the last record, and before the end. */
  function AtTheEnd(d: Disk, j: Job): seq<Cut> { [Cut(Count(j), d.fs)] }

  lemma EndFiles(hash: Hash, l: Layout, d: Disk, j: Job)
    requires Fits(l, d, j) && NoSpecials(j.change)
    ensures WritesWork(j)
    ensures var fs := CrashFiles(hash, l, d.fs, j, AtTheEnd(d, j));
            Shows(fs, l.seed, j.change.work) && Near(fs, RootsOf(l, j.uid), j.change)
            && forall y | !Under(y, l.seed) :: At(fs.entries, y) == At(d.fs.entries, y)
  {
    hide Carry, ApplyRecords, Near, Begins, IsChange, Ops;
    var r, cuts := RootsOf(l, j.uid), AtTheEnd(d, j);
    FitsWrites(l, d, j);
    MergeIsExactIff(hash, d.fs, r, j.change);
    OpsCarry(hash, d.fs, r, j.change);
    FullCut(hash, d.fs, r, Ops(hash, j.change), cuts[0]);
    assert cuts[..0] == [];
    assert CrashFiles(hash, l, d.fs, j, []) == d.fs;
    BeginsBetween(d.fs, r, j.change);
    BetweenIsNear(d.fs, r, j.change);
    CrashIsNear(hash, l, d.fs, j, cuts);
  }

  /** Where directories that become links lead to the side: a merge is safe under every crash exactly
      when no directory becomes a file and nothing is to be written that cannot be copied. If a
      directory becomes a file, a crash between the last record and the end leaves a log that no
      restart gets through. */
  lemma RecoverableIff(hash: Hash, l: Layout, d: Disk, j: Job)
    requires Clean(d) && Fits(l, d, j) && LinksLeadAside(j.change)
    ensures WritesWork(j)
    ensures Recoverable(hash, l, d, j) <==> NoDirectoryBecomesFile(j.change.seed, j.change.work) && NoSpecials(j.change)
    ensures NoSpecials(j.change) && !NoDirectoryBecomesFile(j.change.seed, j.change.work) ==>
              Recovered(hash, l, DiskAt(hash, l, d, j, Applying(AtTheEnd(d, j)))) == Err(NotADirectory)
  {
    hide IsSound, CrashFiles, KeepsBetween, LinksLeadAside, NoDirectoryBecomesFile, NoSpecials, Recovered, IsChange,
         Begins, Remembered, Carry, Between, AtTheEnd;
    var r, c := RootsOf(l, j.uid), j.change;
    FitsWrites(l, d, j);
    if NoDirectoryBecomesFile(c.seed, c.work) {
      forall a, p | Between(a, r, c) && p in c.removes
        ensures KeepsBetween(a, r, c, p)
      {
        AsideRemoval(a, r, c, p);
      }
      SinglesRecover(hash, l, d, j);
    } else if NoSpecials(c) {
      EndFiles(hash, l, d, j);
      var fs := CrashFiles(hash, l, d.fs, j, AtTheEnd(d, j));
      FileBlocks(hash, fs, r, c);
      ApplyingRecovers(hash, l, d, j, AtTheEnd(d, j));
    } else {
      MergeIsExactIff(hash, d.fs, r, c);
      NoCuts(hash, l, d, j);
    }
  }

  lemma NoCuts(hash: Hash, l: Layout, d: Disk, j: Job)
    requires WritesWork(j)
    ensures CrashFiles(hash, l, d.fs, j, []) == d.fs
  {
  }

  lemma FileBlocks(hash: Hash, fs: FileSystem, r: Roots, c: Change)
    requires IsChange(c) && LinksLeadAside(c) && Near(fs, r, c) && Shows(fs, r.seed, c.work)
    requires !NoDirectoryBecomesFile(c.seed, c.work)
    ensures !IsSound(fs, r, c) && Carry(hash, fs, r, c) == Err(NotADirectory)
  {
    hide RemoveAll, MoveAll, LinksLeadAside, Near;
    var p, q :| p in c.seed && q in c.work && Under(p, q) && !c.work[q].Symlink?;
    assert Removed(c.seed, c.work, p);
    assert Seen(fs, r.seed, q) == At(c.work, q);
    RemovesFail(fs, r, c, c.removes, p, q);
  }

  // ----- A restart that is cut short ------------------------------------------------------------

  /** The transactions in front take no writes. */
  lemma {:induction false} IdleCuts(hash: Hash, l: Layout, d: Disk, ts: seq<Transaction>, rest: seq<Transaction>,
                                    remembered: set<nat>, cut: Cut)
    requires AllIdle(ts, remembered)
    ensures CutAll(hash, l, d, ts + rest, remembered, cut) == CutAll(hash, l, d, rest, remembered, cut)
    decreases |ts|
  {
    hide CutOne;
    if ts == [] {
      assert ts + rest == rest;
    } else {
      assert (ts + rest)[0] == ts[0] && (ts + rest)[1..] == ts[1..] + rest;
      assert Idle(ts[0], remembered);
      assert RecoverOne(hash, l, d, ts[0], remembered) == Ok(d) && WritesOf(ts[0], remembered) == 0;
      assert cut.(writes := cut.writes - 0) == cut;
      IdleCuts(hash, l, d, ts[1..], rest, remembered, cut);
    }
  }

  lemma CleanCuts(hash: Hash, l: Layout, d: Disk, cut: Cut)
    requires Clean(d)
    ensures CutRestart(hash, l, d, cut) == d
  {
    hide CutOne, RecoverOne;
    var ts := Parse(d.log);
    IdleIsValid(ts, Remembered(d.history));
    IdleCuts(hash, l, d, ts, [], Remembered(d.history), cut);
    assert ts + [] == ts;
  }

  /** With one more transaction behind, a restart is cut short in that one, fails in it, or gets
      through. */
  lemma CutsLast(hash: Hash, l: Layout, d: Disk, ts: seq<Transaction>, t: Transaction, cut: Cut)
    requires Parse(d.log) == ts + [t] && AllIdle(ts, Remembered(d.history)) && ValidFrame(t)
    ensures var remembered := Remembered(d.history);
            var done := RecoverOne(hash, l, d, t, remembered);
            CutRestart(hash, l, d, cut)
            == if cut.writes < WritesOf(t, remembered) || done.Err? then CutOne(hash, l, d, t, cut) else done.value
  {
    hide CutOne, RecoverOne, WritesOf;
    var all, remembered := Parse(d.log), Remembered(d.history);
    IdleIsValid(ts, remembered);
    assert all[..|all| - 1] == ts;
    IdleCuts(hash, l, d, ts, [t], remembered, cut);
    assert [t][1..] == [];
  }

  /** A restart that is cut short, or that fails, leaves the merge at one of its stages. */
  lemma CutIsStage(hash: Hash, l: Layout, d: Disk, j: Job, stage: Stage, cut: Cut) returns (next: Stage)
    requires Clean(d) && WritesWork(j) && j.n !in Remembered(d.history) && Reachable(hash, l, d, j, stage)
    ensures Reachable(hash, l, d, j, next) && next.Torn? == stage.Torn?
    ensures CutRestart(hash, l, DiskAt(hash, l, d, j, stage), cut) == DiskAt(hash, l, d, j, next)
  {
    hide CutRestart, Clean, CrashFiles, Batch, Remembered, Carry;
    match stage
    case Torn(k) =>
      next := stage;
      TornIsAbandoned(hash, l, d, j, k);
      CleanCuts(hash, l, DiskAt(hash, l, d, j, stage), cut);
    case Applying(cuts) => next := CutApplying(hash, l, d, j, cuts, cut);
    case Closed(cuts) => next := CutClosed(hash, l, d, j, cuts, cut);
    case Merged(cuts) =>
      next := stage;
      MergedIsClean(hash, l, d, j, cuts);
      CleanCuts(hash, l, DiskAt(hash, l, d, j, stage), cut);
  }

  lemma CutClosed(hash: Hash, l: Layout, d: Disk, j: Job, cuts: seq<Cut>, cut: Cut) returns (next: Stage)
    requires Clean(d) && WritesWork(j) && j.n !in Remembered(d.history) && Reachable(hash, l, d, j, Closed(cuts))
    ensures (next == Closed(cuts) || next == Merged(cuts)) && Reachable(hash, l, d, j, next)
    ensures CutRestart(hash, l, DiskAt(hash, l, d, j, Closed(cuts)), cut) == DiskAt(hash, l, d, j, next)
  {
    hide Parse, Ops, PathsOf, Remembered, CutRestart, Carry, CrashFiles;
    var d', ops := DiskAt(hash, l, d, j, Closed(cuts)), Ops(hash, j.change);
    var t := Opened(j, ops).(finished := true);
    ParseWhole(hash, d.log, j);
    CutsLast(hash, l, d', Parse(d.log), t, cut);
    PathsAre(hash, j);
    next := if cut.writes < WritesOf(t, Remembered(d.history)) then Closed(cuts) else Merged(cuts);
  }

  lemma CutApplying(hash: Hash, l: Layout, d: Disk, j: Job, cuts: seq<Cut>, cut: Cut) returns (next: Stage)
    requires Clean(d) && WritesWork(j) && j.n !in Remembered(d.history)
    ensures !next.Torn? && Reachable(hash, l, d, j, next)
    ensures CutRestart(hash, l, DiskAt(hash, l, d, j, Applying(cuts)), cut) == DiskAt(hash, l, d, j, next)
  {
    hide Parse, Ops, PathsOf, Remembered, CutRestart, CutReplay, ApplyRecords, Carry;
    var d', ops, r := DiskAt(hash, l, d, j, Applying(cuts)), Ops(hash, j.change), RootsOf(l, j.uid);
    var open := Opened(j, ops);
    ParseWhole(hash, d.log, j);
    CutsLast(hash, l, d', Parse(d.log), open, cut);
    OpsCarry(hash, d'.fs, r, j.change);
    PathsAre(hash, j);
    var applied := ApplyRecords(hash, d'.fs, r, ops);
    assert (cuts + [cut])[..|cuts|] == cuts;
    if applied.Ok? && cut.writes > Count(j) {
      FullCut(hash, d'.fs, r, ops, cut);
      next := if cut.writes < WritesOf(open, Remembered(d.history)) then Closed(cuts) else Merged(cuts);
    } else {
      next := Applying(cuts + [cut]);
    }
  }

  // ----- Sessions -------------------------------------------------------------------------------

  /** A merge with the files as they are when it begins, the stage at which it is cut short (or not, at
      the last), and the restarts that are cut short too before one gets through. */
  datatype Run = Run(before: FileSystem, job: Job, stage: Stage, cuts: seq<Cut>)

  ghost function CutRestarts(hash: Hash, l: Layout, d: Disk, cuts: seq<Cut>): Disk
    decreases |cuts|
  {
    if cuts == [] then d else CutRestarts(hash, l, CutRestart(hash, l, d, cuts[0]), cuts[1..])
  }

  ghost function RunOne(hash: Hash, l: Layout, d: Disk, run: Run): Result<Disk, Error> {
    if WritesWork(run.job) && Reachable(hash, l, d, run.job, run.stage)
    then Recovered(hash, l, CutRestarts(hash, l, DiskAt(hash, l, d, run.job, run.stage), run.cuts))
    else Err(SourceGone)
  }

  /** A run begins on the files that it brings, with the log and the history as they are. */
  function Beginning(d: Disk, run: Run): Disk { d.(fs := run.before) }

  /** Merges one after the other. */
  ghost function RunSession(hash: Hash, l: Layout, d: Disk, runs: seq<Run>): Result<Disk, Error>
    decreases |runs|
  {
    if runs == [] then Ok(d)
    else
      match RunOne(hash, l, Beginning(d, runs[0]), runs[0])
      case Err(e) => Err(e)
      case Ok(d') => RunSession(hash, l, d', runs[1..])
  }

  function SeedAfter(seed: Tree, run: Run): Tree { if run.stage.Torn? then seed else run.job.change.work }

  /** Between one merge and the next, anything may change but the seed, the log and the history:
      snapshots are taken and swept, and other programs run. Each merge fits what is there then. */
  ghost predicate FitsNext(hash: Hash, l: Layout, d: Disk, seed: Tree, run: Run) {
    var d' := Beginning(d, run);
    && Shows(d'.fs, l.seed, seed)
    && Fits(l, d', run.job) && WritesWork(run.job)
    && Recoverable(hash, l, d', run.job)
    && Reachable(hash, l, d', run.job, run.stage)
  }

  ghost predicate AllFit(hash: Hash, l: Layout, d: Disk, seed: Tree, runs: seq<Run>)
    decreases |runs|
  {
    runs != [] ==>
      && FitsNext(hash, l, d, seed, runs[0])
      && var r := RunOne(hash, l, Beginning(d, runs[0]), runs[0]);
         r.Ok? ==> AllFit(hash, l, r.value, SeedAfter(seed, runs[0]), runs[1..])
  }

  /** What a session is to come to: the merges that got into the log in full, and no other. */
  function Merges(runs: seq<Run>): seq<Merge> {
    if runs == [] then []
    else (if runs[0].stage.Torn? then [] else [MergeOf(runs[0].job)]) + Merges(runs[1..])
  }

  function LastWork(seed: Tree, runs: seq<Run>): Tree
    decreases |runs|
  {
    if runs == [] then seed
    else LastWork(SeedAfter(seed, runs[0]), runs[1..])
  }

  /** However often a restart is cut short, the next finds the merge at some stage of it. */
  lemma {:induction false} CutsAreStages(hash: Hash, l: Layout, d: Disk, j: Job, stage: Stage, cuts: seq<Cut>) returns (last: Stage)
    requires Clean(d) && WritesWork(j) && j.n !in Remembered(d.history) && Reachable(hash, l, d, j, stage)
    ensures Reachable(hash, l, d, j, last) && last.Torn? == stage.Torn?
    ensures CutRestarts(hash, l, DiskAt(hash, l, d, j, stage), cuts) == DiskAt(hash, l, d, j, last)
    decreases |cuts|
  {
    hide CutRestart, Clean, DiskAt, Reachable, WritesWork, Remembered;
    last := stage;
    if cuts != [] {
      var next := CutIsStage(hash, l, d, j, stage, cuts[0]);
      last := CutsAreStages(hash, l, d, j, next, cuts[1..]);
    }
  }

  /** One merge, cut short anywhere, with any number of restarts cut short anywhere behind it. */
  lemma RunIsAtomic(hash: Hash, l: Layout, d: Disk, run: Run)
    requires Clean(d) && Fits(l, d, run.job) && WritesWork(run.job) && Recoverable(hash, l, d, run.job)
    requires Reachable(hash, l, d, run.job, run.stage)
    ensures var r := RunOne(hash, l, d, run);
            && r.Ok? && Clean(r.value)
            && if run.stage.Torn? then r.value.fs == d.fs && r.value.history == d.history
               else
                 && Shows(r.value.fs, l.seed, run.job.change.work)
                 && Untouched(r.value.fs, RootsOf(l, run.job.uid), run.job.change)
                 && r.value.history == d.history + [MergeOf(run.job)]
  {
    hide Clean, IsSound, Recovered, DiskAt, CutRestarts, WritesWork, Reachable, CrashFiles, IsChange, Begins, Remembered;
    var last := CutsAreStages(hash, l, d, run.job, run.stage, run.cuts);
    CrashIsAtomicIff(hash, l, d, run.job, last);
    if !last.Torn? {
      assert IsSound(CrashFiles(hash, l, d.fs, run.job, last.cuts), RootsOf(l, run.job.uid), run.job.change);
    }
  }

  lemma BeginningIsClean(d: Disk, run: Run)
    requires Clean(d)
    ensures Clean(Beginning(d, run))
  {
  }

  lemma FirstRunIsAtomic(hash: Hash, l: Layout, d: Disk, seed: Tree, run: Run)
    requires Clean(d) && FitsNext(hash, l, d, seed, run)
    ensures var r := RunOne(hash, l, Beginning(d, run), run);
            && r.Ok? && Clean(r.value)
            && Shows(r.value.fs, l.seed, SeedAfter(seed, run))
            && r.value.history == d.history + if run.stage.Torn? then [] else [MergeOf(run.job)]
  {
    hide RunOne, Clean, Fits, Recoverable, Reachable, WritesWork, Shows, MergeOf, Untouched;
    BeginningIsClean(d, run);
    RunIsAtomic(hash, l, Beginning(d, run), run);
    assert d.history + [] == d.history;
  }

  /** Over every sequence of merges and crashes, of restarts too, whatever happens to other files
      between one merge and the next: each last restart succeeds, the history lists just the merges
      that were logged in full, once and in order, and the seed is the snapshot of the last of them. */
  lemma {:induction false} SessionIsAtomic(hash: Hash, l: Layout, d: Disk, seed: Tree, runs: seq<Run>)
    requires Clean(d) && Shows(d.fs, l.seed, seed) && AllFit(hash, l, d, seed, runs)
    ensures var r := RunSession(hash, l, d, runs);
            && r.Ok? && Clean(r.value)
            && r.value.history == d.history + Merges(runs)
            && Shows(r.value.fs, l.seed, LastWork(seed, runs))
    decreases |runs|
  {
    hide RunOne, Clean, FitsNext, Shows, MergeOf, Beginning, SeedAfter;
    if runs == [] {
      assert d.history + [] == d.history;
    } else {
      FirstRunIsAtomic(hash, l, d, seed, runs[0]);
      var d' := RunOne(hash, l, Beginning(d, runs[0]), runs[0]).value;
      SessionIsAtomic(hash, l, d', SeedAfter(seed, runs[0]), runs[1..]);
      var own := if runs[0].stage.Torn? then [] else [MergeOf(runs[0].job)];
      assert d.history + own + Merges(runs[1..]) == d.history + (own + Merges(runs[1..]));
    }
  }

  /** From a fresh start, that is all that the history and the seed say. */
  lemma FirstSessionIsAtomic(hash: Hash, l: Layout, fs: FileSystem, seed: Tree, runs: seq<Run>)
    requires Shows(fs, l.seed, seed) && AllFit(hash, l, Disk(fs, [], []), seed, runs)
    ensures var r := RunSession(hash, l, Disk(fs, [], []), runs);
            r.Ok? && r.value.history == Merges(runs) && Shows(r.value.fs, l.seed, LastWork(seed, runs))
  {
    hide RunSession, AllFit, Merges, LastWork, Shows;
    var d := Disk(fs, [], []);
    assert Parse(d.log) == [];
    SessionIsAtomic(hash, l, d, seed, runs);
    assert [] + Merges(runs) == Merges(runs);
  }

  /** A session goes on with any merge that fits where it has come to. */
  lemma {:induction false} SessionGoesOn(hash: Hash, l: Layout, d: Disk, seed: Tree, runs: seq<Run>, run: Run)
    requires Clean(d) && Shows(d.fs, l.seed, seed) && AllFit(hash, l, d, seed, runs)
    requires var r := RunSession(hash, l, d, runs); r.Ok? && FitsNext(hash, l, r.value, LastWork(seed, runs), run)
    ensures AllFit(hash, l, d, seed, runs + [run])
    decreases |runs|
  {
    hide RunOne, Clean, FitsNext, Shows, Beginning, SeedAfter;
    if runs == [] {
      assert runs + [run] == [run] && [run][1..] == [];
    } else {
      assert (runs + [run])[0] == runs[0] && (runs + [run])[1..] == runs[1..] + [run];
      FirstRunIsAtomic(hash, l, d, seed, runs[0]);
      SessionGoesOn(hash, l, RunOne(hash, l, Beginning(d, runs[0]), runs[0]).value, SeedAfter(seed, runs[0]), runs[1..], run);
    }
  }

  // ----- A merge that is not cut short ----------------------------------------------------------

  /** What the merge itself does to the log and the files, in its order, is to close its batch: the seed
      becomes the snapshot's tree and every file elsewhere is as it was. */
  lemma ApplyCloses(hash: Hash, l: Layout, d: Disk, j: Job)
    requires Fits(l, d, j) && NoSpecials(j.change)
    ensures WritesWork(j) && Reachable(hash, l, d, j, Closed([]))
    ensures Hashed(hash, d.fs, RootsOf(l, j.uid).work, j.change.writes)
            == Ok(Moves(hash, j.change.work, j.change.writes))
    ensures var applied := ApplyRecords(hash, d.fs, RootsOf(l, j.uid), Ops(hash, j.change));
            && applied.Ok?
            && Disk(applied.value, d.log + Batch(hash, j) + [End(j.n)], d.history) == DiskAt(hash, l, d, j, Closed([]))
            && Shows(applied.value, l.seed, j.change.work) && Untouched(applied.value, RootsOf(l, j.uid), j.change)
  {
    hide Carry, ApplyRecords, Near, Ops, Hashed, Moves, Batch, IsDiff, Valid;
    var r, c := RootsOf(l, j.uid), j.change;
    FitsWrites(l, d, j);
    BeginsBetween(d.fs, r, c);
    BetweenIsNear(d.fs, r, c);
    HashedAre(hash, d.fs, r, c, c.writes);
    MergeIsExactIff(hash, d.fs, r, c);
    OpsCarry(hash, d.fs, r, c);
    NoCuts(hash, l, d, j);
  }
}
