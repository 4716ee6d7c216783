/** The write-ahead log of marsh: a job's snapshot into the seed, and what a restart makes of a log
    that a crash cut short (shellmux/src/commit.rs, shellmux/src/wal.rs, shellmux/src/history.rs). */
module Commit {
  import opened Wrappers
  import opened Trees
  import opened Files
  import opened Replay

  datatype Record =
    | Begin(seqNo: nat, uid: string, grant: string, opCount: Option<nat>)
    | Move(path: Path, sha1: string)
    | Delete(path: Path)
    | End(seqNo: nat)

  datatype Transaction = Transaction(seqNo: nat, uid: string, grant: string, opCount: Option<nat>,
                                     records: seq<Record>, finished: bool)

  /** What a merge leaves in the capability history. */
  datatype Merge = Merge(seqNo: nat, grant: string, paths: seq<Path>)

  /** Where the seed is, and where the jobs' snapshots are. */
  datatype Layout = Layout(seed: Path, snap: Path)

  function RootsOf(l: Layout, uid: string): Roots { Roots(l.seed, l.snap + [uid]) }

  /** What the log and the history say is kept apart from the files that hold them. */
  datatype Disk = Disk(fs: FileSystem, log: seq<Record>, history: seq<Merge>)

  // ----- Records --------------------------------------------------------------------------------

  function ApplyRecord(hash: Hash, fs: FileSystem, r: Roots, record: Record): Result<FileSystem, Error> {
    match record
    case Begin(_, _, _, _) => Ok(fs)
    case End(_) => Ok(fs)
    case Delete(p) => Remove(fs, r.seed, p)
    case Move(p, sha1) => MoveInto(hash, fs, r.seed, r.work, p, sha1)
  }

  function ApplyRecords(hash: Hash, fs: FileSystem, r: Roots, records: seq<Record>): Result<FileSystem, Error>
    decreases |records|
  {
    if records == [] then Ok(fs)
    else
      match ApplyRecord(hash, fs, r, records[0])
      case Err(e) => Err(e)
      case Ok(fs') => ApplyRecords(hash, fs', r, records[1..])
  }

  function Deletes(removes: seq<Path>): (r: seq<Record>)
    ensures |r| == |removes|
  {
    if removes == [] then [] else [Delete(removes[0])] + Deletes(removes[1..])
  }

  function Moves(hash: Hash, work: Tree, writes: seq<Path>): (r: seq<Record>)
    requires forall p | p in writes :: p in work
    ensures |r| == |writes|
    decreases |writes|
  {
    if writes == [] then []
    else [Move(writes[0], hash(Content(work[writes[0]])))] + Moves(hash, work, writes[1..])
  }

  function Ops(hash: Hash, c: Change): (r: seq<Record>)
    requires forall p | p in c.writes :: p in c.work
    ensures |r| == |c.removes| + |c.writes|
  {
    Deletes(c.removes) + Moves(hash, c.work, c.writes)
  }

  lemma {:induction false} DeletesAre(hash: Hash, fs: FileSystem, r: Roots, removes: seq<Path>, rest: seq<Record>)
    ensures ApplyRecords(hash, fs, r, Deletes(removes) + rest)
            == match RemoveAll(fs, r.seed, removes)
               case Err(e) => Err(e)
               case Ok(fs') => ApplyRecords(hash, fs', r, rest)
    decreases |removes|
  {
    hide Remove;
    var all := Deletes(removes) + rest;
    if removes == [] {
      assert all == rest;
    } else {
      assert all[0] == Delete(removes[0]) && all[1..] == Deletes(removes[1..]) + rest;
      if Remove(fs, r.seed, removes[0]).Ok? {
        DeletesAre(hash, Remove(fs, r.seed, removes[0]).value, r, removes[1..], rest);
      }
    }
  }

  lemma {:induction false} MoveRecordsAre(hash: Hash, fs: FileSystem, r: Roots, work: Tree, writes: seq<Path>)
    requires forall p | p in writes :: p in work
    ensures ApplyRecords(hash, fs, r, Moves(hash, work, writes)) == MoveAll(hash, fs, r, work, writes)
    decreases |writes|
  {
    hide MoveInto;
    if writes != [] {
      assert Moves(hash, work, writes)[1..] == Moves(hash, work, writes[1..]);
      assert writes[0] in writes;
      var m := MoveInto(hash, fs, r.seed, r.work, writes[0], hash(Content(work[writes[0]])));
      if m.Ok? {
        MoveRecordsAre(hash, m.value, r, work, writes[1..]);
      }
    }
  }

  /** The records carry the differences out. */
  lemma OpsCarry(hash: Hash, fs: FileSystem, r: Roots, c: Change)
    requires forall p | p in c.writes :: p in c.work
    ensures ApplyRecords(hash, fs, r, Ops(hash, c)) == Carry(hash, fs, r, c)
  {
    hide RemoveAll, MoveAll, ApplyRecords;
    DeletesAre(hash, fs, r, c.removes, Moves(hash, c.work, c.writes));
    if RemoveAll(fs, r.seed, c.removes).Ok? {
      MoveRecordsAre(hash, RemoveAll(fs, r.seed, c.removes).value, r, c.work, c.writes);
    }
  }

  /** The hashes are taken from the snapshot when the batch is made. */
  function Hashed(hash: Hash, fs: FileSystem, work: Path, writes: seq<Path>): Result<seq<Record>, Error> {
    if writes == [] then Ok([])
    else
      var found := Find(fs, work + writes[0]);
      if found.Nothing? then Err(SourceGone)
      else
        match Hashed(hash, fs, work, writes[1..])
        case Err(e) => Err(e)
        case Ok(rest) => Ok([Move(writes[0], hash(if found.Leaf? then Content(found.entry) else ""))] + rest)
  }

  /** Which gives the batch of the change that the snapshot holds. */
  lemma {:induction false} HashedAre(hash: Hash, fs: FileSystem, r: Roots, c: Change, writes: seq<Path>)
    requires WellFormed(c.work) && Near(fs, r, c) && Shows(fs, r.work, c.work) && forall p | p in writes :: p in c.work
    ensures Hashed(hash, fs, r.work, writes) == Ok(Moves(hash, c.work, writes))
    decreases |writes|
  {
    hide Find, Near, WellFormed;
    if writes != [] {
      assert writes[0] in writes && Seen(fs, r.work, writes[0]) == At(c.work, writes[0]);
      SourceIsDirect(fs, r, c, writes[0]);
      HashedAre(hash, fs, r, c, writes[1..]);
    }
  }

  // ----- Reading the log ------------------------------------------------------------------------

  /** An end closes the last transaction of its number. */
  function MarkLast(ts: seq<Transaction>, n: nat): (r: seq<Transaction>)
    ensures |r| == |ts|
  {
    if ts == [] then []
    else
      var init, last := ts[..|ts| - 1], ts[|ts| - 1];
      if last.seqNo == n then init + [last.(finished := true)] else MarkLast(init, n) + [last]
  }

  /** An end marks the last transaction of its number, and nothing else. */
  lemma {:induction false} MarkLastIs(ts: seq<Transaction>, n: nat)
    ensures |MarkLast(ts, n)| == |ts|
    ensures forall i :: 0 <= i < |ts| ==>
              MarkLast(ts, n)[i]
              == if ts[i].seqNo == n && forall j :: i < j < |ts| ==> ts[j].seqNo != n then ts[i].(finished := true) else ts[i]
  {
    if ts != [] {
      MarkLastIs(ts[..|ts| - 1], n);
    }
  }

  function AddRecord(ts: seq<Transaction>, r: Record): seq<Transaction> {
    match r
    case Begin(n, uid, grant, count) => ts + [Transaction(n, uid, grant, count, [], false)]
    case End(n) => MarkLast(ts, n)
    case _ => if ts == [] then ts else ts[|ts| - 1 := ts[|ts| - 1].(records := ts[|ts| - 1].records + [r])]
  }

  function Parse(log: seq<Record>): seq<Transaction> {
    if log == [] then [] else AddRecord(Parse(log[..|log| - 1]), log[|log| - 1])
  }

  predicate ValidFrame(t: Transaction) {
    match t.opCount
    case Some(count) => |t.records| <= count && (t.finished ==> |t.records| == count)
    case None => t.finished
  }

  function FrameError(t: Transaction): Error { if t.opCount.Some? then BadFrame else LegacyUnfinished }

  function FirstBad(ts: seq<Transaction>): (r: Option<nat>)
    ensures r.Some? ==> r.value < |ts| && !ValidFrame(ts[r.value])
    ensures r.None? ==> forall i :: 0 <= i < |ts| ==> ValidFrame(ts[i])
  {
    if ts == [] then None
    else
      match FirstBad(ts[..|ts| - 1])
      case Some(i) => Some(i)
      case None => if ValidFrame(ts[|ts| - 1]) then None else Some(|ts| - 1)
  }

  predicate Incomplete(t: Transaction) { t.opCount.Some? && |t.records| < t.opCount.value }

  function PathsOf(records: seq<Record>): seq<Path> {
    if records == [] then []
    else
      match records[0]
      case Move(p, _) => [p] + PathsOf(records[1..])
      case Delete(p) => [p] + PathsOf(records[1..])
      case _ => PathsOf(records[1..])
  }

  function Remembered(history: seq<Merge>): set<nat> { set m | m in history :: m.seqNo }

  // ----- Recovery -------------------------------------------------------------------------------

  /** What a restart does for one transaction. */
  function RecoverOne(hash: Hash, l: Layout, d: Disk, t: Transaction, remembered: set<nat>): Result<Disk, Error> {
    if Incomplete(t) then Ok(d)
    else
      var replayed := if t.finished then Ok(d.fs) else ApplyRecords(hash, d.fs, RootsOf(l, t.uid), t.records);
      match replayed
      case Err(e) => Err(e)
      case Ok(fs) =>
        Ok(d.(fs := fs,
              log := if t.finished then d.log else d.log + [End(t.seqNo)],
              history := if t.seqNo in remembered then d.history
                         else d.history + [Merge(t.seqNo, t.grant, PathsOf(t.records))]))
  }

  function RecoverAll(hash: Hash, l: Layout, d: Disk, ts: seq<Transaction>, remembered: set<nat>): Result<Disk, Error>
    decreases |ts|
  {
    if ts == [] then Ok(d)
    else
      match RecoverOne(hash, l, d, ts[0], remembered)
      case Err(e) => Err(e)
      case Ok(d') => RecoverAll(hash, l, d', ts[1..], remembered)
  }

  /** No transaction is touched before every frame has been checked. */
  function Recovered(hash: Hash, l: Layout, d: Disk): Result<Disk, Error> {
    var ts := Parse(d.log);
    match FirstBad(ts)
    case Some(i) => Err(FrameError(ts[i]))
    case None => RecoverAll(hash, l, d, ts, Remembered(d.history))
  }

  // ----- When it is cut short -------------------------------------------------------------------

  /** After `writes` writes to the disk, with the next one half done. */
  datatype Cut = Cut(writes: nat, half: FileSystem)

  /** Some of what is at and below a path is gone, or, on the way to a write, some of what is below it,
      with some of the directories to it made. */
  ghost predicate SomeGone(fs: FileSystem, x: Path, half: FileSystem, writing: bool) {
    && PartOf(half.entries, fs.entries)
    && (forall y | y in fs.entries && !Under(y, x) && (writing || y != x) :: y in half.entries)
    && (forall d | IsDirectory(half, d) :: IsDirectory(fs, d) || (writing && Under(x, d)))
    && (forall d | IsDirectory(fs, d) && d != x && !Under(d, x) :: IsDirectory(half, d))
  }

  /** Some of the directories around a removed path are gone. */
  ghost predicate SomePruned(fs: FileSystem, root: Path, p: Path, half: FileSystem) {
    exists steps: nat :: PrunedTo(fs, root, p, steps, half)
  }

  predicate PrunedTo(fs: FileSystem, root: Path, p: Path, steps: nat, half: FileSystem) {
    p != [] && half == Pruned(fs, root, p, |p| - 1, steps)
  }

  ghost predicate IsHalfway(fs: FileSystem, r: Roots, record: Record, half: FileSystem) {
    match record
    case Delete(p) =>
      (match Locate(fs, r.seed + p)
       case Here(x) => SomeGone(fs, x, half, false) || SomePruned(Without(fs, x), r.seed, p, half)
       case Missing => SomePruned(fs, r.seed, p, half)
       case _ => false)
    case Move(p, _) =>
      && Find(fs, r.work + p).Leaf?
      && (match Locate(fs, r.seed + p)
          case Here(x) => SomeGone(fs, x, half, true)
          case _ => false)
    case _ => false
  }

  /** What is in the file system when the machine goes down while records are applied, or when one of
      them fails. */
  ghost function CutReplay(hash: Hash, fs: FileSystem, r: Roots, records: seq<Record>, cut: Cut): FileSystem
    decreases |records|
  {
    if records == [] then fs
    else if cut.writes == 0 then if IsHalfway(fs, r, records[0], cut.half) then cut.half else fs
    else
      match ApplyRecord(hash, fs, r, records[0])
      case Err(_) => fs
      case Ok(fs') => CutReplay(hash, fs', r, records[1..], cut.(writes := cut.writes - 1))
  }

  /** The records, the end, and the entry in the history. */
  function WritesOf(t: Transaction, remembered: set<nat>): nat {
    if Incomplete(t) then 0
    else (if t.finished then 0 else |t.records| + 1) + if t.seqNo in remembered then 0 else 1
  }

  /** One transaction of which a restart does not get to the last write. */
  ghost function CutOne(hash: Hash, l: Layout, d: Disk, t: Transaction, cut: Cut): Disk {
    if t.finished then d
    else
      var r := RootsOf(l, t.uid);
      d.(fs := CutReplay(hash, d.fs, r, t.records, cut),
         log := if cut.writes > |t.records| && ApplyRecords(hash, d.fs, r, t.records).Ok? then d.log + [End(t.seqNo)]
                else d.log)
  }

  ghost function CutAll(hash: Hash, l: Layout, d: Disk, ts: seq<Transaction>, remembered: set<nat>, cut: Cut): Disk
    decreases |ts|
  {
    if ts == [] then d
    else if cut.writes < WritesOf(ts[0], remembered) then CutOne(hash, l, d, ts[0], cut)
    else
      match RecoverOne(hash, l, d, ts[0], remembered)
      case Err(_) => CutOne(hash, l, d, ts[0], cut)
      case Ok(d') => CutAll(hash, l, d', ts[1..], remembered, cut.(writes := cut.writes - WritesOf(ts[0], remembered)))
  }

  /** What is on the disk after a restart during which the machine goes down, or which fails. */
  ghost function CutRestart(hash: Hash, l: Layout, d: Disk, cut: Cut): Disk {
    var ts := Parse(d.log);
    if FirstBad(ts).Some? then d else CutAll(hash, l, d, ts, Remembered(d.history), cut)
  }

  // ----- The log and the files as they are changed ----------------------------------------------

  class Storage {
    const hash: Hash
    const layout: Layout
    var fs: FileSystem
    var log: seq<Record>
    var history: seq<Merge>

    function State(): Disk
      reads this
    {
      Disk(fs, log, history)
    }

    constructor (h: Hash, l: Layout, d: Disk)
      ensures hash == h && layout == l && State() == d
    {
      hash, layout, fs, log, history := h, l, d.fs, d.log, d.history;
    }

    /** Applies records in order, up to the first that fails. */
    method Replay(uid: string, records: seq<Record>) returns (r: Result<(), Error>)
      modifies this`fs
      ensures match ApplyRecords(hash, old(fs), RootsOf(layout, uid), records)
              case Ok(fs') => r == Ok(()) && fs == fs'
              case Err(e) => r == Err(e)
    {
      var roots := RootsOf(layout, uid);
      var k := 0;
      while k < |records|
        invariant k <= |records|
        invariant ApplyRecords(hash, old(fs), roots, records) == ApplyRecords(hash, fs, roots, records[k..])
      {
        hide ApplyRecord;
        assert records[k..][0] == records[k] && records[k..][1..] == records[k + 1..];
        match ApplyRecord(hash, fs, roots, records[k]) {
          case Err(e) => return Err(e);
          case Ok(fs') => fs := fs';
        }
        k := k + 1;
      }
      r := Ok(());
    }

    /** One transaction: the whole batch to the log first, then the records to the files, then the
        end. */
    method Apply(uid: string, n: nat, grant: string, removes: seq<Path>, writes: seq<Path>) returns (r: Result<(), Error>)
      modifies this`fs, this`log
      ensures match Hashed(hash, old(fs), RootsOf(layout, uid).work, writes)
              case Err(e) => r == Err(e) && State() == old(State())
              case Ok(moves) =>
                var ops := Deletes(removes) + moves;
                var batch := [Begin(n, uid, grant, Some(|removes| + |writes|))] + ops;
                match ApplyRecords(hash, old(fs), RootsOf(layout, uid), ops)
                case Ok(fs') => r == Ok(()) && fs == fs' && log == old(log) + batch + [End(n)]
                case Err(e) => r == Err(e) && log == old(log) + batch
    {
      var hashed := Hashed(hash, fs, RootsOf(layout, uid).work, writes);
      if hashed.Err? {
        return Err(hashed.error);
      }
      var ops := Deletes(removes) + hashed.value;
      log := log + ([Begin(n, uid, grant, Some(|removes| + |writes|))] + ops);
      r := Replay(uid, ops);
      if r.Ok? {
        log := log + [End(n)];
      }
    }

    method Recover() returns (r: Result<(), Error>)
      modifies this`fs, this`log, this`history
      ensures match Recovered(hash, layout, old(State()))
              case Ok(d) => r == Ok(()) && State() == d
              case Err(e) => r == Err(e)
      ensures FirstBad(Parse(old(log))).Some? ==> r.Err? && State() == old(State())
    {
      var ts := Parse(log);
      var bad := FirstBad(ts);
      if bad.Some? {
        return Err(FrameError(ts[bad.value]));
      }
      var remembered := Remembered(history);
      var k := 0;
      while k < |ts|
        invariant k <= |ts|
        invariant RecoverAll(hash, layout, old(State()), ts, remembered)
                  == RecoverAll(hash, layout, State(), ts[k..], remembered)
      {
        hide ApplyRecords;
        assert ts[k..][0] == ts[k] && ts[k..][1..] == ts[k + 1..];
        var t := ts[k];
        k := k + 1;
        if Incomplete(t) {
          continue;
        }
        if !t.finished {
          var replayed := Replay(t.uid, t.records);
          if replayed.Err? {
            return replayed;
          }
          log := log + [End(t.seqNo)];
        }
        if t.seqNo !in remembered {
          history := history + [Merge(t.seqNo, t.grant, PathsOf(t.records))];
        }
      }
      r := Ok(());
    }
  }
}
