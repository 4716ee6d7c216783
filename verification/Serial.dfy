/** What concurrent jobs come to: the seed is as if the merged commands had run one after the other,
    each on the seed that the ones before it left (shellmux/src/mux.rs:1019-1090 and 1383-1411). */
module Serial {
  import opened Wrappers
  import opened Trees
  import opened Transactions
  import Commit

  /** What a command writes: a new entry, or none where it removes one. */
  type Delta = map<Path, Option<Entry>>

  type Command = Tree -> Tree

  function Overlay(t: Tree, delta: Delta): (r: Tree)
    ensures forall p :: At(r, p) == if p in delta then delta[p] else At(t, p)
  {
    map p | p in t.Keys + delta.Keys && (if p in delta then delta[p].Some? else p in t) ::
      if p in delta then delta[p].value else t[p]
  }

  ghost predicate AgreeOn(a: Tree, b: Tree, inputs: set<Path>) { forall p | p in inputs :: At(a, p) == At(b, p) }

  ghost predicate Makes(cmd: Command, base: Tree, inputs: set<Path>, delta: Delta) {
    forall t | AgreeOn(t, base, inputs) :: cmd(t) == Overlay(t, delta)
  }

  /** What the command writes depends on the paths it read only; it writes nothing if it opened
      nothing for writing. */
  ghost predicate Determined(cmd: Command, base: Tree, inputs: set<Path>, wrote: bool) {
    exists delta :: Makes(cmd, base, inputs, delta) && (wrote || delta == map[])
  }

  /** `versions[v]` is the seed after merge `v`; a path is as it was in every version since the
      merge that last wrote it. */
  ghost predicate Tracks(s: State, versions: seq<Tree>) {
    && |versions| == s.seqNo + 1
    && versions[s.seqNo] == s.seed
    && (forall p | p in s.generations :: s.generations[p] <= s.seqNo)
    && (forall v, p | 0 <= v <= s.seqNo && Generation(s, p) <= v :: At(versions[v], p) == At(s.seed, p))
  }

  /** The job is a run of the command in one of the versions. */
  ghost predicate RanIn(cmd: Command, versions: seq<Tree>, j: Job) {
    && j.baseSeq < |versions|
    && j.work == cmd(versions[j.baseSeq])
    && Determined(cmd, versions[j.baseSeq], j.resources + j.gitReads, j.wroteInRoot)
  }

  lemma FreshIsSame(s: State, versions: seq<Tree>, j: Job, p: Path)
    requires Tracks(s, versions) && j.baseSeq < |versions| && StalePaths(s, j) == {}
    requires p in OpPaths(s, j) + j.resources + j.gitReads
    ensures At(versions[j.baseSeq], p) == At(s.seed, p)
  {
    assert p !in StalePaths(s, j);
  }

  lemma OverlayOfNothing(t: Tree)
    ensures Overlay(t, map[]) == t
  {
    SameTrees(Overlay(t, map[]), t);
  }

  /** A command that is merged does to the seed what it would have done if it had run on the seed as
      it is now. */
  lemma CommitIsSerial(policy: Policy, s: State, versions: seq<Tree>, cmd: Command, j: Job)
    requires Tracks(s, versions) && RanIn(cmd, versions, j) && Decide(policy, s, j).Committed?
    ensures Concluded(policy, s, j).seed == cmd(s.seed)
  {
    var base, inputs := versions[j.baseSeq], j.resources + j.gitReads;
    var delta: Delta :| Makes(cmd, base, inputs, delta) && (j.wroteInRoot || delta == map[]);
    forall p | p in inputs
      ensures At(s.seed, p) == At(base, p)
    {
      FreshIsSame(s, versions, j, p);
    }
    assert AgreeOn(s.seed, base, inputs) && AgreeOn(base, base, inputs);
    if j.wroteInRoot {
      forall p
        ensures At(Overlay(s.seed, delta), p) == At(j.work, p)
      {
        if p !in delta && At(s.seed, p) != At(j.work, p) {
          assert p in OpPaths(s, j);
          FreshIsSame(s, versions, j, p);
        }
      }
      SameTrees(Overlay(s.seed, delta), j.work);
    } else {
      OverlayOfNothing(s.seed);
    }
  }

  /** A merge keeps track of the versions. */
  lemma CommitTracks(policy: Policy, s: State, versions: seq<Tree>, j: Job)
    requires Tracks(s, versions) && Decide(policy, s, j).Committed?
    ensures var s' := Concluded(policy, s, j); Tracks(s', versions + [s'.seed])
  {
    var s' := Concluded(policy, s, j);
    var versions' := versions + [s'.seed];
    forall v, p | 0 <= v <= s'.seqNo && Generation(s', p) <= v
      ensures At(versions'[v], p) == At(s'.seed, p)
    {
      if v <= s.seqNo {
        assert p !in OpPaths(s, j);
        UnwrittenStays(s, j, p);
        assert Generation(s', p) == Generation(s, p);
      }
    }
  }

  lemma UnwrittenStays(s: State, j: Job, p: Path)
    requires p !in OpPaths(s, j)
    ensures At(Merged(s, j).seed, p) == At(s.seed, p)
  {
  }

  // ----- Whole runs -----------------------------------------------------------------------------

  /** A command and its run. */
  datatype Run = Run(cmd: Command, job: Job)

  function RunAll(policy: Policy, s: State, runs: seq<Run>): State
    decreases |runs|
  {
    if runs == [] then s else RunAll(policy, Concluded(policy, s, runs[0].job), runs[1..])
  }

  function Versions(policy: Policy, s: State, versions: seq<Tree>, j: Job): seq<Tree> {
    if Decide(policy, s, j).Committed? then versions + [Concluded(policy, s, j).seed] else versions
  }

  /** Each job ran in a version that was there when it came to be concluded. */
  ghost predicate AllRanIn(policy: Policy, s: State, versions: seq<Tree>, runs: seq<Run>)
    decreases |runs|
  {
    runs != [] ==>
      && RanIn(runs[0].cmd, versions, runs[0].job)
      && AllRanIn(policy, Concluded(policy, s, runs[0].job), Versions(policy, s, versions, runs[0].job), runs[1..])
  }

  /** The commands that are merged, one after the other. */
  function InSeries(policy: Policy, s: State, runs: seq<Run>, t: Tree): Tree
    decreases |runs|
  {
    if runs == [] then t
    else InSeries(policy, Concluded(policy, s, runs[0].job), runs[1..],
                  if Decide(policy, s, runs[0].job).Committed? then runs[0].cmd(t) else t)
  }

  /** At the start of a session nothing has moved on. */
  lemma StartTracks(s: State)
    requires s.seqNo == 0 && s.generations == map[]
    ensures Tracks(s, [s.seed])
  {
  }

  /** However the runs of the jobs overlapped, the seed in the end is what the merged commands make
      of the first seed when each runs after the ones merged before it has ended. */
  lemma {:induction false} EveryRunIsSerial(policy: Policy, s: State, versions: seq<Tree>, runs: seq<Run>)
    requires Tracks(s, versions) && AllRanIn(policy, s, versions, runs)
    ensures RunAll(policy, s, runs).seed == InSeries(policy, s, runs, s.seed)
    decreases |runs|
  {
    if runs != [] {
      hide Tracks, RanIn, Decide, Concluded;
      var j := runs[0].job;
      var s', versions' := Concluded(policy, s, j), Versions(policy, s, versions, j);
      if Decide(policy, s, j).Committed? {
        CommitIsSerial(policy, s, versions, runs[0].cmd, j);
        CommitTracks(policy, s, versions, j);
      } else {
        RefusedIsUnchanged(policy, s, j);
      }
      EveryRunIsSerial(policy, s', versions', runs[1..]);
    }
  }

  /** From the start of a session on, so for every run of it. */
  lemma SessionIsSerial(policy: Policy, s: State, runs: seq<Run>)
    requires s.seqNo == 0 && s.generations == map[] && AllRanIn(policy, s, [s.seed], runs)
    ensures RunAll(policy, s, runs).seed == InSeries(policy, s, runs, s.seed)
  {
    hide RunAll, InSeries, AllRanIn;
    StartTracks(s);
    EveryRunIsSerial(policy, s, [s.seed], runs);
  }

  lemma RefusedIsUnchanged(policy: Policy, s: State, j: Job)
    requires !Decide(policy, s, j).Committed?
    ensures Concluded(policy, s, j) == s
  {
  }

  // ----- What makes a job stale -----------------------------------------------------------------

  /** A job that writes is not stale exactly when nothing it depends on has moved on and everything
      else that has moved on is by now as the job has it too. */
  lemma WriterIsFreshIff(s: State, j: Job)
    requires j.wroteInRoot
    ensures StalePaths(s, j) == {}
            <==> (forall p | p in j.resources + j.gitReads :: Generation(s, p) <= j.baseSeq)
                 && (forall p | Generation(s, p) > j.baseSeq :: At(s.seed, p) == At(j.work, p))
  {
    if StalePaths(s, j) == {} {
      forall p | p in OpPaths(s, j) + j.resources + j.gitReads
        ensures Generation(s, p) <= j.baseSeq
      {
        assert p !in StalePaths(s, j);
      }
      forall p | Generation(s, p) > j.baseSeq
        ensures At(s.seed, p) == At(j.work, p)
      {
        assert p !in OpPaths(s, j);
      }
    } else {
      var p :| p in StalePaths(s, j);
      assert Generation(s, p) > j.baseSeq;
    }
  }

  /** So a job that writes is stale as soon as another merge has changed a path that it has left
      alone, even if neither read nor wrote what the other wrote. */
  lemma DisjointWritersConflict(policy: Policy, s: State, versions: seq<Tree>, j: Job, p: Path)
    requires Tracks(s, versions) && j.baseSeq < |versions| && j.wroteInRoot
    requires At(j.work, p) == At(versions[j.baseSeq], p) && At(s.seed, p) != At(versions[j.baseSeq], p)
    ensures Decide(policy, s, j) == Stale
  {
    assert Generation(s, p) > j.baseSeq;
    assert p in OpPaths(s, j);
    WriterIsFreshIff(s, j);
  }

  // ----- A restart ------------------------------------------------------------------------------

  /** The generations and the sequence number as they are rebuilt from the history. */
  function Loaded(history: seq<Commit.Merge>): (map<Path, nat>, nat) {
    if history == [] then (map[], 0)
    else
      var (generations, n) := Loaded(history[..|history| - 1]);
      var m := history[|history| - 1];
      (Bumped(generations, (set p | p in m.paths), m.seqNo), if n >= m.seqNo then n else m.seqNo)
  }

  /** A merge that is remembered is rebuilt to the generations and number that it left. */
  lemma LoadedIsMerged(s: State, j: Job, history: seq<Commit.Merge>, grant: string, removes: seq<Path>, writes: seq<Path>)
    requires Loaded(history) == (s.generations, s.seqNo)
    requires PathSet(removes, writes) == OpPaths(s, j)
    ensures Loaded(history + [Commit.Merge(s.seqNo + 1, grant, removes + writes)])
            == (Merged(s, j).generations, Merged(s, j).seqNo)
  {
    var m := Commit.Merge(s.seqNo + 1, grant, removes + writes);
    assert (history + [m])[..|history|] == history;
    assert (set p | p in m.paths) == OpPaths(s, j);
  }
}
