/** Transactions of concurrent jobs against one seed (shellmux/src/mux.rs:958-1090, 1194-1218 and
    1383-1411, shellmux/src/authority.rs): each job runs in a snapshot of some version of the seed
    and is checked against what has been merged since. */
module Transactions {
  import opened Wrappers
  import opened Trees
  import Commit

  /** A capability event: who, what and where, as far as the policy is concerned. */
  type Event = string

  /** Whether an event is granted after those that came before. */
  type Policy = (seq<Event>, Event) -> bool

  /** A job that has run: the version it copied, what its snapshot is now, the capabilities it
      needs with the paths of their resources, the paths it was seen to read, and whether it opened
      anything for writing. */
  datatype Job = Job(baseSeq: nat, work: Tree, events: seq<Event>, resources: set<Path>, gitReads: set<Path>, wroteInRoot: bool)

  /** `generations` has for each path the last merge that wrote it. */
  datatype State = State(seed: Tree, seqNo: nat, generations: map<Path, nat>, granted: seq<Event>)

  datatype Outcome = Unchanged | Stale | Denied | Committed(seqNo: nat)

  function Generation(s: State, p: Path): nat { if p in s.generations then s.generations[p] else 0 }

  function OpPaths(s: State, j: Job): set<Path> {
    if !j.wroteInRoot then {}
    else (set p | p in s.seed && p !in j.work) + (set p | p in j.work && At(s.seed, p) != At(j.work, p))
  }

  /** The paths that have moved on, among those the job changes or depends on. */
  function StalePaths(s: State, j: Job): set<Path> {
    set p | p in OpPaths(s, j) + j.resources + j.gitReads && Generation(s, p) > j.baseSeq
  }

  /** Whether every event of a command is granted, each after the ones before it. */
  predicate AllGranted(policy: Policy, granted: seq<Event>, events: seq<Event>)
    decreases |events|
  {
    events == [] || (policy(granted, events[0]) && AllGranted(policy, granted + [events[0]], events[1..]))
  }

  /** Event `k` is granted after what was granted before the command and its own events before `k`. */
  predicate IsGranted(policy: Policy, granted: seq<Event>, events: seq<Event>, k: nat)
    requires k < |events|
  {
    policy(granted + events[..k], events[k])
  }

  lemma {:induction false} AllGrantedIff(policy: Policy, granted: seq<Event>, events: seq<Event>)
    ensures AllGranted(policy, granted, events) <==> forall k :: 0 <= k < |events| ==> IsGranted(policy, granted, events, k)
    decreases |events|
  {
    if events != [] {
      var next, rest := granted + [events[0]], events[1..];
      AllGrantedIff(policy, next, rest);
      assert granted + events[..0] == granted;
      assert IsGranted(policy, granted, events, 0) <==> policy(granted, events[0]);
      forall k | 1 <= k < |events|
        ensures IsGranted(policy, granted, events, k) <==> IsGranted(policy, next, rest, k - 1)
      {
        assert next + rest[..k - 1] == granted + events[..k];
      }
      assert forall k :: 0 <= k < |rest| ==> (IsGranted(policy, next, rest, k) <==> IsGranted(policy, granted, events, k + 1));
    }
  }

  /** The events with a verdict. */
  function Those(events: seq<Event>, verdicts: seq<bool>, verdict: bool): seq<Event>
    requires |verdicts| == |events|
  {
    if events == [] then []
    else
      var last := |events| - 1;
      Those(events[..last], verdicts[..last], verdict) + if verdicts[last] == verdict then [events[last]] else []
  }

  /** Each event is judged after what was granted before the command and those before it in the
      command that were granted too. */
  ghost predicate Judges(policy: Policy, granted: seq<Event>, events: seq<Event>, verdicts: seq<bool>) {
    && |verdicts| == |events|
    && forall k :: 0 <= k < |events| ==>
         (verdicts[k] <==> policy(granted + Those(events[..k], verdicts[..k], true), events[k]))
  }

  lemma JudgesNext(policy: Policy, granted: seq<Event>, events: seq<Event>, verdicts: seq<bool>, k: nat)
    requires k < |events| && Judges(policy, granted, events[..k], verdicts)
    ensures var next := verdicts + [policy(granted + Those(events[..k], verdicts, true), events[k])];
            && Judges(policy, granted, events[..k + 1], next)
            && forall verdict ::
                 Those(events[..k + 1], next, verdict)
                 == Those(events[..k], verdicts, verdict) + if next[k] == verdict then [events[k]] else []
  {
    var next := verdicts + [policy(granted + Those(events[..k], verdicts, true), events[k])];
    assert events[..k + 1][..k] == events[..k] && next[..k] == verdicts;
    forall i | 0 <= i < k + 1
      ensures next[i] <==> policy(granted + Those(events[..k + 1][..i], next[..i], true), events[..k + 1][i])
    {
      assert events[..k + 1][..i] == events[..k][..i];
      assert i < k ==> next[..i] == verdicts[..i];
    }
  }

  lemma {:induction false} ThoseAreAll(events: seq<Event>, verdicts: seq<bool>)
    requires |verdicts| == |events|
    ensures Those(events, verdicts, false) == [] <==> forall k :: 0 <= k < |events| ==> verdicts[k]
    ensures Those(events, verdicts, false) == [] ==> Those(events, verdicts, true) == events
  {
    if events != [] {
      var last := |events| - 1;
      ThoseAreAll(events[..last], verdicts[..last]);
      assert events[..last] + [events[last]] == events;
      assert forall k :: 0 <= k < last ==> verdicts[..last][k] == verdicts[k];
    }
  }

  /** Nothing is denied exactly if every event is granted after all those before it. */
  lemma NoDenialIff(policy: Policy, granted: seq<Event>, events: seq<Event>, verdicts: seq<bool>)
    requires Judges(policy, granted, events, verdicts)
    ensures Those(events, verdicts, false) == []
            <==> forall k :: 0 <= k < |events| ==> IsGranted(policy, granted, events, k)
  {
    ThoseAreAll(events, verdicts);
    if forall k :: 0 <= k < |events| ==> IsGranted(policy, granted, events, k) {
      GrantedAreJudged(policy, granted, events, verdicts, |events|);
    } else if Those(events, verdicts, false) == [] {
      forall k | 0 <= k < |events|
        ensures IsGranted(policy, granted, events, k)
      {
        ThoseAreAll(events[..k], verdicts[..k]);
      }
    }
  }

  lemma {:induction false} GrantedAreJudged(policy: Policy, granted: seq<Event>, events: seq<Event>, verdicts: seq<bool>, n: nat)
    requires Judges(policy, granted, events, verdicts) && n <= |events|
    requires forall k :: 0 <= k < |events| ==> IsGranted(policy, granted, events, k)
    ensures forall k :: 0 <= k < n ==> verdicts[k]
  {
    if n > 0 {
      GrantedAreJudged(policy, granted, events, verdicts, n - 1);
      ThoseAreAll(events[..n - 1], verdicts[..n - 1]);
      assert IsGranted(policy, granted, events, n - 1);
    }
  }

  /** The generations after merge `n` has written some paths. */
  function Bumped(generations: map<Path, nat>, paths: set<Path>, n: nat): map<Path, nat> {
    map p | p in generations.Keys + paths :: if p in paths then n else generations[p]
  }

  function Merged(s: State, j: Job): State {
    State(if j.wroteInRoot then j.work else s.seed, s.seqNo + 1, Bumped(s.generations, OpPaths(s, j), s.seqNo + 1),
          s.granted + j.events)
  }

  function PathSet(removes: seq<Path>, writes: seq<Path>): set<Path> {
    Elements(removes) + Elements(writes)
  }

  lemma BumpStep(generations: map<Path, nat>, paths: set<Path>, p: Path, n: nat)
    ensures Bumped(generations, paths, n)[p := n] == Bumped(generations, paths + {p}, n)
  {
  }

  lemma BumpNothing(generations: map<Path, nat>, n: nat)
    ensures Bumped(generations, {}, n) == generations
  {
  }

  function Elements(paths: seq<Path>): set<Path> { set p | p in paths }

  lemma ElementsOfMore(paths: seq<Path>, k: nat)
    requires k < |paths|
    ensures Elements(paths[..k + 1]) == Elements(paths[..k]) + {paths[k]}
  {
    assert paths[..k + 1] == paths[..k] + [paths[k]];
  }

  function Decide(policy: Policy, s: State, j: Job): Outcome {
    if j.events == [] && OpPaths(s, j) == {} then Unchanged
    else if StalePaths(s, j) != {} then Stale
    else if !AllGranted(policy, s.granted, j.events) then Denied
    else Committed(s.seqNo + 1)
  }

  function Concluded(policy: Policy, s: State, j: Job): State {
    if Decide(policy, s, j).Committed? then Merged(s, j) else s
  }

  class Authority {
    var seed: Tree
    var seqNo: nat
    var generations: map<Path, nat>
    var granted: seq<Event>

    function Now(): State
      reads this
    {
      State(seed, seqNo, generations, granted)
    }

    constructor (s: State)
      ensures Now() == s
    {
      seed, seqNo, generations, granted := s.seed, s.seqNo, s.generations, s.granted;
    }

    /** Grants what it can, and lists what it cannot. */
    method CheckEvents(policy: Policy, events: seq<Event>) returns (denials: seq<Event>, ghost verdicts: seq<bool>)
      modifies this`granted
      ensures Judges(policy, old(granted), events, verdicts)
      ensures granted == old(granted) + Those(events, verdicts, true) && denials == Those(events, verdicts, false)
      ensures denials == [] <==> forall k :: 0 <= k < |events| ==> IsGranted(policy, old(granted), events, k)
      ensures denials == [] ==> granted == old(granted) + events
    {
      denials, verdicts := [], [];
      var k := 0;
      while k < |events|
        invariant k <= |events| && Judges(policy, old(granted), events[..k], verdicts)
        invariant granted == old(granted) + Those(events[..k], verdicts, true)
        invariant denials == Those(events[..k], verdicts, false)
      {
        JudgesNext(policy, old(granted), events, verdicts, k);
        verdicts := verdicts + [policy(granted, events[k])];
        if policy(granted, events[k]) {
          granted := granted + [events[k]];
        } else {
          denials := denials + [events[k]];
        }
        k := k + 1;
      }
      assert events[..|events|] == events;
      NoDenialIff(policy, old(granted), events, verdicts);
      ThoseAreAll(events, verdicts);
    }

    /** The walk over both trees is left out for a job that opened nothing for writing. */
    method Differences(j: Job) returns (removes: seq<Path>, writes: seq<Path>)
      ensures PathSet(removes, writes) == OpPaths(Now(), j)
      ensures forall p | p in writes :: p in j.work
      ensures Patched(seed, j.work, removes, writes) == if j.wroteInRoot then j.work else seed
    {
      removes, writes := [], [];
      if j.wroteInRoot {
        removes, writes := DiffTrees(seed, j.work);
        DiffIsComplete(seed, j.work, removes, writes);
        forall p | p in writes
          ensures p in j.work
        {
          assert Written(seed, j.work, p);
        }
      }
      if !j.wroteInRoot {
        SameTrees(Patched(seed, j.work, [], []), seed);
      }
      OpPathsAre(Now(), j, removes, writes);
    }

    /** A command that is refused, for whatever reason, leaves no trace. */
    method Conclude(policy: Policy, j: Job) returns (o: Outcome)
      modifies this
      ensures o == Decide(policy, old(Now()), j) && Now() == Concluded(policy, old(Now()), j)
      ensures o.Denied? <==>
              && (j.events != [] || OpPaths(old(Now()), j) != {}) && StalePaths(old(Now()), j) == {}
              && exists k :: 0 <= k < |j.events| && !IsGranted(policy, old(granted), j.events, k)
    {
      hide OpPaths, Bumped, AllGranted, IsGranted, Judges, Those;
      AllGrantedIff(policy, granted, j.events);
      var removes, writes := Differences(j);
      if j.events == [] && PathSet(removes, writes) == {} {
        return Unchanged;
      }
      var stale := set p | p in PathSet(removes, writes) + j.resources + j.gitReads && Generation(Now(), p) > j.baseSeq;
      if stale != {} {
        return Stale;
      }
      var committed := |granted|;
      ghost var verdicts;
      var denials: seq<Event>;
      denials, verdicts := CheckEvents(policy, j.events);
      if denials != [] {
        granted := granted[..committed];
        return Denied;
      }
      RecordCommit(j, removes, writes);
      o := Committed(seqNo);
    }

    /** The seed, then the sequence number and the generations. */
    method RecordCommit(j: Job, removes: seq<Path>, writes: seq<Path>)
      modifies this`seed, this`seqNo, this`generations
      ensures seed == Patched(old(seed), j.work, removes, writes) && seqNo == old(seqNo) + 1
      ensures generations == Bumped(old(generations), PathSet(removes, writes), seqNo)
    {
      hide Bumped;
      seed := Patched(seed, j.work, removes, writes);
      seqNo := seqNo + 1;
      BumpNothing(generations, seqNo);
      var paths := removes + writes;
      ghost var done: set<Path> := {};
      var k := 0;
      while k < |paths|
        invariant k <= |paths| && done == Elements(paths[..k])
        invariant generations == Bumped(old(generations), done, seqNo)
        modifies this`generations
      {
        BumpStep(old(generations), done, paths[k], seqNo);
        ElementsOfMore(paths, k);
        generations := generations[paths[k] := seqNo];
        done := done + {paths[k]};
        k := k + 1;
      }
      assert paths[..|paths|] == paths;
      assert done == PathSet(removes, writes);
    }
  }

  lemma OpPathsAre(s: State, j: Job, removes: seq<Path>, writes: seq<Path>)
    requires if j.wroteInRoot then IsDiff(s.seed, j.work, removes, writes) else removes == [] && writes == []
    ensures PathSet(removes, writes) == OpPaths(s, j)
  {
    if j.wroteInRoot {
      forall p
        ensures p in removes <==> p in s.seed && p !in j.work
        ensures p in writes <==> p in j.work && At(s.seed, p) != At(j.work, p)
      {
        assert p in removes <==> Removed(s.seed, j.work, p);
        assert p in writes <==> Written(s.seed, j.work, p);
      }
    }
  }
}
