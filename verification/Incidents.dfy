/** Merges of which a crash makes more or less than the merge itself: a directory becomes a link, and
    the removal that a restart carries out again follows the link (shellmux/src/wal.rs:155-169,
    shellmux/src/commit.rs:260-300). */
module Incidents {
  import opened Wrappers
  import opened Trees
  import opened Files
  import opened Replay
  import opened Links
  import opened Commit
  import opened Recovery

  /** The seed is `/s`, and the snapshot of the job `/snap/u`. */
  predicate IsPlaced(l: Layout) { l.seed == ["s"] && l.snap == ["snap"] }

  // ----- Reading targets ------------------------------------------------------------------------

  lemma ComponentsOfName(name: string)
    requires '/' !in name
    ensures Components(name) == [name]
  {
    if name != "" {
      ComponentsOfName(name[1..]);
      assert [name[0]] + name[1..] == name;
    }
  }

  lemma ComponentsJoin(name: string, rest: string)
    requires '/' !in name
    ensures Components(name + "/" + rest) == [name] + Components(rest)
  {
    var all := name + "/" + rest;
    if name == "" {
      assert all[0] == '/' && all[1..] == rest;
    } else {
      assert all[0] == name[0] && all[1..] == name[1..] + "/" + rest;
      ComponentsJoin(name[1..], rest);
      assert [name[0]] + name[1..] == name;
    }
  }

  /** From the root, or from a directory, names that are directories or end in a link's own rest. */
  lemma WalkStep(fs: FileSystem, at: Path, name: string, next: seq<string>, own: nat, links: nat)
    requires name != "" && name != "." && name != ".." && next != [] && own <= |next|
    requires at + [name] !in fs.entries && IsDirectory(fs, at + [name])
    ensures Walk(fs, at, [name] + next, own, links) == Walk(fs, at + [name], next, own, links)
  {
    hide IsDirectory;
    assert ([name] + next)[1..] == next;
  }

  lemma WalkLast(fs: FileSystem, at: Path, name: string, links: nat)
    ensures Walk(fs, at, [name], 1, links) == Here(at + [name])
  {
    assert [name][1..] == [];
  }

  lemma WalkFile(fs: FileSystem, at: Path, name: string, next: seq<string>, own: nat, links: nat)
    requires name != "" && name != "." && name != ".." && next != [] && own <= |next|
    requires at + [name] in fs.entries && !fs.entries[at + [name]].Symlink?
    ensures Walk(fs, at, [name] + next, own, links) == InTheWay
  {
    assert ([name] + next)[1..] == next;
  }

  lemma WalkSlash(fs: FileSystem, at: Path, next: seq<string>, own: nat, links: nat)
    requires own <= |next|
    ensures Walk(fs, at, [""] + next, own, links) == Walk(fs, at, next, own, links)
  {
    assert ([""] + next)[1..] == next;
  }

  lemma AboveEntry(fs: FileSystem, x: Path, d: Path)
    requires Valid(fs) && x in fs.entries && Under(x, d)
    ensures IsDirectory(fs, d) && d !in fs.entries
  {
    assert SomeBelow(fs.entries, d);
  }

  /** A link from `/s/d` to a directory, and what `/s/d/f` comes to. */
  lemma LinkFromD(fs: FileSystem, target: string) returns (links: nat)
    requires Valid(fs) && Seen(fs, ["s"], ["d"]) == Some(Symlink(target))
    ensures Locate(fs, ["s"] + ["d", "f"])
            == Walk(fs, if target != "" && target[0] == '/' then [] else ["s"], Components(target) + ["f"], 1, links)
  {
    hide Walk, Locate, IsDirectory, Components, Valid;
    var p, q := ["s"] + ["d", "f"], ["s"] + ["d"];
    assert p == ["s", "d", "f"] && q == ["s", "d"];
    assert p[..2] == q && p[2..] == ["f"] && Parent(q) == ["s"];
    LinkOnTheWay(fs, p, q);
    links := MAX_LINKS - 1;
  }

  // ----- A file that the merge did not touch ----------------------------------------------------

  /** The directory `d` becomes a link. */
  function Linking(target: string, files: Tree): Change {
    Change(map[["d", "f"] := File(0, ""), ["e", "f"] := File(0, "")],
           map[["d"] := Symlink(target), ["e", "f"] := File(0, "")],
           [["d", "f"]], [["d"]], files)
  }

  /** A link and a file beside it. */
  lemma PairIsWellFormed(t: Tree)
    requires t.Keys == {["d"], ["e", "f"]}
    ensures WellFormed(t)
  {
    assert ["e", "f"][..1] == ["e"] && ["e"][0] != ["d"][0];
    assert forall p | p in t :: p == ["d"] || p == ["e", "f"];
    assert [] !in t;
  }

  lemma LinkingIsChange(target: string, files: Tree)
    ensures IsChange(Linking(target, files)) && NoSpecials(Linking(target, files))
  {
    var c := Linking(target, files);
    PairIsWellFormed(c.work);
    assert forall p | p in c.seed :: |p| == 2;
    forall p
      ensures p in c.removes <==> Removed(c.seed, c.work, p)
      ensures p in c.writes <==> Written(c.seed, c.work, p)
    {
      assert p in c.removes <==> p == ["d", "f"];
      assert p in c.writes <==> p == ["d"];
      assert p in c.seed <==> p == ["d", "f"] || p == ["e", "f"];
      assert p in c.work <==> p == ["d"] || p == ["e", "f"];
    }
  }

  /** Both `e` and `/s/e` lead from `d` to the directory `e` of the seed. */
  lemma LeadsToE(fs: FileSystem, target: string)
    requires Valid(fs) && Shows(fs, ["s"], Linking(target, fs.entries).work) && (target == "e" || target == "/s/e")
    ensures Locate(fs, ["s"] + ["d", "f"]) == Here(["s"] + ["e", "f"])
  {
    hide Walk, Locate, IsDirectory, Components, Valid;
    assert Seen(fs, ["s"], ["d"]) == Some(Symlink(target));
    assert Seen(fs, ["s"], ["e", "f"]).Some?;
    assert ["s"] + ["e", "f"] == ["s", "e", "f"];
    assert Under(["s", "e", "f"], ["s"]) && Under(["s", "e", "f"], ["s", "e"]);
    AboveEntry(fs, ["s", "e", "f"], ["s"]);
    AboveEntry(fs, ["s", "e", "f"], ["s", "e"]);
    var links := LinkFromD(fs, target);
    ComponentsOfName("e");
    if target == "/s/e" {
      ComponentsJoin("s", "e");
      ComponentsJoin("", "s/e");
      assert "/s/e" == "" + "/" + "s/e" && "s/e" == "s" + "/" + "e";
      assert Components(target) + ["f"] == [""] + (["s"] + (["e"] + ["f"]));
      WalkSlash(fs, [], ["s"] + (["e"] + ["f"]), 1, links);
      assert [] + ["s"] == ["s"];
      WalkStep(fs, [], "s", ["e"] + ["f"], 1, links);
    } else {
      assert Components(target) + ["f"] == ["e"] + ["f"];
    }
    assert ["s"] + ["e"] == ["s", "e"];
    WalkStep(fs, ["s"], "e", ["f"], 1, links);
    WalkLast(fs, ["s", "e"], "f", links);
    assert ["s", "e"] + ["f"] == ["s", "e", "f"];
  }

  /** The end of a restart: the tree without `e/f`, whatever was written. */
  lemma SecondRemovalTakes(fs: FileSystem, l: Layout, j: Job, target: string, hash: Hash)
    requires IsPlaced(l) && j.change == Linking(target, j.change.files) && (target == "e" || target == "/s/e")
    requires Near(fs, RootsOf(l, j.uid), j.change) && Shows(fs, l.seed, j.change.work)
    requires Shows(fs, RootsOf(l, j.uid).work, j.change.work)
    ensures WritesWork(j)
    ensures var a := Carry(hash, fs, RootsOf(l, j.uid), j.change);
            && a.Ok? && Seen(a.value, l.seed, ["d"]) == Some(Symlink(target))
            && Seen(a.value, l.seed, ["d", "f"]) == None && Seen(a.value, l.seed, ["e", "f"]) == None
  {
    hide Locate, IsDirectory, Remove, MoveAll, IsChange;
    var r, c := RootsOf(l, j.uid), j.change;
    LinkingIsChange(target, j.change.files);
    LeadsToE(fs, target);
    RemoveSucceeds(fs, r.seed, ["d", "f"]);
    RemoveTakes(fs, r.seed, ["d", "f"]);
    var s := Remove(fs, r.seed, ["d", "f"]).value;
    assert c.removes[1..] == [] && RemoveAll(fs, r.seed, c.removes) == Ok(s);
    OnlyWorkIsLeft(fs, r, c);
    SameBelow(l.seed, ["d"], ["e", "f"]);
    OtherRoot(r.work, r.seed, ["d"], ["e", "f"]);
    assert Seen(fs, r.work, ["d"]) == At(c.work, ["d"]) && Seen(fs, r.seed, ["d"]) == At(c.work, ["d"]);
    assert Seen(fs, r.seed, ["d", "f"]) == At(c.work, ["d", "f"]);
    OneWrite(hash, s, r, c);
  }

  lemma OneWrite(hash: Hash, s: FileSystem, r: Roots, c: Change)
    requires IsChange(c) && NoSpecials(c) && c.writes == [["d"]] && ["d"] in c.work
    requires Near(s, r, c) && OnlyWork(s, r, c) && Seen(s, r.work, ["d"]) == At(c.work, ["d"])
    ensures var m := MoveAll(hash, s, r, c.work, c.writes);
            && m.Ok?
            && (forall x :: Seen(m.value, r.seed, x) == if x == ["d"] then At(c.work, ["d"]) else Seen(s, r.seed, x))
            && forall y | !Under(y, r.seed) :: At(m.value.entries, y) == At(s.entries, y)
  {
    hide IsDirectory, Near, OnlyWork, IsDiff, MoveAll;
    MovesAre(hash, s, r, c, c.writes);
  }

  lemma WorkIsUntouched(hash: Hash, l: Layout, d: Disk, j: Job)
    requires Fits(l, d, j) && NoSpecials(j.change)
    ensures WritesWork(j)
    ensures Shows(CrashFiles(hash, l, d.fs, j, AtTheEnd(d, j)), RootsOf(l, j.uid).work, j.change.work)
  {
    hide CrashFiles, AtTheEnd, Near, IsChange, NoSpecials, Valid;
    EndFiles(hash, l, d, j);
    var fs, r := CrashFiles(hash, l, d.fs, j, AtTheEnd(d, j)), RootsOf(l, j.uid);
    forall p
      ensures Seen(fs, r.work, p) == At(j.change.work, p)
    {
      OtherRoot(r.work, r.seed, p, []);
      assert r.seed + [] == r.seed;
      assert Seen(d.fs, r.work, p) == At(j.change.work, p);
    }
  }

  /** A crash between the last record and the end of a merge that makes the directory `d` a link to
      the directory `e`, by its name or by its absolute path: the restart succeeds, remembers the
      merge, and has lost `e/f`, which the merge did not touch. */
  lemma RestartLosesFile(hash: Hash, l: Layout, d: Disk, j: Job, target: string)
    requires Clean(d) && Fits(l, d, j) && IsPlaced(l)
    requires j.change == Linking(target, j.change.files) && (target == "e" || target == "/s/e")
    ensures WritesWork(j)
    ensures var r := Recovered(hash, l, DiskAt(hash, l, d, j, Applying(AtTheEnd(d, j))));
            && r.Ok? && r.value.history == d.history + [MergeOf(j)]
            && ["e", "f"] in j.change.seed && ["e", "f"] in j.change.work
            && Seen(r.value.fs, l.seed, ["e", "f"]) == None
  {
    hide Recovered, Carry, CrashFiles, AtTheEnd, Batch, IsChange, Begins, Clean, Remembered, Near;
    LinkingIsChange(target, j.change.files);
    FitsWrites(l, d, j);
    EndFiles(hash, l, d, j);
    WorkIsUntouched(hash, l, d, j);
    SecondRemovalTakes(CrashFiles(hash, l, d.fs, j, AtTheEnd(d, j)), l, j, target, hash);
    ApplyingRecovers(hash, l, d, j, AtTheEnd(d, j));
  }

  // ----- A file of somebody else ----------------------------------------------------------------

  /** The target `/x` leads from `d` to what is in the directory `/x`. */
  lemma LeadsToX(fs: FileSystem)
    requires Valid(fs) && Seen(fs, ["s"], ["d"]) == Some(Symlink("/x")) && ["x", "f"] in fs.entries
    ensures Locate(fs, ["s"] + ["d", "f"]) == Here(["x", "f"])
  {
    hide Walk, Locate, IsDirectory, Components, Valid;
    assert Under(["x", "f"], ["x"]);
    AboveEntry(fs, ["x", "f"], ["x"]);
    var links := LinkFromD(fs, "/x");
    ComponentsOfName("x");
    ComponentsJoin("", "x");
    assert "/x" == "" + "/" + "x" && Components("/x") + ["f"] == [""] + (["x"] + ["f"]);
    WalkSlash(fs, [], ["x"] + ["f"], 1, links);
    assert [] + ["x"] == ["x"] && ["x"] + ["f"] == ["x", "f"];
    WalkStep(fs, [], "x", ["f"], 1, links);
    WalkLast(fs, ["x"], "f", links);
  }

  /** The end of a restart: the new tree, without `/x/f`. */
  lemma SecondRemovalTakesForeign(fs: FileSystem, l: Layout, j: Job, hash: Hash)
    requires IsPlaced(l) && j.change == Linking("/x", j.change.files) && ["x", "f"] in fs.entries
    requires Near(fs, RootsOf(l, j.uid), j.change) && Shows(fs, l.seed, j.change.work)
    requires Shows(fs, RootsOf(l, j.uid).work, j.change.work)
    ensures WritesWork(j)
    ensures var a := Carry(hash, fs, RootsOf(l, j.uid), j.change);
            a.Ok? && Shows(a.value, l.seed, j.change.work) && ["x", "f"] !in a.value.entries
  {
    hide Locate, IsDirectory, Remove, MoveAll, IsChange;
    var r, c := RootsOf(l, j.uid), j.change;
    LinkingIsChange("/x", c.files);
    NearIsValid(fs, r, c);
    assert Seen(fs, r.seed, ["d"]) == At(c.work, ["d"]) && Seen(fs, r.work, ["d"]) == At(c.work, ["d"]);
    LeadsToX(fs);
    RemoveSucceeds(fs, r.seed, ["d", "f"]);
    RemoveTakes(fs, r.seed, ["d", "f"]);
    var s := Remove(fs, r.seed, ["d", "f"]).value;
    assert c.removes[1..] == [] && RemoveAll(fs, r.seed, c.removes) == Ok(s);
    OnlyWorkIsLeft(fs, r, c);
    BesidesX(fs, s, r);
    OneWrite(hash, s, r, c);
    assert !Under(["x", "f"], r.seed);
    var a := MoveAll(hash, s, r, c.work, c.writes).value;
    assert At(a.entries, ["x", "f"]) == At(s.entries, ["x", "f"]) == None;
    forall p
      ensures Seen(a, r.seed, p) == At(c.work, p)
    {
      assert Seen(fs, r.seed, p) == At(c.work, p);
    }
  }

  lemma BesidesX(fs: FileSystem, s: FileSystem, r: Roots)
    requires r.seed == ["s"] && r.work != [] && r.work[0] == "snap" && s.entries == Cleared(fs.entries, ["x", "f"])
    ensures forall p :: Seen(s, r.seed, p) == Seen(fs, r.seed, p) && Seen(s, r.work, p) == Seen(fs, r.work, p)
  {
    forall p
      ensures Seen(s, r.seed, p) == Seen(fs, r.seed, p) && Seen(s, r.work, p) == Seen(fs, r.work, p)
    {
      assert (r.seed + p)[0] == "s" && (r.work + p)[0] == "snap";
    }
  }

  /** If the directory becomes a link to the directory `/x`, outside the seed, the same crash ends well
      for the seed, and the restart has removed `/x/f`. */
  lemma RestartLosesForeignFile(hash: Hash, l: Layout, d: Disk, j: Job)
    requires Clean(d) && Fits(l, d, j) && IsPlaced(l)
    requires j.change == Linking("/x", j.change.files) && ["x", "f"] in d.fs.entries
    ensures WritesWork(j)
    ensures var r := Recovered(hash, l, DiskAt(hash, l, d, j, Applying(AtTheEnd(d, j))));
            && r.Ok? && r.value.history == d.history + [MergeOf(j)]
            && Shows(r.value.fs, l.seed, j.change.work) && ["x", "f"] !in r.value.fs.entries
  {
    hide Recovered, Carry, CrashFiles, AtTheEnd, Batch, IsChange, Begins, Clean, Remembered, Near, Shows, Seen;
    LinkingIsChange("/x", j.change.files);
    FitsWrites(l, d, j);
    EndFiles(hash, l, d, j);
    WorkIsUntouched(hash, l, d, j);
    var fs := CrashFiles(hash, l, d.fs, j, AtTheEnd(d, j));
    assert !Under(["x", "f"], l.seed) by { assert ["x", "f"][..1][0][0] == 'x' && l.seed[0][0] == 's'; }
    assert At(fs.entries, ["x", "f"]) == At(d.fs.entries, ["x", "f"]);
    SecondRemovalTakesForeign(fs, l, j, hash);
    ApplyingRecovers(hash, l, d, j, AtTheEnd(d, j));
  }

  // ----- A link to a file outside ---------------------------------------------------------------

  lemma HostnameComponents()
    ensures Components("/etc/hostname") == [""] + (["etc"] + ["hostname"])
  {
    hide Components;
    ComponentsOfName("hostname");
    ComponentsJoin("etc", "hostname");
    ComponentsJoin("", "etc/hostname");
    assert "/etc/hostname" == "" + "/" + "etc/hostname" && "etc/hostname" == "etc" + "/" + "hostname";
  }

  lemma LeadsToFile(fs: FileSystem)
    requires Valid(fs) && Seen(fs, ["s"], ["d"]) == Some(Symlink("/etc/hostname"))
    requires ["etc", "hostname"] in fs.entries && fs.entries[["etc", "hostname"]].File?
    ensures Locate(fs, ["s"] + ["d", "f"]) == InTheWay
  {
    hide Walk, Locate, IsDirectory, Components, Valid;
    var target := "/etc/hostname";
    assert Under(["etc", "hostname"], ["etc"]);
    AboveEntry(fs, ["etc", "hostname"], ["etc"]);
    var links := LinkFromD(fs, target);
    HostnameComponents();
    assert Components(target) + ["f"] == [""] + (["etc"] + (["hostname"] + ["f"]));
    WalkSlash(fs, [], ["etc"] + (["hostname"] + ["f"]), 1, links);
    assert [] + ["etc"] == ["etc"] && ["etc"] + ["hostname"] == ["etc", "hostname"];
    WalkStep(fs, [], "etc", ["hostname"] + ["f"], 1, links);
    WalkFile(fs, ["etc"], "hostname", ["f"], 1, links);
  }

  /** If the directory becomes a link to a file, wherever that is, the same crash leaves a log that no
      restart gets through. */
  lemma RestartMeetsFile(hash: Hash, l: Layout, d: Disk, j: Job)
    requires Clean(d) && Fits(l, d, j) && IsPlaced(l) && j.change == Linking("/etc/hostname", j.change.files)
    requires ["etc", "hostname"] in d.fs.entries && d.fs.entries[["etc", "hostname"]].File?
    ensures WritesWork(j)
    ensures Recovered(hash, l, DiskAt(hash, l, d, j, Applying(AtTheEnd(d, j)))) == Err(NotADirectory)
  {
    hide Recovered, CrashFiles, AtTheEnd, Batch, IsChange, Begins, Clean, Remembered, Locate, IsDirectory, MoveAll;
    LinkingIsChange("/etc/hostname", j.change.files);
    FitsWrites(l, d, j);
    EndFiles(hash, l, d, j);
    var fs := CrashFiles(hash, l, d.fs, j, AtTheEnd(d, j));
    assert Seen(fs, l.seed, ["d"]) == At(j.change.work, ["d"]);
    assert !Under(["etc", "hostname"], l.seed) && At(fs.entries, ["etc", "hostname"]) == At(d.fs.entries, ["etc", "hostname"]);
    LeadsToFile(fs);
    RemoveFails(fs, l.seed, ["d", "f"]);
    ApplyingRecovers(hash, l, d, j, AtTheEnd(d, j));
  }

  // ----- A move whose source is taken -----------------------------------------------------------

  /** The job replaces `d` by a link to the absolute path of `e` as it sees it, which is in its
      snapshot, and writes `e/f`. */
  function SelfLink(files: Tree): Change {
    Change(map[["d", "f"] := File(0, ""), ["e", "f"] := File(0, "1")],
           map[["d"] := Symlink("/snap/u/e"), ["e", "f"] := File(0, "2")],
           [["d", "f"]], [["d"], ["e", "f"]], files)
  }

  lemma SelfLinkIsChange(files: Tree)
    ensures IsChange(SelfLink(files)) && NoSpecials(SelfLink(files))
  {
    var c := SelfLink(files);
    PairIsWellFormed(c.work);
    assert forall p | p in c.seed :: |p| == 2;
    forall p
      ensures p in c.removes <==> Removed(c.seed, c.work, p)
      ensures p in c.writes <==> Written(c.seed, c.work, p)
    {
      assert p in c.removes <==> p == ["d", "f"];
      assert p in c.writes <==> p == c.writes[0] || p == c.writes[1];
      assert p in c.seed <==> p == ["d", "f"] || p == ["e", "f"];
      assert p in c.work <==> p == ["d"] || p == ["e", "f"];
    }
  }

  lemma SnapshotComponents()
    ensures Components("/snap/u/e") == [""] + (["snap"] + (["u"] + ["e"]))
  {
    hide Components;
    ComponentsOfName("e");
    ComponentsJoin("u", "e");
    ComponentsJoin("snap", "u/e");
    ComponentsJoin("", "snap/u/e");
    assert "/snap/u/e" == "" + "/" + "snap/u/e" && "snap/u/e" == "snap" + "/" + "u/e" && "u/e" == "u" + "/" + "e";
  }

  lemma LeadsToSnapshot(fs: FileSystem)
    requires Valid(fs) && Seen(fs, ["s"], ["d"]) == Some(Symlink("/snap/u/e")) && ["snap", "u", "e", "f"] in fs.entries
    ensures Locate(fs, ["s"] + ["d", "f"]) == Here(["snap", "u", "e", "f"])
  {
    hide Walk, Locate, IsDirectory, Components, Valid;
    var target, x := "/snap/u/e", ["snap", "u", "e", "f"];
    SnapshotComponents();
    assert Under(x, ["snap"]) && Under(x, ["snap", "u"]) && Under(x, ["snap", "u", "e"]);
    AboveEntry(fs, x, ["snap"]);
    AboveEntry(fs, x, ["snap", "u"]);
    AboveEntry(fs, x, ["snap", "u", "e"]);
    var links := LinkFromD(fs, target);
    assert Components(target) + ["f"] == [""] + (["snap"] + (["u"] + (["e"] + ["f"])));
    WalkSlash(fs, [], ["snap"] + (["u"] + (["e"] + ["f"])), 1, links);
    assert [] + ["snap"] == ["snap"] && ["snap"] + ["u"] == ["snap", "u"] && ["snap", "u"] + ["e"] == ["snap", "u", "e"];
    WalkStep(fs, [], "snap", ["u"] + (["e"] + ["f"]), 1, links);
    WalkStep(fs, ["snap"], "u", ["e"] + ["f"], 1, links);
    WalkStep(fs, ["snap", "u"], "e", ["f"], 1, links);
    WalkLast(fs, ["snap", "u", "e"], "f", links);
    assert ["snap", "u", "e"] + ["f"] == x;
  }

  /** The files after the removal and the first write. */
  ghost predicate IsHalfDone(fs: FileSystem, r: Roots, files: Tree) {
    && Near(fs, r, SelfLink(files)) && Shows(fs, r.work, SelfLink(files).work)
    && Seen(fs, r.seed, ["d"]) == Some(Symlink("/snap/u/e"))
    && Seen(fs, r.seed, ["d", "f"]) == None
    && Seen(fs, r.seed, ["e", "f"]) == Some(File(0, "1"))
  }

  lemma HalfDone(hash: Hash, l: Layout, d: Disk, j: Job) returns (cuts: seq<Cut>)
    requires Fits(l, d, j) && IsPlaced(l) && j.uid == "u" && j.change == SelfLink(j.change.files)
    ensures WritesWork(j) && IsHalfDone(CrashFiles(hash, l, d.fs, j, cuts), RootsOf(l, j.uid), j.change.files)
  {
    hide Locate, IsDirectory, Remove, MoveInto, IsHalfway, IsChange, Near, OnlyWork, Moves, ApplyRecord;
    var r, c := RootsOf(l, j.uid), SelfLink(j.change.files);
    FitsWrites(l, d, j);
    SelfLinkIsChange(c.files);
    BeginsBetween(d.fs, r, c);
    BeginsWithNothingNew(d.fs, r, c);
    BetweenIsNear(d.fs, r, c);
    NothingInTheWay(d.fs, r, c, ["d", "f"]);
    LocateDirect(d.fs, r.seed + ["d", "f"]);
    RemoveSucceeds(d.fs, r.seed, ["d", "f"]);
    RemoveTakes(d.fs, r.seed, ["d", "f"]);
    var a := Remove(d.fs, r.seed, ["d", "f"]).value;
    assert c.removes[1..] == [] && RemoveAll(d.fs, r.seed, c.removes) == Ok(a);
    OnlyWorkIsLeft(d.fs, r, c);
    AfterRemoval(d.fs, a, r, c.files);
    MoveOne(hash, a, r, c, ["d"]);
    WroteIsNear(a, r, c, ["d"]);
    var fs := Wrote(a, r.seed + ["d"], c.work[["d"]]);
    cuts := [Cut(2, fs)];
    TwoSteps(hash, d.fs, a, fs, r, cuts[0], c.files);
    assert cuts[..0] == [];
    NoCuts(hash, l, d, j);
    forall p
      ensures Seen(fs, r.work, p) == At(c.work, p)
    {
      assert Seen(a, r.work, p) == At(c.work, p);
    }
  }

  lemma AfterRemoval(fs: FileSystem, a: FileSystem, r: Roots, files: Tree)
    requires Apart(r) && Begins(fs, r, SelfLink(files)) && a.entries == Cleared(fs.entries, r.seed + ["d", "f"])
    ensures Shows(a, r.work, SelfLink(files).work)
    ensures Seen(a, r.seed, ["d", "f"]) == None && Seen(a, r.seed, ["e", "f"]) == Some(File(0, "1"))
  {
    hide Valid, Open;
    forall p
      ensures Seen(a, r.work, p) == At(SelfLink(files).work, p)
    {
      OtherRoot(r.work, r.seed, p, ["d", "f"]);
      assert Seen(fs, r.work, p) == At(SelfLink(files).work, p);
    }
    SameBelow(r.seed, ["e", "f"], ["d", "f"]);
    assert Seen(fs, r.seed, ["e", "f"]) == At(SelfLink(files).seed, ["e", "f"]);
  }

  lemma TwoSteps(hash: Hash, fs: FileSystem, a: FileSystem, b: FileSystem, r: Roots, cut: Cut, files: Tree)
    requires cut == Cut(2, b) && WellFormed(SelfLink(files).work) && (forall p | p in SelfLink(files).writes :: p in SelfLink(files).work)
    requires Remove(fs, r.seed, ["d", "f"]) == Ok(a)
    requires MoveInto(hash, a, r.seed, r.work, ["d"], hash("/snap/u/e")) == Ok(b)
    ensures CutReplay(hash, fs, r, Ops(hash, SelfLink(files)), cut) == b
  {
    hide Remove, MoveInto, IsHalfway;
    var moves := Moves(hash, SelfLink(files).work, SelfLink(files).writes);
    var ops := Ops(hash, SelfLink(files));
    assert Deletes([["d", "f"]]) == [Delete(["d", "f"])] by { assert [["d", "f"]][1..] == []; }
    assert ops[0] == Delete(["d", "f"]) && ops[1..] == moves;
    assert SelfLink(files).writes[1..] == [["e", "f"]];
    assert moves[0] == Move(["d"], hash("/snap/u/e"));
    assert CutReplay(hash, a, r, moves, Cut(1, b)) == CutReplay(hash, b, r, moves[1..], Cut(0, b));
  }

  /** Then the removal takes the source of the second move, and its content is nowhere else. */
  lemma SourceIsTaken(hash: Hash, fs: FileSystem, l: Layout, uid: string, files: Tree)
    requires IsPlaced(l) && uid == "u" && IsHalfDone(fs, RootsOf(l, uid), files) && hash("1") != hash("2")
    requires IsChange(SelfLink(files))
    ensures Carry(hash, fs, RootsOf(l, uid), SelfLink(files)) == Err(SourceGone)
  {
    hide Locate, IsDirectory, Remove, MoveInto, IsChange, Near, OnlyWork;
    var r, c := RootsOf(l, uid), SelfLink(files);
    NearIsValid(fs, r, c);
    assert Seen(fs, r.work, ["e", "f"]) == At(c.work, ["e", "f"]) && Seen(fs, r.work, ["d"]) == At(c.work, ["d"]);
    assert r.work + ["e", "f"] == ["snap", "u", "e", "f"] && r.seed == ["s"];
    LeadsToSnapshot(fs);
    RemoveSucceeds(fs, r.seed, ["d", "f"]);
    RemoveTakes(fs, r.seed, ["d", "f"]);
    var s := Remove(fs, r.seed, ["d", "f"]).value;
    assert c.removes[1..] == [] && RemoveAll(fs, r.seed, c.removes) == Ok(s);
    OnlyWorkIsLeft(fs, r, c);
    TakenSeen(fs, s, r);
    MoveOne(hash, s, r, c, ["d"]);
    WroteIsNear(s, r, c, ["d"]);
    var b := Wrote(s, r.seed + ["d"], c.work[["d"]]);
    assert Seen(b, r.work, ["e", "f"]) == None && Seen(b, r.seed, ["e", "f"]) == Some(File(0, "1"));
    StuckMove(hash, b, r, files);
    assert c.writes[1..] == [["e", "f"]];
  }

  lemma TakenSeen(fs: FileSystem, s: FileSystem, r: Roots)
    requires r.seed == ["s"] && r.work == ["snap", "u"]
    requires s.entries == Cleared(fs.entries, ["snap", "u", "e", "f"])
    ensures Seen(s, r.work, ["e", "f"]) == None && Seen(s, r.work, ["d"]) == Seen(fs, r.work, ["d"])
    ensures forall p :: Seen(s, r.seed, p) == Seen(fs, r.seed, p)
  {
    assert r.work + ["e", "f"] == ["snap", "u", "e", "f"];
    SameBelow(r.work, ["d"], ["e", "f"]);
    forall p
      ensures Seen(s, r.seed, p) == Seen(fs, r.seed, p)
    {
      assert (["s"] + p)[0] == "s";
    }
  }

  lemma StuckMove(hash: Hash, b: FileSystem, r: Roots, files: Tree)
    requires IsChange(SelfLink(files)) && Near(b, r, SelfLink(files)) && OnlyWork(b, r, SelfLink(files)) && hash("1") != hash("2")
    requires Seen(b, r.work, ["e", "f"]) == None && Seen(b, r.seed, ["e", "f"]) == Some(File(0, "1"))
    ensures MoveInto(hash, b, r.seed, r.work, ["e", "f"], hash(Content(SelfLink(files).work[["e", "f"]]))) == Err(SourceGone)
  {
    hide Locate, IsDirectory, Near, OnlyWork, IsChange;
    SelfLinkIsWellFormed(files);
    SourceIsDirect(b, r, SelfLink(files), ["e", "f"]);
    TargetIsDirect(b, r, SelfLink(files), ["e", "f"]);
  }

  lemma SelfLinkIsWellFormed(files: Tree)
    ensures WellFormed(SelfLink(files).work)
  {
    PairIsWellFormed(SelfLink(files).work);
  }

  /** A crash between the two writes: the restart follows the link into the snapshot and takes the
      source of the second write. The new content is gone, and no restart gets through. */
  lemma RestartLosesSource(hash: Hash, l: Layout, d: Disk, j: Job) returns (cuts: seq<Cut>)
    requires Clean(d) && Fits(l, d, j) && IsPlaced(l) && j.uid == "u" && j.change == SelfLink(j.change.files) && hash("1") != hash("2")
    ensures WritesWork(j)
    ensures Recovered(hash, l, DiskAt(hash, l, d, j, Applying(cuts))) == Err(SourceGone)
  {
    hide Recovered, CrashFiles, Carry, Batch, IsChange, Begins, Clean, Remembered, IsHalfDone;
    FitsWrites(l, d, j);
    cuts := HalfDone(hash, l, d, j);
    SourceIsTaken(hash, CrashFiles(hash, l, d.fs, j, cuts), l, j.uid, j.change.files);
    ApplyingRecovers(hash, l, d, j, cuts);
  }

  // ----- A directory that is moved --------------------------------------------------------------

  /** `mv d e; ln -s e d` */
  function MovedLink(files: Tree): Change {
    Change(map[["d", "f"] := File(0, "")], map[["d"] := Symlink("e"), ["e", "f"] := File(0, "")],
           [["d", "f"]], [["d"], ["e", "f"]], files)
  }

  lemma MovedIsChange(files: Tree)
    ensures var c := MovedLink(files); IsChange(c) && NoSpecials(c) && NoDirectoryBecomesFile(c.seed, c.work)
  {
    var c := MovedLink(files);
    PairIsWellFormed(c.work);
    forall p
      ensures p in c.removes <==> Removed(c.seed, c.work, p)
      ensures p in c.writes <==> Written(c.seed, c.work, p)
    {
      assert p in c.removes <==> p == ["d", "f"];
      assert p in c.writes <==> p == c.writes[0] || p == c.writes[1];
      assert p in c.seed <==> p == ["d", "f"];
      assert p in c.work <==> p == ["d"] || p == ["e", "f"];
    }
  }

  lemma MovedLeadsAside(files: Tree)
    ensures LinksLeadAside(MovedLink(files))
  {
    ComponentsOfName("e");
    assert Dest(["d"], "e", ["d", "f"]) == ["e", "f"] by {
      assert Parent(["d"]) == [] && ["d", "f"][1..] == ["f"] && [] + (["e"] + ["f"]) == ["e", "f"];
    }
    var d := ["e", "f"];
    assert Plain(Components("e")) by { assert Components("e") == ["e"]; }
    assert !Under(d, ["d", "f"]) && !Under(d, ["d"]) && !Under(d, d) by { assert d[..1] == ["e"] && ["e"][0] != ["d"][0]; }
    assert !Under(["d", "f"], d);
    assert LeadsAside(MovedLink(files), ["d", "f"], ["d"], "e");
  }

  /** Here the link leads to what the merge itself brings, and every crash can be recovered from. */
  lemma MovedDirectoryRecovers(hash: Hash, l: Layout, d: Disk, j: Job)
    requires Clean(d) && Fits(l, d, j) && j.change == MovedLink(j.change.files)
    ensures WritesWork(j) && Recoverable(hash, l, d, j)
  {
    hide Recoverable, LinksLeadAside, IsChange, Clean, Fits;
    MovedIsChange(j.change.files);
    MovedLeadsAside(j.change.files);
    RecoverableIff(hash, l, d, j);
  }

  // ----- Such merges there are ------------------------------------------------------------------

  const PLACED: Layout := Layout(["s"], ["snap"])

  function AllFiles(target: string, before: string, after: string): Tree {
    map[["s", "d", "f"] := File(0, ""), ["s", "e", "f"] := File(0, before),
        ["snap", "u", "d"] := Symlink(target), ["snap", "u", "e", "f"] := File(0, after),
        ["etc", "hostname"] := File(0, ""), ["x", "f"] := File(0, "")]
  }

  lemma SameStart(q: Path, e: Path)
    requires e != []
    ensures Under(q, e) ==> q[0] == e[0]
  {
    assert Under(q, e) ==> q[..|e|][0] == q[0];
  }

  lemma FilesAreValid(target: string, before: string, after: string)
    ensures Valid(FileSystem(AllFiles(target, before, after), {}))
  {
    var t := AllFiles(target, before, after);
    assert ["snap", "u", "e", "f"][..3] == ["snap", "u", "e"] && ["snap", "u", "e"][2] != ["snap", "u", "d"][2];
    forall e, q | e in t && q in t
      ensures !Under(q, e)
    {
      SameStart(q, e);
    }
    forall e | e in t
      ensures !IsDirectory(FileSystem(t, {}), e)
    {
    }
  }

  /** The two trees that these files show, with the files. */
  predicate IsShown(c: Change, target: string, before: string, after: string) {
    && c.seed == map[["d", "f"] := File(0, ""), ["e", "f"] := File(0, before)]
    && c.work == map[["d"] := Symlink(target), ["e", "f"] := File(0, after)]
    && c.files == AllFiles(target, before, after)
  }

  lemma FilesShow(target: string, before: string, after: string, c: Change)
    requires IsShown(c, target, before, after)
    ensures var fs := FileSystem(AllFiles(target, before, after), {});
            Shows(fs, ["s"], c.seed) && Shows(fs, ["snap", "u"], c.work)
  {
    var fs := FileSystem(AllFiles(target, before, after), {});
    var d, f, e := ["d"], ["d", "f"], ["e", "f"];
    assert ["s"] + f == ["s", "d", "f"] && ["s"] + e == ["s", "e", "f"];
    assert ["snap", "u"] + d == ["snap", "u", "d"] && ["snap", "u"] + e == ["snap", "u", "e", "f"];
    forall p
      ensures Seen(fs, ["s"], p) == At(c.seed, p)
    {
      SameBelow(["s"], p, f);
      SameBelow(["s"], p, e);
      assert (["s"] + p)[0] == "s";
    }
    forall p
      ensures Seen(fs, ["snap", "u"], p) == At(c.work, p)
    {
      SameBelow(["snap", "u"], p, d);
      SameBelow(["snap", "u"], p, e);
      assert (["snap", "u"] + p)[0] == "snap";
    }
  }

  /** A disk on which such a merge fits, whatever the target of the link. */
  lemma ChangeFits(target: string, before: string, after: string, c: Change)
    requires IsChange(c) && IsShown(c, target, before, after)
    ensures var d, j := Disk(FileSystem(AllFiles(target, before, after), {}), [], []), Job("u", 1, "g", c);
            IsPlaced(PLACED) && Clean(d) && Fits(PLACED, d, j)
  {
    var d, j := Disk(FileSystem(AllFiles(target, before, after), {}), [], []), Job("u", 1, "g", c);
    FilesAreValid(target, before, after);
    FilesShow(target, before, after, c);
    hide Valid, Shows, IsChange, IsShown;
    var r := RootsOf(PLACED, "u");
    assert ["snap"] + ["u"] == ["snap", "u"];
    assert Open(d.fs, r.seed) && Open(d.fs, r.work);
    assert Apart(r) by { assert ["snap", "u"][0] != ["s"][0]; }
    assert Parse(d.log) == [];
  }

  /** Such as the ones above. */
  lemma IncidentsFit(target: string)
    ensures exists d, j :: Clean(d) && IsPlaced(PLACED) && Fits(PLACED, d, j) && j.change == Linking(target, j.change.files)
                           && ["x", "f"] in d.fs.entries
                           && ["etc", "hostname"] in d.fs.entries && d.fs.entries[["etc", "hostname"]].File?
    ensures exists d, j :: Clean(d) && IsPlaced(PLACED) && Fits(PLACED, d, j) && j.uid == "u" && j.change == SelfLink(j.change.files)
  {
    hide Fits, Clean, IsChange;
    var linking, self := AllFiles(target, "", ""), AllFiles("/snap/u/e", "1", "2");
    LinkingIsChange(target, linking);
    ChangeFits(target, "", "", Linking(target, linking));
    SelfLinkIsChange(self);
    ChangeFits("/snap/u/e", "1", "2", SelfLink(self));
  }
}
