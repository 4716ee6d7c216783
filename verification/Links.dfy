/** When carrying the differences out again is sound: what a second removal of a path does if the path
    now runs through a link or a file (shellmux/src/wal.rs:155-169). */
module Links {
  import opened Wrappers
  import opened Trees
  import opened Files
  import opened Replay

  /** What a crash may leave: some of what differs is gone from the seed or there already. Nothing
      that both trees have alike is gone, and nothing outside the seed. */
  ghost predicate Between(fs: FileSystem, r: Roots, c: Change) {
    && Near(fs, r, c)
    && (forall p | At(c.seed, p) == At(c.work, p) :: Seen(fs, r.seed, p) == At(c.seed, p))
    && Shows(fs, r.work, c.work)
    && Untouched(fs, r, c)
  }

  /** No fifo, socket or device is to be copied. */
  ghost predicate NoSpecials(c: Change) { forall p | p in c.writes && p in c.work :: !c.work[p].Other? }

  // ----- One removal ----------------------------------------------------------------------------

  ghost predicate KeepsBetween(fs: FileSystem, r: Roots, c: Change, p: Path) {
    var a := Remove(fs, r.seed, p);
    a.Ok? && Between(a.value, r, c)
  }

  /** Neither tree has anything at or below a path that the other has alike. */
  predicate Differs(c: Change, d: Path) {
    && (forall y | y in c.seed && (y == d || Under(y, d)) :: At(c.seed, y) != At(c.work, y))
  }

  lemma PartIsBetween(fs: FileSystem, a: FileSystem, r: Roots, c: Change)
    requires Between(fs, r, c) && Smaller(a, fs)
    requires forall p | At(c.seed, p) == At(c.work, p) :: Seen(a, r.seed, p) == Seen(fs, r.seed, p)
    requires forall y | y in fs.entries && !Under(y, r.seed) :: y in a.entries
    ensures Between(a, r, c)
  {
    NearShrinks(fs, a, r, c);
    hide Near, IsDirectory;
    ApartIs(fs, r, c);
    forall p
      ensures Seen(a, r.work, p) == At(c.work, p)
    {
      OtherRoot(r.work, r.seed, p, []);
      assert r.seed + [] == r.seed;
      assert Seen(fs, r.work, p) == At(c.work, p);
    }
    forall y | !Under(y, r.seed) && !Under(y, r.work)
      ensures At(a.entries, y) == At(c.files, y)
    {
      assert At(fs.entries, y) == At(c.files, y);
    }
  }

  lemma ApartIs(fs: FileSystem, r: Roots, c: Change)
    requires Near(fs, r, c)
    ensures r.seed != r.work && !Under(r.seed, r.work) && !Under(r.work, r.seed)
  {
  }

  /** A removal that leads to a place in the seed where everything differs. */
  lemma TakesDiffering(fs: FileSystem, r: Roots, c: Change, p: Path, d: Path)
    requires Between(fs, r, c) && d != [] && Differs(c, d)
    requires Locate(fs, r.seed + p) == Here(r.seed + d) || Locate(fs, r.seed + p) == Missing
    ensures KeepsBetween(fs, r, c, p)
  {
    hide Locate, IsDirectory, Near;
    RemoveSucceeds(fs, r.seed, p);
    RemoveTakes(fs, r.seed, p);
    var a := Remove(fs, r.seed, p).value;
    forall x | At(c.seed, x) == At(c.work, x)
      ensures Seen(a, r.seed, x) == Seen(fs, r.seed, x)
    {
      SameBelow(r.seed, x, d);
      assert Seen(fs, r.seed, x) == At(c.seed, x);
    }
    forall y | y in fs.entries && !Under(y, r.seed)
      ensures y in a.entries
    {
      assert Under(r.seed + d, r.seed);
      if Under(y, r.seed + d) {
        StillUnder(y, r.seed + d, r.seed);
      }
    }
    PartIsBetween(fs, a, r, c);
  }

  lemma RemovedDiffers(c: Change, p: Path)
    requires IsChange(c) && p in c.removes
    ensures p != [] && Differs(c, p) && p in c.seed && p !in c.work
  {
    assert Removed(c.seed, c.work, p);
  }

  /** With nothing on its way, a removal takes what it names. */
  lemma DirectRemoval(fs: FileSystem, r: Roots, c: Change, p: Path)
    requires IsChange(c) && Between(fs, r, c) && p in c.removes && !Blocked(fs, r.seed + p)
    ensures KeepsBetween(fs, r, c, p)
  {
    RemovedDiffers(c, p);
    LocateDirect(fs, r.seed + p);
    TakesDiffering(fs, r, c, p, p);
  }

  // ----- All removals ---------------------------------------------------------------------------

  lemma {:induction false} AllKeepBetween(fs: FileSystem, r: Roots, c: Change, paths: seq<Path>)
    requires Between(fs, r, c) && forall p | p in paths :: p in c.removes
    requires forall a, p | Between(a, r, c) && p in c.removes :: KeepsBetween(a, r, c, p)
    ensures var s := RemoveAll(fs, r.seed, paths); s.Ok? && Between(s.value, r, c)
    decreases |paths|
  {
    hide Between, Remove;
    if paths != [] {
      assert paths[0] in paths && KeepsBetween(fs, r, c, paths[0]);
      AllKeepBetween(Remove(fs, r.seed, paths[0]).value, r, c, paths[1..]);
    }
  }

  lemma BetweenIsSettled(s: FileSystem, r: Roots, c: Change)
    requires IsChange(c) && Between(s, r, c)
    ensures (forall p | p in c.work :: IsSettled(s, r, c, p)) <==> NoSpecials(c)
  {
    hide Near;
    forall p | p in c.work
      ensures IsSettled(s, r, c, p) <==> (p in c.writes ==> !c.work[p].Other?)
    {
      assert Seen(s, r.work, p) == At(c.work, p);
      assert p in c.writes <==> Written(c.seed, c.work, p);
    }
  }

  /** If each removal, on each tree that a crash may leave, takes only what differs, then all of them
      together are sound on each, unless something cannot be copied. */
  lemma SinglesSuffice(fs: FileSystem, r: Roots, c: Change)
    requires IsChange(c) && Between(fs, r, c)
    requires forall a, p | Between(a, r, c) && p in c.removes :: KeepsBetween(a, r, c, p)
    ensures IsSound(fs, r, c) <==> NoSpecials(c)
  {
    hide RemoveAll, Between, IsSettled, IsDiff;
    AllKeepBetween(fs, r, c, c.removes);
    var s := RemoveAll(fs, r.seed, c.removes).value;
    BetweenIsSettled(s, r, c);
    BetweenIsUntouched(s, r, c);
  }

  lemma BetweenIsUntouched(fs: FileSystem, r: Roots, c: Change)
    requires Between(fs, r, c)
    ensures Untouched(fs, r, c)
  {
  }

  // ----- Links to the side ----------------------------------------------------------------------

  /** Where the rest of a path behind a link leads by name. */
  function Dest(q: Path, target: string, p: Path): Path
    requires |q| <= |p|
  {
    Parent(q) + (Components(target) + p[|q|..])
  }

  /** A link of names that leads from one path to another, with nothing on the way in either tree and
      nothing at its end that both have alike. */
  predicate LeadsAside(c: Change, p: Path, q: Path, target: string)
    requires |q| <= |p|
  {
    && Plain(Components(target))
    && Differs(c, Dest(q, target, p))
    && (forall y | y in c.seed :: !Under(Dest(q, target, p), y))
    && (forall y | y in c.work :: !Under(Dest(q, target, p), y))
  }

  /** Where a directory becomes a link, the link leads to the side: to nothing, or to what is new or
      changed too, as when the directory has been moved there. */
  ghost predicate LinksLeadAside(c: Change) {
    forall p, q | p in c.seed && q in c.work && Under(p, q) && c.work[q].Symlink? :: LeadsAside(c, p, q, c.work[q].target)
  }

  lemma ComponentsRelative(target: string)
    requires Components(target)[0] != ""
    ensures target != "" && target[0] != '/'
  {
  }

  /** A removed path runs through at most one entry, and that is new. */
  lemma WhatIsInTheWay(fs: FileSystem, r: Roots, c: Change, p: Path) returns (q: Path)
    requires IsChange(c) && Near(fs, r, c) && p in c.removes && Blocked(fs, r.seed + p)
    ensures Under(p, q) && q in c.work && r.seed + q in fs.entries && fs.entries[r.seed + q] == c.work[q]
  {
    RemovedDiffers(c, p);
    var e :| e in fs.entries && Under(r.seed + p, e);
    q := AboveInTree(fs, r.seed, p, e);
    assert Seen(fs, r.seed, q) == At(c.seed, q) || Seen(fs, r.seed, q) == At(c.work, q);
  }

  lemma SeedAndLink(seed: Path, p: Path, q: Path)
    requires Under(p, q) && q != []
    ensures Under(seed + p, seed + q) && Parent(seed + q) == seed + Parent(q)
    ensures |seed + q| < |seed + p| && (seed + p)[|seed + q|..] == p[|q|..] && |seed + p| - |seed + q| == |p| - |q|
  {
    SameBelow(seed, p, q);
  }

  lemma NearIsValid(fs: FileSystem, r: Roots, c: Change)
    requires Near(fs, r, c)
    ensures Valid(fs)
  {
  }

  lemma DestParts(seed: Path, q: Path, parts: seq<string>, next: seq<string>, i: nat)
    requires 0 < i < |parts + next|
    ensures var d, y := Parent(q) + (parts + next), Parent(q) + (parts + next)[..i];
            Under(d, y) && (seed + Parent(q)) + (parts + next)[..i] == seed + y
  {
    var d, y := Parent(q) + (parts + next), Parent(q) + (parts + next)[..i];
    assert y == d[..|y|];
  }

  /** On the way to the end of such a link there is no entry. */
  lemma AsideIsFree(fs: FileSystem, r: Roots, c: Change, p: Path, q: Path, target: string, i: nat)
    requires Near(fs, r, c) && |q| <= |p| && LeadsAside(c, p, q, target) && 0 < i < |Components(target) + p[|q|..]|
    ensures (r.seed + Parent(q)) + (Components(target) + p[|q|..])[..i] !in fs.entries
  {
    hide Components, IsDirectory, Valid, Apart, Open, Differs, Plain, Under, Parent;
    DestParts(r.seed, q, Components(target), p[|q|..], i);
    var y := Parent(q) + (Components(target) + p[|q|..])[..i];
    assert y !in c.seed && y !in c.work;
    assert Seen(fs, r.seed, y) == None;
  }

  /** And if something is there at the end, all that the link names on the way are directories. */
  lemma AsideIsThere(fs: FileSystem, at: Path, parts: seq<string>, next: seq<string>, i: nat)
    requires next != [] && 0 < i <= |parts|
    requires SomeBelow(fs.entries, at + (parts + next)) || at + (parts + next) in fs.entries
    ensures IsDirectory(fs, at + parts[..i])
  {
    assert (parts + next)[..i] == parts[..i];
    assert at + parts[..i] == (at + (parts + next))[..|at| + i];
    DirectoryAbove(fs, at + (parts + next), |at| + i);
  }

  lemma AsideIsPlain(c: Change, p: Path, q: Path, target: string)
    requires |q| <= |p| && LeadsAside(c, p, q, target)
    ensures Plain(Components(target)) && Components(target)[0] != ""
  {
  }

  lemma DestIsDeep(q: Path, target: string, p: Path)
    requires |q| <= |p| && q != []
    ensures |Dest(q, target, p)| >= |p|
  {
    hide Components;
  }

  lemma AsideWalk(fs: FileSystem, at: Path, parts: seq<string>, next: seq<string>, links: nat)
    requires Plain(parts) && next != []
    requires forall i | 0 < i < |parts + next| :: at + (parts + next)[..i] !in fs.entries
    ensures var place, end := Walk(fs, at, parts + next, |next|, links), at + (parts + next);
            && (place == Missing || place == Here(end))
            && (SomeBelow(fs.entries, end) || end in fs.entries ==> place.Here?)
  {
    hide Walk, IsDirectory, SomeBelow, Plain;
    WalkPlain(fs, at, parts, next, links);
    if SomeBelow(fs.entries, at + (parts + next)) || at + (parts + next) in fs.entries {
      forall i | 0 < i <= |parts|
        ensures IsDirectory(fs, at + parts[..i])
      {
        AsideIsThere(fs, at, parts, next, i);
      }
    }
  }

  /** A link of names below a root is followed below the root. */
  lemma LinkBelowRoot(fs: FileSystem, seed: Path, p: Path, q: Path) returns (links: nat)
    requires Valid(fs) && Under(p, q) && q != [] && seed + q in fs.entries && fs.entries[seed + q].Symlink?
    requires Components(fs.entries[seed + q].target)[0] != ""
    ensures |q| < |p|
    ensures Locate(fs, seed + p)
            == Walk(fs, seed + Parent(q), Components(fs.entries[seed + q].target) + p[|q|..], |p[|q|..]|, links)
  {
    hide Locate, IsDirectory, Valid, Walk, Components;
    SeedAndLink(seed, p, q);
    LinkOnTheWay(fs, seed + p, seed + q);
    ComponentsRelative(fs.entries[seed + q].target);
    links := MAX_LINKS - 1;
  }

  /** Through a link to the side a removal leads to the end of the link, if that is there. */
  lemma AsideLeads(fs: FileSystem, r: Roots, c: Change, p: Path, q: Path)
    requires IsChange(c) && Near(fs, r, c) && p in c.removes && Under(p, q) && q in c.work
    requires r.seed + q in fs.entries && fs.entries[r.seed + q] == c.work[q] && c.work[q].Symlink?
    requires LeadsAside(c, p, q, c.work[q].target)
    ensures var d, place := Dest(q, c.work[q].target, p), Locate(fs, r.seed + p);
            && d != [] && |d| >= |p|
            && (place == Missing || place == Here(r.seed + d))
            && (SomeBelow(fs.entries, r.seed + d) || r.seed + d in fs.entries ==> place.Here?)
  {
    hide *;
    NotRoot(c, p, q);
    NearIsValid(fs, r, c);
    var target := c.work[q].target;
    var parts, next, at := Components(target), p[|q|..], r.seed + Parent(q);
    AsideIsPlain(c, p, q, target);
    var links := LinkBelowRoot(fs, r.seed, p, q);
    DestIsDeep(q, target, p);
    forall i | 0 < i < |parts + next|
      ensures at + (parts + next)[..i] !in fs.entries
    {
      AsideIsFree(fs, r, c, p, q, target, i);
    }
    AsideWalk(fs, at, parts, next, links);
    DestIs(r.seed, q, target, p);
  }

  lemma DestIs(seed: Path, q: Path, target: string, p: Path)
    requires |q| <= |p|
    ensures (seed + Parent(q)) + (Components(target) + p[|q|..]) == seed + Dest(q, target, p)
  {
    hide Components, Parent;
  }

  lemma NotRoot(c: Change, p: Path, q: Path)
    requires IsChange(c) && Under(p, q) && q in c.work
    ensures q != [] && |q| < |p|
  {
  }

  lemma DirectoryAbove(fs: FileSystem, x: Path, k: nat)
    requires (SomeBelow(fs.entries, x) || x in fs.entries) && k < |x|
    ensures IsDirectory(fs, x[..k])
  {
    assert Under(x, x[..k]);
    if x !in fs.entries {
      var y :| y in fs.entries && Under(y, x);
      StillUnder(y, x, x[..k]);
    }
  }

  /** With such links only, and no file in the way, each removal takes only what differs. */
  lemma AsideRemoval(fs: FileSystem, r: Roots, c: Change, p: Path)
    requires IsChange(c) && LinksLeadAside(c) && NoDirectoryBecomesFile(c.seed, c.work)
    requires Between(fs, r, c) && p in c.removes
    ensures KeepsBetween(fs, r, c, p)
  {
    hide Locate, IsDirectory, IsDiff, LeadsAside, KeepsBetween;
    if Blocked(fs, r.seed + p) {
      RemovedDiffers(c, p);
      var q := WhatIsInTheWay(fs, r, c, p);
      assert LeadsAside(c, p, q, c.work[q].target);
      AsideLeads(fs, r, c, p, q);
      AsideDiffers(c, p, q, c.work[q].target);
      TakesDiffering(fs, r, c, p, Dest(q, c.work[q].target, p));
    } else {
      DirectRemoval(fs, r, c, p);
    }
  }

  lemma AsideDiffers(c: Change, p: Path, q: Path, target: string)
    requires |q| <= |p| && LeadsAside(c, p, q, target)
    ensures Differs(c, Dest(q, target, p))
  {
  }

  lemma AsideIsSound(fs: FileSystem, r: Roots, c: Change)
    requires IsChange(c) && LinksLeadAside(c) && NoDirectoryBecomesFile(c.seed, c.work) && Between(fs, r, c)
    ensures IsSound(fs, r, c) <==> NoSpecials(c)
  {
    hide Between, KeepsBetween, IsSound, IsChange;
    forall a, p | Between(a, r, c) && p in c.removes
      ensures KeepsBetween(a, r, c, p)
    {
      AsideRemoval(a, r, c, p);
    }
    SinglesSuffice(fs, r, c);
  }

  // ----- A file where a directory was -----------------------------------------------------------

  /** A removal that runs through a file stays an error. What goes before it is no shallower, and so
      takes nothing that is on its way. */
  lemma {:induction false} RemovesFail(fs: FileSystem, r: Roots, c: Change, paths: seq<Path>, p: Path, q: Path)
    requires IsChange(c) && LinksLeadAside(c) && Near(fs, r, c)
    requires forall x | x in paths :: x in c.removes
    requires forall i, j :: 0 <= i < j < |paths| ==> |paths[i]| >= |paths[j]|
    requires p in paths && Under(p, q) && q in c.work && !c.work[q].Symlink? && Seen(fs, r.seed, q) == At(c.work, q)
    ensures RemoveAll(fs, r.seed, paths) == Err(NotADirectory)
    decreases |paths|
  {
    hide Locate, IsDirectory, IsDiff, LeadsAside, Near, Remove;
    var first := paths[0];
    assert first in paths && |first| >= |p|;
    RemovedDiffers(c, first);
    RemovedDiffers(c, p);
    if Blocked(fs, r.seed + first) {
      var y := WhatIsInTheWay(fs, r, c, first);
      if c.work[y].Symlink? {
        assert LeadsAside(c, first, y, c.work[y].target);
        AsideLeads(fs, r, c, first, y);
        if first == p {
          OneEntryAbove(c.work, p, q, y);
        }
        KeepsFile(fs, r, c, first, Dest(y, c.work[y].target, first), q);
        FailsLater(fs, r, c, paths, p, q);
      } else {
        NearIsValid(fs, r, c);
        SameBelow(r.seed, first, y);
        FileInTheWay(fs, r.seed + first, r.seed + y);
        RemoveFails(fs, r.seed, first);
      }
    } else {
      LocateDirect(fs, r.seed + first);
      if first == p {
        SameBelow(r.seed, p, q);
      }
      KeepsFile(fs, r, c, first, first, q);
      FailsLater(fs, r, c, paths, p, q);
    }
  }

  lemma RemoveFails(fs: FileSystem, root: Path, p: Path)
    requires Locate(fs, root + p) == InTheWay
    ensures Remove(fs, root, p) == Err(NotADirectory)
  {
  }

  lemma OneEntryAbove(t: Tree, p: Path, q: Path, y: Path)
    requires WellFormed(t) && q in t && y in t && Under(p, q) && Under(p, y)
    ensures q == y
  {
    assert q == y || Under(q, y) || Under(y, q);
  }

  /** A removal that leads to a place not above a path leaves that path alone. */
  lemma KeepsFile(fs: FileSystem, r: Roots, c: Change, p: Path, d: Path, q: Path)
    requires Near(fs, r, c) && Seen(fs, r.seed, q).Some? && q != d && !Under(q, d)
    requires Locate(fs, r.seed + p) == Here(r.seed + d) || Locate(fs, r.seed + p) == Missing
    ensures var a := Remove(fs, r.seed, p); a.Ok? && Near(a.value, r, c) && Seen(a.value, r.seed, q) == Seen(fs, r.seed, q)
  {
    hide Locate, IsDirectory, Near;
    RemoveSucceeds(fs, r.seed, p);
    RemoveTakes(fs, r.seed, p);
    NearShrinks(fs, Remove(fs, r.seed, p).value, r, c);
    SameBelow(r.seed, q, d);
  }

  lemma FailsLater(fs: FileSystem, r: Roots, c: Change, paths: seq<Path>, p: Path, q: Path)
    requires IsChange(c) && LinksLeadAside(c)
    requires forall x | x in paths :: x in c.removes
    requires forall i, j :: 0 <= i < j < |paths| ==> |paths[i]| >= |paths[j]|
    requires p in paths && p != paths[0] && Under(p, q) && q in c.work && !c.work[q].Symlink?
    requires var a := Remove(fs, r.seed, paths[0]); a.Ok? && Near(a.value, r, c) && Seen(a.value, r.seed, q) == At(c.work, q)
    ensures RemoveAll(fs, r.seed, paths) == Err(NotADirectory)
    decreases |paths|, 0
  {
    hide IsChange, LinksLeadAside, Near, Remove;
    RemovesFail(Remove(fs, r.seed, paths[0]).value, r, c, paths[1..], p, q);
  }

  // ----- The first time -------------------------------------------------------------------------

  /** Seed and snapshot are there in full, as when a merge begins. */
  ghost predicate Begins(fs: FileSystem, r: Roots, c: Change) {
    && Valid(fs) && Apart(r) && Open(fs, r.seed) && Open(fs, r.work)
    && Shows(fs, r.seed, c.seed) && Shows(fs, r.work, c.work)
    && c.files == fs.entries
  }

  lemma BeginsBetween(fs: FileSystem, r: Roots, c: Change)
    requires Begins(fs, r, c)
    ensures Between(fs, r, c)
  {
    hide IsDirectory, Apart, Open;
    forall p | p in c.work
      ensures !IsDirectory(fs, r.work + p)
    {
      assert Seen(fs, r.work, p) == At(c.work, p);
      assert r.work + p in fs.entries;
    }
  }

  ghost predicate NothingNew(fs: FileSystem, r: Roots, c: Change) {
    forall p :: Seen(fs, r.seed, p) == None || Seen(fs, r.seed, p) == At(c.seed, p)
  }

  lemma NothingInTheWay(fs: FileSystem, r: Roots, c: Change, p: Path)
    requires IsChange(c) && Near(fs, r, c) && NothingNew(fs, r, c) && p in c.removes
    ensures !Blocked(fs, r.seed + p)
  {
    hide Near;
    if Blocked(fs, r.seed + p) {
      RemovedDiffers(c, p);
      var q := WhatIsInTheWay(fs, r, c, p);
      HasEntry(fs, r.seed, q);
    }
  }

  lemma StillNothingNew(fs: FileSystem, a: FileSystem, r: Roots, c: Change)
    requires NothingNew(fs, r, c) && Smaller(a, fs)
    ensures NothingNew(a, r, c)
  {
    forall p
      ensures Seen(a, r.seed, p) == None || Seen(a, r.seed, p) == Seen(fs, r.seed, p)
    {
    }
  }

  /** On the old tree no removal meets a link: each takes its own path and nothing else. */
  lemma {:induction false} FirstRemovals(fs: FileSystem, r: Roots, c: Change, paths: seq<Path>)
    requires IsChange(c) && Between(fs, r, c) && NothingNew(fs, r, c) && forall p | p in paths :: p in c.removes
    ensures var s := RemoveAll(fs, r.seed, paths);
            && s.Ok? && Between(s.value, r, c)
            && forall y | !Under(y, r.seed) :: At(s.value.entries, y) == At(fs.entries, y)
    decreases |paths|
  {
    hide Remove, Locate, IsDirectory, Near, IsChange, NothingNew;
    if paths != [] {
      var p := paths[0];
      assert p in paths;
      NothingInTheWay(fs, r, c, p);
      DirectRemoval(fs, r, c, p);
      LocateDirect(fs, r.seed + p);
      RemoveTakes(fs, r.seed, p);
      var a := Remove(fs, r.seed, p).value;
      StillNothingNew(fs, a, r, c);
      RemovedDiffers(c, p);
      forall y | !Under(y, r.seed)
        ensures At(a.entries, y) == At(fs.entries, y)
      {
        assert Under(r.seed + p, r.seed);
        if Under(y, r.seed + p) {
          StillUnder(y, r.seed + p, r.seed);
        }
      }
      FirstRemovals(a, r, c, paths[1..]);
    }
  }

  /** Carried out for the first time, in this order, the differences of two trees give the new tree,
      whatever the trees are, exactly if nothing is to be written that cannot be copied; and nothing
      outside the seed changes. */
  lemma MergeIsExactIff(hash: Hash, fs: FileSystem, r: Roots, c: Change)
    requires IsChange(c) && Begins(fs, r, c)
    ensures IsRight(Carry(hash, fs, r, c), r, c) <==> NoSpecials(c)
    ensures var a := Carry(hash, fs, r, c);
            a.Ok? ==> forall y | !Under(y, r.seed) :: At(a.value.entries, y) == At(fs.entries, y)
    ensures IsSound(fs, r, c) <==> NoSpecials(c)
  {
    hide RemoveAll, Carry, IsRight, IsChange, IsSettled, Near;
    BeginsBetween(fs, r, c);
    BeginsWithNothingNew(fs, r, c);
    FirstRemovals(fs, r, c, c.removes);
    var s := RemoveAll(fs, r.seed, c.removes).value;
    BetweenIsSettled(s, r, c);
    BetweenIsNear(fs, r, c);
    CarryIff(hash, fs, r, c);
  }

  lemma BeginsWithNothingNew(fs: FileSystem, r: Roots, c: Change)
    requires Begins(fs, r, c)
    ensures NothingNew(fs, r, c)
  {
  }

  lemma BetweenIsNear(fs: FileSystem, r: Roots, c: Change)
    requires Between(fs, r, c)
    ensures Near(fs, r, c)
  {
  }

  // ----- Without the snapshot -------------------------------------------------------------------

  ghost predicate SnapshotGone(fs: FileSystem, r: Roots) { forall p :: Seen(fs, r.work, p) == None }

  ghost predicate LeavesEntries(a: Result<FileSystem, Error>, fs: FileSystem) { a.Ok? && a.value.entries == fs.entries }

  /** Moves without sources write nothing. */
  lemma GoneMovesNothing(hash: Hash, s: FileSystem, r: Roots, c: Change)
    requires IsChange(c) && Near(s, r, c) && OnlyWork(s, r, c) && SnapshotGone(s, r)
    ensures var m := MoveAll(hash, s, r, c.work, c.writes);
            && (m.Ok? ==> m.value.entries == s.entries)
            && (Shows(s, r.seed, c.work) ==> m.Ok?)
  {
    hide MoveAll, IsDirectory, Near, OnlyWork, IsDiff;
    MovesAre(hash, s, r, c, c.writes);
    var m := MoveAll(hash, s, r, c.work, c.writes);
    if m.Ok? {
      forall y
        ensures At(m.value.entries, y) == At(s.entries, y)
      {
        if Under(y, r.seed) {
          var x := y[|r.seed|..];
          assert y == r.seed + x;
          assert Seen(m.value, r.seed, x) == Seen(s, r.seed, x);
        }
      }
      SameTrees(m.value.entries, s.entries);
    }
    if Shows(s, r.seed, c.work) {
      forall p | p in c.writes
        ensures IsSettled(s, r, c, p)
      {
        assert Seen(s, r.work, p) == None && Seen(s, r.seed, p) == At(c.work, p);
      }
    }
  }

  /** A merge that was carried out in full, and whose snapshot is gone, is replayed without effect
      exactly when its removals are without effect. */
  lemma ReplayWithoutSnapshotIff(hash: Hash, fs: FileSystem, r: Roots, c: Change)
    requires IsChange(c) && Near(fs, r, c) && Shows(fs, r.seed, c.work) && SnapshotGone(fs, r)
    ensures LeavesEntries(Carry(hash, fs, r, c), fs) <==> LeavesEntries(RemoveAll(fs, r.seed, c.removes), fs)
  {
    hide RemoveAll, MoveAll, Near, IsChange, OnlyWork;
    var s := RemoveAll(fs, r.seed, c.removes);
    OnlyWorkIsLeft(fs, r, c);
    if s.Ok? {
      RemovesShrink(fs, r.seed, c.removes);
      StillGone(fs, s.value, r);
      GoneMovesNothing(hash, s.value, r, c);
      if s.value.entries == fs.entries {
        SameShows(fs, s.value, r.seed, c.work);
      }
    }
  }

  lemma StillGone(fs: FileSystem, a: FileSystem, r: Roots)
    requires SnapshotGone(fs, r) && Smaller(a, fs)
    ensures SnapshotGone(a, r)
  {
    forall p
      ensures Seen(a, r.work, p) == None
    {
      assert Seen(fs, r.work, p) == None;
    }
  }

  lemma SameShows(fs: FileSystem, a: FileSystem, root: Path, t: Tree)
    requires Shows(fs, root, t) && a.entries == fs.entries
    ensures Shows(a, root, t)
  {
    forall p
      ensures Seen(a, root, p) == At(t, p)
    {
      assert Seen(fs, root, p) == At(t, p);
    }
  }

  /** In the new tree a removed path runs through no file, leads to nothing where it runs through a
      link, and has nothing below it. */
  ghost predicate IsHarmless(c: Change, p: Path) {
    && (forall q | q in c.work && Under(p, q) ::
          && c.work[q].Symlink?
          && var d := Dest(q, c.work[q].target, p);
             forall y | y in c.work :: y != d && !Under(y, d))
    && (forall y | y in c.work :: !Under(y, p))
  }

  lemma EmptyPlace(fs: FileSystem, root: Path, t: Tree, d: Path)
    requires Shows(fs, root, t) && d != []
    ensures (Cleared(fs.entries, root + d) == fs.entries) <==> forall y | y in t :: y != d && !Under(y, d)
    ensures (Cleared(fs.entries, root + d) == fs.entries) <==> !SomeBelow(fs.entries, root + d) && root + d !in fs.entries
  {
    hide Under;
    assert (Cleared(fs.entries, root + d) == fs.entries) <==> !SomeBelow(fs.entries, root + d) && root + d !in fs.entries by {
      ClearedIff(fs, root + d);
    }
    if SomeBelow(fs.entries, root + d) || root + d in fs.entries {
      var y := d;
      if root + d !in fs.entries {
        var e :| e in fs.entries && Under(e, root + d);
        y := BelowInTree(root, d, e);
      }
      assert Seen(fs, root, y) == At(t, y);
    } else {
      forall y | y in t
        ensures y != d && !Under(y, d)
      {
        assert Seen(fs, root, y) == At(t, y);
        SameBelow(root, y, d);
      }
    }
  }

  lemma ClearedIff(fs: FileSystem, x: Path)
    ensures (Cleared(fs.entries, x) == fs.entries) <==> !SomeBelow(fs.entries, x) && x !in fs.entries
  {
    if SomeBelow(fs.entries, x) {
      var y :| y in fs.entries && Under(y, x);
      assert y !in Cleared(fs.entries, x);
    } else if x !in fs.entries {
      forall y | y in fs.entries
        ensures y in Cleared(fs.entries, x)
      {
      }
      assert Cleared(fs.entries, x) == fs.entries;
    }
  }

  lemma HarmlessIff(fs: FileSystem, r: Roots, c: Change, p: Path)
    requires IsChange(c) && LinksLeadAside(c) && Near(fs, r, c) && Shows(fs, r.seed, c.work) && p in c.removes
    ensures LeavesEntries(Remove(fs, r.seed, p), fs) <==> IsHarmless(c, p)
  {
    hide Locate, IsDirectory, LeadsAside, Near, Dest, IsDiff;
    RemovedDiffers(c, p);
    RemoveSucceeds(fs, r.seed, p);
    if Remove(fs, r.seed, p).Ok? {
      RemoveTakes(fs, r.seed, p);
    }
    if Blocked(fs, r.seed + p) {
      var q := WhatIsInTheWay(fs, r, c, p);
      forall y | y in c.work && Under(p, y)
        ensures y == q
      {
        OneEntryAbove(c.work, p, q, y);
      }
      forall y | y in c.work
        ensures !Under(y, p)
      {
        if Under(y, p) {
          StillUnder(y, p, q);
        }
      }
      if c.work[q].Symlink? {
        assert LeadsAside(c, p, q, c.work[q].target);
        AsideLeads(fs, r, c, p, q);
        EmptyPlace(fs, r.seed, c.work, Dest(q, c.work[q].target, p));
      } else {
        NearIsValid(fs, r, c);
        SameBelow(r.seed, p, q);
        FileInTheWay(fs, r.seed + p, r.seed + q);
      }
    } else {
      LocateDirect(fs, r.seed + p);
      EmptyPlace(fs, r.seed, c.work, p);
      forall q | q in c.work
        ensures !Under(p, q)
      {
        assert Seen(fs, r.seed, q) == At(c.work, q);
        SameBelow(r.seed, p, q);
      }
    }
  }

  lemma {:induction false} AllHarmlessIff(fs: FileSystem, r: Roots, c: Change, paths: seq<Path>)
    requires IsChange(c) && LinksLeadAside(c) && Near(fs, r, c) && Shows(fs, r.seed, c.work)
    requires forall p | p in paths :: p in c.removes
    ensures LeavesEntries(RemoveAll(fs, r.seed, paths), fs) <==> forall p | p in paths :: IsHarmless(c, p)
    decreases |paths|
  {
    hide Remove, IsHarmless, Near, IsChange, LinksLeadAside, IsDirectory;
    if paths != [] {
      var p := paths[0];
      assert p in paths && forall x :: x in paths <==> x == p || x in paths[1..];
      HarmlessIff(fs, r, c, p);
      if Remove(fs, r.seed, p).Ok? {
        var a := Remove(fs, r.seed, p).value;
        RemoveTakes(fs, r.seed, p);
        if a.entries == fs.entries {
          NearShrinks(fs, a, r, c);
          SameShows(fs, a, r.seed, c.work);
          AllHarmlessIff(a, r, c, paths[1..]);
        } else {
          RemovesShrink(a, r.seed, paths[1..]);
          if RemoveAll(a, r.seed, paths[1..]).Ok? {
            PartIsNotAll(fs.entries, a.entries, RemoveAll(a, r.seed, paths[1..]).value.entries);
          }
        }
      }
    }
  }

  lemma PartIsNotAll(t: Tree, a: Tree, b: Tree)
    requires PartOf(b, a) && PartOf(a, t) && a != t
    ensures b != t
  {
    if forall x | x in t :: x in a {
      PartWithAll(t, a);
    }
  }

  lemma PartWithAll(t: Tree, a: Tree)
    requires PartOf(a, t) && forall x | x in t :: x in a
    ensures a == t
  {
  }

  /** Where directories that become links lead to the side, that can be read off the trees: no
      directory became a file, nothing else became a directory, and the links lead to nothing. */
  lemma ReplayIsIdleIff(hash: Hash, fs: FileSystem, r: Roots, c: Change)
    requires IsChange(c) && LinksLeadAside(c) && Near(fs, r, c) && Shows(fs, r.seed, c.work) && SnapshotGone(fs, r)
    ensures LeavesEntries(Carry(hash, fs, r, c), fs) <==> forall p | Removed(c.seed, c.work, p) :: IsHarmless(c, p)
  {
    hide Carry, RemoveAll, IsHarmless, LinksLeadAside, Near;
    ReplayWithoutSnapshotIff(hash, fs, r, c);
    AllHarmlessIff(fs, r, c, c.removes);
    assert forall p :: p in c.removes <==> Removed(c.seed, c.work, p);
  }
}
