/** Carrying the differences of two trees out in the file system, and carrying them out again
    (shellmux/src/wal.rs:1-12 and 120-192, shellmux/src/commit.rs:260-300). */
module Replay {
  import opened Wrappers
  import opened Trees
  import opened Files

  /** Where the seed and the snapshot of a job are. */
  datatype Roots = Roots(seed: Path, work: Path)

  predicate Apart(r: Roots) { r.seed != r.work && !Under(r.seed, r.work) && !Under(r.work, r.seed) }

  /** The seed and the snapshot as they were when the differences were taken, and all files there were,
      by their absolute paths. */
  datatype Change = Change(seed: Tree, work: Tree, removes: seq<Path>, writes: seq<Path>, files: Tree)

  ghost predicate IsChange(c: Change) {
    && WellFormed(c.seed) && WellFormed(c.work)
    && (forall p | p in c.writes :: p in c.work)
    && IsDiff(c.seed, c.work, c.removes, c.writes)
  }

  function Seen(fs: FileSystem, root: Path, p: Path): Option<Entry> { At(fs.entries, root + p) }

  /** Below a root there is just this tree. */
  ghost predicate Shows(fs: FileSystem, root: Path, t: Tree) { forall p :: Seen(fs, root, p) == At(t, p) }

  /** Outside the seed and the snapshot, every file is as it was. */
  ghost predicate Untouched(fs: FileSystem, r: Roots, c: Change) {
    forall y | !Under(y, r.seed) && !Under(y, r.work) :: At(fs.entries, y) == At(c.files, y)
  }

  // ----- Carrying the differences out -----------------------------------------------------------

  function RemoveAll(fs: FileSystem, root: Path, paths: seq<Path>): Result<FileSystem, Error>
    decreases |paths|
  {
    if paths == [] then Ok(fs)
    else
      match Remove(fs, root, paths[0])
      case Err(e) => Err(e)
      case Ok(fs') => RemoveAll(fs', root, paths[1..])
  }

  function MoveAll(hash: Hash, fs: FileSystem, r: Roots, work: Tree, paths: seq<Path>): Result<FileSystem, Error>
    requires forall p | p in paths :: p in work
    decreases |paths|
  {
    if paths == [] then Ok(fs)
    else
      match MoveInto(hash, fs, r.seed, r.work, paths[0], hash(Content(work[paths[0]])))
      case Err(e) => Err(e)
      case Ok(fs') => MoveAll(hash, fs', r, work, paths[1..])
  }

  function Carry(hash: Hash, fs: FileSystem, r: Roots, c: Change): Result<FileSystem, Error>
    requires forall p | p in c.writes :: p in c.work
  {
    match RemoveAll(fs, r.seed, c.removes)
    case Err(e) => Err(e)
    case Ok(fs') => MoveAll(hash, fs', r, c.work, c.writes)
  }

  // ----- What a merge and its crashes leave -----------------------------------------------------

  /** Nothing but directories on the way to a root. */
  ghost predicate Open(fs: FileSystem, root: Path) { forall e | e in fs.entries :: e != root && !Under(root, e) }

  /** In the seed each path is as before, as after, or absent; in the snapshot it is as it was, or
      absent. Everything else may be anything. */
  ghost predicate Near(fs: FileSystem, r: Roots, c: Change) {
    && Valid(fs) && Apart(r) && Open(fs, r.seed) && Open(fs, r.work)
    && (forall p :: Seen(fs, r.seed, p) == None || Seen(fs, r.seed, p) == At(c.seed, p) || Seen(fs, r.seed, p) == At(c.work, p))
    && (forall p :: Seen(fs, r.work, p) == None || Seen(fs, r.work, p) == At(c.work, p))
    && forall p | p in c.work :: !IsDirectory(fs, r.work + p)
  }

  lemma NearShrinks(fs: FileSystem, a: FileSystem, r: Roots, c: Change)
    requires Near(fs, r, c) && Smaller(a, fs)
    ensures Near(a, r, c)
  {
    SmallerIsValid(a, fs);
    hide IsDirectory, Valid, Apart;
    forall p
      ensures Seen(a, r.seed, p) == None || Seen(a, r.seed, p) == Seen(fs, r.seed, p)
      ensures Seen(a, r.work, p) == None || Seen(a, r.work, p) == Seen(fs, r.work, p)
    {
    }
  }

  /** Only paths of the new tree are left in the seed. */
  ghost predicate OnlyWork(fs: FileSystem, r: Roots, c: Change) {
    forall p | Seen(fs, r.seed, p).Some? :: p in c.work
  }

  lemma AboveRoot(root: Path, p: Path, e: Path)
    requires Under(root + p, e) && |e| <= |root|
    ensures e == root || Under(root, e)
  {
    assert (root + p)[..|e|] == root[..|e|];
  }

  /** An entry on the way to a path below an open root is below the root too. */
  lemma AboveInTree(fs: FileSystem, root: Path, p: Path, e: Path) returns (q: Path)
    requires Open(fs, root) && e in fs.entries && Under(root + p, e)
    ensures e == root + q && Under(p, q) && Seen(fs, root, q) == Some(fs.entries[e])
  {
    if |e| <= |root| {
      AboveRoot(root, p, e);
    }
    q := e[|root|..];
    assert e == (root + p)[..|e|];
    assert e[..|root|] == root;
    assert p[..|q|] == (root + p)[|root|..|e|] == q;
  }

  lemma SameBelow(root: Path, p: Path, q: Path)
    ensures root + p == root + q <==> p == q
    ensures Under(root + p, root + q) <==> Under(p, q)
  {
    assert (root + p)[|root|..] == p && (root + q)[|root|..] == q;
    if |q| <= |p| {
      assert (root + p)[..|root + q|] == root + p[..|q|];
      assert (root + p[..|q|])[|root|..] == p[..|q|];
    }
  }

  /** What is below one root is not on the way to what is below the other, nor is it the same. */
  lemma OtherRoot(a: Path, b: Path, p: Path, q: Path)
    requires a != b && !Under(a, b) && !Under(b, a)
    ensures a + p != b + q && !Under(a + p, b + q)
  {
    var k := Min(|a|, |b|);
    assert (a + p)[..k] == a[..k] && (b + q)[..k] == b[..k];
    assert |b + q| <= |a + p| ==> (a + p)[..|b + q|][..k] == (a + p)[..k];
  }

  // ----- Removals -------------------------------------------------------------------------------

  lemma {:induction false} RemovesShrink(fs: FileSystem, root: Path, paths: seq<Path>)
    ensures var s := RemoveAll(fs, root, paths); s.Ok? ==> Smaller(s.value, fs)
    decreases |paths|
  {
    hide Remove, IsDirectory;
    if paths != [] && Remove(fs, root, paths[0]).Ok? {
      var a := Remove(fs, root, paths[0]).value;
      RemoveTakes(fs, root, paths[0]);
      RemovesShrink(a, root, paths[1..]);
      if RemoveAll(fs, root, paths).Ok? {
        SmallerAgain(RemoveAll(fs, root, paths).value, a, fs);
      }
    } else if paths == [] {
      hide Smaller;
      SmallerSelf(fs);
    }
  }

  lemma SmallerSelf(fs: FileSystem)
    ensures Smaller(fs, fs)
  {
  }

  lemma ValidIsUnblocked(fs: FileSystem, p: Path)
    requires Valid(fs) && p in fs.entries
    ensures !Blocked(fs, p)
  {
    if q :| q in fs.entries && Under(p, q) {
      assert SomeBelow(fs.entries, q);
    }
  }

  /** What is to be removed and is there is reached by its own name. */
  lemma {:induction false} RemovesTake(fs: FileSystem, root: Path, paths: seq<Path>, p: Path)
    requires Valid(fs) && (p in paths || root + p !in fs.entries)
    ensures var s := RemoveAll(fs, root, paths); s.Ok? ==> root + p !in s.value.entries
    decreases |paths|
  {
    hide Remove, Valid, Locate, IsDirectory;
    if paths != [] && Remove(fs, root, paths[0]).Ok? {
      var a := Remove(fs, root, paths[0]).value;
      RemoveTakes(fs, root, paths[0]);
      SmallerIsValid(a, fs);
      if p == paths[0] && root + p in fs.entries {
        ValidIsUnblocked(fs, root + p);
        LocateDirect(fs, root + p);
      }
      assert p in paths ==> p == paths[0] || p in paths[1..];
      RemovesTake(a, root, paths[1..], p);
    }
  }

  /** Once all removals are done, nothing is left that the new tree does not have. */
  lemma OnlyWorkIsLeft(fs: FileSystem, r: Roots, c: Change)
    requires IsChange(c) && Near(fs, r, c)
    ensures var s := RemoveAll(fs, r.seed, c.removes); s.Ok? ==> Near(s.value, r, c) && OnlyWork(s.value, r, c)
  {
    hide RemoveAll, Valid, IsDirectory, WellFormed, Apart;
    RemovesShrink(fs, r.seed, c.removes);
    var s := RemoveAll(fs, r.seed, c.removes);
    if s.Ok? {
      NearShrinks(fs, s.value, r, c);
      forall p | Seen(s.value, r.seed, p).Some?
        ensures p in c.work
      {
        if p !in c.work {
          assert Seen(s.value, r.seed, p) == At(c.seed, p);
          assert Removed(c.seed, c.work, p);
          RemovesTake(fs, r.seed, c.removes, p);
        }
      }
    }
  }

  // ----- Writes ---------------------------------------------------------------------------------

  lemma SourceIsDirect(fs: FileSystem, r: Roots, c: Change, p: Path)
    requires WellFormed(c.work) && Near(fs, r, c) && p in c.work
    ensures Find(fs, r.work + p) == if Seen(fs, r.work, p).Some? then Leaf(c.work[p]) else Nothing
  {
    hide Locate, IsDirectory, Valid, Apart;
    if e :| e in fs.entries && Under(r.work + p, e) {
      var q := AboveInTree(fs, r.work, p, e);
    }
    LocateDirect(fs, r.work + p);
    assert Seen(fs, r.work, p) == None || Seen(fs, r.work, p) == At(c.work, p);
  }

  /** What is below a path below a root, by its own name. */
  lemma BelowInTree(root: Path, p: Path, y: Path) returns (q: Path)
    requires Under(y, root + p)
    ensures y == root + q && Under(q, p)
  {
    q := y[|root|..];
    assert y[..|root + p|][..|root|] == y[..|root|] && (root + p)[..|root|] == root;
    assert y == root + q;
    SameBelow(root, q, p);
  }

  lemma NothingBelow(fs: FileSystem, r: Roots, c: Change, p: Path, y: Path)
    requires WellFormed(c.work) && OnlyWork(fs, r, c) && p in c.work && y in fs.entries
    ensures !Under(y, r.seed + p)
  {
    if Under(y, r.seed + p) {
      var q := BelowInTree(r.seed, p, y);
      HasEntry(fs, r.seed, q);
    }
  }

  lemma HasEntry(fs: FileSystem, root: Path, q: Path)
    requires root + q in fs.entries
    ensures Seen(fs, root, q).Some?
  {
  }

  lemma TargetIsDirect(fs: FileSystem, r: Roots, c: Change, p: Path)
    requires WellFormed(c.work) && Near(fs, r, c) && OnlyWork(fs, r, c) && p in c.work
    ensures Locate(fs, r.seed + p) == Here(r.seed + p) && !Blocked(fs, r.seed + p)
    ensures Cleared(fs.entries, r.seed + p)[r.seed + p := c.work[p]] == fs.entries[r.seed + p := c.work[p]]
  {
    hide Locate, IsDirectory, Valid, Apart;
    if e :| e in fs.entries && Under(r.seed + p, e) {
      var q := AboveInTree(fs, r.seed, p, e);
    }
    LocateDirect(fs, r.seed + p);
    forall y | y in fs.entries
      ensures !Under(y, r.seed + p)
    {
      NothingBelow(fs, r, c, p, y);
    }
  }

  /** The file system with an entry written where nothing but directories is on the way. */
  function Wrote(fs: FileSystem, x: Path, e: Entry): FileSystem {
    FileSystem(fs.entries[x := e], set d | d in fs.dirs && d != x && !Under(d, x))
  }

  lemma WroteDirectories(fs: FileSystem, x: Path, e: Entry, d: Path)
    requires IsDirectory(Wrote(fs, x, e), d)
    ensures IsDirectory(fs, d) || Under(x, d)
  {
  }

  lemma WroteIsValid(fs: FileSystem, x: Path, e: Entry)
    requires Valid(fs) && !Blocked(fs, x) && x != [] && forall y | y in fs.entries :: !Under(y, x)
    ensures Valid(Wrote(fs, x, e))
  {
    var a := Wrote(fs, x, e);
    forall y | y in a.entries
      ensures !IsDirectory(a, y)
    {
      if IsDirectory(a, y) {
        WroteDirectories(fs, x, e, y);
      }
    }
  }

  /** A write below the seed changes one path. */
  lemma WroteIsNear(fs: FileSystem, r: Roots, c: Change, p: Path)
    requires IsChange(c) && Near(fs, r, c) && OnlyWork(fs, r, c) && p in c.work
    ensures var a := Wrote(fs, r.seed + p, c.work[p]);
            && Near(a, r, c) && OnlyWork(a, r, c)
            && (forall x :: Seen(a, r.seed, x) == if x == p then At(c.work, p) else Seen(fs, r.seed, x))
            && (forall x :: Seen(a, r.work, x) == Seen(fs, r.work, x))
  {
    hide Locate, IsDirectory, Valid, IsDiff;
    var a := Wrote(fs, r.seed + p, c.work[p]);
    TargetIsDirect(fs, r, c, p);
    assert p != [] by { assert p in c.work; }
    assert forall y | y in fs.entries :: !Under(y, r.seed + p) by {
      forall y | y in fs.entries
        ensures !Under(y, r.seed + p)
      {
        NothingBelow(fs, r, c, p, y);
      }
    }
    WroteIsValid(fs, r.seed + p, c.work[p]);
    forall x
      ensures Seen(a, r.seed, x) == if x == p then At(c.work, p) else Seen(fs, r.seed, x)
      ensures Seen(a, r.work, x) == Seen(fs, r.work, x)
    {
      SameBelow(r.seed, x, p);
      OtherRoot(r.work, r.seed, x, p);
    }
    WroteIsOpen(fs, r, p, c.work[p]);
    forall x | x in c.work
      ensures !IsDirectory(a, r.work + x)
    {
      if IsDirectory(a, r.work + x) {
        WroteDirectories(fs, r.seed + p, c.work[p], r.work + x);
        OtherRoot(r.seed, r.work, p, x);
      }
    }
  }

  lemma WroteIsOpen(fs: FileSystem, r: Roots, p: Path, e: Entry)
    requires Apart(r) && Open(fs, r.seed) && Open(fs, r.work) && p != []
    ensures var a := Wrote(fs, r.seed + p, e); Open(a, r.seed) && Open(a, r.work)
  {
    OtherRoot(r.work, r.seed, [], p);
    assert r.work + [] == r.work;
  }

  /** What one move does, of a file or link that can be copied, of what cannot, and of what is gone. */
  lemma MoveOne(hash: Hash, fs: FileSystem, r: Roots, c: Change, p: Path)
    requires IsChange(c) && Near(fs, r, c) && OnlyWork(fs, r, c) && p in c.work
    ensures var m := MoveInto(hash, fs, r.seed, r.work, p, hash(Content(c.work[p])));
            if Seen(fs, r.work, p).Some? then
              m == if c.work[p].Other? then Err(CannotCopy) else Ok(Wrote(fs, r.seed + p, c.work[p]))
            else
              && (m.Ok? ==> m.value == fs)
              && (Seen(fs, r.seed, p) == At(c.work, p) ==> m.Ok?)
  {
    hide Locate, IsDirectory, Valid, IsDiff, Near, OnlyWork;
    SourceIsDirect(fs, r, c, p);
    TargetIsDirect(fs, r, c, p);
  }

  /** A path that is right in the seed, or can be written. */
  predicate IsSettled(fs: FileSystem, r: Roots, c: Change, p: Path)
    requires p in c.work
  {
    if p in c.writes && Seen(fs, r.work, p).Some? then !c.work[p].Other?
    else Seen(fs, r.seed, p) == At(c.work, p)
  }

  /** All moves: they write what is in the snapshot, and nothing else in the file system. */
  lemma {:induction false} MovesAre(hash: Hash, fs: FileSystem, r: Roots, c: Change, paths: seq<Path>)
    requires IsChange(c) && Near(fs, r, c) && OnlyWork(fs, r, c) && forall p | p in paths :: p in c.writes && p in c.work
    ensures var m := MoveAll(hash, fs, r, c.work, paths);
            && (m.Ok? ==>
                  && Near(m.value, r, c) && OnlyWork(m.value, r, c)
                  && (forall x :: Seen(m.value, r.seed, x)
                                  == if x in paths && Seen(fs, r.work, x).Some? then At(c.work, x) else Seen(fs, r.seed, x))
                  && (forall x :: Seen(m.value, r.work, x) == Seen(fs, r.work, x))
                  && (forall y | y == r.seed || !Under(y, r.seed) :: At(m.value.entries, y) == At(fs.entries, y))
                  && (forall p | p in paths && Seen(fs, r.work, p).Some? :: !c.work[p].Other?))
            && ((forall p | p in paths :: IsSettled(fs, r, c, p)) ==> m.Ok?)
    decreases |paths|
  {
    hide MoveInto, Near, IsChange, OnlyWork, IsDirectory;
    if paths != [] {
      var p, rest := paths[0], paths[1..];
      assert p in paths;
      MoveOne(hash, fs, r, c, p);
      assert forall x :: x in paths <==> x == p || x in rest;
      var m := MoveInto(hash, fs, r.seed, r.work, p, hash(Content(c.work[p])));
      if Seen(fs, r.work, p).Some? && m.Ok? {
        WroteIsNear(fs, r, c, p);
        WroteInSeed(fs, r, c, p);
        MovesAre(hash, m.value, r, c, rest);
      } else if m.Ok? {
        MovesAre(hash, fs, r, c, rest);
      }
    }
  }

  lemma WroteInSeed(fs: FileSystem, r: Roots, c: Change, p: Path)
    requires IsChange(c) && p in c.work
    ensures forall y | y == r.seed || !Under(y, r.seed) :: At(Wrote(fs, r.seed + p, c.work[p]).entries, y) == At(fs.entries, y)
  {
    assert p != [];
    assert Under(r.seed + p, r.seed);
  }

  // ----- When it gives the new tree -------------------------------------------------------------

  /** The removals go through and, whatever links they follow and wherever these lead, they leave
      each path of the new tree in the seed or, to be written, in the snapshot, and after them every
      other file is as it was. */
  ghost predicate IsSound(fs: FileSystem, r: Roots, c: Change) {
    var s := RemoveAll(fs, r.seed, c.removes);
    && s.Ok?
    && (forall p | p in c.work :: IsSettled(s.value, r, c, p))
    && Untouched(s.value, r, c)
  }

  ghost predicate IsRight(a: Result<FileSystem, Error>, r: Roots, c: Change) {
    a.Ok? && Shows(a.value, r.seed, c.work) && Untouched(a.value, r, c)
  }

  /** From whatever a crash left, carrying the differences out gives the new tree, and has done so
      without a loss anywhere else, exactly if the removals are sound; and outside the seed nothing changes but what these take. */
  lemma CarryIff(hash: Hash, fs: FileSystem, r: Roots, c: Change)
    requires IsChange(c) && Near(fs, r, c)
    ensures IsRight(Carry(hash, fs, r, c), r, c) <==> IsSound(fs, r, c)
    ensures var a, s := Carry(hash, fs, r, c), RemoveAll(fs, r.seed, c.removes);
            a.Ok? ==> s.Ok? && forall y | !Under(y, r.seed) :: At(a.value.entries, y) == At(s.value.entries, y)
  {
    hide RemoveAll, MoveAll, Valid, IsDirectory, WellFormed, IsDiff;
    OnlyWorkIsLeft(fs, r, c);
    var s := RemoveAll(fs, r.seed, c.removes);
    if s.Ok? {
      hide Near, OnlyWork;
      MovesAre(hash, s.value, r, c, c.writes);
      if IsSound(fs, r, c) {
        SoundGivesWork(hash, s.value, r, c);
      } else if IsRight(Carry(hash, fs, r, c), r, c) {
        RightWasSound(hash, s.value, r, c);
      }
    }
  }

  lemma SoundGivesWork(hash: Hash, s: FileSystem, r: Roots, c: Change)
    requires IsChange(c) && Near(s, r, c) && OnlyWork(s, r, c) && Untouched(s, r, c)
    requires forall p | p in c.work :: IsSettled(s, r, c, p)
    ensures IsRight(MoveAll(hash, s, r, c.work, c.writes), r, c)
  {
    hide MoveAll, IsDirectory, IsDiff;
    MovesAre(hash, s, r, c, c.writes);
    var m := MoveAll(hash, s, r, c.work, c.writes).value;
    forall p
      ensures Seen(m, r.seed, p) == At(c.work, p)
    {
      assert p in c.work ==> IsSettled(s, r, c, p);
    }
    forall y | !Under(y, r.seed) && !Under(y, r.work)
      ensures At(m.entries, y) == At(c.files, y)
    {
      assert At(m.entries, y) == At(s.entries, y);
    }
  }

  lemma RightWasSound(hash: Hash, s: FileSystem, r: Roots, c: Change)
    requires IsChange(c) && Near(s, r, c) && OnlyWork(s, r, c)
    requires IsRight(MoveAll(hash, s, r, c.work, c.writes), r, c)
    ensures (forall p | p in c.work :: IsSettled(s, r, c, p)) && Untouched(s, r, c)
  {
    hide MoveAll, IsDirectory, IsDiff;
    MovesAre(hash, s, r, c, c.writes);
    var m := MoveAll(hash, s, r, c.work, c.writes).value;
    forall p | p in c.work
      ensures IsSettled(s, r, c, p)
    {
      assert Seen(m, r.seed, p) == At(c.work, p);
    }
    forall y | !Under(y, r.seed) && !Under(y, r.work)
      ensures At(s.entries, y) == At(c.files, y)
    {
      assert At(m.entries, y) == At(s.entries, y);
    }
  }
}
