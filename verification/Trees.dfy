/** Trees of files and their differences (shellmux/src/diff.rs). */
module Trees {
  import opened Wrappers

  /** The components of a path below the root. */
  type Path = seq<string>

  /** What is not a directory; directories are there as far as entries need them. */
  datatype Entry = File(mode: nat, bytes: string) | Symlink(target: string) | Other(mode: nat)

  type Tree = map<Path, Entry>

  /** `p` lies below `q`. */
  predicate Under(p: Path, q: Path) { |q| < |p| && p[..|q|] == q }

  /** The root is a directory, and nothing lies below an entry. */
  ghost predicate WellFormed(t: Tree) { [] !in t && forall p, q | p in t && q in t :: !Under(p, q) }

  /** The tree without a path and all that lies below it. */
  function Cleared(t: Tree, p: Path): (r: Tree)
    ensures forall x :: x in r <==> x in t && x != p && !Under(x, p)
    ensures forall x | x in r :: r[x] == t[x]
  {
    map x | x in t && x != p && !Under(x, p) :: t[x]
  }

  /** What is hashed of an entry; its mode is not. */
  function Content(e: Entry): string {
    match e
    case File(_, bytes) => bytes
    case Symlink(target) => target
    case Other(_) => ""
  }

  function At(t: Tree, p: Path): Option<Entry> { if p in t then Some(t[p]) else None }

  // ----- Differences ----------------------------------------------------------------------------

  predicate Removed(seed: Tree, work: Tree, p: Path) { p in seed && p !in work }

  predicate Written(seed: Tree, work: Tree, p: Path) { p in work && At(seed, p) != At(work, p) }

  /** Removals, deepest first, then writes, shallowest first; each path once. */
  ghost predicate IsDiff(seed: Tree, work: Tree, removes: seq<Path>, writes: seq<Path>) {
    && (forall p :: p in removes <==> Removed(seed, work, p))
    && (forall p :: p in writes <==> Written(seed, work, p))
    && (forall i, j :: 0 <= i < j < |removes| ==> |removes[i]| >= |removes[j]| && removes[i] != removes[j])
    && (forall i, j :: 0 <= i < j < |writes| ==> |writes[i]| <= |writes[j]| && writes[i] != writes[j])
  }

  /** The place of a path in a list that is sorted by depth. */
  function Inserted(paths: seq<Path>, p: Path, deepestFirst: bool): (r: seq<Path>)
    ensures |r| == |paths| + 1
  {
    if paths == [] then [p]
    else if (deepestFirst && |p| >= |paths[0]|) || (!deepestFirst && |p| <= |paths[0]|) then [p] + paths
    else [paths[0]] + Inserted(paths[1..], p, deepestFirst)
  }

  ghost predicate Sorted(paths: seq<Path>, deepestFirst: bool) {
    forall i, j :: 0 <= i < j < |paths| ==>
      paths[i] != paths[j] && if deepestFirst then |paths[i]| >= |paths[j]| else |paths[i]| <= |paths[j]|
  }

  lemma {:induction false} InsertedHolds(paths: seq<Path>, p: Path, deepestFirst: bool, x: Path)
    ensures x in Inserted(paths, p, deepestFirst) <==> x in paths || x == p
  {
    if paths != [] {
      InsertedHolds(paths[1..], p, deepestFirst, x);
      assert paths == [paths[0]] + paths[1..];
    }
  }

  lemma {:induction false} InsertedSorted(paths: seq<Path>, p: Path, deepestFirst: bool)
    requires Sorted(paths, deepestFirst) && p !in paths
    ensures Sorted(Inserted(paths, p, deepestFirst), deepestFirst)
  {
    var r := Inserted(paths, p, deepestFirst);
    if paths != [] && r[0] == paths[0] && r[0] != p {
      InsertedSorted(paths[1..], p, deepestFirst);
      forall j | 0 < j < |r|
        ensures r[0] != r[j] && if deepestFirst then |r[0]| >= |r[j]| else |r[0]| <= |r[j]|
      {
        InsertedHolds(paths[1..], p, deepestFirst, r[j]);
        assert r[j] == r[1..][j - 1];
        if r[j] != p {
          var i :| 0 <= i < |paths[1..]| && paths[1..][i] == r[j];
          assert paths[i + 1] == r[j];
        }
      }
    }
  }

  /** The paths of a set, sorted. */
  method SortByDepth(paths: set<Path>, deepestFirst: bool) returns (sorted: seq<Path>)
    ensures Sorted(sorted, deepestFirst) && forall p :: p in sorted <==> p in paths
  {
    sorted := [];
    var rest := paths;
    while rest != {}
      invariant rest <= paths && Sorted(sorted, deepestFirst)
      invariant forall p :: p in sorted <==> p in paths - rest
      decreases |rest|
    {
      var p :| p in rest;
      InsertedSorted(sorted, p, deepestFirst);
      forall x
        ensures x in Inserted(sorted, p, deepestFirst) <==> x in sorted || x == p
      {
        InsertedHolds(sorted, p, deepestFirst, x);
      }
      sorted := Inserted(sorted, p, deepestFirst);
      rest := rest - {p};
    }
  }

  method DiffTrees(seed: Tree, work: Tree) returns (removes: seq<Path>, writes: seq<Path>)
    ensures IsDiff(seed, work, removes, writes)
  {
    var removed := set p | p in seed && p !in work;
    var written := set p | p in work && At(seed, p) != At(work, p);
    removes := SortByDepth(removed, true);
    writes := SortByDepth(written, false);
  }

  // ----- Putting the differences in -------------------------------------------------------------

  /** A tree with the paths of a difference taken from another. */
  function Patched(seed: Tree, work: Tree, removes: seq<Path>, writes: seq<Path>): (r: Tree)
    ensures forall p :: At(r, p) == if p in writes then At(work, p) else if p in removes then None else At(seed, p)
  {
    map p | p in seed.Keys + work.Keys && (if p in writes then p in work else p in seed && p !in removes) ::
      if p in writes then work[p] else seed[p]
  }

  lemma SameTrees(a: Tree, b: Tree)
    requires forall x :: At(a, x) == At(b, x)
    ensures a == b
  {
    forall x
      ensures x in a <==> x in b
      ensures x in a ==> a[x] == b[x]
    {
      assert At(a, x) == At(b, x);
    }
  }

  /** The differences are all that tells the trees apart. */
  lemma DiffIsComplete(seed: Tree, work: Tree, removes: seq<Path>, writes: seq<Path>)
    requires IsDiff(seed, work, removes, writes)
    ensures Patched(seed, work, removes, writes) == work
  {
    forall p
      ensures At(Patched(seed, work, removes, writes), p) == At(work, p)
    {
      assert p in removes <==> Removed(seed, work, p);
      assert p in writes <==> Written(seed, work, p);
    }
    SameTrees(Patched(seed, work, removes, writes), work);
  }

  /** No directory of the one tree is a file of the other. */
  ghost predicate NoDirectoryBecomesFile(seed: Tree, work: Tree) {
    forall p, q | p in seed && q in work && Under(p, q) :: work[q].Symlink?
  }

  lemma StillUnder(p: Path, q: Path, r: Path)
    requires Under(p, q) && (q == r || Under(q, r))
    ensures Under(p, r)
  {
    assert p[..|r|] == q[..|r|];
  }
}
