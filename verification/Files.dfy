/** The file system as the write-ahead log changes it: every path is absolute, and every link on its
    way is followed, wherever it leads (shellmux/src/wal.rs:120-192, shellmux/src/commit.rs:268-318). */
module Files {
  import opened Wrappers
  import opened Trees

  /** All entries, by their paths from the root. Directories are there if something is below them,
      or if `dirs` has them or something below them. */
  datatype FileSystem = FileSystem(entries: Tree, dirs: set<Path>)

  datatype Error =
    | NotADirectory | TooManyLinks | DanglingLink | CannotCopy | SourceGone
    | BadFrame | LegacyUnfinished

  type Hash = string -> string

  predicate SomeBelow(t: Tree, p: Path) { exists q | q in t :: Under(q, p) }

  predicate IsDirectory(fs: FileSystem, p: Path) {
    p == [] || p in fs.dirs || SomeBelow(fs.entries, p) || exists q | q in fs.dirs :: Under(q, p)
  }

  /** No entry is a directory. */
  ghost predicate Valid(fs: FileSystem) { forall e | e in fs.entries :: !IsDirectory(fs, e) }

  // ----- Where a path leads ---------------------------------------------------------------------

  /** The parts between slashes. */
  function Components(text: string): (r: seq<string>)
    ensures r != []
  {
    if text == "" then [""]
    else
      var rest := Components(text[1..]);
      if text[0] == '/' then [""] + rest else [[text[0]] + rest[0]] + rest[1..]
  }

  /** What a path comes to: a place, nothing at all, a file on the way, or more links than the system
      follows. */
  datatype Place = Here(path: Path) | Missing | InTheWay | Endless

  const MAX_LINKS: nat := 40

  function Parent(p: Path): Path { if p == [] then [] else p[..|p| - 1] }

  function Min(a: nat, b: nat): nat { if a < b then a else b }

  /** Goes on from the directory `at`. The last `own` components are those of the path itself;
      the ones before come from links and have to be there. The very last is not followed. */
  function Walk(fs: FileSystem, at: Path, rest: seq<string>, own: nat, links: nat): Place
    decreases links, |rest|
  {
    if rest == [] then Here(at)
    else
      var name, next := rest[0], rest[1..];
      if |rest| > own && (name == "" || name == ".") then Walk(fs, at, next, own, links)
      else if |rest| > own && name == ".." then Walk(fs, Parent(at), next, own, links)
      else
        var here := at + [name];
        if next == [] then Here(here)
        else if here in fs.entries then
          match fs.entries[here]
          case Symlink(target) =>
            if links == 0 then Endless
            else
              Walk(fs, if target != "" && target[0] == '/' then [] else at, Components(target) + next,
                   Min(own, |next|), links - 1)
          case _ => InTheWay
        else if |rest| > own && !IsDirectory(fs, here) then Missing
        else Walk(fs, here, next, Min(own, |next|), links)
  }

  function Locate(fs: FileSystem, p: Path): Place { Walk(fs, [], p, |p|, MAX_LINKS) }

  /** What is at a path, the last component not followed. */
  datatype Found = Nothing | Directory | Leaf(entry: Entry)

  function Find(fs: FileSystem, p: Path): Found {
    match Locate(fs, p)
    case Here(x) => if x in fs.entries then Leaf(fs.entries[x]) else if IsDirectory(fs, x) then Directory else Nothing
    case _ => Nothing
  }

  // ----- Removals -------------------------------------------------------------------------------

  /** Without what is at a path and below it; the directory around it stays. */
  function Without(fs: FileSystem, x: Path): FileSystem {
    if x in fs.entries || IsDirectory(fs, x) then
      FileSystem(Cleared(fs.entries, x), (set d | d in fs.dirs && d != x && !Under(d, x)) + {Parent(x)})
    else fs
  }

  predicate IsEmpty(fs: FileSystem, x: Path) {
    IsDirectory(fs, x) && !SomeBelow(fs.entries, x) && forall d | d in fs.dirs :: !Under(d, x)
  }

  /** Takes off the directories above `p` that are empty, from the `k`-th component up to the root of
      the tree, `steps` of them at most. */
  function Pruned(fs: FileSystem, root: Path, p: Path, k: nat, steps: nat): FileSystem
    requires k <= |p|
    decreases k
  {
    if k == 0 || steps == 0 then fs
    else
      match Locate(fs, root + p[..k])
      case Here(x) =>
        if x !in fs.entries && IsEmpty(fs, x) then Pruned(Without(fs, x), root, p, k - 1, steps - 1) else fs
      case _ => fs
  }

  /** What a removal takes off, before it looks at the directories around it. */
  function Unlinked(fs: FileSystem, p: Path): Result<FileSystem, Error> {
    match Locate(fs, p)
    case Here(x) => Ok(Without(fs, x))
    case Missing => Ok(fs)
    case InTheWay => Err(NotADirectory)
    case Endless => Err(TooManyLinks)
  }

  /** A path that is not there is removed already; one that runs through a file is an error. */
  function Remove(fs: FileSystem, root: Path, p: Path): Result<FileSystem, Error> {
    match Unlinked(fs, root + p)
    case Err(e) => Err(e)
    case Ok(fs') => Ok(if p == [] then fs' else Pruned(fs', root, p, |p| - 1, |p|))
  }

  // ----- Writes ---------------------------------------------------------------------------------

  /** A directory in the way goes; a file on the way does not. Directories are made as needed, but
      not at the end of a link. Only files and links can be copied. */
  function Put(fs: FileSystem, p: Path, e: Entry): Result<FileSystem, Error> {
    match Locate(fs, p)
    case Here(x) =>
      if e.Other? then Err(CannotCopy)
      else Ok(FileSystem(Cleared(fs.entries, x)[x := e], set d | d in fs.dirs && d != x && !Under(d, x)))
    case Missing => Err(DanglingLink)
    case InTheWay => Err(NotADirectory)
    case Endless => Err(TooManyLinks)
  }

  /** A move whose source is gone is done already if there is the same content at its destination; a
      directory there has no content. */
  function MoveInto(hash: Hash, fs: FileSystem, root: Path, source: Path, p: Path, sha1: string): Result<FileSystem, Error> {
    match Find(fs, source + p)
    case Leaf(e) => Put(fs, root + p, e)
    case Directory => Err(CannotCopy)
    case Nothing =>
      match Find(fs, root + p)
      case Leaf(e) => if hash(Content(e)) == sha1 then Ok(fs) else Err(SourceGone)
      case Directory => if hash("") == sha1 then Ok(fs) else Err(SourceGone)
      case Nothing => Err(SourceGone)
  }

  // ----- Nothing on the way ---------------------------------------------------------------------

  predicate Blocked(fs: FileSystem, p: Path) { exists q | q in fs.entries :: Under(p, q) }

  /** From a directory on, a path of its own components is followed by name up to the first entry. */
  lemma {:induction false} WalkBy(fs: FileSystem, at: Path, rest: seq<string>, k: nat, links: nat)
    requires k <= |rest| && forall i | 0 < i <= k && i < |rest| :: at + rest[..i] !in fs.entries
    ensures Walk(fs, at, rest, |rest|, links) == Walk(fs, at + rest[..k], rest[k..], |rest| - k, links)
  {
    if k == 0 {
      assert at + rest[..0] == at && rest[0..] == rest;
    } else {
      var before := at + rest[..k - 1];
      WalkBy(fs, at, rest, k - 1, links);
      assert before + [rest[k - 1]] == at + rest[..k] && rest[k - 1..][1..] == rest[k..];
      if k < |rest| {
        assert at + rest[..k] !in fs.entries;
      } else {
        assert rest[k..] == [];
      }
    }
  }

  /** With nothing on the way, it leads where it says. */
  lemma LocateDirect(fs: FileSystem, p: Path)
    requires !Blocked(fs, p)
    ensures Locate(fs, p) == Here(p)
  {
    forall i | 0 < i < |p|
      ensures [] + p[..i] !in fs.entries
    {
      assert Under(p, p[..i]) && [] + p[..i] == p[..i];
    }
    WalkBy(fs, [], p, |p|, MAX_LINKS);
    assert [] + p[..|p|] == p && p[|p|..] == [];
  }

  lemma NoEntryAbove(fs: FileSystem, q: Path, i: nat)
    requires Valid(fs) && q in fs.entries && i < |q|
    ensures q[..i] !in fs.entries
  {
    assert Under(q, q[..i]);
    assert SomeBelow(fs.entries, q[..i]);
  }

  lemma LastStep(p: Path, q: Path)
    requires Under(p, q) && q != []
    ensures Parent(q) == p[..|q| - 1] && Parent(q) + [p[|q| - 1]] == q
    ensures forall i | 0 <= i < |q| :: p[..i] == q[..i]
  {
    assert p[..|q|][|q| - 1] == q[|q| - 1];
  }

  lemma LocateIs(fs: FileSystem, p: Path)
    ensures Locate(fs, p) == Walk(fs, [], p, |p|, MAX_LINKS)
  {
  }

  lemma EntryBelowRoot(fs: FileSystem, p: Path, q: Path)
    requires Valid(fs) && q in fs.entries && Under(p, q)
    ensures 0 < |q| < |p|
  {
    assert IsDirectory(fs, []);
  }

  /** Otherwise it comes to the one entry on its way. */
  lemma WalkToEntry(fs: FileSystem, p: Path, q: Path)
    requires Valid(fs) && q in fs.entries && Under(p, q)
    ensures 0 < |q| < |p| && Parent(q) + [p[|q| - 1]] == q
    ensures Locate(fs, p) == Walk(fs, Parent(q), p[|q| - 1..], |p| - (|q| - 1), MAX_LINKS)
  {
    hide *;
    EntryBelowRoot(fs, p, q);
    LastStep(p, q);
    var k := |q| - 1;
    forall i | 0 < i <= k
      ensures [] + p[..i] !in fs.entries
    {
      NoEntryAbove(fs, q, i);
      assert [] + p[..i] == q[..i];
    }
    WalkBy(fs, [], p, k, MAX_LINKS);
    LocateIs(fs, p);
    assert [] + p[..k] == p[..k];
  }

  lemma EntryStep(fs: FileSystem, at: Path, rest: seq<string>, links: nat)
    requires |rest| > 1 && at + [rest[0]] in fs.entries && links > 0
    ensures Walk(fs, at, rest, |rest|, links)
            == match fs.entries[at + [rest[0]]]
               case Symlink(target) =>
                 Walk(fs, if target != "" && target[0] == '/' then [] else at, Components(target) + rest[1..],
                      |rest| - 1, links - 1)
               case _ => InTheWay
  {
    hide IsDirectory, Components;
  }

  lemma FileInTheWay(fs: FileSystem, p: Path, q: Path)
    requires Valid(fs) && q in fs.entries && !fs.entries[q].Symlink? && Under(p, q)
    ensures Locate(fs, p) == InTheWay
  {
    hide Valid, IsDirectory, Components, Walk, Locate, Under;
    WalkToEntry(fs, p, q);
    EntryStep(fs, Parent(q), p[|q| - 1..], MAX_LINKS);
  }

  /** A link on the way is followed from the directory around it, or from the root. */
  lemma LinkOnTheWay(fs: FileSystem, p: Path, q: Path)
    requires Valid(fs) && q in fs.entries && fs.entries[q].Symlink? && Under(p, q)
    ensures |q| < |p|
    ensures var target := fs.entries[q].target;
            Locate(fs, p)
            == Walk(fs, if target != "" && target[0] == '/' then [] else Parent(q), Components(target) + p[|q|..],
                    |p| - |q|, MAX_LINKS - 1)
  {
    hide Valid, IsDirectory, Components, Walk, Locate, Under;
    WalkToEntry(fs, p, q);
    EntryStep(fs, Parent(q), p[|q| - 1..], MAX_LINKS);
    assert p[|q| - 1..][1..] == p[|q|..];
  }

  predicate Plain(parts: seq<string>) {
    forall i :: 0 <= i < |parts| ==> parts[i] != "" && parts[i] != "." && parts[i] != ".."
  }

  /** Names that come from a link, with no entry on the way: they lead where they say, or one of them is
      no directory. */
  lemma {:induction false} WalkPlain(fs: FileSystem, at: Path, parts: seq<string>, next: seq<string>, links: nat)
    requires Plain(parts) && next != []
    requires forall i | 0 < i < |parts + next| :: at + (parts + next)[..i] !in fs.entries
    ensures var place := Walk(fs, at, parts + next, |next|, links);
            && (place.Missing? || place == Here(at + (parts + next)))
            && ((forall i | 0 < i <= |parts| :: IsDirectory(fs, at + parts[..i])) ==> place.Here?)
    decreases |parts|
  {
    hide IsDirectory;
    if parts == [] {
      assert parts + next == next;
      WalkBy(fs, at, next, |next|, links);
      assert next[..|next|] == next && next[|next|..] == [];
    } else {
      var all, here := parts + next, at + [parts[0]];
      assert all[0] == parts[0] && all[1..] == parts[1..] + next;
      assert at + all[..1] == here;
      forall i | 0 < i < |parts[1..] + next|
        ensures here + (parts[1..] + next)[..i] !in fs.entries
      {
        assert here + (parts[1..] + next)[..i] == at + all[..i + 1];
      }
      WalkPlain(fs, here, parts[1..], next, links);
      assert here + (parts[1..] + next) == at + all;
      assert at + parts[..1] == here;
      forall i | 0 < i <= |parts[1..]| && forall j | 0 < j <= |parts| :: IsDirectory(fs, at + parts[..j])
        ensures IsDirectory(fs, here + parts[1..][..i])
      {
        assert here + parts[1..][..i] == at + parts[..i + 1];
      }
    }
  }

  /** On the way of a link, down into a directory and up again is nowhere, nothing and a dot are nowhere,
      and above the root is the root. */
  lemma DownAndUp(fs: FileSystem, at: Path, name: string, next: seq<string>, own: nat, links: nat)
    requires own <= |next| && next != [] && name !in {"", ".", ".."}
    requires at + [name] !in fs.entries && IsDirectory(fs, at + [name])
    ensures Walk(fs, at, [name, ".."] + next, own, links) == Walk(fs, at, next, own, links)
    ensures Walk(fs, at, ["."] + next, own, links) == Walk(fs, at, [""] + next, own, links) == Walk(fs, at, next, own, links)
    ensures Walk(fs, [], [".."] + next, own, links) == Walk(fs, [], next, own, links)
  {
    hide IsDirectory;
    assert ([name, ".."] + next)[1..] == [".."] + next && ([".."] + next)[1..] == next;
    assert (["."] + next)[1..] == next && ([""] + next)[1..] == next;
    assert Parent(at + [name]) == at;
    assert Walk(fs, at, [name, ".."] + next, own, links) == Walk(fs, at + [name], [".."] + next, own, links);
  }

  /** A move whose source is gone is taken as done, and changes nothing, exactly if what is at its destination
      has the content that its record carries; a directory there counts as empty. */
  lemma DoneAlreadyIff(hash: Hash, fs: FileSystem, root: Path, source: Path, p: Path, sha1: string)
    requires Find(fs, source + p).Nothing?
    ensures var m, found := MoveInto(hash, fs, root, source, p, sha1), Find(fs, root + p);
            && (m.Ok? <==> !found.Nothing? && hash(if found.Leaf? then Content(found.entry) else "") == sha1)
            && m == if m.Ok? then Ok(fs) else Err(SourceGone)
  {
    hide Locate, IsDirectory;
  }

  // ----- Less than before -----------------------------------------------------------------------

  predicate PartOf(a: Tree, t: Tree) { forall x | x in a :: x in t && a[x] == t[x] }

  /** Some entries are gone, and some directories. */
  ghost predicate Smaller(a: FileSystem, fs: FileSystem) {
    PartOf(a.entries, fs.entries) && forall d | IsDirectory(a, d) :: IsDirectory(fs, d)
  }

  lemma SmallerIsValid(a: FileSystem, fs: FileSystem)
    requires Valid(fs) && Smaller(a, fs)
    ensures Valid(a)
  {
    hide IsDirectory;
  }

  lemma SmallerAgain(a: FileSystem, b: FileSystem, fs: FileSystem)
    requires Smaller(a, b) && Smaller(b, fs)
    ensures Smaller(a, fs)
  {
    hide IsDirectory;
  }

  lemma ParentIsDirectory(fs: FileSystem, x: Path, d: Path)
    requires (x in fs.entries || IsDirectory(fs, x)) && x != [] && (d == Parent(x) || Under(Parent(x), d))
    ensures IsDirectory(fs, d)
  {
    assert Under(x, d) by {
      assert Under(x, Parent(x));
      if d != Parent(x) {
        StillUnder(x, Parent(x), d);
      }
    }
    if x !in fs.entries && x !in fs.dirs {
      if q :| q in fs.entries && Under(q, x) {
        StillUnder(q, x, d);
      } else {
        var q :| q in fs.dirs && Under(q, x);
        StillUnder(q, x, d);
      }
    }
  }

  lemma WithoutIsSmaller(fs: FileSystem, x: Path)
    ensures Smaller(Without(fs, x), fs) && Without(fs, x).entries == Cleared(fs.entries, x)
  {
    var a := Without(fs, x);
    if x in fs.entries || IsDirectory(fs, x) {
      forall d | IsDirectory(a, d)
        ensures IsDirectory(fs, d)
      {
        if x != [] && (d == Parent(x) || Under(Parent(x), d)) {
          ParentIsDirectory(fs, x, d);
        }
      }
    } else {
      forall y | y in fs.entries
        ensures y in Cleared(fs.entries, x)
      {
        assert Under(y, x) ==> SomeBelow(fs.entries, x);
      }
      assert Cleared(fs.entries, x) == fs.entries;
    }
  }

  lemma {:induction false} PrunedIsSmaller(fs: FileSystem, root: Path, p: Path, k: nat, steps: nat)
    requires k <= |p|
    ensures var a := Pruned(fs, root, p, k, steps); Smaller(a, fs) && a.entries == fs.entries
    decreases k
  {
    hide Locate, IsDirectory;
    if k > 0 && steps > 0 && Locate(fs, root + p[..k]).Here? {
      var x := Locate(fs, root + p[..k]).path;
      if x !in fs.entries && IsEmpty(fs, x) {
        WithoutIsSmaller(fs, x);
        assert Cleared(fs.entries, x) == fs.entries;
        PrunedIsSmaller(Without(fs, x), root, p, k - 1, steps - 1);
        SmallerAgain(Pruned(fs, root, p, k, steps), Without(fs, x), fs);
      }
    }
  }

  /** A removal takes off entries and directories, and no entry but those that its path leads to. */
  lemma RemoveTakes(fs: FileSystem, root: Path, p: Path)
    requires Remove(fs, root, p).Ok?
    ensures var a := Remove(fs, root, p).value;
            && Smaller(a, fs)
            && a.entries == match Locate(fs, root + p) case Here(x) => Cleared(fs.entries, x) case _ => fs.entries
  {
    hide Locate, IsDirectory;
    var fs' := Unlinked(fs, root + p).value;
    if Locate(fs, root + p).Here? {
      WithoutIsSmaller(fs, Locate(fs, root + p).path);
    }
    if p != [] {
      PrunedIsSmaller(fs', root, p, |p| - 1, |p|);
      SmallerAgain(Remove(fs, root, p).value, fs', fs);
    }
  }

  /** And it fails only where its path leads to no place. */
  lemma RemoveSucceeds(fs: FileSystem, root: Path, p: Path)
    ensures Remove(fs, root, p).Ok? <==> Locate(fs, root + p).Here? || Locate(fs, root + p).Missing?
  {
    hide Locate;
  }

  // ----- Directories behind a removal -----------------------------------------------------------

  /** Above the lowest directory that is left on the way to a removed path, none is empty, and the root of the
      tree stays. */
  ghost predicate NoneEmpty(fs: FileSystem, root: Path, p: Path) {
    IsDirectory(fs, root) && forall i :: 0 < i < |p| ==> !IsEmpty(fs, root + p[..i])
  }

  lemma AboveStep(root: Path, p: Path, i: nat, k: nat)
    requires i < k <= |p|
    ensures Under(root + p[..k], root + p[..i])
  {
    assert (root + p[..k])[..|root| + i] == root + p[..i];
  }

  lemma ParentOfStep(root: Path, p: Path, k: nat)
    requires 0 < k <= |p|
    ensures Parent(root + p[..k]) == root + p[..k - 1]
  {
    assert (root + p[..k])[..|root| + k - 1] == root + p[..k - 1];
  }

  lemma WithoutIsGone(fs: FileSystem, x: Path)
    requires x != [] && x !in fs.entries && IsEmpty(fs, x)
    ensures !IsDirectory(Without(fs, x), x) && IsDirectory(Without(fs, x), Parent(x))
  {
  }

  lemma NothingIsBelow(fs: FileSystem, x: Path, d: Path)
    requires !IsDirectory(fs, x) && Under(d, x)
    ensures !IsDirectory(fs, d)
  {
    forall q | Under(q, d)
      ensures Under(q, x)
    {
      StillUnder(q, d, x);
    }
  }

  lemma AboveIsNotEmpty(fs: FileSystem, x: Path, d: Path)
    requires IsDirectory(fs, x) && !IsEmpty(fs, x) && Under(x, d)
    ensures !IsEmpty(fs, d)
  {
    forall q | Under(q, x)
      ensures Under(q, d)
    {
      StillUnder(q, x, d);
    }
  }

  lemma {:induction false} PrunedLeavesNoneEmpty(fs: FileSystem, root: Path, p: Path, k: nat, steps: nat)
    requires k < |p| && k <= steps && !Blocked(fs, root + p) && IsDirectory(fs, root + p[..k])
    requires forall i :: k < i < |p| ==> !IsDirectory(fs, root + p[..i])
    ensures NoneEmpty(Pruned(fs, root, p, k, steps), root, p)
    decreases k
  {
    hide IsDirectory, Locate;
    assert root + p[..0] == root && root + p[..|p|] == root + p;
    if k == 0 {
      assert forall i :: 0 < i < |p| ==> !IsEmpty(fs, root + p[..i]);
    } else {
      var x := root + p[..k];
      AboveStep(root, p, k, |p|);
      assert x !in fs.entries;
      forall q | q in fs.entries
        ensures !Under(x, q)
      {
        if Under(x, q) {
          StillUnder(root + p, x, q);
        }
      }
      LocateDirect(fs, x);
      ParentOfStep(root, p, k);
      if IsEmpty(fs, x) {
        WithoutIsGone(fs, x);
        WithoutIsSmaller(fs, x);
        var a := Without(fs, x);
        forall i | k - 1 < i < |p|
          ensures !IsDirectory(a, root + p[..i])
        {
          if i > k {
            AboveStep(root, p, k, i);
            NothingIsBelow(a, x, root + p[..i]);
          }
        }
        assert Cleared(fs.entries, x) == fs.entries by { assert forall y | y in fs.entries :: !Under(y, x); }
        PrunedLeavesNoneEmpty(a, root, p, k - 1, steps - 1);
      } else {
        forall i | 0 < i < |p|
          ensures !IsEmpty(fs, root + p[..i])
        {
          if i < k {
            AboveStep(root, p, i, k);
            AboveIsNotEmpty(fs, x, root + p[..i]);
          }
        }
        AboveStep(root, p, 0, k);
        AboveIsDirectory(fs, x, root);
      }
    }
  }

  lemma AboveIsDirectory(fs: FileSystem, x: Path, d: Path)
    requires IsDirectory(fs, x) && Under(x, d)
    ensures IsDirectory(fs, d)
  {
    forall q | Under(q, x)
      ensures Under(q, d)
    {
      StillUnder(q, x, d);
    }
  }

  /** A removal takes the directories that it leaves empty off the way to the removed path, and not the root
      of the tree. */
  lemma RemoveLeavesNoneEmpty(fs: FileSystem, root: Path, p: Path)
    requires p != [] && !Blocked(fs, root + p) && (root + p in fs.entries || IsDirectory(fs, root + p))
    ensures Remove(fs, root, p).Ok? && NoneEmpty(Remove(fs, root, p).value, root, p)
  {
    LocateDirect(fs, root + p);
    var a := Without(fs, root + p);
    WithoutIsSmaller(fs, root + p);
    ParentOfStep(root, p, |p|);
    assert p[..|p|] == p;
    assert IsDirectory(a, root + p[..|p| - 1]);
    assert !Blocked(a, root + p) by { assert forall q | q in a.entries :: q in fs.entries; }
    PrunedLeavesNoneEmpty(a, root, p, |p| - 1, |p|);
  }
}
