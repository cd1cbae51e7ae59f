/** Recursive folder deletion on a file system without symbolic links, under any pattern of failing
    operations. */
module FolderDelete {

  datatype Name = Name(text: string)

  type Path = seq<Name>

  datatype Kind = File | Dir

  type Tree = map<Path, Kind>

  datatype Op = OpenDir | Malloc | Stat | Unlink | Rmdir

  /** Which operation fails on which path. */
  type Faults = (Op, Path) -> bool

  predicate InDirectory(nodes: Tree, p: Path) {
    p == [] || (p[..|p| - 1] in nodes && nodes[p[..|p| - 1]].Dir?)
  }

  /** Every entry lies in a directory. */
  ghost predicate WellFormed(nodes: Tree) {
    forall p {:trigger InDirectory(nodes, p)} :: p in nodes ==> InDirectory(nodes, p)
  }

  /** The entry of folder `path` that `p` lies in or is. */
  function Top(path: Path, p: Path): Path
    requires path < p
  {
    p[..|path| + 1]
  }

  function Entries(nodes: Tree, path: Path): set<Path> {
    set p | p in nodes && path < p && |p| == |path| + 1
  }

  /** The tree without the entries `done` of folder `path` and all below them. */
  ghost function Without(nodes: Tree, path: Path, done: set<Path>): Tree {
    map p | p in nodes && !(path < p && Top(path, p) in done) :: nodes[p]
  }

  /** The tree without `path` and all below it. */
  ghost function Cut(nodes: Tree, path: Path): Tree {
    map p | p in nodes && !(path <= p) :: nodes[p]
  }

  /** Nothing that has to be done to entry `q` itself fails. */
  predicate Fine(nodes: Tree, q: Path, fails: Faults)
    requires q in nodes
  {
    && !fails(Malloc, q) && !fails(Stat, q)
    && if nodes[q].File? then !fails(Unlink, q) else !fails(OpenDir, q) && !fails(Rmdir, q)
  }

  ghost predicate SubtreeFine(nodes: Tree, c: Path, fails: Faults) {
    forall q :: q in nodes && c <= q ==> Fine(nodes, q, fails)
  }

  /** What it takes to delete folder `path`. */
  ghost predicate Deletable(nodes: Tree, path: Path, fails: Faults) {
    && path in nodes && nodes[path].Dir? && !fails(OpenDir, path) && !fails(Rmdir, path)
    && forall q :: q in nodes && path < q ==> Fine(nodes, q, fails)
  }

  // ---------------------------------------------------------------- trees

  lemma {:induction false} PrefixExists(nodes: Tree, p: Path, k: nat)
    requires WellFormed(nodes) && p in nodes && k <= |p|
    ensures p[..k] in nodes && (k < |p| ==> nodes[p[..k]].Dir?)
    decreases |p|
  {
    if k == |p| {
      assert p[..k] == p;
    } else {
      var parent := p[..|p| - 1];
      assert InDirectory(nodes, p);
      PrefixExists(nodes, parent, k);
      assert parent[..k] == p[..k];
      if k == |parent| {
        assert p[..k] == parent;
      }
    }
  }

  lemma TopIsEntry(nodes: Tree, path: Path, p: Path)
    requires WellFormed(nodes) && p in nodes && path < p
    ensures Top(path, p) in Entries(nodes, path)
  {
    PrefixExists(nodes, p, |path| + 1);
  }

  lemma NothingBelow(nodes: Tree, path: Path)
    requires WellFormed(nodes)
    ensures forall p :: p in Without(nodes, path, Entries(nodes, path)) ==> !(path < p)
  {
    forall p | p in nodes && path < p
      ensures Top(path, p) in Entries(nodes, path)
    {
      TopIsEntry(nodes, path, p);
    }
  }

  lemma WithoutAllIsCut(nodes: Tree, path: Path)
    requires WellFormed(nodes)
    ensures Without(nodes, path, Entries(nodes, path)) - {path} == Cut(nodes, path)
  {
    NothingBelow(nodes, path);
    var w, c := Without(nodes, path, Entries(nodes, path)) - {path}, Cut(nodes, path);
    forall p
      ensures p in w <==> p in c
    {
      assert path <= p <==> path == p || path < p;
    }
  }

  lemma CutWellFormed(nodes: Tree, path: Path)
    requires WellFormed(nodes)
    ensures WellFormed(Cut(nodes, path))
  {
    var w := Cut(nodes, path);
    forall p | p in w && p != []
      ensures InDirectory(w, p)
    {
      assert InDirectory(nodes, p);
      var parent := p[..|p| - 1];
      assert path <= parent ==> path <= p;
    }
  }

  /** Deleting one more entry. */
  lemma WithoutStep(nodes: Tree, path: Path, done: set<Path>, c: Path)
    requires path < c && |c| == |path| + 1
    ensures Cut(Without(nodes, path, done), c) == Without(nodes, path, done + {c})
  {
    forall p
      ensures path < p && Top(path, p) == c <==> c <= p
    {
      if c <= p {
        assert path < p && p[..|c|] == c;
      }
    }
  }

  /** The subtree of an entry that is still there is the original one. */
  lemma StillThere(nodes: Tree, path: Path, done: set<Path>, c: Path, q: Path)
    requires path < c && |c| == |path| + 1 && c !in done && c <= q
    ensures q in nodes <==> q in Without(nodes, path, done)
    ensures q in nodes ==> Without(nodes, path, done)[q] == nodes[q]
  {
    assert path < q && Top(path, q) == c;
  }

  // ---------------------------------------------------------------- the operations

  class FileSystem {
    var nodes: Tree

    constructor ()
      ensures nodes == map[]
    {
      nodes := map[];
    }
  }

  /** Only entries below `path` may be missing in `now`; nothing is added or changed. */
  ghost predicate OnlyBelow(before: Tree, now: Tree, path: Path) {
    && (forall p :: p in now ==> p in before && now[p] == before[p])
    && (forall p :: p in before && !(path < p) ==> p in now)
  }

  /** `rmdir`: refuses a folder that is not empty. */
  method RemoveDir(fs: FileSystem, path: Path, fails: Faults) returns (res: int)
    modifies fs
    ensures res == 0 <==> path in old(fs.nodes) && old(fs.nodes)[path].Dir? && !fails(Rmdir, path)
                          && forall p :: p in old(fs.nodes) ==> !(path < p)
    ensures res == 0 || res == -1
    ensures fs.nodes == if res == 0 then old(fs.nodes) - {path} else old(fs.nodes)
  {
    if path in fs.nodes && fs.nodes[path].Dir? && !fails(Rmdir, path) && forall p :: p in fs.nodes ==> !(path < p) {
      fs.nodes := fs.nodes - {path};
      return 0;
    }
    return -1;
  }

  /** The body of the loop: one entry of a folder. */
  method DeleteEntry(fs: FileSystem, c: Path, fails: Faults) returns (res: int)
    requires WellFormed(fs.nodes) && c in fs.nodes
    modifies fs
    ensures WellFormed(fs.nodes)
    ensures res == 0 || res == -1
    ensures res == 0 <==> SubtreeFine(old(fs.nodes), c, fails)
    ensures res == 0 ==> fs.nodes == Cut(old(fs.nodes), c)
    ensures res != 0 ==> OnlyBelow(old(fs.nodes), fs.nodes, c)
    decreases set p | p in fs.nodes && c <= p, 1
  {
    ghost var before := fs.nodes;
    if fails(Malloc, c) || fails(Stat, c) {
      assert !Fine(before, c, fails);
      return -1;
    }
    if fs.nodes[c].Dir? {
      res := Delete(fs, c, fails);
      DeletableIffFine(before, c, fails);
    } else {
      FileHasNothingBelow(fs.nodes, c);
      if fails(Unlink, c) {
        assert !Fine(before, c, fails);
        return -1;
      }
      fs.nodes := fs.nodes - {c};
      assert fs.nodes == Cut(before, c);
      CutWellFormed(before, c);
      res := 0;
    }
  }

  lemma DeletableIffFine(nodes: Tree, c: Path, fails: Faults)
    requires c in nodes && nodes[c].Dir? && !fails(Malloc, c) && !fails(Stat, c)
    ensures Deletable(nodes, c, fails) <==> SubtreeFine(nodes, c, fails)
  {
    if Deletable(nodes, c, fails) {
      forall q | q in nodes && c <= q
        ensures Fine(nodes, q, fails)
      {
        assert q == c || c < q;
      }
    }
    if SubtreeFine(nodes, c, fails) {
      assert Fine(nodes, c, fails);
      assert Deletable(nodes, c, fails);
    }
  }

  lemma FileHasNothingBelow(nodes: Tree, c: Path)
    requires WellFormed(nodes) && c in nodes && nodes[c].File?
    ensures forall p :: p in nodes && c <= p ==> p == c
  {
    forall p | p in nodes && c <= p
      ensures p == c
    {
      PrefixExists(nodes, p, |c|);
      assert p[..|c|] == c;
    }
  }

  /** Deleting entry `c` after the entries `done`: its subtree is the original one, smaller than the
      whole, and it decides together with the others whether the folder can go. */
  lemma EntryStep(before: Tree, path: Path, done: set<Path>, c: Path, fails: Faults)
    requires c in Entries(before, path) && c !in done && path in before
    ensures var now := Without(before, path, done);
            && c in now
            && (SubtreeFine(now, c, fails) <==> SubtreeFine(before, c, fails))
            && Cut(now, c) == Without(before, path, done + {c})
            && (set p | p in now && c <= p) < (set p | p in before && path <= p)
    ensures Deletable(before, path, fails) ==> SubtreeFine(before, c, fails)
  {
    var now := Without(before, path, done);
    forall q | c <= q
      ensures q in before <==> q in now
      ensures q in before ==> now[q] == before[q]
    {
      StillThere(before, path, done, c, q);
    }
    WithoutStep(before, path, done, c);
    var sub, all := set p | p in now && c <= p, set p | p in before && path <= p;
    assert path in all && path !in sub;
    forall q | q in now && c <= q
      ensures Fine(now, q, fails) <==> Fine(before, q, fails)
    {
    }
  }

  lemma DoneFine(before: Tree, path: Path, done: set<Path>, c: Path, fails: Faults)
    requires path < c && |c| == |path| + 1 && SubtreeFine(before, c, fails)
    requires forall q :: q in before && path < q && Top(path, q) in done ==> Fine(before, q, fails)
    ensures forall q :: q in before && path < q && Top(path, q) in done + {c} ==> Fine(before, q, fails)
  {
  }

  lemma OnlyBelowChild(before: Tree, now: Tree, after: Tree, path: Path, done: set<Path>, c: Path)
    requires now == Without(before, path, done) && OnlyBelow(now, after, c) && path < c
    ensures OnlyBelow(before, after, path)
  {
  }

  lemma AllFine(before: Tree, path: Path, fails: Faults)
    requires WellFormed(before) && path in before && before[path].Dir? && !fails(OpenDir, path)
    requires forall q :: q in before && path < q && Top(path, q) in Entries(before, path) ==> Fine(before, q, fails)
    ensures Deletable(before, path, fails) <==> !fails(Rmdir, path)
  {
    forall q | q in before && path < q
      ensures Fine(before, q, fails)
    {
      TopIsEntry(before, path, q);
    }
  }

  /** `FolderDelete`. It returns 0 exactly when the folder exists and no operation on it or on
      anything below it fails, and then exactly the subtree is gone. Otherwise the folder itself is
      still there, only things below it may be missing, and nothing outside was touched. */
  method Delete(fs: FileSystem, path: Path, fails: Faults) returns (res: int)
    requires WellFormed(fs.nodes)
    modifies fs
    ensures WellFormed(fs.nodes)
    ensures res == 0 || res == -1
    ensures res == 0 <==> Deletable(old(fs.nodes), path, fails)
    ensures res == 0 ==> fs.nodes == Cut(old(fs.nodes), path)
    ensures res != 0 ==> OnlyBelow(old(fs.nodes), fs.nodes, path)
    decreases set p | p in fs.nodes && path <= p, 0
  {
    ghost var before := fs.nodes;
    if path !in fs.nodes || !fs.nodes[path].Dir? || fails(OpenDir, path) {
      return -1;
    }
    var left := Entries(fs.nodes, path);
    ghost var done: set<Path> := {};
    assert fs.nodes == Without(before, path, done);
    res := 0;
    while res == 0 && left != {}
      invariant res == 0 || res == -1
      invariant WellFormed(fs.nodes)
      invariant left + done == Entries(before, path) && left !! done
      invariant res == 0 ==> fs.nodes == Without(before, path, done)
      invariant res == 0 ==> forall q :: q in before && path < q && Top(path, q) in done ==> Fine(before, q, fails)
      invariant res != 0 ==> OnlyBelow(before, fs.nodes, path) && !Deletable(before, path, fails)
      decreases left
    {
      var c :| c in left;
      ghost var now := fs.nodes;
      EntryStep(before, path, done, c, fails);
      res := DeleteEntry(fs, c, fails);
      left := left - {c};
      if res == 0 {
        DoneFine(before, path, done, c, fails);
      } else {
        OnlyBelowChild(before, now, fs.nodes, path, done, c);
      }
      done := done + {c};
    }
    if res == 0 {
      WithoutAllIsCut(before, path);
      NothingBelow(before, path);
      res := RemoveDir(fs, path, fails);
      AllFine(before, path, fails);
      if res == 0 {
        CutWellFormed(before, path);
      }
    }
  }
}
