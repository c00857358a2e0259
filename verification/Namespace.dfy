/** The directory tree: what it means for the directory blocks to hold a given
    tree of names, and how translate resolves paths in that tree. */
module Namespace {
  import opened Codec
  import opened Image
  import opened Forest
  import opened Paths

  /** A name in a directory, and what it stands for. */
  datatype Key = Key(dir: nat, name: Name)
  datatype Entry = Entry(slot: nat, inum: nat, isDir: bool)

  /** The tree of names, with the name each inode is reached by and a rank that
      grows from a directory to its members. */
  datatype Names = Names(tree: map<Key, Entry>, parent: map<nat, Key>, rank: seq<nat>)

  const ROOT: nat := 1

  predicate IsDir(s: Fs, n: nat) {
    n < |s.inodes| && IsDirMode(s.inodes[n].mode)
  }

  /** The directory block of inode d. */
  function DirOf(s: Fs, d: nat): Dirents
    requires d < |s.inodes|
  {
    if s.inodes[d].direct[0] < |s.disk| then DecodeDir(s.disk[s.inodes[d].direct[0]]) else DecodeDir(ZeroBlock())
  }

  /** A valid slot is the tree's entry for its name; every name ends in a NUL. */
  ghost predicate SlotOk(nm: Names, d: nat, i: nat, e: Dirent) {
    && 0 in e.name
    && (e.valid ==> var key := Key(d, CStr(e.name));
                    key in nm.tree && nm.tree[key] == Entry(i, e.inode, e.isDir))
  }

  /** The tree's entry for key stands in a valid slot of its directory. */
  ghost predicate EntryOk(s: Fs, nm: Names, key: Key)
    requires key in nm.tree
  {
    var e := nm.tree[key];
    && IsDir(s, key.dir) && GoodName(key.name) && e.slot < DIRENTS_PER_BLOCK
    && DirOf(s, key.dir)[e.slot].valid && CStr(DirOf(s, key.dir)[e.slot].name) == key.name
  }

  /** The entry's inode is a live one of the right type, below its directory,
      and reached by this name only. */
  ghost predicate ChildOk(s: Fs, nm: Names, key: Key)
    requires key in nm.tree && |nm.rank| == |s.inodes|
  {
    var e := nm.tree[key];
    && 2 <= e.inum < |s.inodes| <= |s.inodeMap| && s.inodeMap[e.inum]
    && (if e.isDir then IsDirMode(s.inodes[e.inum].mode) else IsRegMode(s.inodes[e.inum].mode))
    && e.inum in nm.parent && nm.parent[e.inum] == key
    && key.dir < |nm.rank| && nm.rank[key.dir] < nm.rank[e.inum]
  }

  /** Which inodes are in use, and with what trees. */
  ghost predicate UseOk(s: Fs, sh: Shape) {
    && |sh.extent| == |s.inodes| <= |s.inodeMap| && ROOT < |s.inodes|
    && s.inodeMap[0] && s.inodeMap[ROOT] && IsDir(s, ROOT)
    && (forall n | 0 <= n < |s.inodes| && IsDir(s, n) :: s.inodeMap[n] && sh.extent[n] == Extent(1, 0, false, false))
    && (forall n | 0 <= n < |s.inodes| && !s.inodeMap[n] :: sh.extent[n] == EMPTY_EXTENT)
  }

  lemma UseSame(s: Fs, s': Fs, sh: Shape)
    requires UseOk(s, sh) && s'.inodes == s.inodes && s'.inodeMap == s.inodeMap
    ensures UseOk(s', sh)
  {
  }

  lemma UseLengths(s: Fs, sh: Shape)
    requires UseOk(s, sh)
    ensures |s.inodes| <= |s.inodeMap| && |sh.extent| == |s.inodes|
  {
  }

  /** Directory d is the root, or goes by the name that the tree has for it. */
  ghost predicate Placed(nm: Names, d: nat) {
    d == ROOT
    || (d in nm.parent && nm.parent[d] in nm.tree && nm.tree[nm.parent[d]].inum == d && nm.tree[nm.parent[d]].isDir)
  }

  /** No name leads out of directory n. */
  ghost predicate NoNamesIn(nm: Names, n: nat) {
    forall key | key in nm.tree :: key.dir != n
  }

  /** The namespace invariant. */
  ghost predicate Named(s: Fs, sh: Shape, nm: Names) {
    && UseOk(s, sh) && |nm.rank| == |s.inodes|
    && (forall d, i | 0 <= d < |s.inodes| && IsDir(s, d) && 0 <= i < DIRENTS_PER_BLOCK ::
          SlotOk(nm, d, i, DirOf(s, d)[i]))
    && (forall key | key in nm.tree :: EntryOk(s, nm, key))
    && (forall key | key in nm.tree :: ChildOk(s, nm, key))
    && (forall key | key in nm.tree :: Placed(nm, key.dir))
  }

  /** How a walk down the tree ends. */
  datatype Walked = Found(inum: nat, isDir: bool) | Missing | NotDir

  /** One component further. */
  function Step(tree: map<Key, Entry>, w: Walked, t: Name): Walked {
    match w
    case Found(n, true) =>
      if Key(n, t) in tree then Found(tree[Key(n, t)].inum, tree[Key(n, t)].isDir) else Missing
    case Found(_, false) => NotDir
    case _ => w
  }

  function Walk(tree: map<Key, Entry>, w: Walked, ts: seq<Name>): Walked
    decreases |ts|
  {
    if ts == [] then w else Walk(tree, Step(tree, w, ts[0]), ts[1..])
  }

  /** The outcome of resolving a path from the root. */
  function Lookup(tree: map<Key, Entry>, path: seq<byte>): Walked {
    Walk(tree, Found(ROOT, true), Tokens(path))
  }

  /** The int that translate returns for an outcome. */
  function Code(w: Walked): int {
    match w
    case Found(n, _) => n
    case Missing => -ENOENT
    case NotDir => -ENOTDIR
  }

  lemma {:induction false} WalkSnoc(tree: map<Key, Entry>, w: Walked, ts: seq<Name>, t: Name)
    ensures Walk(tree, w, ts + [t]) == Step(tree, Walk(tree, w, ts), t)
    decreases |ts|
  {
    if ts == [] {
      assert ts + [t] == [t] && [t][1..] == [];
    } else {
      assert (ts + [t])[1..] == ts[1..] + [t];
      WalkSnoc(tree, Step(tree, w, ts[0]), ts[1..], t);
    }
  }

  lemma {:induction false} WalkStuck(tree: map<Key, Entry>, w: Walked, ts: seq<Name>)
    requires !w.Found?
    ensures Walk(tree, w, ts) == w
    decreases |ts|
  {
    if ts != [] {
      WalkStuck(tree, w, ts[1..]);
    }
  }

  /** Looking a clean path up is looking its last component up in the directory
      that the truncated path leads to, errors included. */
  lemma LookupSplit(tree: map<Key, Entry>, p: seq<byte>)
    requires Clean(p)
    ensures Lookup(tree, p) == Step(tree, Lookup(tree, DirName(p)), BaseName(p))
  {
    PathSplit(p);
    WalkSnoc(tree, Found(ROOT, true), Tokens(DirName(p)), BaseName(p));
  }

  lemma LookupStripped(tree: map<Key, Entry>, p: seq<byte>)
    requires HasParent(p)
    ensures Clean(Stripped(p)) && Lookup(tree, Stripped(p)) == Lookup(tree, p)
    ensures Lookup(tree, p) == Step(tree, Lookup(tree, DirName(Stripped(p))), BaseName(Stripped(p)))
  {
    hide Tokens;
    StrippedTokens(p);
    LookupSplit(tree, Stripped(p));
  }

  /** Resolving a path, case by case: a path without components is the root, and
      another is what the directory of its last component holds under that name. */
  lemma LookupCases(tree: map<Key, Entry>, p: seq<byte>)
    ensures Tokens(p) == [] ==> Lookup(tree, p) == Found(1, true)
    ensures Clean(p) ==>
              match Lookup(tree, DirName(p))
              case Found(d, true) =>
                var key := Key(d, BaseName(p));
                Lookup(tree, p) == if key in tree then Found(tree[key].inum, tree[key].isDir) else Missing
              case Found(_, false) => Lookup(tree, p) == NotDir
              case Missing => Lookup(tree, p) == Missing
              case NotDir => Lookup(tree, p) == NotDir
  {
    hide Tokens, DirName, BaseName;
    if Clean(p) {
      LookupSplit(tree, p);
    }
  }

  /** What a walk finds is a live inode, a directory exactly if it says so. */
  ghost predicate WalkedOk(s: Fs, w: Walked) {
    w.Found? ==> 1 <= w.inum < |s.inodes| <= |s.inodeMap| && s.inodeMap[w.inum]
                 && (if w.isDir then IsDirMode(s.inodes[w.inum].mode) else IsRegMode(s.inodes[w.inum].mode))
  }

  lemma {:induction false} WalkOk(s: Fs, sh: Shape, nm: Names, w: Walked, ts: seq<Name>)
    requires Named(s, sh, nm) && WalkedOk(s, w)
    ensures WalkedOk(s, Walk(nm.tree, w, ts))
    decreases |ts|
  {
    hide DirOf, CStr, IsDirMode, IsRegMode, GoodName, UseOk;
    if ts != [] {
      if w.Found? && w.isDir && Key(w.inum, ts[0]) in nm.tree {
        assert ChildOk(s, nm, Key(w.inum, ts[0]));
      }
      NamedUse(s, sh, nm);
      WalkOk(s, sh, nm, Step(nm.tree, w, ts[0]), ts[1..]);
    }
  }

  lemma LookupOk(s: Fs, sh: Shape, nm: Names, path: seq<byte>)
    requires Named(s, sh, nm)
    ensures WalkedOk(s, Lookup(nm.tree, path))
  {
    NamedUse(s, sh, nm);
    WalkOk(s, sh, nm, Found(ROOT, true), Tokens(path));
  }

  /** What a slot of a directory says of the tree and of the inode map. */
  lemma SlotFacts(s: Fs, sh: Shape, nm: Names, d: nat, i: nat)
    requires Named(s, sh, nm) && IsDir(s, d) && i < DIRENTS_PER_BLOCK
    ensures d < |s.inodes|
    ensures var e := DirOf(s, d)[i];
            e.valid ==> var key := Key(d, CStr(e.name));
                        key in nm.tree && nm.tree[key] == Entry(i, e.inode, e.isDir)
                        && e.inode < |s.inodes| <= |s.inodeMap| && s.inodeMap[e.inode]
  {
    hide DirOf, CStr, IsDirMode, IsRegMode, UseOk;
    assert SlotOk(nm, d, i, DirOf(s, d)[i]);
    if DirOf(s, d)[i].valid {
      assert ChildOk(s, nm, Key(d, CStr(DirOf(s, d)[i].name)));
    }
  }

  /** A directory that a walk finds is the root or has a name. */
  lemma {:induction false} WalkPlaced(s: Fs, sh: Shape, nm: Names, w: Walked, ts: seq<Name>)
    requires Named(s, sh, nm) && (w.Found? && w.isDir ==> Placed(nm, w.inum))
    ensures var r := Walk(nm.tree, w, ts);
            r.Found? && r.isDir ==> Placed(nm, r.inum)
    decreases |ts|
  {
    hide DirOf, CStr, IsDirMode, IsRegMode, GoodName, UseOk, EntryOk;
    if ts != [] {
      if w.Found? && w.isDir && Key(w.inum, ts[0]) in nm.tree {
        assert ChildOk(s, nm, Key(w.inum, ts[0]));
      }
      WalkPlaced(s, sh, nm, Step(nm.tree, w, ts[0]), ts[1..]);
    }
  }

  lemma LookupPlaced(s: Fs, sh: Shape, nm: Names, path: seq<byte>)
    requires Named(s, sh, nm)
    ensures var r := Lookup(nm.tree, path);
            r.Found? && r.isDir ==> Placed(nm, r.inum)
  {
    hide Named;
    WalkPlaced(s, sh, nm, Found(ROOT, true), Tokens(path));
  }

  /** No name stands below a regular file. */
  lemma FileHasNoNames(s: Fs, sh: Shape, nm: Names, n: nat)
    requires Named(s, sh, nm) && !IsDir(s, n)
    ensures NoNamesIn(nm, n)
  {
    hide DirOf, CStr, IsDirMode, GoodName, UseOk, ChildOk;
    forall key | key in nm.tree
      ensures key.dir != n
    {
      assert EntryOk(s, nm, key);
    }
  }

  // ------------------------------------------------- steps that keep names

  /** Directories and the use of inodes are the same in s and s'. */
  ghost predicate SameDirs(s: Fs, sh: Shape, s': Fs, sh': Shape) {
    && SameSizes(s, s') && s'.inodeMap == s.inodeMap && |sh.extent| == |sh'.extent| == |s.inodes|
    && (forall n | 0 <= n < |s.inodes| :: s'.inodes[n].mode == s.inodes[n].mode)
    && (forall n | 0 <= n < |s.inodes| && (IsDir(s, n) || (n < |s.inodeMap| && !s.inodeMap[n])) ::
          sh'.extent[n] == sh.extent[n])
    && (forall d | 0 <= d < |s.inodes| && IsDir(s, d) :: DirOf(s', d) == DirOf(s, d))
  }

  lemma SameDirsNamed(s: Fs, sh: Shape, s': Fs, sh': Shape, nm: Names)
    requires Named(s, sh, nm) && SameDirs(s, sh, s', sh')
    ensures Named(s', sh', nm)
  {
    hide DirOf, IsDirMode, IsRegMode, CStr, GoodName;
    assert forall n | 0 <= n < |s.inodes| :: IsDir(s', n) == IsDir(s, n);
    forall key | key in nm.tree
      ensures EntryOk(s', nm, key) && ChildOk(s', nm, key)
    {
      assert EntryOk(s, nm, key) && ChildOk(s, nm, key);
    }
  }

  lemma DirBlock(s: Fs, sh: Shape, d: nat)
    requires Geometry(s) && Owned(s, sh) && UseOk(s, sh) && IsDir(s, d)
    ensures var b := s.inodes[d].direct[0];
            && b == At(s, Data(d, 0)) && 0 < b && DataStart(s) <= b < |s.disk|
            && b in sh.owner && sh.owner[b] == Data(d, 0) && DirOf(s, d) == DecodeDir(s.disk[b])
  {
    hide Extents;
    SameGeometry(s, s);
    assert Present(sh, Data(d, 0));
  }

  lemma NamedUse(s: Fs, sh: Shape, nm: Names)
    requires Named(s, sh, nm)
    ensures UseOk(s, sh) && |nm.rank| == |s.inodes|
  {
  }

  /** Growing a live regular file leaves the directories alone. */
  lemma GrownNamed(s: Fs, sh: Shape, s': Fs, sh': Shape, n: nat, nm: Names)
    requires Geometry(s) && Owned(s, sh) && Named(s, sh, nm) && Grown(s, sh, s', sh', n)
    requires !IsDir(s, n) && s.inodeMap[n]
    ensures Named(s', sh', nm)
  {
    hide At, Geometry, Owned, Cost, Free, Named, DecodeDir, IsDirMode;
    NamedUse(s, sh, nm);
    forall d | 0 <= d < |s.inodes| && IsDir(s, d)
      ensures DirOf(s', d) == DirOf(s, d)
    {
      DirBlock(s, sh, d);
    }
    SameDirsNamed(s, sh, s', sh', nm);
  }
}
