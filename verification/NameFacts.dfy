/** What the updates of the name tree mean for every path, and that the names
    of a volume form a tree. */
module NameFacts {
  import opened Codec
  import opened Image
  import opened Paths
  import opened Namespace
  import opened DirSteps

  // ------------------------------------------------------------ a real tree

  /** An inode has at most one name, and the root has none. */
  lemma OneName(s: Fs, sh: Shape, nm: Names, k: Key, l: Key)
    requires Named(s, sh, nm) && k in nm.tree && l in nm.tree
    ensures nm.tree[k].inum == nm.tree[l].inum ==> k == l
    ensures nm.tree[k].inum != ROOT
    ensures nm.tree[k].inum < |s.inodes| <= |s.inodeMap| && s.inodeMap[nm.tree[k].inum]
  {
    hide DirOf, IsDirMode, IsRegMode, EntryOk;
    NamedUse(s, sh, nm);
    assert ChildOk(s, nm, k) && ChildOk(s, nm, l);
  }

  /** Two valid slots of a directory never carry the same name. */
  lemma DistinctNames(s: Fs, sh: Shape, nm: Names, d: nat, i: nat, j: nat)
    requires Named(s, sh, nm) && IsDir(s, d) && i < DIRENTS_PER_BLOCK && j < DIRENTS_PER_BLOCK
    requires d < |s.inodes| && DirOf(s, d)[i].valid && DirOf(s, d)[j].valid
    requires CStr(DirOf(s, d)[i].name) == CStr(DirOf(s, d)[j].name)
    ensures i == j
  {
    hide DirOf, CStr, IsDirMode, UseOk;
    assert SlotOk(nm, d, i, DirOf(s, d)[i]) && SlotOk(nm, d, j, DirOf(s, d)[j]);
  }

  /** Walking down never decreases the rank, and increases it at every step. */
  lemma {:induction false} WalkClimbs(s: Fs, sh: Shape, nm: Names, n: nat, isDir: bool, ts: seq<Name>)
    requires Named(s, sh, nm) && n < |s.inodes| && ts != []
    ensures |nm.rank| == |s.inodes|
    ensures var w := Walk(nm.tree, Found(n, isDir), ts);
            w.Found? ==> w.inum < |s.inodes| && nm.rank[w.inum] > nm.rank[n]
    decreases |ts|
  {
    hide DirOf, IsDirMode, IsRegMode, EntryOk, UseOk;
    var next := Step(nm.tree, Found(n, isDir), ts[0]);
    if next.Found? {
      assert ChildOk(s, nm, Key(n, ts[0]));
      if ts[1..] != [] {
        WalkClimbs(s, sh, nm, next.inum, next.isDir, ts[1..]);
      }
    } else {
      WalkStuck(nm.tree, next, ts[1..]);
    }
  }

  /** There are no cycles: no inode is reached from itself. */
  lemma NoCycles(s: Fs, sh: Shape, nm: Names, n: nat, isDir: bool, ts: seq<Name>)
    requires Named(s, sh, nm) && n < |s.inodes| && ts != []
    ensures var w := Walk(nm.tree, Found(n, isDir), ts);
            w.Found? ==> w.inum != n
  {
    WalkClimbs(s, sh, nm, n, isDir, ts);
  }

  /** An inode is reached from the root by one sequence of names only. */
  lemma {:induction false} OnePath(s: Fs, sh: Shape, nm: Names, ts: seq<Name>, us: seq<Name>)
    requires Named(s, sh, nm)
    requires var a, b := Walk(nm.tree, Found(ROOT, true), ts), Walk(nm.tree, Found(ROOT, true), us);
             a.Found? && b.Found? && a.inum == b.inum
    ensures ts == us
    decreases |ts|
  {
    hide Named, Walk;
    if ts == [] || us == [] {
      NamedUse(s, sh, nm);
      WalkEmpty(nm.tree, Found(ROOT, true));
      if ts != [] {
        WalkClimbs(s, sh, nm, ROOT, true, ts);
      }
      if us != [] {
        WalkClimbs(s, sh, nm, ROOT, true, us);
      }
    } else {
      var ts', t, us', u := ts[..|ts| - 1], ts[|ts| - 1], us[..|us| - 1], us[|us| - 1];
      assert ts == ts' + [t] && us == us' + [u];
      WalkSnoc(nm.tree, Found(ROOT, true), ts', t);
      WalkSnoc(nm.tree, Found(ROOT, true), us', u);
      var a, b := Walk(nm.tree, Found(ROOT, true), ts'), Walk(nm.tree, Found(ROOT, true), us');
      OneName(s, sh, nm, Key(a.inum, t), Key(b.inum, u));
      OnePath(s, sh, nm, ts', us');
    }
  }

  /** The root, and what some name stands for. */
  ghost predicate HasName(nm: Names, n: nat) {
    n == ROOT || exists key | key in nm.tree :: nm.tree[key].inum == n
  }

  ghost predicate Reachable(nm: Names, n: nat) {
    exists ts: seq<Name> :: Walk(nm.tree, Found(ROOT, true), ts).Found?
      && Walk(nm.tree, Found(ROOT, true), ts).inum == n
  }

  /** Names never hang in the air: every one is found from the root. */
  lemma {:induction false} PathTo(s: Fs, sh: Shape, nm: Names, key: Key) returns (ts: seq<Name>)
    requires Named(s, sh, nm) && key in nm.tree
    requires key.dir < |nm.rank|
    ensures Walk(nm.tree, Found(ROOT, true), ts) == Found(nm.tree[key].inum, nm.tree[key].isDir)
    decreases nm.rank[key.dir]
  {
    hide DirOf, IsDirMode, IsRegMode, EntryOk, UseOk, Walk;
    assert Placed(nm, key.dir);
    ts := [];
    WalkEmpty(nm.tree, Found(ROOT, true));
    if key.dir != ROOT {
      assert ChildOk(s, nm, nm.parent[key.dir]);
      ts := PathTo(s, sh, nm, nm.parent[key.dir]);
    }
    WalkSnoc(nm.tree, Found(ROOT, true), ts, key.name);
    ts := ts + [key.name];
  }

  /** What a walk finds has a name. */
  lemma {:induction false} FoundNamed(nm: Names, w: Walked, ts: seq<Name>)
    requires w.Found? && HasName(nm, w.inum)
    ensures var r := Walk(nm.tree, w, ts);
            r.Found? ==> HasName(nm, r.inum)
    decreases |ts|
  {
    if ts != [] {
      var next := Step(nm.tree, w, ts[0]);
      if next.Found? {
        FoundNamed(nm, next, ts[1..]);
      } else {
        WalkStuck(nm.tree, next, ts[1..]);
      }
    }
  }

  /** The names are one tree: an inode is found from the root exactly if it is the
      root or a name stands for it. */
  lemma ReachableIffNamed(s: Fs, sh: Shape, nm: Names, n: nat)
    requires Named(s, sh, nm)
    ensures Reachable(nm, n) <==> HasName(nm, n)
  {
    hide Named, Walk;
    WalkEmpty(nm.tree, Found(ROOT, true));
    if Reachable(nm, n) {
      var ts: seq<Name> :| Walk(nm.tree, Found(ROOT, true), ts).Found?
        && Walk(nm.tree, Found(ROOT, true), ts).inum == n;
      FoundNamed(nm, Found(ROOT, true), ts);
    }
    if n != ROOT && HasName(nm, n) {
      var key :| key in nm.tree && nm.tree[key].inum == n;
      ChildRank(s, sh, nm, key);
      var ts := PathTo(s, sh, nm, key);
    }
  }

  lemma WalkEmpty(tree: map<Key, Entry>, w: Walked)
    ensures Walk(tree, w, []) == w
  {
  }

  // ------------------------------------------- paths after an update

  /** The walk along ts asks the tree for one of the keys in K. */
  ghost predicate Asks(tree: map<Key, Entry>, w: Walked, ts: seq<Name>, K: set<Key>)
    decreases |ts|
  {
    ts != [] && w.Found? && w.isDir
    && (Key(w.inum, ts[0]) in K || Asks(tree, Step(tree, w, ts[0]), ts[1..], K))
  }

  ghost predicate SameBut(tree: map<Key, Entry>, tree': map<Key, Entry>, K: set<Key>) {
    forall k: Key | k !in K :: (k in tree <==> k in tree') && (k in tree ==> tree'[k] == tree[k])
  }

  /** Paths that do not touch an updated name resolve as before. */
  lemma {:induction false} UnrelatedPaths(tree: map<Key, Entry>, tree': map<Key, Entry>, K: set<Key>, w: Walked,
                                          ts: seq<Name>)
    requires SameBut(tree, tree', K) && !Asks(tree, w, ts, K)
    ensures Walk(tree', w, ts) == Walk(tree, w, ts)
    decreases |ts|
  {
    if ts != [] {
      if w.Found? && w.isDir {
        UnrelatedPaths(tree, tree', K, Step(tree, w, ts[0]), ts[1..]);
      } else {
        WalkStuck(tree, Step(tree, w, ts[0]), ts[1..]);
        WalkStuck(tree', Step(tree, w, ts[0]), ts[1..]);
      }
    }
  }

  /** A walk that leads into a directory does not ask for a name of that same
      directory on the way. */
  lemma {:induction false} WayDown(s: Fs, sh: Shape, nm: Names, w: Walked, ts: seq<Name>, d: nat, K: set<Key>)
    requires Named(s, sh, nm) && w.Found? && w.inum < |s.inodes|
    requires Walk(nm.tree, w, ts).Found? && Walk(nm.tree, w, ts).inum == d
    requires forall k | k in K :: k.dir == d
    ensures !Asks(nm.tree, w, ts, K)
    decreases |ts|
  {
    hide DirOf, IsDirMode, IsRegMode, EntryOk, UseOk;
    if ts != [] && w.isDir {
      WalkClimbs(s, sh, nm, w.inum, w.isDir, ts);
      if Key(w.inum, ts[0]) in nm.tree {
        assert ChildOk(s, nm, Key(w.inum, ts[0]));
        WayDown(s, sh, nm, Step(nm.tree, w, ts[0]), ts[1..], d, K);
      } else {
        WalkStuck(nm.tree, Missing, ts[1..]);
      }
    }
  }

  /** After an update of names of directory d, a clean path into d resolves to
      what the new tree holds for its last component. */
  lemma UpdatedPath(s: Fs, sh: Shape, nm: Names, tree': map<Key, Entry>, path: seq<byte>, d: nat, K: set<Key>)
    requires Named(s, sh, nm) && Clean(path) && Lookup(nm.tree, DirName(path)) == Found(d, true)
    requires SameBut(nm.tree, tree', K) && forall k | k in K :: k.dir == d
    ensures Lookup(tree', path) ==
            if Key(d, BaseName(path)) in tree'
            then Found(tree'[Key(d, BaseName(path))].inum, tree'[Key(d, BaseName(path))].isDir) else Missing
  {
    hide Named, Tokens, DirName, BaseName, LastSlash;
    NamedUse(s, sh, nm);
    WayDown(s, sh, nm, Found(ROOT, true), Tokens(DirName(path)), d, K);
    UnrelatedPaths(nm.tree, tree', K, Found(ROOT, true), Tokens(DirName(path)));
    LookupSplit(tree', path);
  }

  /** After mknod or mkdir the new path resolves to the new inode. */
  lemma AddedResolves(s: Fs, sh: Shape, nm: Names, path: seq<byte>, d: nat, slot: nat, c: nat, isDir: bool)
    requires Named(s, sh, nm) && Clean(path) && Lookup(nm.tree, DirName(path)) == Found(d, true)
    ensures Lookup(nm.tree[Key(d, BaseName(path)) := Entry(slot, c, isDir)], path) == Found(c, isDir)
  {
    hide Named, Lookup, DirName, BaseName;
    UpdatedPath(s, sh, nm, nm.tree[Key(d, BaseName(path)) := Entry(slot, c, isDir)], path, d, {Key(d, BaseName(path))});
  }

  /** Every path that resolved before mknod or mkdir resolves the same after. */
  lemma {:induction false} AddedKeeps(tree: map<Key, Entry>, key: Key, e: Entry, w: Walked, ts: seq<Name>)
    requires key !in tree && Walk(tree, w, ts).Found?
    ensures Walk(tree[key := e], w, ts) == Walk(tree, w, ts)
    decreases |ts|
  {
    if ts != [] {
      if Step(tree, w, ts[0]).Found? {
        AddedKeeps(tree, key, e, Step(tree, w, ts[0]), ts[1..]);
      } else {
        WalkStuck(tree, Step(tree, w, ts[0]), ts[1..]);
      }
    }
  }

  /** After unlink or rmdir the path is missing. */
  lemma DroppedIsMissing(s: Fs, sh: Shape, nm: Names, path: seq<byte>, d: nat)
    requires Named(s, sh, nm) && Clean(path) && Lookup(nm.tree, DirName(path)) == Found(d, true)
    ensures Lookup(DropName(nm, d, BaseName(path)).tree, path) == Missing
  {
    hide Named, Lookup, DirName, BaseName;
    UpdatedPath(s, sh, nm, DropName(nm, d, BaseName(path)).tree, path, d, {Key(d, BaseName(path))});
  }

  /** After rename the old path is missing and the new one leads to the inode;
      everything below it is found under the new path as it was under the old. */
  lemma MovedSubtree(s: Fs, sh: Shape, nm: Names, src: seq<byte>, dst: seq<byte>, d: nat, rest: seq<Name>)
    requires Named(s, sh, nm) && Clean(src) && Clean(dst) && DirName(src) == DirName(dst)
    requires Lookup(nm.tree, DirName(src)) == Found(d, true)
    requires Key(d, BaseName(src)) in nm.tree && Key(d, BaseName(dst)) !in nm.tree
    ensures var tree' := MoveName(nm, d, BaseName(src), BaseName(dst)).tree;
            && Lookup(tree', src) == Missing
            && Lookup(tree', dst) == Lookup(nm.tree, src)
            && Walk(tree', Lookup(tree', dst), rest) == Walk(nm.tree, Lookup(nm.tree, src), rest)
  {
    hide Named, Lookup, DirName, BaseName, Asks;
    var K := {Key(d, BaseName(src)), Key(d, BaseName(dst))};
    var tree' := MoveName(nm, d, BaseName(src), BaseName(dst)).tree;
    UpdatedPath(s, sh, nm, tree', src, d, K);
    UpdatedPath(s, sh, nm, tree', dst, d, K);
    LookupSplit(nm.tree, src);
    var e := nm.tree[Key(d, BaseName(src))];
    assert e.inum < |s.inodes| && |nm.rank| == |s.inodes| && nm.rank[d] < nm.rank[e.inum] by {
      ChildRank(s, sh, nm, Key(d, BaseName(src)));
    }
    NeverUp(s, sh, nm, Found(e.inum, e.isDir), rest, d, K);
    UnrelatedPaths(nm.tree, tree', K, Found(e.inum, e.isDir), rest);
  }

  lemma ChildRank(s: Fs, sh: Shape, nm: Names, key: Key)
    requires Named(s, sh, nm) && key in nm.tree
    ensures |nm.rank| == |s.inodes| && nm.tree[key].inum < |s.inodes| && key.dir < |nm.rank|
    ensures nm.rank[key.dir] < nm.rank[nm.tree[key].inum]
  {
    hide DirOf, IsDirMode, IsRegMode, EntryOk, UseOk;
    assert ChildOk(s, nm, key);
  }

  /** A walk that starts below directory d does not ask for names of d. */
  lemma {:induction false} NeverUp(s: Fs, sh: Shape, nm: Names, w: Walked, ts: seq<Name>, d: nat, K: set<Key>)
    requires Named(s, sh, nm) && w.Found? && w.inum < |s.inodes| == |nm.rank| && d < |nm.rank|
    requires nm.rank[d] < nm.rank[w.inum] && forall k | k in K :: k.dir == d
    ensures !Asks(nm.tree, w, ts, K)
    decreases |ts|
  {
    hide Named;
    if ts != [] && w.isDir {
      if Key(w.inum, ts[0]) in nm.tree {
        ChildRank(s, sh, nm, Key(w.inum, ts[0]));
        NeverUp(s, sh, nm, Step(nm.tree, w, ts[0]), ts[1..], d, K);
      }
    }
  }
}
