/** What operations and whole runs leave alone: files that they do not target,
    and paths whose names they do not change. */
module RunFacts {
  import opened Codec
  import opened Image
  import opened Forest
  import opened Paths
  import opened Namespace
  import opened Translation
  import opened FileWrite
  import opened FileTruncate
  import opened FileOps
  import opened DirSteps
  import opened Directory
  import opened Removal
  import opened FileFacts
  import opened NameFacts
  import opened Runs

  // -------------------------------------------- what one operation leaves alone

  /** Some name stands for the regular file n. */
  ghost predicate IsNamedFile(nm: Names, n: nat) {
    exists key :: key in nm.tree && nm.tree[key].inum == n && !nm.tree[key].isDir
  }

  /** The operation writes, truncates or unlinks file n, or makes a node under it. */
  ghost predicate Targets(nm: Names, op: Op, n: nat) {
    if op.OpMknod? then Lookup(nm.tree, DirName(op.path)) == Found(n, false)
    else (op.OpWrite? || op.OpTruncate? || op.OpUnlink?)
         && Lookup(nm.tree, op.path).Found? && Lookup(nm.tree, op.path).inum == n
  }

  /** The file is there as it was: name, inode and bytes. */
  ghost predicate FileKept(w: World, w': World, n: nat) {
    && IsNamedFile(w'.nm, n) && n < |w.s.inodes| == |w'.s.inodes|
    && w'.s.inodes[n] == w.s.inodes[n]
    && forall i: nat :: ByteAt(w'.s, n, i) == ByteAt(w.s, n, i)
  }

  lemma NamedFileFacts(w: World, n: nat)
    requires Sane(w) && IsNamedFile(w.nm, n)
    ensures n < |w.s.inodes| <= |w.s.inodeMap| && w.s.inodeMap[n] && !IsDir(w.s, n) && w.s.inodes[n].size >= 0
  {
    hide Geometry, Coherent, Compact, Present, At, DirOf, IsDirMode, IsRegMode, EntryOk;
    var key :| key in w.nm.tree && w.nm.tree[key].inum == n && !w.nm.tree[key].isDir;
    assert ChildOk(w.s, w.nm, key);
    RegNotDir(w.s.inodes[n].mode);
  }

  lemma AddedKeepsName(tree: map<Key, Entry>, key: Key, e: Entry, nm': Names, n: nat, nm: Names)
    requires nm.tree == tree && IsNamedFile(nm, n) && key !in tree && nm'.tree == tree[key := e]
    ensures IsNamedFile(nm', n)
  {
    var k :| k in nm.tree && nm.tree[k].inum == n && !nm.tree[k].isDir;
    assert k in nm'.tree && nm'.tree[k] == nm.tree[k];
  }

  lemma DroppedKeepsName(nm: Names, d: nat, name: Name, n: nat)
    requires IsNamedFile(nm, n)
    requires Key(d, name) in nm.tree ==> nm.tree[Key(d, name)].inum != n || nm.tree[Key(d, name)].isDir
    ensures IsNamedFile(DropName(nm, d, name), n)
  {
    var k :| k in nm.tree && nm.tree[k].inum == n && !nm.tree[k].isDir;
    assert k in DropName(nm, d, name).tree;
  }

  lemma MovedKeepsName(nm: Names, d: nat, src: Name, dst: Name, n: nat)
    requires IsNamedFile(nm, n) && Key(d, src) in nm.tree && Key(d, dst) !in nm.tree
    ensures IsNamedFile(MoveName(nm, d, src, dst), n)
  {
    var k :| k in nm.tree && nm.tree[k].inum == n && !nm.tree[k].isDir;
    var k' := if k == Key(d, src) then Key(d, dst) else k;
    assert k' in MoveName(nm, d, src, dst).tree && MoveName(nm, d, src, dst).tree[k'] == nm.tree[k];
  }

  /** A node made under directory d, which is not the file n. */
  lemma NodeKeepsFile(w: World, w': World, d: nat, name: Name, isDir: bool, ino: Inode, n: nat)
    requires Sane(w) && Sane(w') && IsNamedFile(w.nm, n) && NodeMade(w.s, w.nm, w'.s, w'.nm, d, name, isDir, ino)
    requires name != [] && Key(d, name) !in w.nm.tree
    ensures FileKept(w, w', n)
  {
    hide Geometry, Owned, Coherent, ByteAt, DirOf, Lookup, DirName, BaseName, FirstInvalid, IsNamedFile, Named, Sane;
    hide IsDirMode, NewEntry;
    NamedFileFacts(w, n);
    var key := Key(d, name);
    assert n != FirstClear(w.s.inodeMap, 2);
    assert IsDir(w'.s, d) by { SaneEntry(w', key); }
    AddedKeepsName(w.nm.tree, key, w'.nm.tree[key], w'.nm, n, w.nm);
  }

  /** A node under another file. */
  lemma LostKeepsFile(w: World, w': World, d: nat, name: Name, ino: Inode, n: nat)
    requires Sane(w) && IsNamedFile(w.nm, n) && w'.nm == w.nm && NodeLost(w.s, w'.s, d, name, ino) && d != n
    ensures FileKept(w, w', n)
  {
    hide Geometry, Owned, Coherent, ByteAt, DirOf, FirstInvalid, IsNamedFile, Named, Sane, IsDirMode, DirentByte;
    hide NewEntry;
    NamedFileFacts(w, n);
    assert n != FirstClear(w.s.inodeMap, 2);
  }

  /** The name that a node is to get in a directory is not there. */
  lemma FreshName(nm: Names, path: seq<byte>)
    requires Clean(path) && !Lookup(nm.tree, path).Found?
    ensures var p := Lookup(nm.tree, DirName(path));
            BaseName(path) != [] && (p.Found? && p.isDir ==> Key(p.inum, BaseName(path)) !in nm.tree)
  {
    hide Lookup, Tokens, DirName, BaseName;
    PathSplit(path);
    LookupSplit(nm.tree, path);
  }

  lemma SaneEntry(w: World, key: Key)
    requires Sane(w) && key in w.nm.tree
    ensures IsDir(w.s, key.dir)
  {
    hide Geometry, Owned, Coherent, Named, IsDirMode;
    EntrySlot(w.s, w.sh, w.nm, key);
  }

  lemma WriteKeepsFile(w: World, op: Op, ret: int, w': World, n: nat)
    requires Sane(w) && Sane(w') && IsNamedFile(w.nm, n) && !Targets(w.nm, op, n)
    requires (op.OpWrite? || op.OpTruncate?) && Did(w, op, ret, w')
    ensures FileKept(w, w', n)
  {
    hide Geometry, Owned, Coherent, Named, ByteAt, Lookup, Grown, Spliced, FilledBy, Free, Cost, Reached, IsNamedFile;
    hide DataAgree;
    NamedFileFacts(w, n);
    if w' != w {
      var t := Lookup(w.nm.tree, op.path).inum;
      if op.OpWrite? {
        OthersGrown(w, w', t, n);
      } else {
        TruncatedBytes(w.s, w.sh, w'.s, w'.sh, t);
      }
    }
  }

  lemma OthersGrown(w: World, w': World, t: nat, n: nat)
    requires Sane(w) && Sane(w') && Grown(w.s, w.sh, w'.s, w'.sh, t) && n != t && n < |w.s.inodes|
    ensures |w'.s.inodes| == |w.s.inodes| && w'.s.inodes[n] == w.s.inodes[n]
    ensures forall i: nat :: ByteAt(w'.s, n, i) == ByteAt(w.s, n, i)
  {
    hide Geometry, Owned, Coherent, Named, ByteAt, Free, Cost;
    forall i: nat
      ensures ByteAt(w'.s, n, i) == ByteAt(w.s, n, i)
    {
      GrownKeepsByte(w.s, w.sh, w'.s, w'.sh, t, n, i);
    }
  }

  /** The directory a clean path's name is in is no file, and the name's inode is
      the path's. */
  lemma CleanEntry(w: World, path: seq<byte>)
    requires Sane(w) && Clean(path) && Lookup(w.nm.tree, path).Found?
    ensures var d, t := Lookup(w.nm.tree, DirName(path)), Lookup(w.nm.tree, path);
            && d.Found? && IsDir(w.s, d.inum) && Key(d.inum, BaseName(path)) in w.nm.tree
            && w.nm.tree[Key(d.inum, BaseName(path))].inum == t.inum
            && w.nm.tree[Key(d.inum, BaseName(path))].isDir == t.isDir
  {
    hide Geometry, Owned, Coherent, Named, IsDirMode, Lookup, DirName, BaseName, Tokens;
    LookupSplit(w.nm.tree, path);
    SaneEntry(w, Key(Lookup(w.nm.tree, DirName(path)).inum, BaseName(path)));
  }

  lemma UnlinkKeepsFile(w: World, op: Op, ret: int, w': World, n: nat)
    requires Sane(w) && Sane(w') && IsNamedFile(w.nm, n) && !Targets(w.nm, op, n)
    requires op.OpUnlink? && Legal(w.s, w.nm, op) && Did(w, op, ret, w')
    ensures FileKept(w, w', n)
  {
    hide ByteAt, Lookup, Reached, IsNamedFile, DropName, DirName, BaseName, Clean, Sane, IsDirMode, HasParent, Stripped;
    NamedFileFacts(w, n);
    if w' != w {
      UnslashedPath(op.path);
      HasParentFacts(op.path);
      CleanEntry(w, op.path);
      DroppedKeepsName(w.nm, Lookup(w.nm.tree, DirName(op.path)).inum, BaseName(op.path), n);
    }
  }

  lemma StrippedEntry(w: World, path: seq<byte>)
    requires Sane(w) && HasParent(path) && Lookup(w.nm.tree, path).Found?
    ensures var d, t := Lookup(w.nm.tree, DirName(Stripped(path))), Lookup(w.nm.tree, path);
            && d.Found? && IsDir(w.s, d.inum) && Key(d.inum, BaseName(Stripped(path))) in w.nm.tree
            && w.nm.tree[Key(d.inum, BaseName(Stripped(path)))].inum == t.inum
            && w.nm.tree[Key(d.inum, BaseName(Stripped(path)))].isDir == t.isDir
  {
    hide Sane, Lookup, DirName, BaseName, IsDirMode, HasParent;
    LookupStripped(w.nm.tree, path);
    CleanEntry(w, Stripped(path));
  }

  lemma RmdirKeepsFile(w: World, op: Op, ret: int, w': World, n: nat)
    requires Sane(w) && Sane(w') && IsNamedFile(w.nm, n)
    requires op.OpRmdir? && Legal(w.s, w.nm, op) && Did(w, op, ret, w')
    ensures FileKept(w, w', n)
  {
    hide ByteAt, Lookup, IsNamedFile, DropName, DirName, BaseName, StripOne, Sane, NoNamesIn, IsDirMode, HasParent;
    hide Stripped, TrailingSlash;
    NamedFileFacts(w, n);
    if w' != w {
      StrippedEntry(w, op.path);
      StripOneParent(op.path);
      if !TrailingSlash(StripOne(op.path)) {
        DroppedKeepsName(w.nm, Lookup(w.nm.tree, DirName(Stripped(op.path))).inum, BaseName(StripOne(op.path)), n);
      }
    }
  }

  lemma RenameKeepsFile(w: World, op: Op, ret: int, w': World, n: nat)
    requires Sane(w) && Sane(w') && IsNamedFile(w.nm, n)
    requires op.OpRename? && Legal(w.s, w.nm, op) && Did(w, op, ret, w')
    ensures FileKept(w, w', n)
  {
    hide ByteAt, Lookup, IsNamedFile, MoveName, DirName, BaseName, Clean, ShortName, Sane, IsDirMode, HasParent;
    hide Stripped, SlotRenamed;
    NamedFileFacts(w, n);
    if w' != w {
      RenamePaths(w, op, ret, w');
      MovedKeepsName(w.nm, Lookup(w.nm.tree, DirName(op.path)).inum, BaseName(op.path), BaseName(op.dst), n);
    }
  }

  /** What is known of the paths of a rename that does something. */
  lemma RenamePaths(w: World, op: Op, ret: int, w': World)
    requires Sane(w) && op.OpRename? && Legal(w.s, w.nm, op) && Did(w, op, ret, w') && ret == 0
             && !TrailingSlash(op.path)
    ensures Clean(op.path) && Clean(op.dst) && DirName(op.path) == DirName(op.dst)
    ensures var d := Lookup(w.nm.tree, DirName(op.path));
            && d.Found? && d.isDir && IsDir(w.s, d.inum)
            && Key(d.inum, BaseName(op.path)) in w.nm.tree && Key(d.inum, BaseName(op.dst)) !in w.nm.tree
            && w'.nm == MoveName(w.nm, d.inum, BaseName(op.path), BaseName(op.dst))
  {
    hide ByteAt, Lookup, MoveName, DirName, BaseName, ShortName, Sane, IsDirMode, SlotRenamed, HasParent, Clean;
    hide Stripped;
    UnslashedPath(op.path);
    UnslashedPath(op.dst);
    HasParentFacts(op.path);
    HasParentFacts(op.dst);
    CleanEntry(w, op.path);
    LookupSplit(w.nm.tree, op.path);
    LookupSplit(w.nm.tree, op.dst);
  }

  lemma MknodKeepsFile(w: World, op: Op, ret: int, w': World, n: nat)
    requires Sane(w) && Sane(w') && IsNamedFile(w.nm, n) && !Targets(w.nm, op, n)
    requires op.OpMknod? && Legal(w.s, w.nm, op) && Did(w, op, ret, w')
    ensures FileKept(w, w', n)
  {
    hide ByteAt, Lookup, IsNamedFile, Sane, DirOf, FirstInvalid, FirstClear, DirName, BaseName, NodeMade, NodeLost;
    hide IsRegMode;
    hide Clean, ShortName, RegionCovers, Stripped, LastSlash, HasParent, TrailingSlash;
    NamedFileFacts(w, n);
    KeptStart(w, n);
    if ret == 0 {
      var ino := NewInode(op.uid, op.gid, op.mode, op.now);
      var p := Lookup(w.nm.tree, DirName(op.path));
      UnslashedPath(op.path);
      FreshName(w.nm, op.path);
      if p.isDir {
        NodeKeepsFile(w, w', p.inum, BaseName(op.path), false, ino, n);
      } else {
        LostKeepsFile(w, w', p.inum, BaseName(op.path), ino, n);
      }
    }
  }

  lemma MkdirKeepsFile(w: World, op: Op, ret: int, w': World, n: nat)
    requires Sane(w) && Sane(w') && IsNamedFile(w.nm, n)
    requires op.OpMkdir? && Legal(w.s, w.nm, op) && Did(w, op, ret, w')
    ensures FileKept(w, w', n)
  {
    hide ByteAt, Lookup, IsNamedFile, Sane, DirOf, FirstInvalid, FirstClear, DirName, BaseName, NodeMade, IsDirMode;
    hide OrDir;
    hide Clean, ShortName, RegionCovers, Stripped, LastSlash, Free, HasParent, TrailingSlash;
    NamedFileFacts(w, n);
    KeptStart(w, n);
    if ret == 0 {
      var b :| DirMade(w.s, w.nm, w'.s, w'.nm, op.path, op.uid, op.gid, op.mode, op.now, b);
      UnslashedPath(op.path);
      FreshName(w.nm, op.path);
      NodeKeepsFile(w, w', Lookup(w.nm.tree, DirName(op.path)).inum, BaseName(op.path), true,
                    DirInodeOver(op.uid, op.gid, OrDir(op.mode), op.now, b), n);
    }
  }

  /** No operation changes a file that it does not target. */
  lemma StepKeepsFile(w: World, op: Op, ret: int, w': World, n: nat)
    requires Sane(w) && Sane(w') && IsNamedFile(w.nm, n) && !Targets(w.nm, op, n)
    requires Legal(w.s, w.nm, op) && Did(w, op, ret, w')
    ensures FileKept(w, w', n)
  {
    hide FileKept, IsNamedFile, Sane, Legal, Targets;
    if op.OpGetattr? {
      KeptStart(w, n);
    }
    hide Did;
    match op
    case OpMknod(_, _, _, _, _) => MknodKeepsFile(w, op, ret, w', n);
    case OpMkdir(_, _, _, _, _) => MkdirKeepsFile(w, op, ret, w', n);
    case OpWrite(_, _, _) => WriteKeepsFile(w, op, ret, w', n);
    case OpTruncate(_, _) => WriteKeepsFile(w, op, ret, w', n);
    case OpUnlink(_) => UnlinkKeepsFile(w, op, ret, w', n);
    case OpRmdir(_) => RmdirKeepsFile(w, op, ret, w', n);
    case OpRename(_, _) => RenameKeepsFile(w, op, ret, w', n);
    case OpGetattr(_) =>
  }

  lemma KeptStart(w: World, n: nat)
    requires Sane(w) && IsNamedFile(w.nm, n)
    ensures FileKept(w, w, n)
  {
    hide ByteAt, IsNamedFile, Sane;
    NamedFileFacts(w, n);
  }

  // ------------------------------------------------------- which paths resolve

  /** The names that an operation adds, removes or moves. */
  ghost function Changed(nm: Names, op: Op): set<Key> {
    if op.OpMknod? || op.OpMkdir? || op.OpUnlink? then NameOf(nm, op.path)
    else if op.OpRmdir? then NameOf(nm, StripOne(op.path))
    else if op.OpRename? then NameOf(nm, op.path) + NameOf(nm, op.dst)
    else {}
  }

  ghost function NameOf(nm: Names, path: seq<byte>): set<Key> {
    var d := Lookup(nm.tree, DirName(path));
    if d.Found? then {Key(d.inum, BaseName(path))} else {}
  }

  /** Resolving the path asks for a name that the operation changes; adding a name
      does not disturb a path that leads somewhere. */
  ghost predicate Disturbs(nm: Names, op: Op, path: seq<byte>) {
    Asks(nm.tree, Found(ROOT, true), Tokens(path), Changed(nm, op))
    && (op.OpMknod? || op.OpMkdir? ==> !Lookup(nm.tree, path).Found?)
  }

  ghost predicate AddedTo(tree: map<Key, Entry>, tree': map<Key, Entry>, key: Key, e: Entry) {
    key !in tree && tree' == tree[key := e]
  }

  /** An operation changes the tree of names at those names only, and one that
      adds a name adds one that was not there. */
  lemma StepChanges(w: World, op: Op, ret: int, w': World)
    requires Sane(w) && Sane(w') && Legal(w.s, w.nm, op) && Did(w, op, ret, w')
    ensures SameBut(w.nm.tree, w'.nm.tree, Changed(w.nm, op))
    ensures op.OpMknod? || op.OpMkdir? ==>
              w'.nm.tree == w.nm.tree
              || exists key, e :: AddedTo(w.nm.tree, w'.nm.tree, key, e)
  {
    hide ByteAt, Lookup, Sane, DirOf, FirstInvalid, FirstClear, DirName, BaseName, IsRegMode, IsDirMode, OrDir, Clean;
    hide ShortName;
    hide Stripped, HasParent, StripOne, SlotRenamed, Truncated, Wrote, Unlinked, OthersKept, NodeLost, Free;
    hide LastSlash, TrailingSlash;
    match op
    case OpMknod(path, _, _, _, _) =>
      if ret == 0 {
        UnslashedPath(path);
        FreshName(w.nm, path);
        var p := Lookup(w.nm.tree, DirName(path));
        if p.isDir {
          var key := Key(p.inum, BaseName(path));
          assert AddedTo(w.nm.tree, w'.nm.tree, key, w'.nm.tree[key]);
        }
      }
    case OpMkdir(path, mode, uid, gid, now) =>
      if ret == 0 {
        var b :| DirMade(w.s, w.nm, w'.s, w'.nm, path, uid, gid, mode, now, b);
        UnslashedPath(path);
        FreshName(w.nm, path);
        var key := Key(Lookup(w.nm.tree, DirName(path)).inum, BaseName(path));
        assert AddedTo(w.nm.tree, w'.nm.tree, key, w'.nm.tree[key]);
      }
    case OpRmdir(path) =>
      if ret == 0 {
        StripOneStripped(path);
      }
    case OpRename(_, _) =>
      if w' != w {
        RenamePaths(w, op, ret, w');
      }
    case _ =>
  }

  lemma StripOneStripped(path: seq<byte>)
    requires HasParent(path)
    ensures !TrailingSlash(StripOne(path)) ==> StripOne(path) == Stripped(path)
  {
    hide Tokens;
    StripOneParent(path);
    StripOneSame(path);
    NameOfSlashed(StripOne(path));
  }

  /** A path that an operation does not disturb leads where it led before, be it
      to an inode or to an error. */
  lemma StepKeepsPath(w: World, op: Op, ret: int, w': World, path: seq<byte>)
    requires Sane(w) && Sane(w') && Legal(w.s, w.nm, op) && Did(w, op, ret, w') && !Disturbs(w.nm, op, path)
    ensures Lookup(w'.nm.tree, path) == Lookup(w.nm.tree, path)
  {
    hide Sane, Legal, Did, Changed, Asks, SameBut, Tokens, Walk;
    StepChanges(w, op, ret, w');
    if Asks(w.nm.tree, Found(ROOT, true), Tokens(path), Changed(w.nm, op)) {
      if w'.nm.tree != w.nm.tree {
        var key, e :| AddedTo(w.nm.tree, w'.nm.tree, key, e);
        AddedKeeps(w.nm.tree, key, e, Found(ROOT, true), Tokens(path));
      }
    } else {
      UnrelatedPaths(w.nm.tree, w'.nm.tree, Changed(w.nm, op), Found(ROOT, true), Tokens(path));
    }
  }

  lemma MknodResolves(w: World, op: Op, w': World)
    requires Sane(w) && op.OpMknod? && Legal(w.s, w.nm, op) && Did(w, op, 0, w')
    ensures Lookup(w'.nm.tree, op.path)
            == if Lookup(w.nm.tree, DirName(op.path)).isDir then Found(FirstClear(w.s.inodeMap, 2), false) else NotDir
  {
    hide ByteAt, Lookup, Named, DirOf, FirstInvalid, FirstClear, DirName, BaseName, IsRegMode, Clean, ShortName;
    hide Stripped, OthersKept;
    hide NodeLost, RegionCovers, LastSlash, Tokens, HasParent, TrailingSlash, NewEntry;
    UnslashedPath(op.path);
    FreshName(w.nm, op.path);
    var p := Lookup(w.nm.tree, DirName(op.path));
    if p.isDir {
      AddedResolves(w.s, w.sh, w.nm, op.path, p.inum, FirstInvalid(DirOf(w.s, p.inum), 0),
                    FirstClear(w.s.inodeMap, 2), false);
    } else {
      LookupSplit(w.nm.tree, op.path);
    }
  }

  lemma MkdirResolves(w: World, op: Op, w': World)
    requires Sane(w) && op.OpMkdir? && Legal(w.s, w.nm, op) && Did(w, op, 0, w')
    ensures Lookup(w'.nm.tree, op.path) == Found(FirstClear(w.s.inodeMap, 2), true)
  {
    hide ByteAt, Lookup, Named, DirOf, FirstInvalid, FirstClear, DirName, BaseName, IsDirMode, OrDir, Clean;
    hide ShortName, Stripped, OthersKept;
    hide RegionCovers, LastSlash, Tokens, Free, HasParent, TrailingSlash, NewEntry;
    var b :| DirMade(w.s, w.nm, w'.s, w'.nm, op.path, op.uid, op.gid, op.mode, op.now, b);
    UnslashedPath(op.path);
    FreshName(w.nm, op.path);
    var p := Lookup(w.nm.tree, DirName(op.path));
    AddedResolves(w.s, w.sh, w.nm, op.path, p.inum, FirstInvalid(DirOf(w.s, p.inum), 0),
                  FirstClear(w.s.inodeMap, 2), true);
  }

  lemma UnlinkResolves(w: World, op: Op, w': World)
    requires Sane(w) && op.OpUnlink? && Legal(w.s, w.nm, op) && Did(w, op, 0, w')
    ensures Lookup(w'.nm.tree, op.path) == Missing
  {
    hide Lookup, Named, DirName, BaseName, Clean, HasParent, Stripped, Unlinked, DropName, TrailingSlash, Tokens;
    UnslashedPath(op.path);
    HasParentFacts(op.path);
    LookupSplit(w.nm.tree, op.path);
    DroppedIsMissing(w.s, w.sh, w.nm, op.path, Lookup(w.nm.tree, DirName(op.path)).inum);
  }

  lemma RmdirResolves(w: World, op: Op, w': World)
    requires Sane(w) && op.OpRmdir? && Legal(w.s, w.nm, op) && Did(w, op, 0, w')
    ensures !TrailingSlash(StripOne(op.path)) ==> Lookup(w'.nm.tree, op.path) == Missing
  {
    hide Lookup, Named, DirName, BaseName, HasParent, Stripped, DropName, TrailingSlash, Tokens, StripOne, ByteAt;
    hide NoNamesIn, Clean;
    if !TrailingSlash(StripOne(op.path)) {
      var p := StripOne(op.path);
      StripOneStripped(op.path);
      HasParentFacts(op.path);
      LookupStripOne(w'.nm.tree, op.path);
      LookupStripOne(w.nm.tree, op.path);
      LookupSplit(w.nm.tree, p);
      DroppedIsMissing(w.s, w.sh, w.nm, p, Lookup(w.nm.tree, DirName(p)).inum);
    }
  }

  lemma LookupStripOne(tree: map<Key, Entry>, path: seq<byte>)
    ensures Lookup(tree, StripOne(path)) == Lookup(tree, path)
  {
    StripOneSame(path);
  }

  lemma RenameResolves(w: World, op: Op, w': World)
    requires Sane(w) && Sane(w') && op.OpRename? && Legal(w.s, w.nm, op) && Did(w, op, 0, w') && !TrailingSlash(op.path)
    ensures Lookup(w'.nm.tree, op.path) == Missing
    ensures forall rest: seq<Name> ::
              Walk(w'.nm.tree, Lookup(w'.nm.tree, op.dst), rest) == Walk(w.nm.tree, Lookup(w.nm.tree, op.path), rest)
  {
    hide Lookup, Walk, DirName, BaseName, MoveName, Tokens, Sane, Legal, Did, Clean;
    RenamePaths(w, op, 0, w');
    MovedAll(w, op.path, op.dst, Lookup(w.nm.tree, DirName(op.path)).inum, w'.nm);
  }

  lemma MovedAll(w: World, src: seq<byte>, dst: seq<byte>, d: nat, nm': Names)
    requires Sane(w) && Clean(src) && Clean(dst) && DirName(src) == DirName(dst)
    requires Lookup(w.nm.tree, DirName(src)) == Found(d, true)
    requires Key(d, BaseName(src)) in w.nm.tree && Key(d, BaseName(dst)) !in w.nm.tree
    requires nm' == MoveName(w.nm, d, BaseName(src), BaseName(dst))
    ensures Lookup(nm'.tree, src) == Missing
    ensures forall rest: seq<Name> ::
              Walk(nm'.tree, Lookup(nm'.tree, dst), rest) == Walk(w.nm.tree, Lookup(w.nm.tree, src), rest)
  {
    hide Lookup, Walk, DirName, BaseName, MoveName, Named, Clean, Geometry, Owned, Coherent;
    MovedSubtree(w.s, w.sh, w.nm, src, dst, d, []);
    forall rest: seq<Name>
      ensures Walk(nm'.tree, Lookup(nm'.tree, dst), rest) == Walk(w.nm.tree, Lookup(w.nm.tree, src), rest)
    {
      MovedSubtree(w.s, w.sh, w.nm, src, dst, d, rest);
    }
  }

  /** What a successful operation does to the paths it was given: a new path leads
      to the new inode, a removed one is missing, and all that was found below a
      renamed path is found below its new one. */
  lemma StepResolves(w: World, op: Op, w': World)
    requires Sane(w) && Sane(w') && Legal(w.s, w.nm, op) && Did(w, op, 0, w')
    ensures op.OpMknod? ==>
              Lookup(w'.nm.tree, op.path)
              == if Lookup(w.nm.tree, DirName(op.path)).isDir then Found(FirstClear(w.s.inodeMap, 2), false) else NotDir
    ensures op.OpMkdir? ==> Lookup(w'.nm.tree, op.path) == Found(FirstClear(w.s.inodeMap, 2), true)
    ensures op.OpUnlink? || (op.OpRmdir? && !TrailingSlash(StripOne(op.path))) ==>
              Lookup(w'.nm.tree, op.path) == Missing
    ensures op.OpRename? && !TrailingSlash(op.path) ==>
              && Lookup(w'.nm.tree, op.path) == Missing
              && forall rest: seq<Name> ::
                   Walk(w'.nm.tree, Lookup(w'.nm.tree, op.dst), rest)
                     == Walk(w.nm.tree, Lookup(w.nm.tree, op.path), rest)
  {
    hide Sane, Lookup, Walk, DirName, BaseName;
    match op
    case OpMknod(_, _, _, _, _) => MknodResolves(w, op, w');
    case OpMkdir(_, _, _, _, _) => MkdirResolves(w, op, w');
    case OpUnlink(_) => UnlinkResolves(w, op, w');
    case OpRmdir(_) => RmdirResolves(w, op, w');
    case OpRename(_, _) =>
      if !TrailingSlash(op.path) {
        RenameResolves(w, op, w');
      }
    case _ =>
  }

  // ---------------------------------------------------------------- whole runs

  lemma KeptTwice(w: World, w1: World, w2: World, n: nat)
    requires FileKept(w, w1, n) && FileKept(w1, w2, n)
    ensures FileKept(w, w2, n)
  {
    hide ByteAt, IsNamedFile;
  }

  /** Over a whole run, a file that no operation writes, truncates or unlinks
      keeps its inode and every byte, whatever happens around it. */
  lemma {:induction false} RunKeepsFile(ops: seq<Op>, ws: seq<World>, rets: seq<int>, n: nat, k: nat)
    requires IsRun(ops, ws, rets) && k <= |ops| && IsNamedFile(ws[0].nm, n)
    requires forall i | 0 <= i < k :: !Targets(ws[i].nm, ops[i], n)
    ensures FileKept(ws[0], ws[k], n)
    decreases k
  {
    hide Sane, Legal, Did, FileKept, IsNamedFile, Targets;
    if k == 0 {
      KeptStart(ws[0], n);
    } else {
      RunKeepsFile(ops, ws, rets, n, k - 1);
      KeptNamed(ws[0], ws[k - 1], n);
      assert StepAt(ops, ws, rets, k - 1);
      if Legal(ws[k - 1].s, ws[k - 1].nm, ops[k - 1]) {
        StepKeepsFile(ws[k - 1], ops[k - 1], rets[k - 1], ws[k], n);
        KeptTwice(ws[0], ws[k - 1], ws[k], n);
      }
    }
  }

  /** Over a whole run, a path that no operation disturbs leads where it led. */
  lemma {:induction false} RunKeepsPath(ops: seq<Op>, ws: seq<World>, rets: seq<int>, path: seq<byte>, k: nat)
    requires IsRun(ops, ws, rets) && k <= |ops|
    requires forall i | 0 <= i < k :: !Disturbs(ws[i].nm, ops[i], path)
    ensures Lookup(ws[k].nm.tree, path) == Lookup(ws[0].nm.tree, path)
    decreases k
  {
    hide Sane, Legal, Did, Lookup, Disturbs;
    if k > 0 {
      RunKeepsPath(ops, ws, rets, path, k - 1);
      assert StepAt(ops, ws, rets, k - 1);
      if Legal(ws[k - 1].s, ws[k - 1].nm, ops[k - 1]) {
        StepKeepsPath(ws[k - 1], ops[k - 1], rets[k - 1], ws[k], path);
      }
    }
  }

  /** A path to a file, neither disturbed nor targeted, is worth the same at the
      end of a run: it leads to the same inode with the same content. */
  lemma RunKeepsPathAndFile(ops: seq<Op>, ws: seq<World>, rets: seq<int>, path: seq<byte>, k: nat)
    requires IsRun(ops, ws, rets) && k <= |ops| && IsFile(ws[0].nm, path)
    requires forall i | 0 <= i < k ::
               !Disturbs(ws[i].nm, ops[i], path) && !Targets(ws[i].nm, ops[i], Lookup(ws[0].nm.tree, path).inum)
    ensures Lookup(ws[k].nm.tree, path) == Lookup(ws[0].nm.tree, path)
    ensures FileKept(ws[0], ws[k], Lookup(ws[0].nm.tree, path).inum)
  {
    hide Sane, Legal, Did, Lookup, Disturbs, FileKept, IsNamedFile, Targets;
    FileHasName(ws[0], path);
    RunKeepsPath(ops, ws, rets, path, k);
    RunKeepsFile(ops, ws, rets, Lookup(ws[0].nm.tree, path).inum, k);
  }

  /** A path to a file ends at some name of the tree. */
  lemma FileHasName(w: World, path: seq<byte>)
    requires IsFile(w.nm, path)
    ensures IsNamedFile(w.nm, Lookup(w.nm.tree, path).inum)
  {
    hide Tokens, Walk;
    var ts := Tokens(path);
    WalkEmpty(w.nm.tree, Found(ROOT, true));
    var us, u := ts[..|ts| - 1], ts[|ts| - 1];
    assert ts == us + [u];
    WalkSnoc(w.nm.tree, Found(ROOT, true), us, u);
    var d := Walk(w.nm.tree, Found(ROOT, true), us);
    assert Key(d.inum, u) in w.nm.tree;
  }

  lemma KeptNamed(w: World, w': World, n: nat)
    requires FileKept(w, w', n)
    ensures IsNamedFile(w'.nm, n)
  {
  }

  // ------------------------------------------------------- what a run makes

  /** The inode that a successful mknod or mkdir makes: its owner, type,
      permissions and times, and that it is empty. */
  lemma StepMakes(w: World, op: Op, w': World)
    requires (op.OpMknod? || op.OpMkdir?) && Did(w, op, 0, w')
    ensures var c := FirstClear(w.s.inodeMap, 2);
            && c < |w'.s.inodes| && c < |w'.s.inodeMap| && w'.s.inodeMap[c]
            && var ino := w'.s.inodes[c];
            && ino.uid == op.uid && ino.gid == op.gid && ino.ctime == op.now && ino.mtime == op.now && ino.size == 0
            && ino.mode % 0x1000 == op.mode % 0x1000 && ino.mode / 0x1_0000 == op.mode / 0x1_0000
            && (ino.mode / 0x1000) % 0x10 == (if op.OpMknod? then 8 else 4)
            && (forall i | 1 <= i < N_DIRECT :: ino.direct[i] == 0) && ino.indir1 == 0 && ino.indir2 == 0
            && (op.OpMknod? ==> ino.direct[0] == 0)
  {
    hide ByteAt, Lookup, DirOf, NewEntry, FirstInvalid, OthersKept, FirstClear, BaseName, DirName, Stripped, MakeCode;
    hide DirCheckCode, OrDir, DirInodeOver, Free;
    if op.OpMkdir? {
      var b: u32 :| DirMade(w.s, w.nm, w'.s, w'.nm, op.path, op.uid, op.gid, op.mode, op.now, b);
      DirInodeFields(op.uid, op.gid, op.mode, op.now, b);
    }
  }

  // ------------------------------------------------------- what a run skips

  /** The parent directory or file of a new node, if mknod or mkdir gets as far as
      making one. */
  ghost predicate GetsThrough(s: Fs, nm: Names, path: seq<byte>) {
    var p := Lookup(nm.tree, DirName(Stripped(path)));
    && SLASH in Stripped(path) && p.Found? && !Lookup(nm.tree, path).Found?
    && p.inum < |s.inodes| && exists i :: 0 <= i < DIRENTS_PER_BLOCK && !DirOf(s, p.inum)[i].valid
  }

  /** A run skips a mknod exactly if it would make a node and its path has a NUL,
      its name is too long or empty, the first free bit names no inode of the
      region, or the parent has no block. */
  lemma SkippedMknod(s: Fs, sh: Shape, nm: Names, op: Op)
    requires Named(s, sh, nm) && op.OpMknod?
    ensures !Legal(s, nm, op) <==>
            && (op.mode / 0x1000) % 0x10 == 8 && GetsThrough(s, nm, op.path)
            && FirstClear(s.inodeMap, 2) < |s.inodeMap|
            && (0 in op.path || |BaseName(op.path)| >= 28 || op.path[|op.path| - 1] == SLASH
                || FirstClear(s.inodeMap, 2) >= |s.inodes|
                || s.inodes[Lookup(nm.tree, DirName(Stripped(op.path))).inum].direct[0] == 0)
  {
    hide Named, Lookup, DirOf, DirName, BaseName, Stripped, FirstInvalid, FirstClear, LastSlash;
    NewParent(s, sh, nm, op.path);
  }

  lemma NewParent(s: Fs, sh: Shape, nm: Names, path: seq<byte>)
    requires Named(s, sh, nm)
    ensures SLASH in Stripped(path) <==> LastSlash(Stripped(path)) >= 0
    ensures SLASH in Stripped(path) ==> path != []
    ensures var p := Lookup(nm.tree, DirName(Stripped(path)));
            p.Found? ==> p.inum < |s.inodes| && (p.isDir <==> IsDir(s, p.inum))
                         && (FirstInvalid(DirOf(s, p.inum), 0) >= DIRENTS_PER_BLOCK <==>
                             forall i | 0 <= i < DIRENTS_PER_BLOCK :: DirOf(s, p.inum)[i].valid)
  {
    hide Named, Lookup, DirOf, DirName, FirstInvalid, LastSlash, IsDirMode;
    HasParentFacts(path);
    SlashFound(Stripped(path));
    var p := Lookup(nm.tree, DirName(Stripped(path)));
    if p.Found? {
      ResolvedInode(s, sh, nm, DirName(Stripped(path)));
      FullDirectory(DirOf(s, p.inum));
    }
  }

  lemma SlashFound(p: seq<byte>)
    ensures SLASH in p <==> LastSlash(p) >= 0
  {
  }

  /** A run skips a mkdir for the same reasons, the parent's block aside, and if no
      block is free. */
  lemma SkippedMkdir(s: Fs, sh: Shape, nm: Names, op: Op)
    requires Named(s, sh, nm) && op.OpMkdir?
    ensures !Legal(s, nm, op) <==>
            && ((op.mode / 0x1000) % 0x10 == 0 || (op.mode / 0x1000) % 0x10 == 4) && GetsThrough(s, nm, op.path)
            && Lookup(nm.tree, DirName(Stripped(op.path))).isDir
            && (0 in op.path || |BaseName(op.path)| >= 28 || op.path[|op.path| - 1] == SLASH
                || |s.inodes| <= FirstClear(s.inodeMap, 2) < |s.inodeMap| || Free(s) == 0)
  {
    hide Named, Lookup, DirOf, DirName, BaseName, Stripped, FirstInvalid, FirstClear, LastSlash, OrDir, IsDirMode;
    hide Free;
    NewParent(s, sh, nm, op.path);
    OrDirMode(op.mode);
  }

  /** The other operations: truncate and getattr are never skipped, a write unless
      it is to a file and of bounded length, and the rest only as said here. */
  lemma SkippedOthers(s: Fs, nm: Names, op: Op)
    requires !op.OpMknod? && !op.OpMkdir?
    ensures var w := Lookup(nm.tree, op.path);
            !Legal(s, nm, op) <==>
            match op
            case OpWrite(_, data, _) => !(w.Found? && !w.isDir) || |data| > 0x7FFF_FFFF - 262144
            case OpUnlink(path) =>
              w.Found? && !w.isDir && (SLASH !in Stripped(path) || 0 in path || path[|path| - 1] == SLASH)
            case OpRmdir(path) =>
              && w.Found? && w.isDir
              && (SLASH !in Stripped(path) || 0 in path
                  || ((forall key | key in nm.tree :: key.dir != w.inum)
                      && !(w.inum < |s.inodes| && s.inodes[w.inum].direct[0] < |s.inodeMap|)))
            case OpRename(src, dst) =>
              && w.Found? && !Lookup(nm.tree, dst).Found?
              && (SLASH !in Stripped(src) || 0 in src || SLASH !in Stripped(dst) || 0 in dst
                  || (DirName(Stripped(src)) == DirName(Stripped(dst)) && src[|src| - 1] != SLASH
                      && (|BaseName(dst)| >= 28 || dst[|dst| - 1] == SLASH)))
            case _ => false
  {
    hide Lookup, DirName, BaseName;
  }
}
