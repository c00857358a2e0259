/** Whole runs: any sequence of operations on a volume that mkfs made keeps the
    invariant, and read-img finds nothing wrong with the image it leaves if its
    queue is long enough. */
module Runs {
  import opened Codec
  import opened Image
  import opened Forest
  import opened Flush
  import opened Paths
  import opened Namespace
  import opened Volumes
  import opened Translation
  import opened FileWrite
  import opened FileTruncate
  import opened FileOps
  import opened DirSteps
  import opened Directory
  import opened Removal
  import opened FileFacts
  import opened Mkfs
  import opened NameFacts
  import opened ReadImg

  datatype Op =
    | OpMknod(path: seq<byte>, mode: u32, uid: u16, gid: u16, now: u32)
    | OpMkdir(path: seq<byte>, mode: u32, uid: u16, gid: u16, now: u32)
    | OpWrite(path: seq<byte>, data: seq<byte>, offset: nat)
    | OpTruncate(path: seq<byte>, len: nat)
    | OpUnlink(path: seq<byte>)
    | OpRmdir(path: seq<byte>)
    | OpRename(path: seq<byte>, dst: seq<byte>)
    | OpGetattr(path: seq<byte>)

  /** What the C code relies on its caller for, operation by operation, and what
      keeps the names a tree. */
  ghost predicate Legal(s: Fs, nm: Names, op: Op) {
    match op
    case OpMknod(path, mode, _, _, _) =>
      IsRegMode(mode) && MakeCode(s, nm, path) == 0 ==> MakeLegal(s, nm, path) && !TrailingSlash(path)
    case OpMkdir(path, mode, _, _, _) =>
      IsDirMode(OrDir(mode)) && DirCheckCode(s, nm, path) == 0 ==> MkdirLegal(s, path) && !TrailingSlash(path)
    case OpWrite(path, data, _) => IsFile(nm, path) && |data| <= INT_MAX - FILE_1ST_LEVEL
    case OpTruncate(_, _) => true
    case OpUnlink(path) => FileCode(nm, path) == 0 ==> HasParent(path) && !TrailingSlash(path)
    case OpRmdir(path) => RmdirLegal(s, nm, path)
    case OpRename(src, dst) =>
      RenameLegal(nm, src, dst) && (RenameCode(nm, src, dst) == 0 && !TrailingSlash(src) ==> !TrailingSlash(dst))
    case OpGetattr(_) => true
  }

  /** A volume's state with the descriptions that go with it. */
  datatype World = World(s: Fs, sh: Shape, nm: Names)

  ghost predicate Sane(w: World) {
    Geometry(w.s) && Owned(w.s, w.sh) && Coherent(w.s) && Named(w.s, w.sh, w.nm)
  }

  ghost function WorldOf(v: Volume): World
    reads v, v.disk, v.inodeMap, v.blockMap, v.inodes
  {
    World(v.State(), v.shape, v.names)
  }

  /** The owner, mode and times of inode c. */
  ghost predicate HasFields(s: Fs, c: nat, uid: u16, gid: u16, mode: u32, now: u32) {
    && c < |s.inodes| && s.inodes[c].uid == uid && s.inodes[c].gid == gid && s.inodes[c].mode == mode
    && s.inodes[c].ctime == now && s.inodes[c].mtime == now
  }

  /** What an operation that returned `ret` has done. */
  ghost predicate Did(w: World, op: Op, ret: int, w': World) {
    match op
    case OpMknod(path, mode, uid, gid, now) =>
      && ret == (if !IsRegMode(mode) then -EINVAL else MakeCode(w.s, w.nm, path))
      && (ret != 0 ==> w' == w)
      && (ret == 0 ==>
            && var p, ino := Lookup(w.nm.tree, DirName(Stripped(path))), NewInode(uid, gid, mode, now);
            && p.Found? && w'.sh == w.sh && w'.s.blockMap == w.s.blockMap
            && HasFields(w'.s, FirstClear(w.s.inodeMap, 2), uid, gid, mode, now)
            && if p.isDir then NodeMade(w.s, w.nm, w'.s, w'.nm, p.inum, BaseName(path), false, ino)
               else w'.nm == w.nm && NodeLost(w.s, w'.s, p.inum, BaseName(path), ino))
    case OpMkdir(path, mode, uid, gid, now) =>
      if !IsDirMode(OrDir(mode)) then ret == -EINVAL && w' == w
      else if DirCheckCode(w.s, w.nm, path) != 0 then ret == DirCheckCode(w.s, w.nm, path) && w' == w
      else if FirstClear(w.s.inodeMap, 2) >= |w.s.inodeMap| then
        ret == -ENOSPC && w'.nm == w.nm && w'.sh == w.sh && BlockLost(w.s, w'.s)
      else ret == 0 && exists b :: DirMade(w.s, w.nm, w'.s, w'.nm, path, uid, gid, mode, now, b)
    case OpWrite(path, data, offset) =>
      && IsFile(w.nm, path) && w'.nm == w.nm
      && var n := Lookup(w.nm.tree, path).inum;
      n < |w.s.inodes|
      && if offset > w.s.inodes[n].size then ret == -EINVAL && w' == w
         else Wrote(w.s, w.sh, w'.s, w'.sh, n, offset, data, ret)
    case OpTruncate(path, len) =>
      && ret == (if len != 0 then -EINVAL else FileCode(w.nm, path))
      && (ret != 0 ==> w' == w)
      && (ret == 0 ==>
            w'.nm == w.nm && IsFile(w.nm, path) && Truncated(w.s, w.sh, w'.s, w'.sh, Lookup(w.nm.tree, path).inum))
    case OpUnlink(path) =>
      && ret == FileCode(w.nm, path)
      && (ret != 0 ==> w' == w)
      && (ret == 0 ==>
            && IsFile(w.nm, path)
            && var d := Lookup(w.nm.tree, DirName(path));
            && d.Found? && w'.nm == DropName(w.nm, d.inum, BaseName(path))
            && Unlinked(w.s, w.sh, w'.s, w'.sh, Lookup(w.nm.tree, path).inum, d.inum))
    case OpRmdir(path) =>
      && ret == RmdirCode(w.nm, path)
      && (ret != 0 ==> w' == w)
      && (ret == 0 ==> w'.sh == w.sh && DirRemoved(w.s, w.nm, w'.s, w'.nm, path))
    case OpRename(src, dst) =>
      && ret == RenameCode(w.nm, src, dst)
      && (ret != 0 || TrailingSlash(src) ==> w' == w)
      && (ret == 0 && !TrailingSlash(src) ==>
            && var d := Lookup(w.nm.tree, DirName(src));
            && d.Found? && Key(d.inum, BaseName(src)) in w.nm.tree
                 && SlotRenamed(w.s, w.nm, w'.s, d.inum, BaseName(src), BaseName(dst))
            && w'.sh == w.sh && w'.nm == MoveName(w.nm, d.inum, BaseName(src), BaseName(dst))
            && w'.s.inodes == w.s.inodes && w'.s.inodeMap == w.s.inodeMap && w'.s.blockMap == w.s.blockMap
            && (forall m: nat, i: nat | m != d.inum :: ByteAt(w'.s, m, i) == ByteAt(w.s, m, i)))
    case OpGetattr(path) =>
      w' == w && ret == match Lookup(w.nm.tree, path) case Found(_, _) => 0 case miss => Code(miss)
  }

  /** fs_getattr: the image is loaded again and the path looked up. */
  method Getattr(v: Volume, path: seq<byte>) returns (ret: int)
    requires v.Valid()
    modifies v.inodeMap, v.blockMap, v.inodes
    ensures v.Valid() && v.State() == old(v.State())
    ensures ret == match Lookup(v.names.tree, path)
                   case Found(_, _) => 0
                   case Missing => -ENOENT
                   case NotDir => -ENOTDIR
  {
    hide Geometry, Owned, Coherent, Named, Lookup;
    v.Reload();
    LookupOk(v.State(), v.shape, v.names, path);
    var inum := Translate(v, path);
    if inum == -ENOENT || inum == -ENOTDIR {
      return inum;
    }
    return 0;
  }

  lemma UnslashedPath(path: seq<byte>)
    ensures HasParent(path) && !TrailingSlash(path) ==> Clean(path) && Stripped(path) == path
  {
    HasParentFacts(path);
  }

  method Perform(v: Volume, op: Op) returns (ret: int)
    requires v.Valid() && Legal(v.State(), v.names, op)
    modifies v`names, v`shape, v.disk, v.blockMap, v.inodeMap, v.inodes
    ensures v.Valid() && Did(old(WorldOf(v)), op, ret, WorldOf(v))
  {
    hide Geometry, Owned, Coherent, Named, Lookup, Truncated, Wrote, NodeMade, DirMade, BlockLost, Unlinked, MakeCode;
    hide DirCheckCode;
    hide RmdirCode, RenameCode, DropName, MoveName, DirName, BaseName, ByteAt, Clean, Free, FirstClear, RegionCovers;
    hide OrDir, IsDirMode;
    hide NodeLost, MakeLegal, MkdirLegal, RmdirLegal, RenameLegal, DirRemoved, HasParent, IsRegMode, Stripped, Dangles;
    if op.OpUnlink? || op.OpMknod? || op.OpMkdir? {
      UnslashedPath(op.path);
    }
    match op
    case OpMknod(path, mode, uid, gid, now) => ret := Mknod(v, path, mode, uid, gid, now);
    case OpMkdir(path, mode, uid, gid, now) => ret := Mkdir(v, path, mode, uid, gid, now);
    case OpWrite(path, data, offset) => ret := Write(v, path, data, offset);
    case OpTruncate(path, len) => ret := Truncate(v, path, len);
    case OpUnlink(path) => ret := Unlink(v, path);
    case OpRmdir(path) => ret := Rmdir(v, path);
    case OpRename(src, dst) => ret := Rename(v, src, dst);
    case OpGetattr(path) => ret := Getattr(v, path);
  }

  /** Whether the allocator would find a block. */
  method HasFreeBlock(v: Volume) returns (yes: bool)
    requires v.Laid()
    ensures yes <==> Free(v.State()) > 0
  {
    FreeCountZero(v.State().blockMap, Cap(v.State()));
    var i := 0;
    while i < v.blockMapSz * BITS_PER_BLOCK && i < v.numBlocks
      invariant 0 <= i <= Cap(v.State())
      invariant forall b | 0 <= b < i :: v.blockMap[b]
    {
      if !v.blockMap[i] {
        return true;
      }
      i := i + 1;
    }
    return false;
  }

  /** The path's outcome, with the type of what it leads to. */
  method LookUp(v: Volume, path: seq<byte>) returns (w: Walked)
    requires v.Valid()
    ensures w == Lookup(v.names.tree, path)
  {
    hide Geometry, Owned, Coherent, Named, Lookup, IsDirMode, IsRegMode;
    LookupOk(v.State(), v.shape, v.names, path);
    var inum := Translate(v, path);
    if inum == -ENOENT {
      return Missing;
    }
    if inum == -ENOTDIR {
      return NotDir;
    }
    ResolvedInode(v.State(), v.shape, v.names, path);
    return Found(inum, IsDirMode(v.inodes[inum].mode));
  }

  method CoversRegion(v: Volume) returns (yes: bool)
    requires v.Laid()
    ensures yes <==> RegionCovers(v.State())
  {
    hide Geometry, FirstClear;
    var c := FindFreeInode(v);
    yes := c < 0 || c < v.inodes.Length;
  }

  /** The code that mknod would return for a regular file. */
  method MakeCodeOf(v: Volume, path: seq<byte>) returns (code: int, d: nat)
    requires v.Valid()
    ensures code == MakeCode(v.State(), v.names, path)
    ensures code == 0 ==> d < v.inodes.Length && Lookup(v.names.tree, DirName(Stripped(path))).Found?
                          && Lookup(v.names.tree, DirName(Stripped(path))).inum == d
  {
    hide Geometry, Owned, Coherent, Named, Lookup, FirstClear, FirstInvalid, DirOf, LastSlash, Stripped, DirName;
    LookupOk(v.State(), v.shape, v.names, DirName(Stripped(path)));
    code, d := CheckNew(v, path);
    if code == 0 {
      FirstPointer(v.State(), d);
      OwnedOnDisk(v.State(), v.shape, Data(d, 0));
      var slot := FindFreeDirent(v, d);
      var c := FindFreeInode(v);
      if slot < 0 || c < 0 {
        code := -ENOSPC;
      }
    }
  }

  /** Legal can be decided before the call. */
  method IsLegal(v: Volume, op: Op) returns (yes: bool)
    requires v.Valid()
    ensures yes <==> Legal(v.State(), v.names, op)
  {
    hide Geometry, Owned, Coherent, Named, Lookup, FirstClear, RegionCovers, Free, MakeCode, DirCheckCode, NoNamesIn;
    hide Tokens, Clean;
    hide ShortName, HasParent, Stripped, DirName, BaseName, IsDirMode, IsRegMode, OrDir, TrailingSlash;
    match op
    case OpMknod(path, mode, _, _, _) =>
      var code, d := MakeCodeOf(v, path);
      yes := true;
      if IsRegMode(mode) && code == 0 {
        var covers := CoversRegion(v);
        yes := HasParent(path) && !TrailingSlash(path) && ShortName(path) && covers && v.inodes[d].direct[0] != 0;
      }
    case OpMkdir(path, mode, _, _, _) =>
      var code, d, slot := CheckMkdir(v, path);
      yes := true;
      if IsDirMode(OrDir(mode)) && code == 0 {
        var covers := CoversRegion(v);
        var free := HasFreeBlock(v);
        yes := HasParent(path) && !TrailingSlash(path) && ShortName(path) && covers && free;
      }
    case OpWrite(path, data, _) =>
      var w := LookUp(v, path);
      yes := w.Found? && !w.isDir && |data| <= INT_MAX - FILE_1ST_LEVEL;
    case OpTruncate(_, _) => yes := true;
    case OpUnlink(path) =>
      var w := LookUp(v, path);
      yes := w.Found? && !w.isDir ==> HasParent(path) && !TrailingSlash(path);
    case OpRmdir(path) =>
      yes := true;
      var w := LookUp(v, path);
      if w.Found? && w.isDir {
        ResolvedInode(v.State(), v.shape, v.names, path);
        var empty := IsEmptyDir(v, w.inum);
        yes := HasParent(path) && (!empty || v.inodes[w.inum].direct[0] < v.inodeMap.Length);
      }
    case OpRename(src, dst) =>
      yes := true;
      var w1 := LookUp(v, src);
      var w2 := LookUp(v, dst);
      if w1.Found? && !w2.Found? {
        yes := HasParent(src) && HasParent(dst)
               && (DirName(Stripped(src)) == DirName(Stripped(dst)) && !TrailingSlash(src) ==>
                   ShortName(dst) && !TrailingSlash(dst));
      }
    case OpGetattr(_) => yes := true;
  }

  // ---------------------------------------------------------------- whole runs

  /** The i-th operation has taken the i-th world to the next, or was not one
      its caller may perform there. */
  ghost predicate StepAt(ops: seq<Op>, ws: seq<World>, rets: seq<int>, i: nat)
    requires i < |ops| == |rets| && |ws| == |ops| + 1
  {
    if Legal(ws[i].s, ws[i].nm, ops[i]) then Did(ws[i], ops[i], rets[i], ws[i + 1]) else ws[i + 1] == ws[i]
  }

  /** ws are the worlds that a run of ops goes through. */
  ghost predicate IsRun(ops: seq<Op>, ws: seq<World>, rets: seq<int>) {
    && |ops| == |rets| && |ws| == |ops| + 1
    && (forall i | 0 <= i < |ws| :: Sane(ws[i]))
    && forall i | 0 <= i < |ops| :: StepAt(ops, ws, rets, i)
  }

  lemma RunLonger(ops: seq<Op>, ws: seq<World>, rets: seq<int>, op: Op, w: World, ret: int)
    requires IsRun(ops, ws, rets) && Sane(w)
    requires var v := ws[|ops|]; if Legal(v.s, v.nm, op) then Did(v, op, ret, w) else w == v
    ensures IsRun(ops + [op], ws + [w], rets + [ret])
  {
    hide Sane, Legal, Did;
    forall i | 0 <= i < |ops| + 1
      ensures StepAt(ops + [op], ws + [w], rets + [ret], i)
    {
      if i < |ops| {
        assert StepAt(ops, ws, rets, i);
      }
    }
  }

  /** Any sequence of operations, each performed if its caller may call it. */
  method Run(v: Volume, ops: seq<Op>) returns (rets: seq<int>, ghost ws: seq<World>)
    requires v.Valid()
    modifies v`names, v`shape, v.disk, v.blockMap, v.inodeMap, v.inodes
    ensures v.Valid() && IsRun(ops, ws, rets)
    ensures ws[0] == old(WorldOf(v)) && ws[|ops|] == WorldOf(v)
  {
    hide Geometry, Owned, Coherent, Named, Legal, Did, IsRun;
    rets := [];
    ws := [WorldOf(v)];
    NoRun(ws[0]);
    for i := 0 to |ops|
      invariant v.Valid() && |ws| == i + 1 && ws[0] == old(WorldOf(v)) && ws[i] == WorldOf(v)
      invariant IsRun(ops[..i], ws, rets)
    {
      var legal := IsLegal(v, ops[i]);
      var ret := 0;
      if legal {
        ret := Perform(v, ops[i]);
      }
      RunLonger(ops[..i], ws, rets, ops[i], WorldOf(v), ret);
      assert ops[..i] + [ops[i]] == ops[..i + 1];
      rets, ws := rets + [ret], ws + [WorldOf(v)];
    }
    assert ops[..|ops|] == ops;
  }

  lemma NoRun(w: World)
    requires Sane(w)
    ensures IsRun([], [w], [])
  {
    hide Sane;
  }

  /** From an empty image of any size, through any run, to an image in which
      read-img finds no ERROR, unless more objects can be reached in it than fit
      the queue, which the C program would then write past.  In the end no block
      has two owners, and a second mount would load the state there is. */
  method Session(size: nat, now: u32, ops: seq<Op>)
    returns (v: Volume, errors: nat, overflow: bool, rets: seq<int>, ghost ws: seq<World>)
    requires size % BLOCK_SIZE == 0 && MIN_BLOCKS <= size / BLOCK_SIZE <= MAX_DISK_BLOCKS
    ensures IsRun(ops, ws, rets) && ws[|ops|] == WorldOf(v)
    ensures EmptyVolume(ws[0].s, LayoutOf(size / BLOCK_SIZE).rootBase, now)
    ensures v.Valid() && (!overflow ==> errors == 0) && (overflow <==> ManyReachable(v.names))
    ensures forall p, q | At(v.State(), p) == At(v.State(), q) != 0 :: p == q
    ensures Loadable(v.disk[..]) && Loaded(v.disk[..]) == v.State()
  {
    hide Geometry, Owned, Coherent, Named, Made, EmptyVolume, Loadable, Loaded, LayoutOf, At, IsRun, Traversed;
    hide ManyReachable, Reachable, HasName;
    var disk := MakeFs(size, now);
    MadeEmpty(disk[..], size / BLOCK_SIZE, now);
    ghost var s := Loaded(disk[..]);
    ghost var root := LayoutOf(size / BLOCK_SIZE).rootBase;
    EmptyVolumeValid(s, root, now);
    EmptyGeometry(s, root, now);
    v := new Volume.Mount(disk, NewShape(|s.inodes|, root), NewNames(|s.inodes|));
    rets, ws := Run(v, ops);
    ReloadSame(v.State());
    OwnedWalkable(v.State(), v.shape);
    var blkmap, inomap, queue, head;
    errors, overflow, blkmap, inomap, queue, head := CheckImage(Loaded(v.disk[..]), v.shape, v.names);
    forall p, q | At(v.State(), p) == At(v.State(), q) != 0
      ensures p == q
    {
      NoSharing(v.State(), v.shape, p, q);
    }
  }
}
