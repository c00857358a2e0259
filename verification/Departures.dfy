/** Inputs on which the program departs from what it is meant to do.  The exact
    conditions are with the operations; here are members of each family. */
module Departures {
  import opened Codec
  import opened Image
  import opened Forest
  import opened Flush
  import opened Paths
  import opened Namespace
  import opened Volumes
  import opened FileWrite
  import opened FileTruncate
  import opened FileOps
  import opened FileFacts
  import opened DirSteps
  import opened Directory
  import opened Mkfs
  import opened Transfer
  import opened Removal
  import opened Translation

  const F_NAME: Name := [102]                  // f
  const F_PATH: seq<byte> := [SLASH, 102]       // /f

  lemma {:induction false} FreeAbove(m: seq<bool>, n: nat, root: nat)
    requires n <= |m| && forall b | 0 <= b < n :: m[b] == (b <= root)
    ensures FreeCount(m, n) == if n > root then n - root - 1 else 0
  {
    if n > 0 {
      FreeAbove(m, n - 1, root);
    }
  }

  /** The number of free blocks of a volume just made. */
  lemma EmptyVolumeFree(s: Fs, root: nat, now: u32)
    requires EmptyVolume(s, root, now)
    ensures Free(s) == Cap(s) - root - 1
  {
    hide Geometry, DataStart;
    SameGeometry(s, s);
    FreeAbove(s.blockMap, Cap(s), root);
  }

  // ------------------------------------------------------- small volumes

  lemma PathOfF()
    ensures Clean(F_PATH) && ShortName(F_PATH) && DirName(F_PATH) == [SLASH] && BaseName(F_PATH) == F_NAME
    ensures Tokens([SLASH]) == [] && Tokens(F_PATH) == [F_NAME] && Stripped(F_PATH) == F_PATH
  {
    var p := F_PATH;
    assert p[..1] == [SLASH];
    assert LastSlash(p[..1]) == 0;
    assert LastSlash(p) == 0;
    var r: seq<byte> := [SLASH];
    assert r[1..] == [];
    PathSplit(p);
  }

  /** A new file can be made in a volume just made, and what number and slot it
      will get. */
  lemma RoomForF(s: Fs, root: nat, now: u32)
    requires EmptyVolume(s, root, now)
    ensures var nm := NewNames(|s.inodes|);
            MakeCode(s, nm, F_PATH) == 0 && MakeLegal(s, nm, F_PATH) && Lookup(nm.tree, [SLASH]) == Found(ROOT, true)
    ensures FirstClear(s.inodeMap, 2) == 2 && FirstInvalid(DirOf(s, ROOT), 0) == 0
    ensures 16 <= |s.inodes| <= |s.inodeMap| && Geometry(s)
  {
    hide DataStart, Cap, DecodeDir, ZeroBlock, Tokens, BaseName, DirName, Stripped;
    PathOfF();
    SameGeometry(s, s);
    var nm := NewNames(|s.inodes|);
    assert Lookup(nm.tree, DirName(F_PATH)) == Found(ROOT, true);
    assert Lookup(nm.tree, F_PATH) == Missing by { LookupSplit(nm.tree, F_PATH); }
    assert FirstClear(s.inodeMap, 2) == 2;
    assert DirOf(s, ROOT) == DecodeDir(ZeroBlock());
    EmptySlot(0);
    assert FirstInvalid(DirOf(s, ROOT), 0) == 0;
  }

  /** A volume of n blocks, mounted, with an empty root directory. */
  method FreshVolume(nBlks: nat, now: u32) returns (v: Volume)
    requires MIN_BLOCKS <= nBlks <= MAX_DISK_BLOCKS
    ensures fresh(v) && fresh(v.disk) && fresh(v.blockMap) && fresh(v.inodeMap) && fresh(v.inodes)
    ensures v.Valid() && EmptyVolume(v.State(), LayoutOf(nBlks).rootBase, now)
    ensures v.names == NewNames(v.inodes.Length) && v.shape == NewShape(v.inodes.Length, LayoutOf(nBlks).rootBase)
    ensures Free(v.State()) + LayoutOf(nBlks).rootBase + 1 == nBlks
    ensures v.inodeMapSz == LayoutOf(nBlks).inoMapBlks && v.blockMapSz == LayoutOf(nBlks).mapBlks
  {
    hide Geometry, Owned, Coherent, Named, Made, EmptyVolume, Loadable, Loaded, Free, LayoutOf;
    var disk := MakeFs(nBlks * BLOCK_SIZE, now);
    MadeEmpty(disk[..], nBlks, now);
    MadeGeometry(disk[..], nBlks, now);
    LoadedSizes(disk[..], nBlks, now);
    ghost var s := Loaded(disk[..]);
    ghost var root := LayoutOf(nBlks).rootBase;
    EmptyVolumeValid(s, root, now);
    EmptyVolumeFree(s, root, now);
    v := new Volume.Mount(disk, NewShape(|s.inodes|, root), NewNames(|s.inodes|));
    EmptyGeometry(s, root, now);
  }

  lemma LoadedSizes(disk: seq<Block>, nBlks: nat, now: u32)
    requires Made(disk, nBlks, now)
    ensures Loadable(disk) && Loaded(disk).inodeMapSz == LayoutOf(nBlks).inoMapBlks
            && Loaded(disk).blockMapSz == LayoutOf(nBlks).mapBlks
  {
    hide LayoutOf, Made, Word, Bit, DecodeInode;
    MadeGeometry(disk, nBlks, now);
  }

  /** All that a volume holds is the empty file /f, inode 2, in the root's slot 0. */
  ghost predicate JustF(s: Fs, sh: Shape, nm: Names) {
    && nm.tree == map[Key(ROOT, F_NAME) := Entry(0, 2, false)]
    && 16 <= |s.inodes| == |sh.extent| && |s.inodes| <= |s.inodeMap| && !s.inodeMap[3]
    && s.inodes[2].size == 0 && sh.extent[2] == EMPTY_EXTENT && s.inodes[ROOT].size == 1024
  }

  /** A volume of n blocks with the empty file /f. */
  method VolumeWithF(nBlks: nat, now: u32) returns (v: Volume)
    requires MIN_BLOCKS <= nBlks <= MAX_DISK_BLOCKS
    ensures fresh(v) && fresh(v.disk) && fresh(v.blockMap) && fresh(v.inodeMap) && fresh(v.inodes)
    ensures v.Valid() && JustF(v.State(), v.shape, v.names) && Free(v.State()) + LayoutOf(nBlks).rootBase + 1 == nBlks
    ensures forall b | 0 <= b < v.blockMap.Length :: v.State().blockMap[b] == (b <= LayoutOf(nBlks).rootBase)
  {
    hide Geometry, Owned, Coherent, Named, EmptyVolume, Free, MakeCode, MakeLegal, NewShape, LayoutOf, DirOf;
    hide FirstClear;
    hide FirstInvalid, ByteAt, Lookup, NodeLost, DirName, BaseName;
    v := FreshVolume(nBlks, now);
    ghost var s, root := v.State(), LayoutOf(nBlks).rootBase;
    RoomForF(s, root, now);
    PathOfF();
    PutModeIsReg();
    var val := Mknod(v, F_PATH, PUT_MODE, 0, 0, now);
    SameFree(s, v.State());
    FreshFacts(s, root, now);
  }

  lemma FreshFacts(s: Fs, root: nat, now: u32)
    requires EmptyVolume(s, root, now)
    ensures 16 <= |s.inodes| <= |s.inodeMap| && !s.inodeMap[3] && s.inodes[ROOT].size == 1024
    ensures forall b | 0 <= b < |s.blockMap| :: s.blockMap[b] == (b <= root)
    ensures var sh := NewShape(|s.inodes|, root);
            |sh.extent| == |s.inodes| && sh.extent[2] == EMPTY_EXTENT
  {
  }

  // ------------------------------------------------------------ write and put

  /** With six free blocks, writing 6144 bytes to an empty file returns 6144, and
      the file is still empty. */
  method TailLost(data: seq<byte>) returns (v: Volume, ret: int)
    requires |data| == FILE_IN_INODE
    ensures v.Valid() && Lookup(v.names.tree, F_PATH) == Found(2, false) && ret == FILE_IN_INODE
    ensures 2 < v.inodes.Length && v.inodes[2].size == 0
  {
    hide Geometry, Owned, Coherent, Named, At, Free, Cost, Compact, Lookup, Grown, Spliced, FilledBy, ByteAt, Need;
    hide LayoutOf;
    v := VolumeWithF(11, 0);
    ElevenBlocks();
    ghost var s, sh := v.State(), v.shape;
    FAlone(v.names);
    ret := Write(v, F_PATH, data, 0);
    OwnedMarked(s, sh);
    EmptyBudget(s, sh, 2);
    WroteFrame(s, sh, v.State(), v.shape, 2, 0, data, ret);
    BlockedEnd(s, sh, v.State(), v.shape, 2, 0, data, ret);
  }

  lemma ElevenBlocks()
    ensures LayoutOf(11).rootBase == 4 == LayoutOf(12).rootBase
    ensures LayoutOf(12).inoMapBlks == 1 == LayoutOf(12).mapBlks
  {
  }

  /** With six free blocks a put of 6145 bytes never stores them.  It returns 0
      all the same, unless its chunk size divides 6144. */
  method PutReports(input: seq<byte>, blksiz: nat) returns (v: Volume, ret: int)
    requires |input| == FILE_IN_INODE + 1 && 0 < blksiz <= INT_MAX - FILE_1ST_LEVEL
    ensures v.Valid() && IsFile(v.names, F_PATH)
    ensures var n := Lookup(v.names.tree, F_PATH).inum;
            n < v.inodes.Length && v.inodes[n].size >= 0 && Content(v.State(), n) != input
    ensures ret == if FILE_IN_INODE % blksiz == 0 then -EINVAL else 0
  {
    hide Geometry, Owned, Coherent, Named, Free, Lookup, MakeCode, MakeLegal, EmptyVolume, LayoutOf, NewShape, ByteAt;
    hide Content;
    v := FreshVolume(11, 0);
    ElevenBlocks();
    RoomForF(v.State(), 4, 0);
    PathOfF();
    ret := Put(v, F_PATH, input, blksiz, 0, 0, 0);
    NeedCorners();
  }

  // ---------------------------------------------------------------- truncate

  /** Filling an empty file and truncating it gives the block map back unless
      the number of bytes and of free blocks say that it leaks. */
  method FillAndEmpty(v: Volume, path: seq<byte>, data: seq<byte>) returns (ret: int)
    requires v.Valid() && IsFile(v.names, path) && |data| <= INT_MAX - FILE_1ST_LEVEL
    requires var n := Lookup(v.names.tree, path).inum;
             n < |v.shape.extent| && n < |v.State().inodes| && v.shape.extent[n] == EMPTY_EXTENT
               && v.State().inodes[n].size == 0
    modifies v`shape, v.disk, v.blockMap, v.inodes
    ensures v.Valid() && Lookup(v.names.tree, path).inum < v.inodes.Length
            && v.inodes[Lookup(v.names.tree, path).inum].size == 0
    ensures v.State().blockMap == old(v.State()).blockMap <==> !Leaks(|data|, Free(old(v.State())))
  {
    hide Geometry, Owned, Coherent, Named, At, Free, Lookup, Wrote, Truncated, Leaks;
    ghost var s, sh, n := v.State(), v.shape, Lookup(v.names.tree, path).inum;
    ret := Write(v, path, data, 0);
    ghost var s1, sh1 := v.State(), v.shape;
    var code := Truncate(v, path, 0);
    WriteThenTruncate(s, sh, s1, sh1, v.State(), v.shape, n, data, ret);
    TruncatedSize(s1, sh1, v.State(), v.shape, n);
  }

  lemma TruncatedSize(s: Fs, sh: Shape, s': Fs, sh': Shape, n: nat)
    requires Truncated(s, sh, s', sh', n)
    ensures n < |s'.inodes| && s'.inodes[n].size == 0
  {
    hide Reached;
  }

  /** With seven free blocks, filling a file to 6144 bytes and truncating it loses
      a block: the map is not the one of the empty volume any more. */
  method LeakedRoot(data: seq<byte>) returns (v: Volume)
    requires |data| == FILE_IN_INODE
    ensures v.Valid() && 2 < v.inodes.Length && v.inodes[2].size == 0
    ensures !forall b | 0 <= b < v.blockMap.Length :: v.State().blockMap[b] == (b <= 4)
  {
    hide Geometry, Owned, Coherent, Named, Free, Lookup, LayoutOf;
    v := VolumeWithF(12, 0);
    ElevenBlocks();
    ghost var s := v.State();
    FAlone(v.names);
    var ret := FillAndEmpty(v, F_PATH, data);
    OneFreshMap(s.blockMap, v.State().blockMap, 4);
  }

  lemma OneFreshMap(m: seq<bool>, m': seq<bool>, root: nat)
    requires |m| == |m'| && forall b | 0 <= b < |m| :: m[b] == (b <= root)
    ensures (forall b | 0 <= b < |m'| :: m'[b] == (b <= root)) ==> m == m'
  {
  }

  // -------------------------------------------------------------------- read

  const TWO_TO_32: nat := 0x1_0000_0000

  /** /f holds one byte; nothing else is in the volume. */
  method OneByte(x: byte) returns (v: Volume)
    ensures fresh(v) && fresh(v.disk) && fresh(v.blockMap) && fresh(v.inodeMap) && fresh(v.inodes)
    ensures v.Valid() && v.names.tree == map[Key(ROOT, F_NAME) := Entry(0, 2, false)]
    ensures 16 <= v.inodes.Length <= v.inodeMap.Length && !v.inodeMap[3]
    ensures v.inodes[2].size == 1 && Content(v.State(), 2) == [x] && v.inodes[2].direct[0] != 0
  {
    hide Geometry, Owned, Coherent, Named, Free, Lookup, LayoutOf, Wrote, ByteAt, Content, Splice, LosesTail, Need;
    hide Budget, BlocksFor;
    v := VolumeWithF(12, 0);
    ElevenBlocks();
    ghost var s, sh := v.State(), v.shape;
    FAlone(v.names);
    var ret := Write(v, F_PATH, [x], 0);
    OneByteFacts(s, sh, v.State(), v.shape, x, ret);
  }

  lemma OneByteFacts(s: Fs, sh: Shape, s': Fs, sh': Shape, x: byte, ret: int)
    requires Geometry(s) && Owned(s, sh) && Geometry(s') && Owned(s', sh') && Wrote(s, sh, s', sh', 2, 0, [x], ret)
    requires 2 < |s.inodes| == |sh.extent| && s.inodes[2].size == 0 && sh.extent[2] == EMPTY_EXTENT && Free(s) == 7
    ensures |s'.inodes| == |s.inodes| && s'.inodeMap == s.inodeMap
    ensures s'.inodes[2].size == 1 && Content(s', 2) == [x] && s'.inodes[2].direct[0] != 0
  {
    hide Geometry, Owned, ByteAt, Budget, Wrote, Free, LosesTail, Splice, Need, BlocksFor;
    EmptyBudget(s, sh, 2);
    OneBlockNeeded();
    FullWriteIffSpace(s, sh, s', sh', 2, 0, [x], ret);
    NoTailToLose(s, sh);
    WriteSplices(s, sh, s', sh', 2, 0, [x], ret);
    assert [x][..1] == [x];
    var c := Content(s, 2);
    assert c == [];
    SpliceAtEnd(c, [x]);
    OneByteGrown(s, sh, s', sh', x, ret);
    assert Content(s', 2) == [x];
    SizeHasBlock(s', sh', 2);
  }

  lemma OneBlockNeeded()
    ensures Need(BlocksFor(EMPTY_EXTENT, 1)) == 1
  {
  }

  lemma NoTailToLose(s: Fs, sh: Shape)
    requires 2 < |s.inodes| == |sh.extent|
    ensures !LosesTail(s, sh, 2, 0, 1)
  {
    hide Budget;
  }

  lemma OneByteGrown(s: Fs, sh: Shape, s': Fs, sh': Shape, x: byte, ret: int)
    requires Wrote(s, sh, s', sh', 2, 0, [x], ret)
    ensures |s'.inodes| == |s.inodes| && s'.inodeMap == s.inodeMap
  {
    hide Spliced, FilledBy, ByteAt, Free, Cost;
  }

  /** A file that is not empty has a first block. */
  lemma SizeHasBlock(s: Fs, sh: Shape, n: nat)
    requires Geometry(s) && Owned(s, sh) && n < |s.inodes| && s.inodes[n].size > 0
    ensures s.inodes[n].direct[0] != 0
  {
    hide Geometry, Compact;
    FirstPointer(s, n);
    assert Present(sh, Data(n, 0));
  }

  /** A read at offset 2^32 delivers the first byte of a file of one byte. */
  method ReadBeyond(x: byte) returns (v: Volume, out: seq<byte>)
    ensures v.Valid() && IsFile(v.names, F_PATH) && 2 < v.inodes.Length && v.inodes[2].size == 1
    ensures Lookup(v.names.tree, F_PATH).inum == 2
    ensures out == [x] && |Content(v.State(), 2)| < TWO_TO_32
  {
    hide Geometry, Owned, Coherent, Named, Lookup, Content;
    v := OneByte(x);
    FAlone(v.names);
    OneByteOf(v.State(), x);
    var ret;
    ret, out := Read(v, F_PATH, 1, TWO_TO_32);
  }

  lemma OneByteOf(s: Fs, x: byte)
    requires 2 < |s.inodes| && s.inodes[2].size == 1 && Content(s, 2) == [x]
    ensures ByteAt(s, 2, 0) == x
  {
    hide ByteAt;
    assert Content(s, 2)[0] == ByteAt(s, 2, 0);
  }

  lemma FAlone(nm: Names)
    requires nm.tree == map[Key(ROOT, F_NAME) := Entry(0, 2, false)]
    ensures Lookup(nm.tree, F_PATH) == Found(2, false) && Lookup(nm.tree, [SLASH]) == Found(ROOT, true)
            && IsFile(nm, F_PATH)
  {
    PathOfF();
    hide Tokens;
    LookupSplit(nm.tree, F_PATH);
  }

  // ------------------------------------------------------- mknod below a file

  /** Where the slot of a lost name begins, a byte changes from even to odd. */
  lemma LostSlotByte(s: Fs, sh: Shape, s': Fs, d: nat, name: Name, ino: Inode)
    requires Geometry(s) && Owned(s, sh) && NodeLost(s, s', d, name, ino) && s.inodes[d].direct[0] != 0
    ensures var slot := FirstInvalid(DirOf(s, d), 0);
            slot < DIRENTS_PER_BLOCK ==> ByteAt(s', d, 32 * slot) != ByteAt(s, d, 32 * slot)
  {
    hide Geometry, Owned, DecodeDir, FirstClear, NewEntry, DirentByte, ByteAt;
    var slot := FirstInvalid(DirOf(s, d), 0);
    if slot < DIRENTS_PER_BLOCK {
      FirstBlock(s, sh, d);
      HeaderParity(s.disk[s.inodes[d].direct[0]], slot);
      OddHeader(false, FirstClear(s.inodeMap, 2), name);
      SlotByte(s, d, slot);
    }
  }

  /** The file's content is damaged exactly if the slot lies below its size. */
  lemma DamageIff(s: Fs, sh: Shape, s': Fs, d: nat, name: Name, ino: Inode)
    requires Geometry(s) && Owned(s, sh) && NodeLost(s, s', d, name, ino) && d != FirstClear(s.inodeMap, 2)
    requires FirstInvalid(DirOf(s, d), 0) < DIRENTS_PER_BLOCK
    ensures d < |s'.inodes| && s'.inodes[d] == s.inodes[d] && s.inodes[d].size >= 0
    ensures Content(s', d) == Content(s, d) <==> s.inodes[d].size <= 32 * FirstInvalid(DirOf(s, d), 0)
  {
    hide Geometry, Owned, DirOf, FirstClear, FirstInvalid, NewEntry, DirentByte, ByteAt;
    var slot := FirstInvalid(DirOf(s, d), 0);
    RootFacts(s, sh, d);
    if 32 * slot < s.inodes[d].size {
      SizeHasBlock(s, sh, d);
      LostSlotByte(s, sh, s', d, name, ino);
      assert Content(s, d)[32 * slot] == ByteAt(s, d, 32 * slot);
      assert Content(s', d)[32 * slot] == ByteAt(s', d, 32 * slot);
    }
  }

  /** mknod of a path below a regular file: no path is changed by it, and the
      file's content is damaged exactly if the checks pass and the first invalid
      slot of its first block, read as a directory, begins below its size. */
  method MknodUnderFile(v: Volume, path: seq<byte>, mode: u32, uid: u16, gid: u16, now: u32, ghost d: nat)
    returns (ret: int)
    requires v.Valid() && HasParent(path) && Lookup(v.names.tree, DirName(Stripped(path))) == Found(d, false)
    requires IsRegMode(mode) && MakeCode(v.State(), v.names, path) == 0 ==> MakeLegal(v.State(), v.names, path)
    modifies v`names, v.disk, v.inodeMap, v.inodes
    ensures v.Valid() && v.names == old(v.names) && Lookup(v.names.tree, path) == NotDir
    ensures d < |old(v.State()).inodes| == v.inodes.Length && old(v.State()).inodes[d].size >= 0
    ensures v.inodes[d] == old(v.State()).inodes[d]
    ensures ret == if !IsRegMode(mode) then -EINVAL else old(MakeCode(v.State(), v.names, path))
    ensures Content(v.State(), d) != Content(old(v.State()), d) <==>
            && IsRegMode(mode) && old(MakeCode(v.State(), v.names, path)) == 0
            && 32 * FirstInvalid(DirOf(old(v.State()), d), 0) < old(v.State()).inodes[d].size
  {
    hide Geometry, Owned, Coherent, Named, DirOf, Lookup, DirName, BaseName, ByteAt, MakeLegal, Stripped, LastSlash;
    hide Tokens, NewInode, HasParent, TrailingSlash;
    hide IsRegMode, FirstClear, FirstInvalid, NewEntry, DirentByte;
    ghost var s, sh, nm := v.State(), v.shape, v.names;
    LookupStripped(nm.tree, path);
    LookupOk(s, sh, nm, DirName(Stripped(path)));
    RootFacts(s, sh, d);
    ret := Mknod(v, path, mode, uid, gid, now);
    if ret == 0 {
      MadeUnder(s, nm, path);
      DamageIff(s, sh, v.State(), d, BaseName(path), NewInode(uid, gid, mode, now));
    }
  }

  lemma MadeUnder(s: Fs, nm: Names, path: seq<byte>)
    requires var p := Lookup(nm.tree, DirName(Stripped(path))); p.Found? && p.inum < |s.inodes|
    requires MakeCode(s, nm, path) == 0
    ensures FirstInvalid(DirOf(s, Lookup(nm.tree, DirName(Stripped(path))).inum), 0) < DIRENTS_PER_BLOCK
    ensures FirstClear(s.inodeMap, 2) < |s.inodeMap| && !s.inodeMap[FirstClear(s.inodeMap, 2)]
  {
    hide Tokens, Lookup, DirOf;
  }

  const X_PATH: seq<byte> := [SLASH, 102, SLASH, 120]  // /f/x

  lemma PathOfX()
    ensures Clean(X_PATH) && ShortName(X_PATH) && DirName(X_PATH) == [SLASH, 102, SLASH] && Stripped(X_PATH) == X_PATH
    ensures LastSlash(X_PATH) == 2 && Tokens([SLASH, 102, SLASH]) == [F_NAME] && Stripped([SLASH, 102, SLASH]) == F_PATH
  {
    var p := X_PATH;
    assert p[..3] == [SLASH, 102, SLASH];
    assert LastSlash(p[..3]) == 2;
    var q: seq<byte> := [SLASH, 102, SLASH];
    assert q == F_PATH + [SLASH];
    assert q[..2] == F_PATH;
    PathOfF();
    TokensTrailing(F_PATH);
  }

  /** The empty slot of a file's only byte, 0, takes the name of /f/x: mknod
      returns 0, and the file's byte is not 0 any more. */
  method NodeInFile() returns (v: Volume, ret: int)
    ensures v.Valid() && ret == 0 && Lookup(v.names.tree, X_PATH) == NotDir
    ensures 2 < v.inodes.Length && v.inodes[2].size == 1 && Content(v.State(), 2) != [0]
  {
    hide Geometry, Owned, Coherent, Named, DirOf, Lookup, DirName, BaseName, Content, MakeCode, MakeLegal;
    hide FirstInvalid, RegionCovers;
    v := OneByte(0);
    ghost var s := v.State();
    FAlone(v.names);
    PathOfX();
    RoomUnderF(s, v.shape, v.names);
    PutModeIsReg();
    ret := MknodUnderFile(v, X_PATH, PUT_MODE, 0, 0, 0, 2);
  }

  // -------------------------------------------- blocks lost by mkdir and rmdir

  const DIR_MODE: u32 := 0x1ED  // rwxr-xr-x

  lemma DirModeIsDir()
    ensures IsDirMode(OrDir(DIR_MODE))
  {
  }

  /** Marking every inode of a volume: the map of one on which none is free. */
  method MarkAllInodes(v: Volume)
    requires v.Valid()
    modifies v.inodeMap, v.disk
    ensures v.Valid() && v.State().blockMap == old(v.State()).blockMap
    ensures forall i | 0 <= i < v.inodeMap.Length :: v.State().inodeMap[i]
    ensures forall d | 0 <= d < v.inodes.Length && old(IsDir(v.State(), d)) ::
              DirOf(v.State(), d) == DirOf(old(v.State()), d)
  {
    hide Geometry, Owned, Coherent, Named, DirOf, FlushMaps, ByteAt, IsDirMode;
    ghost var s, sh, nm := v.State(), v.shape, v.names;
    for i := 0 to v.inodeMap.Length
      invariant v.State() == s.(inodeMap := v.inodeMap[..])
      invariant forall j | 0 <= j < i :: v.inodeMap[j]
    {
      InodeMapKeeps(s, v.inodeMap[..]);
      v.MarkInode(i);
    }
    InodeMapOut(s, v.inodeMap[..]);
    v.UpdateBitmap();
    MarkedReady(s, sh, nm, v.State(), 0);
    MarkedNamed(s, sh, nm, v.State(), 0);
  }

  /** A new directory can be made in a volume without names whose root is empty. */
  lemma RoomForDir(s: Fs, s': Fs, root: nat, now: u32)
    requires EmptyVolume(s, root, now) && ROOT < |s.inodes| == |s'.inodes| && DirOf(s', ROOT) == DirOf(s, ROOT)
    ensures DirCheckCode(s', NewNames(|s.inodes|), F_PATH) == 0 && HasParent(F_PATH) && !TrailingSlash(F_PATH)
  {
    hide DirOf, Tokens, BaseName, DirName, Stripped, LastSlash, EmptyVolume, FirstClear;
    RoomForF(s, root, now);
    PathOfF();
    FNotSlashed();
  }

  lemma FreshRoot(s: Fs, root: nat, now: u32)
    requires EmptyVolume(s, root, now)
    ensures ROOT < |s.inodes| && IsDir(s, ROOT)
  {
  }

  /** On a volume in the state s, with seven free blocks but no free inode, mkdir
      fails and six blocks are free. */
  method MkdirLosesBlock() returns (v: Volume, ret: int, ghost s: Fs)
    ensures Free(s) == 7 && forall i | 0 <= i < |s.inodeMap| :: s.inodeMap[i]
    ensures v.Valid() && ret == -ENOSPC && v.names.tree == map[] && Free(v.State()) == 6 && BlockLost(s, v.State())
  {
    hide Geometry, Owned, Coherent, Named, EmptyVolume, Free, LayoutOf, DirOf, DirCheckCode, ByteAt, IsDirMode;
    hide HasParent, FirstClear;
    v := FreshVolume(12, 0);
    ElevenBlocks();
    ghost var empty := v.State();
    FreshRoot(empty, 4, 0);
    MarkAllInodes(v);
    s := v.State();
    SameFree(empty, s);
    RoomForDir(empty, s, 4, 0);
    AllMarked(s);
    PathOfF();
    DirModeIsDir();
    ret := Mkdir(v, F_PATH, DIR_MODE, 0, 0, 0);
  }

  lemma AllMarked(s: Fs)
    requires forall i | 0 <= i < |s.inodeMap| :: s.inodeMap[i]
    ensures FirstClear(s.inodeMap, 2) >= |s.inodeMap| && RegionCovers(s)
  {
  }

  /** All that a volume holds is the empty directory /f, and its block is marked. */
  ghost predicate JustDir(s: Fs, nm: Names) {
    && nm.tree == map[Key(ROOT, F_NAME) := Entry(0, 2, true)]
    && 2 < |s.inodes| && 4 < s.inodes[2].direct[0] < |s.inodeMap|
    && s.inodes[2].direct[0] < |s.blockMap| && s.blockMap[s.inodes[2].direct[0]]
  }

  /** A volume with the empty directory /f, which was empty in the state s. */
  method VolumeWithDir() returns (v: Volume, ghost s: Fs)
    ensures EmptyVolume(s, 4, 0) && Free(s) == 7
    ensures fresh(v) && fresh(v.disk) && fresh(v.blockMap) && fresh(v.inodeMap) && fresh(v.inodes)
    ensures v.Valid() && JustDir(v.State(), v.names) && Free(v.State()) == 6
  {
    hide Geometry, Owned, Coherent, Named, EmptyVolume, Free, LayoutOf, DirOf, DirCheckCode, ByteAt, IsDirMode;
    hide HasParent, FirstClear, Lookup, DirName, BaseName, FirstInvalid, DirInodeOver;
    v := FreshVolume(12, 0);
    ElevenBlocks();
    s := v.State();
    ghost var nm := v.names;
    FreshRoot(s, 4, 0);
    RoomForDir(s, s, 4, 0);
    RoomForF(s, 4, 0);
    PathOfF();
    DirModeIsDir();
    var ret := Mkdir(v, F_PATH, DIR_MODE, 0, 0, 0);
    ghost var b: u32 :| DirMade(s, nm, v.State(), v.names, F_PATH, 0, 0, DIR_MODE, 0, b);
    FreshFacts(s, 4, 0);
    DirInodeHas(OrDir(DIR_MODE), b);
    SameMapSizes(s);
  }

  lemma DirInodeHas(mode: u32, b: u32)
    ensures DirInodeOver(0, 0, mode, 0, b).direct[0] == b
  {
  }

  lemma SameMapSizes(s: Fs)
    requires Geometry(s) && s.inodeMapSz == s.blockMapSz
    ensures |s.inodeMap| == |s.blockMap|
  {
  }

  lemma DirAlone(nm: Names)
    requires nm.tree == map[Key(ROOT, F_NAME) := Entry(0, 2, true)]
    ensures Lookup(nm.tree, F_PATH) == Found(2, true) && Lookup(nm.tree, [SLASH]) == Found(ROOT, true)
    ensures NoNamesIn(nm, 2) && RmdirCode(nm, F_PATH) == 0
  {
    PathOfF();
    hide Tokens;
    LookupSplit(nm.tree, F_PATH);
  }

  /** mkdir of "/f" and rmdir of "/f" on an empty volume with seven free blocks, in
      the state s, both succeed; the path is missing again, and six are free. */
  method RmdirKeepsBlock() returns (v: Volume, ret: int, ghost s: Fs)
    ensures EmptyVolume(s, 4, 0) && Free(s) == 7
    ensures v.Valid() && ret == 0 && Lookup(v.names.tree, F_PATH) == Missing && Free(v.State()) == 6
    ensures exists b :: 4 < b < v.blockMap.Length && v.State().blockMap[b]
  {
    hide Geometry, Owned, Coherent, Named, Free, Lookup, HasParent, Stripped, DirName, BaseName, ByteAt, NoNamesIn;
    hide EmptyVolume;
    v, s := VolumeWithDir();
    ghost var made := v.State();
    DirAlone(v.names);
    PathOfF();
    FNotSlashed();
    ret := Rmdir(v, F_PATH);
    SameFree(made, v.State());
    assert v.names.tree == map[];
    EmptyTree(v.names);
    assert v.State().blockMap[made.inodes[2].direct[0]];
  }

  lemma EmptyTree(nm: Names)
    requires nm.tree == map[]
    ensures Lookup(nm.tree, F_PATH) == Missing
  {
    hide Tokens;
    PathOfF();
    LookupSplit(nm.tree, F_PATH);
  }

  const F_SLASHES: seq<byte> := [SLASH, 102, SLASH, SLASH]  // /f//

  lemma PathOfSlashes()
    ensures HasParent(F_SLASHES) && TrailingSlash(StripOne(F_SLASHES)) && Stripped(F_SLASHES) == F_PATH
  {
    var p := F_SLASHES;
    assert p[..3] == [SLASH, 102, SLASH] && p[..3][..2] == F_PATH;
    PathOfSlashed(102);
  }

  /** rmdir of "/f//" returns 0, and the directory is still there. */
  method RmdirSlashed() returns (v: Volume, ret: int)
    ensures v.Valid() && ret == 0 && Lookup(v.names.tree, F_PATH) == Found(2, true)
  {
    hide Geometry, Owned, Coherent, Named, Free, Lookup, HasParent, Stripped, DirName, BaseName, ByteAt, NoNamesIn;
    hide StripOne, TrailingSlash, EmptyVolume;
    ghost var s;
    v, s := VolumeWithDir();
    DirAlone(v.names);
    PathOfSlashes();
    LookupStripped(v.names.tree, F_SLASHES);
    ret := Rmdir(v, F_SLASHES);
  }

  // ------------------------------------------------- names that come to harm

  /** mknod of "/f/" on an empty volume succeeds and leaves an entry without a
      name. */
  method MknodSlashed() returns (v: Volume, ret: int)
    ensures v.Sound() && ret == 0
    ensures forall sh, nm :: !Named(v.State(), sh, nm)
  {
    hide Geometry, Owned, Coherent, Named, EmptyVolume, Free, LayoutOf, DirOf, MakeCode, ByteAt, IsDirMode;
    hide HasParent, FirstClear, Lookup, DirName, BaseName, FirstInvalid, Stripped, NodeMade, TrailingSlash;
    v := FreshVolume(12, 0);
    ElevenBlocks();
    ghost var s, sh, nm := v.State(), v.shape, v.names;
    var path := [SLASH, 102, SLASH];
    PathOfSlashed(102);
    PathOfF();
    RoomForSlashed(s, 4, 0);
    PutModeIsReg();
    FreshRoot(s, 4, 0);
    ret := Mknod(v, path, PUT_MODE, 0, 0, 0);
    MadeNameless(s, sh, nm, v.State(), v.names, ROOT, false, NewInode(0, 0, PUT_MODE, 0));
  }

  lemma RoomForSlashed(s: Fs, root: nat, now: u32)
    requires EmptyVolume(s, root, now)
    ensures var nm, p := NewNames(|s.inodes|), [SLASH, 102, SLASH];
            MakeCode(s, nm, p) == 0 && MakeLegal(s, nm, p) && Lookup(nm.tree, [SLASH]) == Found(ROOT, true)
  {
    hide DirOf, Tokens, BaseName, DirName, Stripped, LastSlash, EmptyVolume, FirstClear, HasParent, FirstInvalid;
    RoomForF(s, root, now);
    PathOfSlashed(102);
    PathOfF();
    HasParentFacts([SLASH, 102, SLASH]);
    StrippedTokens([SLASH, 102, SLASH]);
  }

  lemma PathOfSlashed(c: byte)
    requires c != SLASH && c != 0
    ensures var p := [SLASH, c, SLASH];
            && HasParent(p) && TrailingSlash(p) && Stripped(p) == [SLASH, c] && BaseName(p) == [] && SLASH in p
            && Clean([SLASH, c]) && DirName([SLASH, c]) == [SLASH] && BaseName([SLASH, c]) == [c]
  {
    var p, q := [SLASH, c, SLASH], [SLASH, c];
    assert p[..2] == q && q[..1] == [SLASH];
    assert LastSlash(q[..1]) == 0;
  }

  /** unlink of "/f/" empties and releases the file and fails; afterwards the
      volume holds no tree of names any more. */
  method UnlinkSlashed(x: byte) returns (v: Volume, ret: int)
    ensures v.Sound() && ret == -ENOENT
    ensures forall sh, nm :: !Named(v.State(), sh, nm)
  {
    hide Geometry, Owned, Coherent, Named, Lookup, Content, HasParent, Stripped, DirName, BaseName, TrailingSlash;
    hide Unlinked, Dangles;
    v := OneByte(x);
    var path := [SLASH, 102, SLASH];
    FAlone(v.names);
    PathOfSlashed(102);
    LookupStripped(v.names.tree, path);
    ret := Unlink(v, path);
    ghost var d := Lookup(v.names.tree, DirName(Stripped(path))).inum;
    ghost var slot := v.names.tree[Key(d, BaseName(Stripped(path)))].slot;
    forall sh, nm
      ensures !Named(v.State(), sh, nm)
    {
      DanglesBreaks(v.State(), d, slot, 2, sh, nm);
    }
  }

  /** rename of "/f" to "/g/" succeeds and leaves an entry without a name. */
  method RenamedAway(x: byte) returns (v: Volume, ret: int)
    ensures v.Sound() && ret == 0
    ensures forall sh, nm :: !Named(v.State(), sh, nm)
  {
    hide Geometry, Owned, Coherent, Named, Lookup, Content, HasParent, Stripped, DirName, BaseName, TrailingSlash;
    hide SlotRenamed, ByteAt;
    hide Tokens, Clean;
    v := OneByte(x);
    ghost var s, sh0, nm0 := v.State(), v.shape, v.names;
    var dst := [SLASH, 103, SLASH];
    FAlone(v.names);
    PathOfF();
    PathOfSlashed(103);
    assert [SLASH, 103] != F_PATH;
    GMissing(v.names);
    FNotSlashed();
    LookupOk(s, sh0, nm0, [SLASH]);
    ret := Rename(v, F_PATH, dst);
    RenamedNameless(s, sh0, nm0, v.State(), ROOT, F_NAME);
    forall sh, nm
      ensures !Named(v.State(), sh, nm)
    {
      NamelessBreaks(v.State(), ROOT, nm0.tree[Key(ROOT, F_NAME)].slot, sh, nm);
    }
  }

  lemma FNotSlashed()
    ensures HasParent(F_PATH) && !TrailingSlash(F_PATH) && ShortName([SLASH, 103, SLASH])
  {
    PathOfF();
    PathOfSlashed(103);
    HasParentFacts(F_PATH);
  }

  lemma GMissing(nm: Names)
    requires nm.tree == map[Key(ROOT, F_NAME) := Entry(0, 2, false)]
    ensures !Lookup(nm.tree, [SLASH, 103, SLASH]).Found?
  {
    hide Tokens;
    PathOfSlashed(103);
    FAlone(nm);
    LookupStripped(nm.tree, [SLASH, 103, SLASH]);
  }

  /** A write of one even byte to "/" makes the root's first slot invalid: the file
      /f is not found on the device any more, and the tree of names is lost. */
  method RootWritten(x: byte, y: byte) returns (v: Volume, ret: int)
    requires y % 2 == 0
    ensures v.Sound() && !v.Valid() && ret == 1 && ROOT < v.inodes.Length && IsDirMode(v.inodes[ROOT].mode)
    ensures !DirOf(v.State(), ROOT)[0].valid && Key(ROOT, F_NAME) in v.names.tree
            && v.names.tree[Key(ROOT, F_NAME)].slot == 0
  {
    hide Geometry, Owned, Coherent, Named, Lookup, Content, Wrote, DirOf, ByteAt, IsDirMode;
    v := VolumeWithF(12, 0);
    ElevenBlocks();
    ghost var s, sh := v.State(), v.shape;
    FAlone(v.names);
    LookupOk(s, sh, v.names, [SLASH]);
    NamedUse(s, sh, v.names);
    ret := Write(v, [SLASH], [y], 0);
    RootByte(s, sh, v.State(), v.shape, y, ret);
    InvalidBreaks(v.State(), v.shape, v.names, Key(ROOT, F_NAME));
  }

  /** A name whose slot is invalid belongs to no tree of the volume. */
  lemma InvalidBreaks(s: Fs, sh: Shape, nm: Names, key: Key)
    requires key in nm.tree && key.dir < |s.inodes| && nm.tree[key].slot < DIRENTS_PER_BLOCK
    requires !DirOf(s, key.dir)[nm.tree[key].slot].valid
    ensures !Named(s, sh, nm)
  {
    hide Named, DirOf, CStr;
    if Named(s, sh, nm) {
      EntryHere(s, sh, nm, key);
    }
  }

  lemma RootByte(s: Fs, sh: Shape, s': Fs, sh': Shape, y: byte, ret: int)
    requires Geometry(s) && Owned(s, sh) && Geometry(s') && Owned(s', sh') && Wrote(s, sh, s', sh', ROOT, 0, [y], ret)
    requires UseOk(s, sh) && IsDir(s, ROOT) && s.inodes[ROOT].size == 1024 && y % 2 == 0
    ensures ret == 1 && ROOT < |s'.inodes| && IsDir(s', ROOT) && !DirOf(s', ROOT)[0].valid
  {
    hide Geometry, Owned, ByteAt, Wrote, DecodeDir, IsDirMode, Free, Need, BlocksFor, Cost;
    UseLengths(s, sh);
    assert sh.extent[ROOT] == Extent(1, 0, false, false) by { hide IsDir; }
    RootNeedsNone(sh.extent[ROOT]);
    FullWriteIffSpace(s, sh, s', sh', ROOT, 0, [y], ret);
    RootBytes(s, sh, s', sh', y);
    SizeHasBlock(s', sh', ROOT);
    FirstBlock(s', sh', ROOT);
    SlotByte(s', ROOT, 0);
    HeaderParity(s'.disk[s'.inodes[ROOT].direct[0]], 0);
  }

  lemma RootNeedsNone(e: Extent)
    requires e == Extent(1, 0, false, false)
    ensures Need(BlocksFor(e, 1)) == 1 == Cost(e)
  {
  }

  lemma RootBytes(s: Fs, sh: Shape, s': Fs, sh': Shape, y: byte)
    requires Geometry(s') && Owned(s', sh') && ROOT < |s.inodes| && s.inodes[ROOT].size == 1024
    requires Wrote(s, sh, s', sh', ROOT, 0, [y], 1)
    ensures |s'.inodes| == |s.inodes| && s'.inodes[ROOT].mode == s.inodes[ROOT].mode && s'.inodes[ROOT].size == 1024
    ensures ByteAt(s', ROOT, 0) == y
  {
    hide Geometry, Owned, ByteAt, FilledBy, Free, Cost;
    assert [y][..1] == [y];
  }

  lemma SlotByte(s: Fs, n: nat, slot: nat)
    requires n < |s.inodes| && slot < DIRENTS_PER_BLOCK && 0 < s.inodes[n].direct[0] < |s.disk|
    ensures ByteAt(s, n, 32 * slot) == s.disk[s.inodes[n].direct[0]][32 * slot]
  {
    FirstPointer(s, n);
    assert (32 * slot) / BLOCK_SIZE == 0 && (32 * slot) % BLOCK_SIZE == 32 * slot;
  }

  /** A slot is valid exactly if its first byte is odd. */
  lemma HeaderParity(b: Block, slot: nat)
    requires slot < DIRENTS_PER_BLOCK
    ensures DecodeDir(b)[slot].valid <==> b[32 * slot] % 2 == 1
  {
    assert Word(b, 8 * slot) % 2 == b[32 * slot] % 2;
  }

  lemma OddHeader(isDir: bool, c: nat, name: Name)
    requires c < 0x4000_0000 && |name| < NAME_FIELD
    ensures DirentByte(NewEntry(isDir, c, name), 0) % 2 == 1
  {
    hide PadName;
  }

  lemma RoomUnderF(s: Fs, sh: Shape, nm: Names)
    requires Geometry(s) && Owned(s, sh) && nm.tree == map[Key(ROOT, F_NAME) := Entry(0, 2, false)]
    requires 16 <= |s.inodes| <= |s.inodeMap| && !s.inodeMap[3]
    requires s.inodes[2].size == 1 && Content(s, 2) == [0] && s.inodes[2].direct[0] != 0
    ensures Lookup(nm.tree, DirName(X_PATH)) == Found(2, false)
    ensures MakeCode(s, nm, X_PATH) == 0 && MakeLegal(s, nm, X_PATH) && FirstInvalid(DirOf(s, 2), 0) == 0
  {
    hide Geometry, Owned, DecodeDir, Tokens, DirName, BaseName, LastSlash, Stripped, Clean, ShortName;
    PathOfX();
    FAlone(nm);
    PathOfF();
    assert Lookup(nm.tree, [SLASH, 102, SLASH]) == Lookup(nm.tree, F_PATH);
    assert Lookup(nm.tree, X_PATH) == NotDir by { LookupSplit(nm.tree, X_PATH); }
    FirstBlock(s, sh, 2);
    assert Content(s, 2)[0] == ByteAt(s, 2, 0);
    SlotByte(s, 2, 0);
    HeaderParity(s.disk[s.inodes[2].direct[0]], 0);
  }
}
