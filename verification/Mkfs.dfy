/** mkfs-x6: the layout of a volume of n blocks, and an image with an empty root
    directory built in place. */
module Mkfs {
  import opened Codec
  import opened Image
  import opened Forest
  import opened Flush
  import opened Namespace

  const MAGIC: u32 := 0x37363030
  const MIN_BLOCKS: nat := 5

  function DivRoundUp(n: nat, m: nat): nat
    requires m > 0
  {
    (n + m - 1) / m
  }

  /** Sizes of the regions, in blocks, and where each begins. */
  datatype Layout = Layout(
    inoMapBlks: nat, mapBlks: nat, inoBlks: nat, inodeMapBase: nat, blockMapBase: nat, inodeBase: nat, rootBase: nat)

  function LayoutOf(nBlks: nat): Layout {
    var nInos := nBlks / 4;
    var inoMapBlks := DivRoundUp(nInos, 8 * BLOCK_SIZE);
    var mapBlks := DivRoundUp(nBlks, 8 * BLOCK_SIZE);
    var inoBlks := DivRoundUp(nInos * 64, BLOCK_SIZE);
    Layout(inoMapBlks, mapBlks, inoBlks, 1, 1 + inoMapBlks, 1 + inoMapBlks + mapBlks,
        1 + inoMapBlks + mapBlks + inoBlks)
  }

  /** The regions and the root block are disjoint and fit; the bitmaps cover all
      blocks and all inodes of the region. */
  lemma LayoutFits(nBlks: nat)
    requires MIN_BLOCKS <= nBlks <= MAX_DISK_BLOCKS
    ensures var l := LayoutOf(nBlks);
            && 0 < l.inodeMapBase < l.blockMapBase < l.inodeBase < l.rootBase < nBlks
            && nBlks <= l.mapBlks * BITS_PER_BLOCK
            && nBlks / 4 <= l.inoBlks * INODES_PER_BLOCK <= l.inoMapBlks * BITS_PER_BLOCK
  {
    var nInos := nBlks / 4;
    assert DivRoundUp(nInos * 64, BLOCK_SIZE) == (nInos + 15) / 16;
  }

  /** Each region is the smallest that holds what it is for: a bit for each of the
      nBlks / 4 inodes, a bit for each block, and 64 bytes for each inode. */
  lemma LayoutSizes(nBlks: nat)
    requires nBlks >= 4
    ensures var l := LayoutOf(nBlks);
            && 8192 * (l.inoMapBlks - 1) < nBlks / 4 <= 8192 * l.inoMapBlks
            && 8192 * (l.mapBlks - 1) < nBlks <= 8192 * l.mapBlks
            && 16 * (l.inoBlks - 1) < nBlks / 4 <= 16 * l.inoBlks
            && l.inodeMapBase == 1 && l.blockMapBase == 1 + l.inoMapBlks
            && l.inodeBase == l.blockMapBase + l.mapBlks && l.rootBase == l.inodeBase + l.inoBlks
  {
    var nInos := nBlks / 4;
    assert DivRoundUp(nInos * 64, BLOCK_SIZE) == (nInos + 15) / 16;
  }

  /** Five is the least number of blocks for which they do. */
  lemma FiveIsLeast(nBlks: nat)
    requires nBlks <= MAX_DISK_BLOCKS
    ensures var l := LayoutOf(nBlks);
            0 < l.inodeMapBase < l.blockMapBase < l.inodeBase < l.rootBase < nBlks <==> nBlks >= MIN_BLOCKS
  {
    if nBlks >= MIN_BLOCKS {
      LayoutFits(nBlks);
    }
  }

  /** With fewer the root block is off the disk; with three it is on the disk, but
      the root inode would lie in it. */
  lemma FewBlocks(nBlks: nat)
    requires nBlks < MIN_BLOCKS
    ensures var l := LayoutOf(nBlks);
            if nBlks == 3 then l.rootBase < nBlks && l.inodeBase == l.rootBase else l.rootBase >= nBlks
  {
  }

  /** The superblock. */
  function SuperBlock(l: Layout, nBlks: u32): Block
    requires l.inoMapBlks < 0x1_0000_0000 && l.inoBlks < 0x1_0000_0000 && l.mapBlks < 0x1_0000_0000
  {
    EncodeWords(seq<u32>(WORDS_PER_BLOCK, i => SuperWord(l, nBlks, i)))
  }

  function SuperWord(l: Layout, nBlks: u32, i: int): u32
    requires l.inoMapBlks < 0x1_0000_0000 && l.inoBlks < 0x1_0000_0000 && l.mapBlks < 0x1_0000_0000
  {
    if i == 0 then MAGIC else if i == 1 then l.inoMapBlks else if i == 2 then l.inoBlks
    else if i == 3 then l.mapBlks else if i == 4 then nBlks else if i == 5 then 1 else 0
  }

  lemma SuperWords(l: Layout, nBlks: u32, i: nat)
    requires l.inoMapBlks < 0x1_0000_0000 && l.inoBlks < 0x1_0000_0000 && l.mapBlks < 0x1_0000_0000
    requires i < WORDS_PER_BLOCK
    ensures Word(SuperBlock(l, nBlks), i) == SuperWord(l, nBlks, i)
  {
    hide EncodeWords, Word;
    var w: Words := seq<u32>(WORDS_PER_BLOCK, j => SuperWord(l, nBlks, j));
    WordsRoundTrip(w);
    assert DecodeWords(SuperBlock(l, nBlks))[i] == w[i];
  }

  function RootInode(now: u32, root: u32): Inode {
    InodeRecord(1001, 125, 0x41FF, now, now, 1024, [root, 0, 0, 0, 0, 0], 0, 0, [0, 0, 0])
  }

  /** Bit i of the bitmap that starts at block `first`. */
  predicate BitAt(disk: seq<Block>, first: nat, i: nat)
    requires first + i / BITS_PER_BLOCK < |disk|
  {
    Bit(disk[first + i / BITS_PER_BLOCK], i % BITS_PER_BLOCK)
  }

  /** FD_SET on bit i of the map that starts at block `first`. */
  method SetBit(disk: array<Block>, first: nat, i: nat)
    requires first + i / BITS_PER_BLOCK < disk.Length
    modifies disk
    ensures disk[..] == WithBitAt(old(disk[..]), first, i)
  {
    var b := first + i / BITS_PER_BLOCK;
    disk[b] := WithBit(disk[b], i % BITS_PER_BLOCK);
  }

  function WithBitAt(disk: seq<Block>, first: nat, i: nat): seq<Block>
    requires first + i / BITS_PER_BLOCK < |disk|
  {
    var b := first + i / BITS_PER_BLOCK;
    disk[b := WithBit(disk[b], i % BITS_PER_BLOCK)]
  }

  lemma WithBitAtReads(disk: seq<Block>, first: nat, i: nat, j: nat)
    requires first + i / BITS_PER_BLOCK < |disk| && first + j / BITS_PER_BLOCK < |disk|
    ensures BitAt(WithBitAt(disk, first, i), first, j) == (j == i || BitAt(disk, first, j))
  {
    hide Bit, WithBit;
    if i / BITS_PER_BLOCK == j / BITS_PER_BLOCK {
      WithBitReads(disk[first + i / BITS_PER_BLOCK], i % BITS_PER_BLOCK, j % BITS_PER_BLOCK);
    }
  }

  lemma ZeroBitAt(disk: seq<Block>, first: nat, i: nat)
    requires first + i / BITS_PER_BLOCK < |disk| && disk[first + i / BITS_PER_BLOCK] == ZeroBlock()
    ensures !BitAt(disk, first, i)
  {
    ZeroBits(i % BITS_PER_BLOCK % 8);
  }

  /** In the n-block map at `first` exactly the bits below k are set. */
  ghost predicate BitsBelow(disk: seq<Block>, first: nat, n: nat, k: nat)
    requires first + n <= |disk|
  {
    forall j | 0 <= j < n * BITS_PER_BLOCK :: BitAt(disk, first, j) == (j < k)
  }

  lemma BitsBelowZero(disk: seq<Block>, first: nat, n: nat)
    requires first + n <= |disk| && forall b | first <= b < first + n :: disk[b] == ZeroBlock()
    ensures BitsBelow(disk, first, n, 0)
  {
    hide BitAt, ZeroBlock;
    forall j | 0 <= j < n * BITS_PER_BLOCK
      ensures !BitAt(disk, first, j)
    {
      ZeroBitAt(disk, first, j);
    }
  }

  lemma BitsBelowNext(disk: seq<Block>, first: nat, n: nat, k: nat)
    requires first + n <= |disk| && k < n * BITS_PER_BLOCK && BitsBelow(disk, first, n, k)
    ensures first + k / BITS_PER_BLOCK < |disk|
    ensures BitsBelow(WithBitAt(disk, first, k), first, n, k + 1)
  {
    hide BitAt, WithBitAt;
    WithBitAtElse(disk, first, n, k);
    forall j | 0 <= j < n * BITS_PER_BLOCK
      ensures BitAt(WithBitAt(disk, first, k), first, j) == (j < k + 1)
    {
      WithBitAtReads(disk, first, k, j);
    }
  }

  lemma WithBitAtElse(disk: seq<Block>, first: nat, n: nat, k: nat)
    requires first + n <= |disk| && k < n * BITS_PER_BLOCK
    ensures first + k / BITS_PER_BLOCK < |disk| && |WithBitAt(disk, first, k)| == |disk|
    ensures forall b | 0 <= b < |disk| && !(first <= b < first + n) :: WithBitAt(disk, first, k)[b] == disk[b]
  {
    hide WithBit;
  }

  lemma BitsBelowFrame(disk: seq<Block>, disk': seq<Block>, first: nat, n: nat, k: nat)
    requires first + n <= |disk| == |disk'| && BitsBelow(disk, first, n, k)
    requires forall b | first <= b < first + n :: disk'[b] == disk[b]
    ensures BitsBelow(disk', first, n, k)
  {
    hide Bit;
    forall j | 0 <= j < n * BITS_PER_BLOCK
      ensures BitAt(disk', first, j) == (j < k)
    {
      assert BitAt(disk, first, j) == (j < k);
    }
  }

  function RootGroup(now: u32, root: u32): (g: seq<Inode>)
    ensures |g| == INODES_PER_BLOCK
  {
    seq<Inode>(INODES_PER_BLOCK, i => if i == 1 then RootInode(now, root) else EMPTY_INODE)
  }

  /** The finished image. */
  ghost predicate Made(disk: seq<Block>, nBlks: nat, now: u32) {
    MIN_BLOCKS <= nBlks <= MAX_DISK_BLOCKS && |disk| == nBlks &&
    var l := LayoutOf(nBlks);
    && l.rootBase < nBlks && l.inoMapBlks < 0x1_0000_0000 && l.inoBlks < 0x1_0000_0000 && l.mapBlks < 0x1_0000_0000
    && disk[0] == SuperBlock(l, nBlks)
    && BitsBelow(disk, l.inodeMapBase, l.inoMapBlks, 2)
    && BitsBelow(disk, l.blockMapBase, l.mapBlks, l.rootBase + 1)
    && disk[l.inodeBase] == EncodeInodes(RootGroup(now, l.rootBase))
    && forall b | l.inodeBase < b < nBlks :: disk[b] == ZeroBlock()
  }

  /** The loop over the block map: the first `count` blocks are in use. */
  method MarkBlocks(disk: array<Block>, first: nat, n: nat, count: nat)
    requires first + n <= disk.Length && count <= n * BITS_PER_BLOCK && BitsBelow(disk[..], first, n, 0)
    modifies disk
    ensures BitsBelow(disk[..], first, n, count)
    ensures forall b | 0 <= b < disk.Length && !(first <= b < first + n) :: disk[..][b] == old(disk[..])[b]
  {
    hide BitsBelow, WithBitAt;
    for i := 0 to count
      invariant BitsBelow(disk[..], first, n, i)
      invariant forall b | 0 <= b < disk.Length && !(first <= b < first + n) :: disk[..][b] == old(disk[..])[b]
    {
      BitsBelowNext(disk[..], first, n, i);
      WithBitAtElse(disk[..], first, n, i);
      SetBit(disk, first, i);
    }
  }

  /** The program: an image of the given size in bytes, which is asserted to be
      a multiple of the block size. */
  method MakeFs(size: nat, now: u32) returns (disk: array<Block>)
    requires size % BLOCK_SIZE == 0 && MIN_BLOCKS <= size / BLOCK_SIZE <= MAX_DISK_BLOCKS
    ensures fresh(disk) && Made(disk[..], size / BLOCK_SIZE, now)
    ensures disk.Length == size / 1024
    ensures var super, n := disk[0], size / 1024;
            && Word(super, 0) == 0x37363030 && Word(super, 4) == n && Word(super, 5) == 1
            && 8192 * (Word(super, 1) - 1) < n / 4 <= 8192 * Word(super, 1)
            && 16 * (Word(super, 2) - 1) < n / 4 <= 16 * Word(super, 2)
            && 8192 * (Word(super, 3) - 1) < n <= 8192 * Word(super, 3)
            && 1 + Word(super, 1) + Word(super, 3) + Word(super, 2) < n
  {
    hide ZeroBlock, SuperBlock, BitsBelow, WithBitAt, EncodeInodes, LayoutOf;
    hide Word, Bit, DecodeInode, Made;
    var nBlks := size / BLOCK_SIZE;
    var l := LayoutOf(nBlks);
    LayoutFits(nBlks);
    LayoutSums(nBlks);
    disk := new Block[nBlks](_ => ZeroBlock());
    disk[0] := SuperBlock(l, nBlks);
    ghost var d0 := disk[..];
    BitsBelowZero(d0, l.inodeMapBase, l.inoMapBlks);
    BitsBelowZero(d0, l.blockMapBase, l.mapBlks);

    BitsBelowNext(disk[..], l.inodeMapBase, l.inoMapBlks, 0);
    WithBitAtElse(disk[..], l.inodeMapBase, l.inoMapBlks, 0);
    SetBit(disk, l.inodeMapBase, 0);
    BitsBelowNext(disk[..], l.inodeMapBase, l.inoMapBlks, 1);
    WithBitAtElse(disk[..], l.inodeMapBase, l.inoMapBlks, 1);
    SetBit(disk, l.inodeMapBase, 1);
    ghost var d1 := disk[..];
    BitsBelowFrame(d0, d1, l.blockMapBase, l.mapBlks, 0);

    MarkBlocks(disk, l.blockMapBase, l.mapBlks, l.rootBase + 1);
    ghost var d2 := disk[..];
    BitsBelowFrame(d1, d2, l.inodeMapBase, l.inoMapBlks, 2);

    disk[l.inodeBase] := EncodeInodes(RootGroup(now, l.rootBase));
    BitsBelowFrame(d2, disk[..], l.inodeMapBase, l.inoMapBlks, 2);
    BitsBelowFrame(d2, disk[..], l.blockMapBase, l.mapBlks, l.rootBase + 1);
    IsMade(disk[..], nBlks, now);
    SuperNumbers(disk[..], nBlks, now);
  }

  lemma IsMade(disk: seq<Block>, nBlks: nat, now: u32)
    requires MIN_BLOCKS <= nBlks <= MAX_DISK_BLOCKS && |disk| == nBlks
    requires var l := LayoutOf(nBlks);
             && l.rootBase < nBlks && l.inoMapBlks < 0x1_0000_0000 && l.inoBlks < 0x1_0000_0000
             && l.mapBlks < 0x1_0000_0000 && l.inodeBase < nBlks
             && l.inodeMapBase + l.inoMapBlks <= nBlks && l.blockMapBase + l.mapBlks <= nBlks
             && disk[0] == SuperBlock(l, nBlks)
             && BitsBelow(disk, l.inodeMapBase, l.inoMapBlks, 2)
             && BitsBelow(disk, l.blockMapBase, l.mapBlks, l.rootBase + 1)
             && disk[l.inodeBase] == EncodeInodes(RootGroup(now, l.rootBase))
             && forall b | l.inodeBase < b < nBlks :: disk[b] == ZeroBlock()
    ensures Made(disk, nBlks, now)
  {
    hide LayoutOf, SuperBlock, BitsBelow, EncodeInodes, ZeroBlock;
  }

  lemma LayoutSums(nBlks: nat)
    requires MIN_BLOCKS <= nBlks <= MAX_DISK_BLOCKS
    ensures var l := LayoutOf(nBlks);
            && l.inodeMapBase == 1 && l.blockMapBase == 1 + l.inoMapBlks && l.inodeBase == l.blockMapBase + l.mapBlks
            && l.rootBase == l.inodeBase + l.inoBlks && l.rootBase < nBlks
            && 0 < l.inoMapBlks < 0x1_0000_0000 && 0 < l.inoBlks < 0x1_0000_0000 && 0 < l.mapBlks < 0x1_0000_0000
            && l.rootBase + 1 <= l.mapBlks * BITS_PER_BLOCK
  {
    LayoutFits(nBlks);
  }

  /** The superblock, in numbers: each region is the smallest that holds what it is
      for, and there is room for the root block after the last. */
  lemma SuperNumbers(disk: seq<Block>, nBlks: nat, now: u32)
    requires Made(disk, nBlks, now)
    ensures |disk| == nBlks > 0
    ensures var super := disk[0];
            && Word(super, 0) == 0x37363030 && Word(super, 4) == nBlks && Word(super, 5) == 1
            && 8192 * (Word(super, 1) - 1) < nBlks / 4 <= 8192 * Word(super, 1)
            && 16 * (Word(super, 2) - 1) < nBlks / 4 <= 16 * Word(super, 2)
            && 8192 * (Word(super, 3) - 1) < nBlks <= 8192 * Word(super, 3)
            && 1 + Word(super, 1) + Word(super, 3) + Word(super, 2) < nBlks
  {
    hide LayoutOf, SuperBlock, Word, BitsBelow, EncodeInodes, ZeroBlock;
    var l := LayoutOf(nBlks);
    LayoutSizes(nBlks);
    SuperWords(l, nBlks, 0);
    SuperWords(l, nBlks, 1);
    SuperWords(l, nBlks, 2);
    SuperWords(l, nBlks, 3);
    SuperWords(l, nBlks, 4);
    SuperWords(l, nBlks, 5);
  }

  /** The maps have the bits of inodes 0 and 1, and of the blocks up to the root's,
      which comes after the inode region. */
  lemma BitsOfImage(disk: seq<Block>, nBlks: nat, now: u32, i: nat)
    requires Made(disk, nBlks, now)
    ensures |disk| == nBlks > 0
    ensures var imaps, bmaps, regions := Word(disk[0], 1), Word(disk[0], 3), Word(disk[0], 2);
            && 1 + imaps + bmaps <= |disk|
            && (i < 8192 * imaps ==> Bit(disk[1 + i / 8192], i % 8192) == (i < 2))
            && (i < 8192 * bmaps ==> Bit(disk[1 + imaps + i / 8192], i % 8192) == (i <= 1 + imaps + bmaps + regions))
  {
    hide LayoutOf, SuperBlock, Word, EncodeInodes, ZeroBlock, Bit, BitsBelow;
    var l := LayoutOf(nBlks);
    MadeGeometry(disk, nBlks, now);
    LayoutSums(nBlks);
    if i < 8192 * l.inoMapBlks {
      BitBelow(disk, 1, l.inoMapBlks, 2, i);
    }
    if i < 8192 * l.mapBlks {
      BitBelow(disk, 1 + l.inoMapBlks, l.mapBlks, l.rootBase + 1, i);
    }
  }

  lemma BitBelow(disk: seq<Block>, first: nat, n: nat, k: nat, i: nat)
    requires first + n <= |disk| && BitsBelow(disk, first, n, k) && i < n * BITS_PER_BLOCK
    ensures Bit(disk[first + i / BITS_PER_BLOCK], i % BITS_PER_BLOCK) == (i < k)
  {
    hide Bit;
    assert BitAt(disk, first, i) == (i < k);
  }

  /** The first block of the inode region holds the root's inode alone, which leads
      to the root block; all blocks after it are zero. */
  lemma InodesOfImage(disk: seq<Block>, nBlks: nat, now: u32, t: nat)
    requires Made(disk, nBlks, now) && t < 16
    ensures |disk| == nBlks > 0
    ensures var base := 1 + Word(disk[0], 1) + Word(disk[0], 3);
            && base < |disk|
            && (forall b, i | base < b < |disk| && 0 <= i < 1024 :: disk[b][i] == 0)
            && var ino := DecodeInode(disk[base], t);
            if t == 1 then
              && ino.uid == 1001 && ino.gid == 125 && ino.mode == 0x41FF && ino.ctime == now && ino.mtime == now
              && ino.size == 1024 && ino.direct == [base + Word(disk[0], 2), 0, 0, 0, 0, 0]
              && ino.indir1 == 0 && ino.indir2 == 0 && ino.pad == [0, 0, 0]
            else ino == DecodeInode(ZeroBlock(), t)
  {
    hide LayoutOf, SuperBlock, Word, EncodeInodes, Bit, BitsBelow, DecodeInode;
    var l := LayoutOf(nBlks);
    MadeGeometry(disk, nBlks, now);
    LayoutSums(nBlks);
    InodesRoundTrip(RootGroup(now, l.rootBase), t);
    ZeroInode(t);
  }

  // ------------------------------------------------- the image is a volume

  ghost function NewShape(n: nat, root: nat): Shape {
    Shape(map[root := Data(ROOT, 0)],
          seq<Extent>(n, i => if i == ROOT then Extent(1, 0, false, false) else EMPTY_EXTENT))
  }

  ghost function NewNames(n: nat): Names {
    Names(map[], map[], seq<nat>(n, _ => 0))
  }

  /** A volume just made: blocks up to the root block and inodes 0 and 1 are in
      use, and the root is an empty directory. */
  ghost predicate EmptyVolume(s: Fs, root: nat, now: u32) {
    && Geometry(s) && root == DataStart(s) < Cap(s)
    && (forall b | 0 <= b < |s.blockMap| :: s.blockMap[b] == (b <= root))
    && (forall n | 0 <= n < |s.inodeMap| :: s.inodeMap[n] == (n < 2))
    && (forall n | 0 <= n < |s.inodes| :: s.inodes[n] == if n == ROOT then RootInode(now, root) else EMPTY_INODE)
    && s.disk[root] == ZeroBlock()
  }

  lemma MadeGeometry(disk: seq<Block>, nBlks: nat, now: u32)
    requires Made(disk, nBlks, now)
    ensures var l := LayoutOf(nBlks);
            && Word(disk[0], 1) == l.inoMapBlks && Word(disk[0], 2) == l.inoBlks
            && Word(disk[0], 3) == l.mapBlks && Word(disk[0], 4) == nBlks
    ensures Loadable(disk) && Geometry(Loaded(disk))
            && DataStart(Loaded(disk)) == LayoutOf(nBlks).rootBase < Cap(Loaded(disk))
    ensures Cap(Loaded(disk)) == nBlks
  {
    hide LayoutOf, SuperBlock, Word, BitsBelow, EncodeInodes, ZeroBlock, Bit, DecodeInode;
    var l := LayoutOf(nBlks);
    SuperWords(l, nBlks, 1);
    SuperWords(l, nBlks, 2);
    SuperWords(l, nBlks, 3);
    SuperWords(l, nBlks, 4);
    LayoutSums(nBlks);
    LayoutFits(nBlks);
  }

  lemma MadeInode(disk: seq<Block>, nBlks: nat, now: u32, n: nat)
    requires Made(disk, nBlks, now)
    requires n < LayoutOf(nBlks).inoBlks * INODES_PER_BLOCK
    ensures var l := LayoutOf(nBlks);
            l.inodeBase + n / INODES_PER_BLOCK < nBlks
            && DecodeInode(disk[l.inodeBase + n / INODES_PER_BLOCK], n % INODES_PER_BLOCK)
               == if n == ROOT then RootInode(now, l.rootBase) else EMPTY_INODE
  {
    hide LayoutOf, SuperBlock, Word, BitsBelow, EncodeInodes, ZeroBlock, Bit, DecodeInode, RootInode;
    var l := LayoutOf(nBlks);
    LayoutSums(nBlks);
    if n < INODES_PER_BLOCK {
      InodesRoundTrip(RootGroup(now, l.rootBase), n);
    } else {
      ZeroInode(n % INODES_PER_BLOCK);
    }
  }

  lemma MadeEmpty(disk: seq<Block>, nBlks: nat, now: u32)
    requires Made(disk, nBlks, now)
    ensures Loadable(disk) && EmptyVolume(Loaded(disk), LayoutOf(nBlks).rootBase, now) && Coherent(Loaded(disk))
  {
    hide LayoutOf, SuperBlock, Word, EncodeInodes, ZeroBlock, Bit, DecodeInode, RootInode, Geometry, DataStart, Cap;
    hide Coherent;
    MadeGeometry(disk, nBlks, now);
    LoadedCoherent(disk);
    LayoutSums(nBlks);
    var s, l := Loaded(disk), LayoutOf(nBlks);
    forall b | 0 <= b < |s.blockMap|
      ensures s.blockMap[b] == (b <= l.rootBase)
    {
      assert BitAt(disk, l.blockMapBase, b) == (b < l.rootBase + 1);
    }
    forall n | 0 <= n < |s.inodeMap|
      ensures s.inodeMap[n] == (n < 2)
    {
      assert BitAt(disk, l.inodeMapBase, n) == (n < 2);
    }
    forall n | 0 <= n < |s.inodes|
      ensures s.inodes[n] == if n == ROOT then RootInode(now, l.rootBase) else EMPTY_INODE
    {
      MadeInode(disk, nBlks, now, n);
    }
  }

  lemma {:induction false} EmptyVolumeAt(s: Fs, root: nat, now: u32, p: Pos)
    requires EmptyVolume(s, root, now)
    ensures At(s, p) == if p == Data(ROOT, 0) then root else 0
    decreases Depth(p)
  {
    hide DataStart, Cap, Word;
    if p.inum < |s.inodes| && InRange(p) && !InInode(p) {
      EmptyVolumeAt(s, root, now, Parent(p));
    }
  }

  /** mkfs establishes the whole invariant, for every size. */
  lemma EmptyVolumeValid(s: Fs, root: nat, now: u32)
    requires EmptyVolume(s, root, now)
    ensures Owned(s, NewShape(|s.inodes|, root))
    ensures Named(s, NewShape(|s.inodes|, root), NewNames(|s.inodes|))
  {
    hide At, ZeroBlock, DecodeDir, EmptyDirent;
    var sh, nm := NewShape(|s.inodes|, root), NewNames(|s.inodes|);
    SameGeometry(s, s);
    hide Geometry, DataStart;
    forall p
      ensures At(s, p) == if p == Data(ROOT, 0) then root else 0
    {
      EmptyVolumeAt(s, root, now, p);
    }
    assert RootInode(now, root).mode == 0x41FF && IsDirMode(0x41FF);
    forall d, i | 0 <= d < |s.inodes| && IsDir(s, d) && 0 <= i < DIRENTS_PER_BLOCK
      ensures SlotOk(nm, d, i, DirOf(s, d)[i])
    {
      EmptySlot(i);
    }
  }

  lemma EmptyGeometry(s: Fs, root: nat, now: u32)
    requires EmptyVolume(s, root, now)
    ensures Geometry(s)
  {
  }

  lemma EmptySlot(i: nat)
    requires i < DIRENTS_PER_BLOCK
    ensures !DecodeDir(ZeroBlock())[i].valid && 0 in DecodeDir(ZeroBlock())[i].name
  {
    ZeroDir(i);
    assert EmptyDirent().name[0] == 0;
  }
}
