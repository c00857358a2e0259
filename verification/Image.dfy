/** The state of a mounted volume as a value: the block device, the in-memory
    bitmaps and inode table of homework.c, and what it means for that state to
    hold a forest of block trees in which no block has two owners. */
module Image {
  import opened Codec

  const MAX_DISK_BLOCKS: nat := 0x1F_FFFF  // image sizes are C ints
  const IND1_FIRST: nat := 6               // first position reached through indir_1
  const IND2_FIRST: nat := 262             // first position reached through indir_2
  const MAX_POSITIONS: nat := 65798        // 6 + 256 + 256 * 256

  const ENOENT: int := 2
  const EEXIST: int := 17
  const ENOTDIR: int := 20
  const EISDIR: int := 21
  const EINVAL: int := 22
  const ENOSPC: int := 28
  const ENOTEMPTY: int := 39

  datatype Fs = Fs(
    inodeMapSz: nat, blockMapSz: nat, numBlocks: nat,
    disk: seq<Block>, inodeMap: seq<bool>, blockMap: seq<bool>, inodes: seq<Inode>)

  /** S_ISDIR */
  predicate IsDirMode(mode: u32) { (mode / 0x1000) % 0x10 == 4 }

  /** S_ISREG */
  predicate IsRegMode(mode: u32) { (mode / 0x1000) % 0x10 == 8 }

  /** First block after the superblock, the two bitmaps and the inode region. */
  function DataStart(s: Fs): nat {
    1 + s.inodeMapSz + s.blockMapSz + |s.inodes| / INODES_PER_BLOCK
  }

  /** Blocks that the allocator considers. */
  function Cap(s: Fs): nat {
    if |s.blockMap| < s.numBlocks then |s.blockMap| else s.numBlocks
  }

  ghost predicate Geometry(s: Fs) {
    && |s.inodeMap| == s.inodeMapSz * BITS_PER_BLOCK
    && |s.blockMap| == s.blockMapSz * BITS_PER_BLOCK
    && |s.inodes| % INODES_PER_BLOCK == 0
    && 2 <= |s.inodes| <= |s.inodeMap|
    && DataStart(s) <= Cap(s)
    && s.numBlocks <= |s.disk| <= MAX_DISK_BLOCKS
  }

  // ------------------------------------------------------ block positions

  /** A place in an inode's block tree that can hold a block number. */
  datatype Pos =
    | Data(inum: nat, k: nat)  // the k-th data block
    | Root1(inum: nat)         // indir_1
    | Root2(inum: nat)         // indir_2
    | Leaf(inum: nat, i: nat)  // the i-th index block under indir_2

  predicate InInode(p: Pos) {
    match p
    case Data(_, k) => k < N_DIRECT
    case Leaf(_, _) => false
    case _ => true
  }

  predicate InRange(p: Pos) {
    match p
    case Data(_, k) => k < MAX_POSITIONS
    case Leaf(_, i) => i < WORDS_PER_BLOCK
    case _ => true
  }

  /** The index block whose words hold the block number at p. */
  function Parent(p: Pos): Pos
    requires !InInode(p)
  {
    match p
    case Data(n, k) => if k < IND2_FIRST then Root1(n) else Leaf(n, (k - IND2_FIRST) / WORDS_PER_BLOCK)
    case Leaf(n, _) => Root2(n)
  }

  /** Which word of the parent index block holds the block number at p. */
  function Slot(p: Pos): nat
    requires !InInode(p) && InRange(p)
    ensures Slot(p) < WORDS_PER_BLOCK
  {
    match p
    case Data(_, k) => if k < IND2_FIRST then k - IND1_FIRST else (k - IND2_FIRST) % WORDS_PER_BLOCK
    case Leaf(_, i) => i
  }

  function Depth(p: Pos): nat {
    match p
    case Data(_, k) => if k < N_DIRECT then 0 else if k < IND2_FIRST then 1 else 2
    case Leaf(_, _) => 1
    case _ => 0
  }

  function InodePtr(ino: Inode, p: Pos): u32
    requires InInode(p)
  {
    match p
    case Data(_, k) => ino.direct[k]
    case Root1(_) => ino.indir1
    case Root2(_) => ino.indir2
  }

  function SetInodePtr(ino: Inode, p: Pos, b: u32): Inode
    requires InInode(p)
  {
    match p
    case Data(_, k) => ino.(direct := ino.direct[k := b])
    case Root1(_) => ino.(indir1 := b)
    case Root2(_) => ino.(indir2 := b)
  }

  /** Word j of block r, or 0 when r is no block that may hold pointers. */
  function Via(s: Fs, r: nat, j: nat): u32
    requires j < WORDS_PER_BLOCK
  {
    if 0 < r < |s.disk| then Word(s.disk[r], j) else 0
  }

  /** The block number at position p, 0 when there is none. */
  function At(s: Fs, p: Pos): u32
    decreases Depth(p)
  {
    if p.inum >= |s.inodes| || !InRange(p) then 0
    else if InInode(p) then InodePtr(s.inodes[p.inum], p)
    else Via(s, At(s, Parent(p)), Slot(p))
  }

  // --------------------------------------------- which positions are used

  /** How far one inode's tree is filled. */
  datatype Extent = Extent(blocks: nat, leaves: nat, root1: bool, root2: bool)

  const EMPTY_EXTENT: Extent := Extent(0, 0, false, false)

  /** Data positions are filled without holes, and an index block exists only
      when everything before its range is full. */
  ghost predicate Compact(e: Extent) {
    && e.blocks <= MAX_POSITIONS && e.leaves <= WORDS_PER_BLOCK
    && (e.root1 ==> e.blocks >= IND1_FIRST)
    && (e.blocks > IND1_FIRST ==> e.root1)
    && (e.root2 ==> e.blocks >= IND2_FIRST)
    && (e.leaves > 0 ==> e.root2 && e.blocks >= IND2_FIRST + WORDS_PER_BLOCK * (e.leaves - 1))
    && (e.blocks > IND2_FIRST ==> e.blocks <= IND2_FIRST + WORDS_PER_BLOCK * e.leaves)
  }

  /** Blocks used by a tree of that extent, index blocks included. */
  function Cost(e: Extent): nat {
    e.blocks + e.leaves + B(e.root1) + B(e.root2)
  }

  /** What one volume's block trees look like: who owns each block, and the
      extent of each inode. */
  datatype Shape = Shape(owner: map<nat, Pos>, extent: seq<Extent>)

  ghost predicate Present(sh: Shape, p: Pos) {
    p.inum < |sh.extent| &&
    match p
    case Data(n, k) => k < sh.extent[n].blocks
    case Root1(n) => sh.extent[n].root1
    case Root2(n) => sh.extent[n].root2
    case Leaf(n, i) => i < sh.extent[n].leaves
  }

  ghost predicate Extents(s: Fs, sh: Shape) {
    && |sh.extent| == |s.inodes|
    && forall n | 0 <= n < |s.inodes| ::
         Compact(sh.extent[n]) && 0 <= s.inodes[n].size <= BLOCK_SIZE * sh.extent[n].blocks
  }

  /** The ownership invariant. */
  ghost predicate Owned(s: Fs, sh: Shape)
    requires Geometry(s)
  {
    && Extents(s, sh)
    && (forall b | 0 <= b < DataStart(s) :: s.blockMap[b])
    && (forall p :: At(s, p) != 0 <==> Present(sh, p))
    && (forall p :: At(s, p) != 0 ==> At(s, p) in sh.owner && sh.owner[At(s, p)] == p)
    && (forall b :: b in sh.owner ==> DataStart(s) <= b < Cap(s) && s.blockMap[b] && At(s, sh.owner[b]) == b)
  }

  // ------------------------------------------------------------- contents

  /** Byte i of the data blocks of inode n, 0 beyond them. */
  function ByteAt(s: Fs, n: nat, i: nat): byte {
    var b := At(s, Data(n, i / BLOCK_SIZE));
    if 0 < b < |s.disk| then s.disk[b][i % BLOCK_SIZE] else 0
  }

  /** What a reader of file n sees. */
  function Content(s: Fs, n: nat): seq<byte>
    requires n < |s.inodes| && s.inodes[n].size >= 0
  {
    seq<byte>(s.inodes[n].size, i requires 0 <= i => ByteAt(s, n, i))
  }

  function FreeCount(m: seq<bool>, n: nat): nat
    requires n <= |m|
  {
    if n == 0 then 0 else FreeCount(m, n - 1) + B(!m[n - 1])
  }

  function Free(s: Fs): nat
  {
    FreeCount(s.blockMap, Cap(s))
  }

  lemma {:induction false} FreeCountSet(m: seq<bool>, n: nat, b: nat)
    requires n <= |m| && b < n && !m[b]
    ensures FreeCount(m[b := true], n) == FreeCount(m, n) - 1
  {
    if b == n - 1 {
      FreeCountSame(m, m[b := true], n - 1);
    } else {
      FreeCountSet(m, n - 1, b);
    }
  }

  lemma {:induction false} FreeCountSame(m: seq<bool>, m': seq<bool>, n: nat)
    requires n <= |m| && n <= |m'| && m[..n] == m'[..n]
    ensures FreeCount(m, n) == FreeCount(m', n)
  {
    if n > 0 {
      assert m[..n - 1] == m[..n][..n - 1] && m'[..n - 1] == m'[..n][..n - 1];
      assert m[..n][n - 1] == m'[..n][n - 1];
      FreeCountSame(m, m', n - 1);
    }
  }

  lemma {:induction false} FreeCountZero(m: seq<bool>, n: nat)
    requires n <= |m|
    ensures FreeCount(m, n) == 0 <==> forall b | 0 <= b < n :: m[b]
  {
    if n > 0 {
      FreeCountZero(m, n - 1);
    }
  }

  // ------------------------------------------------------------ disk image

  ghost predicate MapsCoherent(s: Fs)
    requires Geometry(s)
  {
    && (forall i | 0 <= i < |s.inodeMap| :: s.inodeMap[i] == Bit(s.disk[1 + i / BITS_PER_BLOCK], i % BITS_PER_BLOCK))
    && (forall i | 0 <= i < |s.blockMap| ::
          s.blockMap[i] == Bit(s.disk[1 + s.inodeMapSz + i / BITS_PER_BLOCK], i % BITS_PER_BLOCK))
  }

  function InodeBlock(s: Fs, n: nat): nat {
    1 + s.inodeMapSz + s.blockMapSz + n / INODES_PER_BLOCK
  }

  /** Every inode but those in `dirty` is on disk as it is in memory. */
  ghost predicate InodesCoherent(s: Fs, dirty: set<nat>)
    requires Geometry(s)
  {
    forall n | 0 <= n < |s.inodes| && n !in dirty ::
      s.inodes[n] == DecodeInode(s.disk[InodeBlock(s, n)], n % INODES_PER_BLOCK)
  }

  ghost predicate SuperCoherent(s: Fs)
    requires Geometry(s)
  {
    && Word(s.disk[0], 1) == s.inodeMapSz && Word(s.disk[0], 2) == |s.inodes| / INODES_PER_BLOCK
    && Word(s.disk[0], 3) == s.blockMapSz && Word(s.disk[0], 4) == s.numBlocks
  }

  /** Memory is what fs_init would load from the disk. */
  ghost predicate Coherent(s: Fs)
    requires Geometry(s)
  {
    SuperCoherent(s) && MapsCoherent(s) && InodesCoherent(s, {})
  }
}
