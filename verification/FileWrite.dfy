/** fs_write and its three levels.  Every level loop is proved to leave the tree
    of one file grown and its bytes spliced, whatever the disk's free space. */
module FileWrite {
  import opened Codec
  import opened Image
  import opened Forest
  import opened Flush
  import opened Volumes
  import opened Alloc

  const FILE_IN_INODE: nat := 6144       // N_DIRECT * BLOCK_SIZE
  const FILE_1ST_LEVEL: nat := 262144    // 256 * BLOCK_SIZE
  const LEVEL3_START: nat := 268288      // FILE_IN_INODE + FILE_1ST_LEVEL
  const MAX_FILE: nat := 67377152        // MAX_POSITIONS * BLOCK_SIZE

  /** Writing `data` at `off` of file n has so far led from (s0, sh0) to (s, sh). */
  ghost predicate Progress(s0: Fs, sh0: Shape, s: Fs, sh: Shape, n: nat, off: nat, data: seq<byte>) {
    && Grown(s0, sh0, s, sh, n)
    && s.inodes[n].size == s0.inodes[n].size
    && Spliced(s0, s, n, off, data)
  }

  lemma ProgressStart(s: Fs, sh: Shape, n: nat, off: nat)
    requires Geometry(s) && Owned(s, sh) && n < |s.inodes|
    ensures Progress(s, sh, s, sh, n, off, [])
  {
    GrownRefl(s, sh, n);
  }

  lemma ProgressTrans(s0: Fs, sh0: Shape, s: Fs, sh: Shape, s': Fs, sh': Shape, n: nat, off: nat, d: seq<byte>,
                      e: seq<byte>)
    requires Progress(s0, sh0, s, sh, n, off, d) && Progress(s, sh, s', sh', n, off + |d|, e)
    ensures Progress(s0, sh0, s', sh', n, off, d + e)
  {
    hide Spliced;
    GrownTrans(s0, sh0, s, sh, s', sh', n);
    SplicedTrans(s0, s, s', n, off, d, e);
  }

  /** Data blocks a file has after w bytes were stored from off on. */
  function Filled(blocks: nat, off: nat, w: nat): nat {
    var k := (off + w + BLOCK_SIZE - 1) / BLOCK_SIZE;
    if w > 0 && k > blocks then k else blocks
  }

  lemma FilledMore(blocks: nat, off: nat, w: nat, x: nat)
    ensures Filled(Filled(blocks, off, w), off + w, x) == Filled(blocks, off, w + x)
  {
  }

  lemma FilledNothing(blocks: nat, off: nat)
    ensures Filled(blocks, off, 0) == blocks
  {
  }

  lemma FilledSlot(blocks: nat, k: nat, o: nat, len: nat)
    requires o + len <= BLOCK_SIZE && 0 < len && k <= blocks
    ensures Filled(blocks, BLOCK_SIZE * k + o, len) == if k == blocks then blocks + 1 else blocks
  {
  }

  lemma BlockSplit(k: nat, r: nat)
    requires r < BLOCK_SIZE
    ensures (BLOCK_SIZE * k + r) / BLOCK_SIZE == k && (BLOCK_SIZE * k + r) % BLOCK_SIZE == r
  {
  }

  lemma RootsNeeded(e: Extent)
    requires Compact(e)
    ensures e.blocks > IND1_FIRST ==> e.root1
    ensures e.blocks > IND2_FIRST ==> e.root2
  {
  }

  lemma Advance(data: seq<byte>, w: nat, n: nat)
    requires w + n <= |data|
    ensures data[..w] + data[w..][..n] == data[..w + n] && data[w..][n..] == data[w + n..]
  {
  }

  lemma ProgressExtended(s: Fs, sh: Shape, s': Fs, sh': Shape, p: Pos, off: nat)
    requires Extended(s, sh, s', sh', p)
    ensures Progress(s, sh, s', sh', p.inum, off, [])
    ensures p.inum < |sh.extent| == |sh'.extent| && sh'.extent[p.inum] == Grow(sh.extent[p.inum], p)
    ensures forall q :: q != p ==> At(s', q) == At(s, q)
  {
    hide At, ByteAt, Cost, Grow;
  }

  function Patch(blk: Block, o: nat, d: seq<byte>): Block
    requires o + |d| <= BLOCK_SIZE
  {
    blk[..o] + d + blk[o + |d|..]
  }

  ghost function Patched(s: Fs, b: nat, o: nat, d: seq<byte>): Fs
    requires b < |s.disk| && o + |d| <= BLOCK_SIZE
  {
    s.(disk := s.disk[b := Patch(s.disk[b], o, d)])
  }

  lemma PatchedOwned(s: Fs, sh: Shape, n: nat, k: nat, o: nat, d: seq<byte>)
    requires Geometry(s) && Owned(s, sh) && o + |d| <= BLOCK_SIZE && At(s, Data(n, k)) != 0
    ensures var b := At(s, Data(n, k));
            && b < |s.disk| && b >= DataStart(s) && b in sh.owner && sh.owner[b] == Data(n, k)
            && Geometry(Patched(s, b, o, d)) && Owned(Patched(s, b, o, d), sh)
            && (forall q :: At(Patched(s, b, o, d), q) == At(s, q))
  {
    hide At, Compact, Present, Patch;
    FrameOwned(s, sh, Patched(s, At(s, Data(n, k)), o, d));
  }

  lemma PatchedBytes(s: Fs, sh: Shape, n: nat, k: nat, o: nat, d: seq<byte>)
    requires Geometry(s) && Owned(s, sh) && o + |d| <= BLOCK_SIZE && At(s, Data(n, k)) != 0
    requires At(s, Data(n, k)) < |s.disk|
    ensures Spliced(s, Patched(s, At(s, Data(n, k)), o, d), n, BLOCK_SIZE * k + o, d)
  {
    hide At, Extents, Present, Owned, Geometry;
    var b := At(s, Data(n, k));
    var s' := Patched(s, b, o, d);
    var off := BLOCK_SIZE * k + o;
    PatchedOwned(s, sh, n, k, o, d);
    forall i: nat
      ensures ByteAt(s', n, i) == if off <= i < off + |d| then d[i - off] else ByteAt(s, n, i)
    {
      var q := Data(n, i / BLOCK_SIZE);
      assert At(s', q) == At(s, q);
      if At(s, q) == b {
        assert q == Data(n, k) by { SameOwner(s, sh, q, Data(n, k)); }
      } else {
        assert i / BLOCK_SIZE != k;
      }
    }
  }

  lemma SameOwner(s: Fs, sh: Shape, p: Pos, q: Pos)
    requires Geometry(s) && Owned(s, sh) && At(s, p) == At(s, q) != 0
    ensures p == q
  {
    hide At, Present, Extents;
  }

  lemma PatchedProgress(s: Fs, sh: Shape, n: nat, k: nat, o: nat, d: seq<byte>)
    requires Geometry(s) && Owned(s, sh) && n < |s.inodes| && o + |d| <= BLOCK_SIZE && At(s, Data(n, k)) != 0
    requires At(s, Data(n, k)) < |s.disk|
    ensures Progress(s, sh, Patched(s, At(s, Data(n, k)), o, d), sh, n, BLOCK_SIZE * k + o, d)
  {
    hide Spliced, At, Owned, Geometry, Patch, FreeCount;
    OwnedMarked(s, sh);
    PatchedOwned(s, sh, n, k, o, d);
    PatchedBytes(s, sh, n, k, o, d);
  }

  lemma PatchedCoherent(s: Fs, b: nat, o: nat, d: seq<byte>)
    requires Geometry(s) && Coherent(s) && DataStart(s) <= b < |s.disk| && o + |d| <= BLOCK_SIZE
    ensures Geometry(Patched(s, b, o, d)) && Coherent(Patched(s, b, o, d))
  {
    hide Geometry, DataStart, SuperCoherent, MapsCoherent, InodesCoherent, Patch;
    SameGeometry(s, s);
    SameGeometry(s, Patched(s, b, o, d));
    MetaAgreeCoherent(s, Patched(s, b, o, d), {});
  }

  /** read, memcpy, write: bytes d into data block b of file n at o. */
  method PatchBlock(v: Volume, b: nat, o: nat, d: seq<byte>, ghost n: nat, ghost k: nat)
    requires v.Sound() && n < v.inodes.Length && o + |d| <= BLOCK_SIZE
    requires b == At(v.State(), Data(n, k)) && b != 0
    modifies v.disk
    ensures v.Sound() && b < v.disk.Length && v.State() == Patched(old(v.State()), b, o, d)
    ensures Progress(old(v.State()), v.shape, v.State(), v.shape, n, BLOCK_SIZE * k + o, d)
    ensures forall q :: At(v.State(), q) == At(old(v.State()), q)
    ensures b in v.shape.owner && v.shape.owner[b] == Data(n, k)
  {
    hide Geometry, Owned, Coherent, Progress, Patch, At, DataStart;
    ghost var s, sh := v.State(), v.shape;
    PatchedOwned(s, sh, n, k, o, d);
    PatchedProgress(s, sh, n, k, o, d);
    PatchedCoherent(s, b, o, d);
    SameGeometry(s, s);
    var blk := v.ReadBlock(b);
    v.WriteBlock(b, Patch(blk, o, d));
  }

  // --------------------------------------------------------- first level

  /** inode->direct[k] is the block at data position k. */
  lemma DirectSlot(s: Fs, sh: Shape, n: nat, k: nat)
    requires Geometry(s) && Owned(s, sh) && n < |s.inodes| && k < N_DIRECT
    ensures |sh.extent| == |s.inodes| && s.inodes[n].direct[k] == At(s, Data(n, k))
    ensures At(s, Data(n, k)) != 0 <==> k < sh.extent[n].blocks
    ensures k == sh.extent[n].blocks ==> Next(sh.extent[n], Data(n, k))
  {
  }

  /** One round of the first-level loop: bytes d at o of direct block k, which is
      allocated first if it is not there.  False when the disk is full. */
  method FillDirect(v: Volume, inum: nat, k: nat, o: nat, d: seq<byte>) returns (ok: bool)
    requires v.Sound() && inum < v.inodes.Length && k < N_DIRECT && o + |d| <= BLOCK_SIZE && d != []
    requires k <= v.shape.extent[inum].blocks
    modifies v`shape, v.disk, v.blockMap, v.inodes
    ensures v.Sound() && inum < |v.shape.extent|
    ensures ok ==> Progress(old(v.State()), old(v.shape), v.State(), v.shape, inum, BLOCK_SIZE * k + o, d)
                   && k < v.shape.extent[inum].blocks
                        == Filled(old(v.shape.extent[inum].blocks), BLOCK_SIZE * k + o, |d|)
    ensures v.shape.extent[inum] == old(v.shape.extent[inum]).(blocks := v.shape.extent[inum].blocks)
    ensures !ok ==> v.State() == old(v.State()) && v.shape == old(v.shape) && Free(v.State()) == 0
                    && k == v.shape.extent[inum].blocks
  {
    hide Geometry, Owned, Coherent, Progress, Extended, At, Next, Free, Filled;
    ghost var s0, sh0 := v.State(), v.shape;
    ghost var p, off := Data(inum, k), BLOCK_SIZE * k + o;
    ProgressStart(s0, sh0, inum, off);
    DirectSlot(s0, sh0, inum, k);
    FilledSlot(sh0.extent[inum].blocks, k, o, |d|);
    if v.inodes[inum].direct[k] == 0 {
      ok := AllocPointer(v, Data(inum, k));
      if !ok {
        return;
      }
      ProgressExtended(s0, sh0, v.State(), v.shape, p, off);
    }
    ghost var s1, sh1 := v.State(), v.shape;
    DirectSlot(s1, sh1, inum, k);
    PatchBlock(v, v.inodes[inum].direct[k], o, d, inum, k);
    ProgressTrans(s0, sh0, s1, sh1, v.State(), v.shape, inum, off, [], d);
    assert [] + d == d;
    return true;
  }

  method WriteLevel1(v: Volume, inum: nat, offset: nat, len: nat, data: seq<byte>) returns (written: nat)
    requires v.Sound() && inum < v.inodes.Length && len <= |data|
    requires offset < FILE_IN_INODE && offset <= BLOCK_SIZE * v.shape.extent[inum].blocks
    modifies v`shape, v.disk, v.blockMap, v.inodes
    ensures v.Sound() && written <= len && offset + written <= FILE_IN_INODE
    ensures Progress(old(v.State()), old(v.shape), v.State(), v.shape, inum, offset, data[..written])
    ensures inum < |v.shape.extent| && offset + written <= BLOCK_SIZE * v.shape.extent[inum].blocks
    ensures v.shape.extent[inum]
            == old(v.shape.extent[inum]).(blocks := Filled(old(v.shape.extent[inum].blocks), offset, written))
    ensures written < len && offset + written < FILE_IN_INODE ==>
              Free(v.State()) == 0 && offset + written == BLOCK_SIZE * v.shape.extent[inum].blocks
  {
    hide Geometry, Owned, Coherent, Progress, At, Next, Free, Filled;
    ghost var s0, sh0 := v.State(), v.shape;
    ProgressStart(s0, sh0, inum, offset);
    DirectSlot(s0, sh0, inum, 0);
    written := 0;
    var buf := data;
    var blockDirect := offset / BLOCK_SIZE;
    var tempLen: int := len;
    var inBlkOffset: nat := offset % BLOCK_SIZE;
    assert data[..0] == [];
    FilledNothing(sh0.extent[inum].blocks, offset);
    while blockDirect < N_DIRECT && tempLen > 0
      invariant v.Sound() && 0 <= tempLen == len - written && buf == data[written..]
      invariant Progress(s0, sh0, v.State(), v.shape, inum, offset, data[..written])
      invariant tempLen > 0 ==> BLOCK_SIZE * blockDirect + inBlkOffset == offset + written && inBlkOffset < BLOCK_SIZE
      invariant inum < |v.shape.extent| && offset + written <= BLOCK_SIZE * v.shape.extent[inum].blocks
      invariant blockDirect <= N_DIRECT && offset + written <= FILE_IN_INODE
      invariant v.shape.extent[inum] == sh0.extent[inum].(blocks := Filled(sh0.extent[inum].blocks, offset, written))
      decreases N_DIRECT - blockDirect
    {
      var inBlkLen: nat;
      if tempLen + inBlkOffset > BLOCK_SIZE {
        inBlkLen := BLOCK_SIZE - inBlkOffset;
        tempLen := tempLen - inBlkLen;
      } else {
        inBlkLen := tempLen;
        tempLen := 0;
      }
      ghost var s1, sh1 := v.State(), v.shape;
      var ok := FillDirect(v, inum, blockDirect, inBlkOffset, buf[..inBlkLen]);
      if !ok {
        return;
      }
      ProgressTrans(s0, sh0, s1, sh1, v.State(), v.shape, inum, offset, data[..written], buf[..inBlkLen]);
      Advance(data, written, inBlkLen);
      FilledMore(sh0.extent[inum].blocks, offset, written, inBlkLen);
      buf := buf[inBlkLen..];
      written := written + inBlkLen;
      inBlkOffset, blockDirect := 0, blockDirect + 1;
    }
  }

  // -------------------------------------------------------- second level

  /** base is the first data position under some height-1 index block. */
  ghost predicate IsBase(base: nat) {
    base == IND1_FIRST
    || (IND2_FIRST <= base < MAX_POSITIONS && (base - IND2_FIRST) % WORDS_PER_BLOCK == 0)
  }

  /** The height-1 index block over data positions base .. base + 255. */
  ghost function RootPos(n: nat, base: nat): Pos
    requires IsBase(base)
  {
    if base == IND1_FIRST then Root1(n) else Leaf(n, (base - IND2_FIRST) / WORDS_PER_BLOCK)
  }

  lemma RootSlot(n: nat, base: nat, j: nat)
    requires IsBase(base) && j < WORDS_PER_BLOCK
    ensures var p := Data(n, base + j);
            InRange(p) && !InInode(p) && Parent(p) == RootPos(n, base) && Slot(p) == j && !RootPos(n, base).Data?
  {
  }

  lemma WordSlot(s: Fs, sh: Shape, n: nat, base: nat, root: nat, j: nat)
    requires Geometry(s) && Owned(s, sh) && n < |s.inodes| && IsBase(base) && j < WORDS_PER_BLOCK
    requires root == At(s, RootPos(n, base)) != 0
    ensures |sh.extent| == |s.inodes| && root < |s.disk| && root in sh.owner && sh.owner[root] == RootPos(n, base)
    ensures Word(s.disk[root], j) == At(s, Data(n, base + j))
    ensures At(s, Data(n, base + j)) != 0 <==> base + j < sh.extent[n].blocks
    ensures base + j == sh.extent[n].blocks ==> Next(sh.extent[n], Data(n, base + j))
    ensures base <= sh.extent[n].blocks
  {
    hide Word;
    RootSlot(n, base, j);
    assert Present(sh, RootPos(n, base));
  }

  /** The index blocks of file n are those of s. */
  ghost predicate IndexSame(s: Fs, sh: Shape, s': Fs, sh': Shape, n: nat) {
    && n < |sh.extent| && n < |sh'.extent|
    && sh'.extent[n] == sh.extent[n].(blocks := sh'.extent[n].blocks)
    && forall p: Pos :: !p.Data? ==> At(s', p) == At(s, p)
  }

  /** One round of the second-level loop; h1tBlk is the copy of the index block. */
  method FillSlot(v: Volume, root: nat, h1tBlk: Words, j: nat, o: nat, d: seq<byte>, ghost n: nat, ghost base: nat)
    returns (ok: bool, h1tBlk': Words)
    requires v.Sound() && n < v.inodes.Length && IsBase(base) && j < WORDS_PER_BLOCK && o + |d| <= BLOCK_SIZE && d != []
    requires root == At(v.State(), RootPos(n, base)) && root != 0
    requires root < v.disk.Length && h1tBlk == DecodeWords(v.State().disk[root])
    requires base + j <= v.shape.extent[n].blocks
    modifies v`shape, v.disk, v.blockMap
    ensures v.Sound() && n < |v.shape.extent|
    ensures root < v.disk.Length && h1tBlk' == DecodeWords(v.State().disk[root])
    ensures ok ==> Progress(old(v.State()), old(v.shape), v.State(), v.shape, n, BLOCK_SIZE * (base + j) + o, d)
                   && base + j < v.shape.extent[n].blocks
                        == Filled(old(v.shape.extent[n].blocks), BLOCK_SIZE * (base + j) + o, |d|)
                   && IndexSame(old(v.State()), old(v.shape), v.State(), v.shape, n)
    ensures !ok ==> v.State() == old(v.State()) && v.shape == old(v.shape) && Free(v.State()) == 0
                    && base + j == v.shape.extent[n].blocks
  {
    hide Geometry, Owned, Coherent, Progress, Extended, At, Next, Free, Word, RootPos, IsBase, Filled;
    ghost var s0, sh0 := v.State(), v.shape;
    ghost var p, off := Data(n, base + j), BLOCK_SIZE * (base + j) + o;
    ProgressStart(s0, sh0, n, off);
    WordSlot(s0, sh0, n, base, root, j);
    FilledSlot(sh0.extent[n].blocks, base + j, o, |d|);
    RootSlot(n, base, j);
    h1tBlk' := h1tBlk;
    if h1tBlk[j] == 0 {
      ok, h1tBlk' := AllocWord(v, root, h1tBlk, j, p);
      if !ok {
        return;
      }
      ProgressExtended(s0, sh0, v.State(), v.shape, p, off);
    }
    ghost var s1, sh1 := v.State(), v.shape;
    WordSlot(s1, sh1, n, base, root, j);
    PatchBlock(v, h1tBlk'[j], o, d, n, base + j);
    ProgressTrans(s0, sh0, s1, sh1, v.State(), v.shape, n, off, [], d);
    assert [] + d == d;
    ok := true;
  }

  method WriteLevel2(v: Volume, root: nat, offset: nat, len: nat, data: seq<byte>, ghost n: nat, ghost base: nat)
    returns (written: nat)
    requires v.Sound() && n < v.inodes.Length && len <= |data| && IsBase(base)
    requires root == At(v.State(), RootPos(n, base)) && root != 0
    requires FILE_IN_INODE <= offset < LEVEL3_START
    requires BLOCK_SIZE * base + offset - FILE_IN_INODE <= BLOCK_SIZE * v.shape.extent[n].blocks
    modifies v`shape, v.disk, v.blockMap
    ensures v.Sound() && written <= len && offset + written <= LEVEL3_START
    ensures Progress(old(v.State()), old(v.shape), v.State(), v.shape, n,
                     BLOCK_SIZE * base + offset - FILE_IN_INODE, data[..written])
    ensures IndexSame(old(v.State()), old(v.shape), v.State(), v.shape, n)
    ensures v.shape.extent[n].blocks
            == Filled(old(v.shape.extent[n].blocks), BLOCK_SIZE * base + offset - FILE_IN_INODE, written)
    ensures n < |v.shape.extent|
            && BLOCK_SIZE * base + offset - FILE_IN_INODE + written <= BLOCK_SIZE * v.shape.extent[n].blocks
    ensures written < len && offset + written < LEVEL3_START ==>
              Free(v.State()) == 0
              && BLOCK_SIZE * base + offset - FILE_IN_INODE + written == BLOCK_SIZE * v.shape.extent[n].blocks
  {
    hide Geometry, Owned, Coherent, Progress, At, Free, Word, RootPos, IsBase, Filled;
    ghost var s0, sh0 := v.State(), v.shape;
    ghost var start := BLOCK_SIZE * base + offset - FILE_IN_INODE;
    ProgressStart(s0, sh0, n, start);
    WordSlot(s0, sh0, n, base, root, 0);
    RootSlot(n, base, 0);
    written := 0;
    var buf := data;
    var h1tOffset := offset - FILE_IN_INODE;
    var blockDirect := h1tOffset / BLOCK_SIZE;
    var tempLen: int := len;
    var inBlkOffset: nat := h1tOffset % BLOCK_SIZE;
    var rootBlk := v.ReadBlock(root);
    var h1tBlk := DecodeWords(rootBlk);
    assert data[..0] == [];
    FilledNothing(sh0.extent[n].blocks, start);
    while blockDirect < WORDS_PER_BLOCK && tempLen > 0
      invariant v.Sound() && 0 <= tempLen == len - written && buf == data[written..]
      invariant Progress(s0, sh0, v.State(), v.shape, n, start, data[..written])
      invariant root < v.disk.Length && h1tBlk == DecodeWords(v.State().disk[root])
      invariant tempLen > 0 ==>
                  BLOCK_SIZE * blockDirect + inBlkOffset == h1tOffset + written && inBlkOffset < BLOCK_SIZE
      invariant n < |v.shape.extent| && start + written <= BLOCK_SIZE * v.shape.extent[n].blocks
      invariant blockDirect <= WORDS_PER_BLOCK && offset + written <= LEVEL3_START
      invariant IndexSame(s0, sh0, v.State(), v.shape, n)
      invariant v.shape.extent[n].blocks == Filled(sh0.extent[n].blocks, start, written)
      decreases WORDS_PER_BLOCK - blockDirect
    {
      var inBlkLen: nat;
      if tempLen + inBlkOffset > BLOCK_SIZE {
        inBlkLen := BLOCK_SIZE - inBlkOffset;
        tempLen := tempLen - inBlkLen;
      } else {
        inBlkLen := tempLen;
        tempLen := 0;
      }
      ghost var s1, sh1 := v.State(), v.shape;
      var ok;
      ok, h1tBlk := FillSlot(v, root, h1tBlk, blockDirect, inBlkOffset, buf[..inBlkLen], n, base);
      if !ok {
        return;
      }
      ProgressTrans(s0, sh0, s1, sh1, v.State(), v.shape, n, start, data[..written], buf[..inBlkLen]);
      Advance(data, written, inBlkLen);
      FilledMore(sh0.extent[n].blocks, start, written, inBlkLen);
      buf := buf[inBlkLen..];
      written := written + inBlkLen;
      inBlkOffset, blockDirect := 0, blockDirect + 1;
    }
  }

  // --------------------------------------------------------- third level

  lemma LeafSlot(s: Fs, sh: Shape, n: nat, root: nat, i: nat)
    requires Geometry(s) && Owned(s, sh) && n < |s.inodes| && i < WORDS_PER_BLOCK
    requires root == At(s, Root2(n)) != 0
    ensures |sh.extent| == |s.inodes| && root < |s.disk| && root in sh.owner && sh.owner[root] == Root2(n)
    ensures Word(s.disk[root], i) == At(s, Leaf(n, i))
    ensures At(s, Leaf(n, i)) != 0 <==> i < sh.extent[n].leaves
    ensures IND2_FIRST + WORDS_PER_BLOCK * i <= sh.extent[n].blocks && i >= sh.extent[n].leaves ==>
              Next(sh.extent[n], Leaf(n, i))
    ensures var base := IND2_FIRST + WORDS_PER_BLOCK * i;
            IsBase(base) && RootPos(n, base) == Leaf(n, i)
    ensures Compact(sh.extent[n])
  {
    hide Word;
    assert Present(sh, Root2(n));
  }

  /** The leaf index block that covers the current chunk, allocated if needed. */
  method LeafBlock(v: Volume, root: nat, h2tBlk: Words, i: nat, ghost n: nat, ghost off: nat)
    returns (ok: bool, h2tBlk': Words)
    requires v.Sound() && n < v.inodes.Length && i < WORDS_PER_BLOCK
    requires root == At(v.State(), Root2(n)) && root != 0
    requires root < v.disk.Length && h2tBlk == DecodeWords(v.State().disk[root])
    requires Free(v.State()) > 0 || i < v.shape.extent[n].leaves ==>
               IND2_FIRST + WORDS_PER_BLOCK * i <= v.shape.extent[n].blocks
    modifies v`shape, v.disk, v.blockMap
    ensures v.Sound() && n < |v.shape.extent|
    ensures root == At(v.State(), Root2(n))
    ensures v.shape.extent[n].root1 == old(v.shape.extent[n].root1)
            && v.shape.extent[n].root2 == old(v.shape.extent[n].root2)
    ensures root < v.disk.Length && h2tBlk' == DecodeWords(v.State().disk[root])
    ensures ok ==> Progress(old(v.State()), old(v.shape), v.State(), v.shape, n, off, [])
                   && At(v.State(), Leaf(n, i)) == h2tBlk'[i] != 0 && i < v.shape.extent[n].leaves
                   && v.shape.extent[n].blocks == old(v.shape.extent[n].blocks)
                   && (Free(old(v.State())) > 0 || i < old(v.shape.extent[n].leaves))
    ensures !ok ==> v.State() == old(v.State()) && v.shape == old(v.shape) && Free(v.State()) == 0
                    && i >= v.shape.extent[n].leaves
  {
    hide Geometry, Owned, Coherent, Progress, Extended, At, Next, Free, Word, RootPos, IsBase;
    ghost var s0, sh0 := v.State(), v.shape;
    ProgressStart(s0, sh0, n, off);
    LeafSlot(s0, sh0, n, root, i);
    ok, h2tBlk' := true, h2tBlk;
    if h2tBlk[i] == 0 {
      ok, h2tBlk' := AllocWord(v, root, h2tBlk, i, Leaf(n, i));
      if !ok {
        return;
      }
      ProgressExtended(s0, sh0, v.State(), v.shape, Leaf(n, i), off);
      LeafSlot(v.State(), v.shape, n, root, i);
    }
  }

  /** Writing below a leaf leaves the root's words alone. */
  lemma RootWords(s: Fs, sh: Shape, s': Fs, sh': Shape, n: nat, root: nat, h2tBlk: Words)
    requires Geometry(s) && Owned(s, sh) && Geometry(s') && Owned(s', sh') && n < |s.inodes| == |s'.inodes|
    requires root == At(s, Root2(n)) && root != 0 && IndexSame(s, sh, s', sh', n)
    requires root < |s.disk| && h2tBlk == DecodeWords(s.disk[root])
    ensures root == At(s', Root2(n)) && root < |s'.disk| && h2tBlk == DecodeWords(s'.disk[root])
  {
    hide Geometry, Owned, At, Next, Word, RootPos, IsBase, Compact;
    LeafSlot(s', sh', n, root, 0);
    forall i | 0 <= i < WORDS_PER_BLOCK
      ensures Word(s'.disk[root], i) == h2tBlk[i]
    {
      LeafSlot(s, sh, n, root, i);
      LeafSlot(s', sh', n, root, i);
    }
  }

  /** One round of the third-level loop: up to len bytes below leaf i, from o on.
      False when leaf i is missing and cannot be allocated. */
  method FillLeaf(v: Volume, root: nat, h2tBlk: Words, i: nat, o: nat, len: nat, data: seq<byte>, ghost n: nat)
    returns (ok: bool, h2tBlk': Words, written: nat)
    requires v.Sound() && n < v.inodes.Length && i < WORDS_PER_BLOCK && o < FILE_1ST_LEVEL && len <= |data|
    requires root == At(v.State(), Root2(n)) && root != 0
    requires root < v.disk.Length && h2tBlk == DecodeWords(v.State().disk[root])
    requires Free(v.State()) > 0 || i < v.shape.extent[n].leaves ==>
               LEVEL3_START + FILE_1ST_LEVEL * i + o <= BLOCK_SIZE * v.shape.extent[n].blocks
    modifies v`shape, v.disk, v.blockMap
    ensures v.Sound() && n < |v.shape.extent| && written <= len && o + written <= FILE_1ST_LEVEL
    ensures v.shape.extent[n].root1 == old(v.shape.extent[n].root1)
            && v.shape.extent[n].root2 == old(v.shape.extent[n].root2)
    ensures root == At(v.State(), Root2(n)) && root < v.disk.Length && h2tBlk' == DecodeWords(v.State().disk[root])
    ensures ok ==>
              var end := LEVEL3_START + FILE_1ST_LEVEL * i + o;
              && Progress(old(v.State()), old(v.shape), v.State(), v.shape, n, end, data[..written])
              && end + written <= BLOCK_SIZE * v.shape.extent[n].blocks
              && v.shape.extent[n].blocks == Filled(old(v.shape.extent[n].blocks), end, written)
              && (Free(old(v.State())) > 0 || i < old(v.shape.extent[n].leaves))
              && (written < len && o + written < FILE_1ST_LEVEL ==>
                    Free(v.State()) == 0 && end + written == BLOCK_SIZE * v.shape.extent[n].blocks
                    && v.shape.extent[n].leaves <= i + 1)
    ensures !ok ==> v.State() == old(v.State()) && v.shape == old(v.shape) && Free(v.State()) == 0
                    && i >= v.shape.extent[n].leaves
                    && BLOCK_SIZE * v.shape.extent[n].blocks <= LEVEL3_START + FILE_1ST_LEVEL * i
  {
    hide Geometry, Owned, Coherent, Progress, At, Next, Free, Word, RootPos, IsBase, Filled;
    ghost var s0, sh0 := v.State(), v.shape;
    ghost var end := LEVEL3_START + FILE_1ST_LEVEL * i + o;
    LeafSlot(s0, sh0, n, root, i);
    written := 0;
    ok, h2tBlk' := LeafBlock(v, root, h2tBlk, i, n, end);
    if !ok {
      return;
    }
    ghost var s1, sh1 := v.State(), v.shape;
    written := WriteLevel2(v, h2tBlk'[i], o + N_DIRECT * BLOCK_SIZE, len, data, n, IND2_FIRST + WORDS_PER_BLOCK * i);
    ProgressTrans(s0, sh0, s1, sh1, v.State(), v.shape, n, end, [], data[..written]);
    assert [] + data[..written] == data[..written];
    RootWords(s1, sh1, v.State(), v.shape, n, root, h2tBlk');
    LeafSlot(v.State(), v.shape, n, root, i);
  }

  method WriteLevel3(v: Volume, root: nat, offset: nat, len: nat, data: seq<byte>, ghost n: nat) returns (written: nat)
    requires v.Sound() && n < v.inodes.Length && len <= |data|
    requires root == At(v.State(), Root2(n)) && root != 0
    requires LEVEL3_START <= offset <= BLOCK_SIZE * v.shape.extent[n].blocks
    modifies v`shape, v.disk, v.blockMap
    ensures v.Sound() && written <= len
    ensures Progress(old(v.State()), old(v.shape), v.State(), v.shape, n, offset, data[..written])
    ensures n < |v.shape.extent| && offset + written <= BLOCK_SIZE * v.shape.extent[n].blocks
    ensures v.shape.extent[n].blocks == Filled(old(v.shape.extent[n].blocks), offset, written)
    ensures v.shape.extent[n].root1 == old(v.shape.extent[n].root1)
            && v.shape.extent[n].root2 == old(v.shape.extent[n].root2)
    ensures written < len && offset + written < MAX_FILE ==>
              Free(v.State()) == 0 && offset + written == BLOCK_SIZE * v.shape.extent[n].blocks
  {
    hide Geometry, Owned, Coherent, Progress, At, Next, Free, Word, RootPos, IsBase, Compact, Filled;
    ghost var s0, sh0 := v.State(), v.shape;
    ProgressStart(s0, sh0, n, offset);
    LeafSlot(s0, sh0, n, root, 0);
    written := 0;
    var buf := data;
    var h2tOffset := offset - FILE_IN_INODE - FILE_1ST_LEVEL;
    var blockDirect := h2tOffset / FILE_1ST_LEVEL;
    var tempLen: int := len;
    var inBlkOffset: nat := h2tOffset % FILE_1ST_LEVEL;
    var rootBlk := v.ReadBlock(root);
    var h2tBlk := DecodeWords(rootBlk);
    ghost var full := false;  // a round came back short
    assert data[..0] == [];
    FilledNothing(sh0.extent[n].blocks, offset);
    while blockDirect < WORDS_PER_BLOCK && tempLen > 0
      invariant v.Sound() && 0 <= tempLen <= len - written && buf == data[written..]
      invariant Progress(s0, sh0, v.State(), v.shape, n, offset, data[..written])
      invariant root == At(v.State(), Root2(n)) && root < v.disk.Length && h2tBlk == DecodeWords(v.State().disk[root])
      invariant n < |v.shape.extent| && offset + written <= BLOCK_SIZE * v.shape.extent[n].blocks
      invariant inBlkOffset < FILE_1ST_LEVEL
      invariant v.shape.extent[n].blocks == Filled(sh0.extent[n].blocks, offset, written)
      invariant v.shape.extent[n].root1 == sh0.extent[n].root1 && v.shape.extent[n].root2 == sh0.extent[n].root2
      invariant !full ==> tempLen == len - written
      invariant !full && tempLen > 0 ==> FILE_1ST_LEVEL * blockDirect + inBlkOffset == h2tOffset + written
      invariant full ==> Free(v.State()) == 0 && offset + written == BLOCK_SIZE * v.shape.extent[n].blocks
                         && blockDirect >= v.shape.extent[n].leaves
      decreases WORDS_PER_BLOCK - blockDirect
    {
      var inBlkLen: nat;
      if tempLen + inBlkOffset > FILE_1ST_LEVEL {
        inBlkLen := FILE_1ST_LEVEL - inBlkOffset;
        tempLen := tempLen - inBlkLen;
      } else {
        inBlkLen := tempLen;
        tempLen := 0;
      }
      ghost var s1, sh1 := v.State(), v.shape;
      var ok, writtenNext;
      ok, h2tBlk, writtenNext := FillLeaf(v, root, h2tBlk, blockDirect, inBlkOffset, inBlkLen, buf, n);
      if !ok {
        return;
      }
      ProgressTrans(s0, sh0, s1, sh1, v.State(), v.shape, n, offset, data[..written], buf[..writtenNext]);
      Advance(data, written, writtenNext);
      FilledMore(sh0.extent[n].blocks, offset, written, writtenNext);
      if writtenNext == 0 {
        assert data[..written + 0] == data[..written];
        break;
      }
      full := writtenNext < inBlkLen;
      buf := buf[writtenNext..];
      written := written + writtenNext;
      inBlkOffset, blockDirect := 0, blockDirect + 1;
    }
  }

  // ------------------------------------------------------------ fs_write

  lemma RootFacts(s: Fs, sh: Shape, n: nat)
    requires Geometry(s) && Owned(s, sh) && n < |s.inodes|
    ensures |sh.extent| == |s.inodes| && Compact(sh.extent[n])
    ensures s.inodes[n].indir1 == At(s, Root1(n)) && (s.inodes[n].indir1 != 0 <==> sh.extent[n].root1)
    ensures s.inodes[n].indir2 == At(s, Root2(n)) && (s.inodes[n].indir2 != 0 <==> sh.extent[n].root2)
    ensures 0 <= s.inodes[n].size <= BLOCK_SIZE * sh.extent[n].blocks
  {
    assert Present(sh, Root1(n)) == sh.extent[n].root1;
  }

  /** The blocks that file n has or could still get. */
  ghost function Budget(s: Fs, sh: Shape, n: nat): nat
    requires n < |sh.extent|
  {
    Free(s) + Cost(sh.extent[n])
  }

  /** The part of a write that starts in the range of indir_1, allocating the
      index root first.  False when the root cannot be allocated. */
  method WriteSingle(v: Volume, inum: nat, offset: nat, len: nat, data: seq<byte>) returns (ok: bool, written: nat)
    requires v.Sound() && inum < v.inodes.Length && len <= |data|
    requires FILE_IN_INODE <= offset < LEVEL3_START && offset <= BLOCK_SIZE * v.shape.extent[inum].blocks
    modifies v`shape, v.disk, v.blockMap, v.inodes
    ensures v.Sound() && written <= len && offset + written <= LEVEL3_START && inum < |v.shape.extent|
    ensures ok ==> Progress(old(v.State()), old(v.shape), v.State(), v.shape, inum, offset, data[..written])
    ensures ok ==>
              v.shape.extent[inum] == old(v.shape.extent[inum]).(
                blocks := Filled(old(v.shape.extent[inum].blocks), offset, written), root1 := true)
    ensures ok ==> offset + written <= BLOCK_SIZE * v.shape.extent[inum].blocks
    ensures ok && written < len && offset + written < LEVEL3_START ==>
              Free(v.State()) == 0 && offset + written == BLOCK_SIZE * v.shape.extent[inum].blocks
    ensures ok <==> old(v.shape.extent[inum].root1) || Free(old(v.State())) > 0
    ensures !ok ==> v.State() == old(v.State()) && v.shape == old(v.shape) && written == 0
  {
    hide Geometry, Owned, Coherent, Progress, Extended, At, Free, Word, IsBase, Compact, Filled;
    ghost var s0, sh0 := v.State(), v.shape;
    ProgressStart(s0, sh0, inum, offset);
    RootFacts(s0, sh0, inum);
    written := 0;
    if v.inodes[inum].indir1 == 0 {
      Root1Next(sh0.extent[inum], inum);
      ok := AllocPointer(v, Root1(inum));
      if !ok {
        return;
      }
      ProgressExtended(s0, sh0, v.State(), v.shape, Root1(inum), offset);
      RootFacts(v.State(), v.shape, inum);
    }
    ghost var s1, sh1 := v.State(), v.shape;
    FirstBase();
    written := WriteLevel2(v, v.inodes[inum].indir1, offset, len, data, inum, IND1_FIRST);
    ProgressTrans(s0, sh0, s1, sh1, v.State(), v.shape, inum, offset, [], data[..written]);
    assert [] + data[..written] == data[..written];
    ok := true;
  }

  lemma FirstBase()
    ensures IsBase(IND1_FIRST)
  {
  }

  lemma Root1Next(e: Extent, n: nat)
    requires Compact(e) && !e.root1 && e.blocks >= IND1_FIRST
    ensures Next(e, Root1(n)) && e.blocks == IND1_FIRST && Cost(e) == 6
  {
  }

  lemma Root2Next(e: Extent, n: nat)
    requires Compact(e) && !e.root2 && e.blocks >= IND2_FIRST
    ensures Next(e, Root2(n)) && e.blocks == IND2_FIRST && Cost(e) == 263
  {
  }

  /** The part of a write that starts in the range of indir_2. */
  method WriteDouble(v: Volume, inum: nat, offset: nat, len: nat, data: seq<byte>) returns (ok: bool, written: nat)
    requires v.Sound() && inum < v.inodes.Length && len <= |data|
    requires LEVEL3_START <= offset <= BLOCK_SIZE * v.shape.extent[inum].blocks
    modifies v`shape, v.disk, v.blockMap, v.inodes
    ensures v.Sound() && written <= len && inum < |v.shape.extent|
    ensures ok ==> Progress(old(v.State()), old(v.shape), v.State(), v.shape, inum, offset, data[..written])
    ensures ok ==> offset + written <= BLOCK_SIZE * v.shape.extent[inum].blocks
    ensures ok && written < len && offset + written < MAX_FILE ==>
              Free(v.State()) == 0 && offset + written == BLOCK_SIZE * v.shape.extent[inum].blocks
    ensures ok ==> v.shape.extent[inum].blocks == Filled(old(v.shape.extent[inum].blocks), offset, written)
                   && v.shape.extent[inum].root1 == old(v.shape.extent[inum].root1) && v.shape.extent[inum].root2
    ensures ok <==> old(v.shape.extent[inum].root2) || Free(old(v.State())) > 0
    ensures !ok ==> v.State() == old(v.State()) && v.shape == old(v.shape) && written == 0
  {
    hide Geometry, Owned, Coherent, Progress, Extended, At, Free, Word, IsBase, Compact, Filled;
    ghost var s0, sh0 := v.State(), v.shape;
    ProgressStart(s0, sh0, inum, offset);
    RootFacts(s0, sh0, inum);
    written := 0;
    if v.inodes[inum].indir2 == 0 {
      Root2Next(sh0.extent[inum], inum);
      ok := AllocPointer(v, Root2(inum));
      if !ok {
        return;
      }
      ProgressExtended(s0, sh0, v.State(), v.shape, Root2(inum), offset);
      RootFacts(v.State(), v.shape, inum);
    }
    ghost var s1, sh1 := v.State(), v.shape;
    written := WriteLevel3(v, v.inodes[inum].indir2, offset, len, data, inum);
    ProgressTrans(s0, sh0, s1, sh1, v.State(), v.shape, inum, offset, [], data[..written]);
    assert [] + data[..written] == data[..written];
    ok := true;
  }

  ghost function Resized(s: Fs, n: nat, size: i32): Fs
    requires Geometry(s) && n < |s.inodes|
  {
    s.(inodes := s.inodes[n := s.inodes[n].(size := size)])
  }

  lemma ResizedSteps(s: Fs, sh: Shape, n: nat, size: i32)
    requires Geometry(s) && Owned(s, sh) && Coherent(s) && n < |s.inodes|
    requires 0 <= size <= BLOCK_SIZE * sh.extent[n].blocks
    ensures var s1 := Resized(s, n, size);
            Geometry(s1) && var s2 := FlushInode(s1, n);
            && Geometry(s2) && Owned(s2, sh) && Coherent(s2)
            && Grown(s, sh, s2, sh, n) && Spliced(s, s2, n, 0, []) && s2.inodes[n].size == size
  {
    hide Geometry, DataStart, At, Compact, Present, SuperCoherent, MapsCoherent, InodesCoherent, FlushInode, FreeCount;
    WithInodeKeeps(s, n, s.inodes[n].(size := size));
    var s1 := Resized(s, n, size);
    FlushInodeCoherent(s1, n);
    FlushInodeKeeps(s1, n);
    SameGeometry(s, s1);
    var s2 := FlushInode(s1, n);
    FrameOwned(s, sh, s2);
  }

  /** No block is left for the root of the indir_1 range just when the write
      reaches that range. */
  ghost predicate Blocked1(e: Extent, budget: nat, end: nat) {
    !e.root1 && end >= FILE_IN_INODE && budget == 6
  }

  ghost predicate Blocked2(e: Extent, budget: nat, end: nat) {
    !e.root2 && end >= LEVEL3_START && budget == 263
  }

  /** The write of len bytes at off will fill the file's direct (or single
      indirect) range with the last free blocks and find none for the next
      index root; fs_write then returns without updating the size. */
  ghost predicate RootBlocked(s: Fs, sh: Shape, n: nat, off: nat, len: nat)
    requires n < |sh.extent|
  {
    Blocked1(sh.extent[n], Budget(s, sh, n), off + len) || Blocked2(sh.extent[n], Budget(s, sh, n), off + len)
  }

  /** How far the tree of a file is filled after a write: no data block and no
      index root more than the bytes stored call for, the root of a range being
      called for as soon as the write gets to where the range begins. */
  ghost predicate FilledBy(e: Extent, e': Extent, budget: nat, off: nat, len: nat, ret: nat) {
    && e'.blocks == Filled(e.blocks, off, ret)
    && e'.root1 == (e.root1 || (off + ret >= FILE_IN_INODE && !Blocked1(e, budget, off + len)))
    && e'.root2 == (e.root2 || (off + ret >= LEVEL3_START && !Blocked2(e, budget, off + len)))
  }

  /** The effect of fs_write on an existing file: `ret` bytes are stored. */
  ghost predicate Wrote(s: Fs, sh: Shape, s': Fs, sh': Shape, n: nat, off: nat, data: seq<byte>, ret: int) {
    && 0 <= ret <= |data|
    && Grown(s, sh, s', sh', n)
    && Spliced(s, s', n, off, data[..ret])
    && off + ret <= BLOCK_SIZE * sh'.extent[n].blocks
    && (ret < |data| && off + ret < MAX_FILE ==> Free(s') == 0 && off + ret == BLOCK_SIZE * sh'.extent[n].blocks)
    && FilledBy(sh.extent[n], sh'.extent[n], Budget(s, sh, n), off, |data|, ret)
    && s'.inodes[n].size ==
         if RootBlocked(s, sh, n, off, |data|) || off + ret <= s.inodes[n].size then s.inodes[n].size else off + ret
  }

  lemma ShortOf1(e: Extent, e1: Extent, tmp: nat)
    requires Compact(e1) && e1 == e.(blocks := e1.blocks) && !e.root1
    requires tmp < FILE_IN_INODE && tmp == BLOCK_SIZE * e1.blocks
    ensures Cost(e1) < 6
  {
  }

  lemma ShortOf2(e: Extent, tmp: nat)
    requires Compact(e) && !e.root2 && tmp < LEVEL3_START && tmp == BLOCK_SIZE * e.blocks
    ensures Cost(e) < 263
  {
  }

  lemma ProgressBudget(s: Fs, sh: Shape, s': Fs, sh': Shape, n: nat, off: nat, d: seq<byte>)
    requires Progress(s, sh, s', sh', n, off, d)
    ensures n < |sh.extent| == |sh'.extent| && Budget(s', sh', n) == Budget(s, sh, n)
    ensures n < |s'.inodes| == |s.inodes| && s'.inodes[n].size == s.inodes[n].size
  {
    hide ByteAt, Cost, FreeCount, Free;
  }

  ghost predicate Stored(s: Fs, sh: Shape, n: nat, off: nat, len: nat, ret: nat) {
    && n < |sh.extent| && ret <= len
    && off + ret <= BLOCK_SIZE * sh.extent[n].blocks
    && (ret < len && off + ret < MAX_FILE ==> Free(s) == 0 && off + ret == BLOCK_SIZE * sh.extent[n].blocks)
  }

  lemma WroteUnsized(s: Fs, sh: Shape, s': Fs, sh': Shape, n: nat, off: nat, data: seq<byte>, ret: nat)
    requires n < |sh.extent| && n < |sh'.extent|
    requires FilledBy(sh.extent[n], sh'.extent[n], Budget(s, sh, n), off, |data|, ret)
    requires Stored(s', sh', n, off, |data|, ret) && Progress(s, sh, s', sh', n, off, data[..ret])
    requires RootBlocked(s, sh, n, off, |data|) || off + ret <= s.inodes[n].size
    ensures Wrote(s, sh, s', sh', n, off, data, ret)
  {
    hide Grown, Spliced, Free, RootBlocked, FilledBy;
  }

  lemma WroteSized(s: Fs, sh: Shape, s': Fs, sh': Shape, s'': Fs, n: nat, off: nat, data: seq<byte>, ret: nat)
    requires n < |sh.extent| && n < |sh'.extent|
    requires FilledBy(sh.extent[n], sh'.extent[n], Budget(s, sh, n), off, |data|, ret)
    requires Stored(s', sh', n, off, |data|, ret) && Progress(s, sh, s', sh', n, off, data[..ret])
    requires !RootBlocked(s, sh, n, off, |data|) && off + ret > s.inodes[n].size
    requires Grown(s', sh', s'', sh', n) && Spliced(s', s'', n, 0, []) && s''.inodes[n].size == off + ret
    ensures Wrote(s, sh, s'', sh', n, off, data, ret)
  {
    hide Spliced, RootBlocked, FilledBy;
    GrownTrans(s, sh, s', sh', s'', sh', n);
    SplicedNothing(s, s', s'', n, off, data[..ret]);
  }

  lemma SplicedNothing(s: Fs, s': Fs, s'': Fs, n: nat, off: nat, d: seq<byte>)
    requires Spliced(s, s', n, off, d) && Spliced(s', s'', n, 0, [])
    ensures Spliced(s, s'', n, off, d)
  {
    hide ByteAt;
  }

  const INT_MAX: nat := 0x7FFF_FFFF

  /** The size update that ends fs_write. */
  method GrowSize(v: Volume, inum: nat, size: nat)
    requires v.Sound() && inum < v.inodes.Length && v.inodes[inum].size <= size <= INT_MAX
    requires size <= BLOCK_SIZE * v.shape.extent[inum].blocks
    modifies v.disk, v.inodes
    ensures v.Sound() && v.inodes[inum].size == size
    ensures Grown(old(v.State()), v.shape, v.State(), v.shape, inum)
    ensures Spliced(old(v.State()), v.State(), inum, 0, [])
  {
    hide Owned, Coherent, Grown, Spliced, FlushInode;
    ResizedSteps(v.State(), v.shape, inum, size);
    v.SetInode(inum, v.inodes[inum].(size := size));
    v.UpdateInode(inum);
  }

  /** The first two parts of fs_write: direct pointers, then the range of indir_1. */
  method WriteLow(v: Volume, inum: nat, data: seq<byte>, offset: nat) returns (ok: bool, done: nat)
    requires v.Sound() && inum < v.inodes.Length && offset <= BLOCK_SIZE * v.shape.extent[inum].blocks
    modifies v`shape, v.disk, v.blockMap, v.inodes
    ensures v.Sound() && inum < |old(v.shape).extent| && inum < |v.shape.extent|
    ensures Stored(v.State(), v.shape, inum, offset, |data|, done) || (ok && offset + done >= LEVEL3_START)
    ensures done <= |data| && offset + done <= BLOCK_SIZE * v.shape.extent[inum].blocks
    ensures Progress(old(v.State()), old(v.shape), v.State(), v.shape, inum, offset, data[..done])
    ensures ok <==> !Blocked1(old(v.shape).extent[inum], Budget(old(v.State()), old(v.shape), inum), offset + |data|)
    ensures v.shape.extent[inum].root2 == old(v.shape).extent[inum].root2
    ensures v.shape.extent[inum].blocks == Filled(old(v.shape).extent[inum].blocks, offset, done)
    ensures v.shape.extent[inum].root1 == (old(v.shape).extent[inum].root1 || (ok && offset + done >= FILE_IN_INODE))
    ensures !ok ==> offset + done == FILE_IN_INODE
  {
    hide Geometry, Owned, Coherent, Progress, At, Cost, Free, Compact, Filled;
    ghost var s0, sh0 := v.State(), v.shape;
    RootFacts(s0, sh0, inum);
    ghost var e0 := sh0.extent[inum];
    ProgressStart(s0, sh0, inum, offset);
    var tmpOffset, tmpLen, buf := offset, |data|, data;
    assert data[..0] == [] && data[0..] == data;
    FilledNothing(e0.blocks, offset);
    if tmpOffset < FILE_IN_INODE {
      var written := WriteLevel1(v, inum, tmpOffset, tmpLen, buf);
      tmpOffset, tmpLen, buf := tmpOffset + written, tmpLen - written, buf[written..];
    }
    ghost var s1, sh1 := v.State(), v.shape;
    done := tmpOffset - offset;
    ProgressBudget(s0, sh0, s1, sh1, inum, offset, data[..done]);
    RootFacts(s1, sh1, inum);
    if !e0.root1 {
      if tmpOffset >= FILE_IN_INODE {
        Root1Beyond(sh1.extent[inum], inum, tmpOffset);
      } else if tmpLen > 0 {
        ShortOf1(e0, sh1.extent[inum], tmpOffset);
      }
    }
    ok := true;
    if FILE_IN_INODE <= tmpOffset < LEVEL3_START {
      var written;
      ok, written := WriteSingle(v, inum, tmpOffset, tmpLen, buf);
      if ok {
        ProgressTrans(s0, sh0, s1, sh1, v.State(), v.shape, inum, offset, data[..done], buf[..written]);
        Advance(data, done, written);
        FilledMore(e0.blocks, offset, done, written);
        done := done + written;
      }
    }
  }

  lemma Root1Beyond(e: Extent, n: nat, tmp: nat)
    requires Compact(e) && !e.root1 && FILE_IN_INODE <= tmp <= BLOCK_SIZE * e.blocks
    ensures Next(e, Root1(n)) && Cost(e) == 6 && tmp == FILE_IN_INODE
  {
  }

  /** fs_write once the path is resolved.  The length bound keeps the C int
      arithmetic of the level loops in range. */
  method WriteInode(v: Volume, inum: nat, data: seq<byte>, offset: nat) returns (ret: int)
    requires v.Sound() && inum < v.inodes.Length && |data| <= INT_MAX - FILE_1ST_LEVEL
    modifies v`shape, v.disk, v.blockMap, v.inodes
    ensures v.Sound()
    ensures offset > old(v.inodes[inum].size) ==>
              ret == -EINVAL && v.State() == old(v.State()) && v.shape == old(v.shape)
    ensures offset <= old(v.inodes[inum].size) ==>
              Wrote(old(v.State()), old(v.shape), v.State(), v.shape, inum, offset, data, ret)
  {
    hide Geometry, Owned, Coherent, Progress, At, Cost, Free, Compact, Wrote, Grown, Spliced, Filled;
    ghost var s0, sh0 := v.State(), v.shape;
    if offset > v.inodes[inum].size {
      return -EINVAL;
    }
    RootFacts(s0, sh0, inum);
    var ok, done := WriteLow(v, inum, data, offset);
    if !ok {
      WroteUnsized(s0, sh0, v.State(), v.shape, inum, offset, data, done);
      return done;
    }
    ghost var e0 := sh0.extent[inum];
    ghost var s2, sh2 := v.State(), v.shape;
    ProgressBudget(s0, sh0, s2, sh2, inum, offset, data[..done]);
    RootFacts(s2, sh2, inum);
    if !e0.root2 {
      if offset + done >= LEVEL3_START {
        Root2Next(sh2.extent[inum], inum);
      } else if done < |data| {
        ShortOf2(sh2.extent[inum], offset + done);
      }
    }
    if LEVEL3_START <= offset + done <= MAX_FILE {
      var written;
      ok, written := WriteDouble(v, inum, offset + done, |data| - done, data[done..]);
      if !ok {
        WroteUnsized(s0, sh0, v.State(), v.shape, inum, offset, data, done);
        return done;
      }
      ProgressTrans(s0, sh0, s2, sh2, v.State(), v.shape, inum, offset, data[..done], data[done..][..written]);
      Advance(data, done, written);
      FilledMore(e0.blocks, offset, done, written);
      done := done + written;
    }
    FinishWrite(v, inum, data, offset, done, s0, sh0);
    return done;
  }

  /** The size is raised to where the write ended. */
  method FinishWrite(v: Volume, inum: nat, data: seq<byte>, offset: nat, done: nat, ghost s0: Fs, ghost sh0: Shape)
    requires v.Sound() && inum < v.inodes.Length && |data| <= INT_MAX - FILE_1ST_LEVEL
    requires Stored(v.State(), v.shape, inum, offset, |data|, done)
    requires Progress(s0, sh0, v.State(), v.shape, inum, offset, data[..done])
    requires inum < |sh0.extent| && !RootBlocked(s0, sh0, inum, offset, |data|)
    requires FilledBy(sh0.extent[inum], v.shape.extent[inum], Budget(s0, sh0, inum), offset, |data|, done)
    modifies v.disk, v.inodes
    ensures v.Sound() && Wrote(s0, sh0, v.State(), v.shape, inum, offset, data, done)
  {
    hide Geometry, Owned, Coherent, Progress, At, Cost, Free, Compact, Wrote, Grown, Spliced, RootBlocked, FilledBy;
    ghost var s3, sh3 := v.State(), v.shape;
    ProgressBudget(s0, sh0, s3, sh3, inum, offset, data[..done]);
    RootFacts(s3, sh3, inum);
    SizeInRange(sh3.extent[inum]);
    if offset + done > v.inodes[inum].size {
      GrowSize(v, inum, offset + done);
      WroteSized(s0, sh0, s3, sh3, v.State(), inum, offset, data, done);
    } else {
      WroteUnsized(s0, sh0, v.State(), v.shape, inum, offset, data, done);
    }
  }

  lemma SizeInRange(e: Extent)
    requires Compact(e)
    ensures BLOCK_SIZE * e.blocks <= MAX_FILE
  {
  }
}
