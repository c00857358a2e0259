/** What the file operations mean for a reader of the files: consequences of
    the effects Wrote and Truncated that fs_write and fs_truncate establish. */
module FileFacts {
  import opened Codec
  import opened Image
  import opened Forest
  import opened FileWrite
  import opened FileTruncate

  // --------------------------------------------------------------- no sharing

  /** No block is owned from two places; owned blocks are marked and lie in the
      data region. */
  lemma NoSharing(s: Fs, sh: Shape, p: Pos, q: Pos)
    requires Geometry(s) && Owned(s, sh) && At(s, p) != 0
    ensures DataStart(s) <= At(s, p) < Cap(s) && s.blockMap[At(s, p)]
    ensures At(s, p) == At(s, q) ==> p == q
  {
    hide At, Present, Extents;
  }

  // ----------------------------------------------------- where a byte is kept

  /** A byte's place as the three level routines compute it. */
  datatype Address =
    | InDirect(slot: nat, byte: nat)
    | InSingle(slot: nat, byte: nat)
    | InDouble(slot: nat, sub: nat, byte: nat)

  ghost predicate ValidAddress(a: Address) {
    a.byte < BLOCK_SIZE &&
    match a
    case InDirect(i, _) => i < N_DIRECT
    case InSingle(i, _) => i < WORDS_PER_BLOCK
    case InDouble(i, j, _) => i < WORDS_PER_BLOCK && j < WORDS_PER_BLOCK
  }

  /** The divisions and remainders of the level routines; the third level hands
      its remainder, plus the size of the direct range, to the second. */
  function Locate(off: nat): Address {
    if off < FILE_IN_INODE then InDirect(off / BLOCK_SIZE, off % BLOCK_SIZE)
    else if off < LEVEL3_START then
      var h1t := off - FILE_IN_INODE;
      InSingle(h1t / BLOCK_SIZE, h1t % BLOCK_SIZE)
    else
      var h2t := off - FILE_IN_INODE - FILE_1ST_LEVEL;
      var inner := h2t % FILE_1ST_LEVEL + FILE_IN_INODE;
      InDouble(h2t / FILE_1ST_LEVEL, (inner - FILE_IN_INODE) / BLOCK_SIZE, (inner - FILE_IN_INODE) % BLOCK_SIZE)
  }

  function OffsetOf(a: Address): nat {
    match a
    case InDirect(i, b) => BLOCK_SIZE * i + b
    case InSingle(i, b) => FILE_IN_INODE + BLOCK_SIZE * i + b
    case InDouble(i, j, b) => LEVEL3_START + FILE_1ST_LEVEL * i + BLOCK_SIZE * j + b
  }

  /** The mapping is a bijection between file offsets and valid places. */
  lemma LocateBijection(off: nat, a: Address)
    requires off < MAX_FILE && ValidAddress(a)
    ensures ValidAddress(Locate(off)) && OffsetOf(Locate(off)) == off
    ensures OffsetOf(a) < MAX_FILE && Locate(OffsetOf(a)) == a
  {
  }

  /** Following the pointers by hand, block by block. */
  function Chase(s: Fs, ino: Inode, a: Address): byte
    requires a.byte < BLOCK_SIZE && (a.InDirect? ==> a.slot < N_DIRECT) && (!a.InDirect? ==> a.slot < WORDS_PER_BLOCK)
    requires a.InDouble? ==> a.sub < WORDS_PER_BLOCK
  {
    var b := match a
             case InDirect(i, _) => ino.direct[i]
             case InSingle(i, _) => Via(s, ino.indir1, i)
             case InDouble(i, j, _) => Via(s, Via(s, ino.indir2, i), j);
    if 0 < b < |s.disk| then s.disk[b][a.byte] else 0
  }

  /** The byte a file has at an offset is the one found by following pointers. */
  lemma ByteIsChased(s: Fs, n: nat, off: nat)
    requires n < |s.inodes| && off < MAX_FILE
    ensures ByteAt(s, n, off) == Chase(s, s.inodes[n], Locate(off))
  {
    hide Word, Via;
    var k := off / BLOCK_SIZE;
    if off >= LEVEL3_START {
      DoubleSplit(off);
      assert At(s, Data(n, k))
        == Via(s, At(s, Leaf(n, (k - IND2_FIRST) / WORDS_PER_BLOCK)), (k - IND2_FIRST) % WORDS_PER_BLOCK);
    }
  }

  lemma SplitLevel(x: nat, q: nat, r: nat)
    requires x == FILE_1ST_LEVEL * q + r && r < FILE_1ST_LEVEL
    ensures x / FILE_1ST_LEVEL == q && x % FILE_1ST_LEVEL == r
  {
  }

  lemma DoubleSplit(off: nat)
    requires LEVEL3_START <= off < MAX_FILE
    ensures var a, k := Locate(off), off / BLOCK_SIZE;
            a == InDouble((k - IND2_FIRST) / WORDS_PER_BLOCK, (k - IND2_FIRST) % WORDS_PER_BLOCK, off % BLOCK_SIZE)
  {
    var m, r := off / BLOCK_SIZE - IND2_FIRST, off % BLOCK_SIZE;
    var i, j := m / WORDS_PER_BLOCK, m % WORDS_PER_BLOCK;
    var h2t := off - FILE_IN_INODE - FILE_1ST_LEVEL;
    assert h2t == BLOCK_SIZE * m + r && m == WORDS_PER_BLOCK * i + j;
    SplitLevel(h2t, i, BLOCK_SIZE * j + r);
    BlockSplit(j, r);
  }

  // -------------------------------------------------------------------- write

  /** d written over c from off on; off does not lie beyond the end. */
  function Splice(c: seq<byte>, off: nat, d: seq<byte>): seq<byte>
    requires off <= |c|
  {
    c[..off] + d + (if off + |d| < |c| then c[off + |d|..] else [])
  }

  /** fs_write returns early, and the file does not get the size it should:
      the last free blocks went into filling the range before a missing index
      root, and that range ended beyond the file's old end. */
  ghost predicate LosesTail(s: Fs, sh: Shape, n: nat, off: nat, len: nat)
    requires n < |sh.extent| && n < |s.inodes|
  {
    || (Blocked1(sh.extent[n], Budget(s, sh, n), off + len) && s.inodes[n].size < FILE_IN_INODE)
    || (Blocked2(sh.extent[n], Budget(s, sh, n), off + len) && s.inodes[n].size < LEVEL3_START)
  }

  lemma CostSix(e: Extent)
    requires Compact(e)
    ensures Cost(e) <= 6 ==> e.blocks <= 6
    ensures Cost(e) == 6 ==> e.blocks == 6
    ensures Cost(e) <= 263 ==> e.blocks <= 262
    ensures Cost(e) == 263 ==> e.blocks == 262
  {
  }

  /** When a root is missing, the write has stopped exactly there. */
  lemma BlockedEnd(s: Fs, sh: Shape, s': Fs, sh': Shape, n: nat, off: nat, data: seq<byte>, ret: int)
    requires Wrote(s, sh, s', sh', n, off, data, ret) && Compact(sh'.extent[n])
    ensures Blocked1(sh.extent[n], Budget(s, sh, n), off + |data|) ==> off + ret == FILE_IN_INODE
    ensures Blocked2(sh.extent[n], Budget(s, sh, n), off + |data|) ==> off + ret == LEVEL3_START
  {
    hide Compact, Cost, Free, Spliced;
    assert Budget(s', sh', n) == Budget(s, sh, n);
    CostSix(sh'.extent[n]);
  }

  /** A write that returns ret has stored exactly the first ret bytes of its
      buffer at off, unless it lost its tail; this is an equivalence. */
  lemma WriteSplices(s: Fs, sh: Shape, s': Fs, sh': Shape, n: nat, off: nat, data: seq<byte>, ret: int)
    requires Geometry(s) && Owned(s, sh) && Geometry(s') && Owned(s', sh') && n < |s.inodes|
    requires Wrote(s, sh, s', sh', n, off, data, ret) && off <= s.inodes[n].size
    ensures 0 <= ret <= |data| && 0 <= s'.inodes[n].size
    ensures Content(s', n) == Splice(Content(s, n), off, data[..ret]) <==> !LosesTail(s, sh, n, off, |data|)
  {
    hide At, ByteAt, Geometry, Compact, Cost, Free, Grown, Present;
    assert Compact(sh'.extent[n]) && n < |s'.inodes| by { WroteFrame(s, sh, s', sh', n, off, data, ret); }
    BlockedEnd(s, sh, s', sh', n, off, data, ret);
    var c, c' := Content(s, n), Content(s', n);
    var want := Splice(c, off, data[..ret]);
    if !LosesTail(s, sh, n, off, |data|) {
      assert |c'| == |want|;
      forall i | 0 <= i < |c'|
        ensures c'[i] == want[i]
      {
        assert c'[i] == ByteAt(s', n, i);
      }
    } else {
      assert |c'| != |want|;
    }
  }

  lemma WroteFrame(s: Fs, sh: Shape, s': Fs, sh': Shape, n: nat, off: nat, data: seq<byte>, ret: int)
    requires Wrote(s, sh, s', sh', n, off, data, ret) && Geometry(s') && Owned(s', sh')
    ensures n < |s'.inodes| == |s.inodes| == |sh.extent| == |sh'.extent| && Compact(sh'.extent[n])
  {
    hide At, ByteAt, Compact, Cost, Free, Present;
  }

  // ------------------------------------------------------------- enough space

  /** Blocks a file of k data blocks needs, index blocks included. */
  function Need(k: nat): nat {
    k + (if k > IND1_FIRST then 1 else 0) + (if k > IND2_FIRST then 1 else 0)
    + (if k > IND2_FIRST then (k - IND2_FIRST + WORDS_PER_BLOCK - 1) / WORDS_PER_BLOCK else 0)
  }

  lemma NeedBounds(e: Extent)
    requires Compact(e)
    ensures Need(e.blocks) <= Cost(e)
    ensures e.blocks < MAX_POSITIONS ==> Cost(e) < Need(e.blocks + 1)
  {
  }

  lemma NeedMonotone(k: nat, l: nat)
    requires k <= l
    ensures Need(k) <= Need(l)
  {
  }

  /** Data blocks that must exist once a write up to `end` is complete. */
  function BlocksFor(e: Extent, end: nat): nat {
    var k := (end + BLOCK_SIZE - 1) / BLOCK_SIZE;
    if k > e.blocks then k else e.blocks
  }

  /** fs_write stores the whole buffer exactly when the range fits the largest
      file and the free blocks cover the missing data and index blocks. */
  lemma FullWriteIffSpace(s: Fs, sh: Shape, s': Fs, sh': Shape, n: nat, off: nat, data: seq<byte>, ret: int)
    requires Geometry(s) && Owned(s, sh) && Geometry(s') && Owned(s', sh') && n < |s.inodes|
    requires Wrote(s, sh, s', sh', n, off, data, ret) && off <= s.inodes[n].size
    ensures ret == |data| <==>
            off + |data| <= MAX_FILE && Budget(s, sh, n) >= Need(BlocksFor(sh.extent[n], off + |data|))
  {
    hide At, ByteAt, Geometry, Compact, Cost, Free, Owned, Spliced, Need;
    OwnedMarked(s, sh);
    OwnedMarked(s', sh');
    var e, e', end := sh.extent[n], sh'.extent[n], off + |data|;
    assert Budget(s', sh', n) == Budget(s, sh, n);
    NeedBounds(e');
    SizeInRange(e');
    assert e'.blocks >= e.blocks;
    var k := BlocksFor(e, end);
    if ret == |data| {
      assert e'.blocks >= k;
      NeedMonotone(k, e'.blocks);
    } else if end <= MAX_FILE {
      assert e'.blocks + 1 <= k;
      NeedMonotone(e'.blocks + 1, k);
    }
  }

  // ------------------------------------------------------ what is left alone

  /** Every file but n keeps its content, and its inode, across a write to n. */
  lemma WriteKeepsOthers(s: Fs, sh: Shape, s': Fs, sh': Shape, n: nat, m: nat)
    requires Geometry(s) && Owned(s, sh) && Geometry(s') && Owned(s', sh') && Grown(s, sh, s', sh', n)
    requires m < |s.inodes| && m != n
    ensures s'.inodes[m] == s.inodes[m] && 0 <= s.inodes[m].size
    ensures Content(s', m) == Content(s, m)
  {
    hide ByteAt, Geometry, Compact, Cost, Free;
    forall i: nat
      ensures ByteAt(s', m, i) == ByteAt(s, m, i)
    {
      GrownKeepsByte(s, sh, s', sh', n, m, i);
    }
  }

  lemma GrownKeepsAt(s: Fs, sh: Shape, s': Fs, sh': Shape, n: nat, p: Pos)
    requires Geometry(s) && Owned(s, sh) && Geometry(s') && Owned(s', sh') && Grown(s, sh, s', sh', n)
    requires p.inum != n || At(s, p) != 0
    ensures At(s', p) == At(s, p)
  {
    hide At, Geometry, Compact, Cost, Free;
    if At(s, p) != 0 {
      assert sh'.owner[At(s, p)] == p;
    } else {
      assert !Present(sh', p);
    }
  }

  lemma GrownKeepsByte(s: Fs, sh: Shape, s': Fs, sh': Shape, n: nat, m: nat, i: nat)
    requires Geometry(s) && Owned(s, sh) && Geometry(s') && Owned(s', sh') && Grown(s, sh, s', sh', n)
    requires m != n
    ensures ByteAt(s', m, i) == ByteAt(s, m, i)
  {
    hide At, Geometry, Extents, Cost, Free;
    GrownKeepsAt(s, sh, s', sh', n, Data(m, i / BLOCK_SIZE));
  }

  // ----------------------------------------------------------------- truncate

  /** Truncation frees every block of the file exactly when no index root
      exists at or before the size from which the walk into it starts. */
  lemma TruncateFreesAll(s: Fs, sh: Shape, s': Fs, sh': Shape, n: nat)
    requires Geometry(s) && Owned(s, sh) && Truncated(s, sh, s', sh', n)
    ensures (forall b | b in sh.owner && sh.owner[b].inum == n :: b < |s'.blockMap| && !s'.blockMap[b])
            <==> (s.inodes[n].indir1 != 0 ==> s.inodes[n].size > FILE_IN_INODE)
                 && (s.inodes[n].indir2 != 0 ==> s.inodes[n].size > LEVEL3_START)
  {
    hide Geometry, Present, Compact;
    SameGeometry(s, s);
    var i1, i2 := s.inodes[n].indir1, s.inodes[n].indir2;
    assert i1 == At(s, Root1(n)) && i2 == At(s, Root2(n));
    if (i1 != 0 ==> s.inodes[n].size > FILE_IN_INODE) && (i2 != 0 ==> s.inodes[n].size > LEVEL3_START) {
      forall b | b in sh.owner && sh.owner[b].inum == n
        ensures b < |s'.blockMap| && !s'.blockMap[b]
      {
        UnderRoots(s, sh, b);
      }
    }
  }

  /** A position beyond a range exists only if the index root over it does. */
  lemma UnderRoots(s: Fs, sh: Shape, b: nat)
    requires Geometry(s) && Owned(s, sh) && b in sh.owner && sh.owner[b].inum < |s.inodes|
    ensures var p := sh.owner[b];
            && b < Cap(s) <= |s.blockMap|
            && (p.Root1? || (p.Data? && IND1_FIRST <= p.k < IND2_FIRST) ==> s.inodes[p.inum].indir1 != 0)
            && (p.Root2? || p.Leaf? || (p.Data? && p.k >= IND2_FIRST) ==> s.inodes[p.inum].indir2 != 0)
  {
    hide At, Extents, Present;
    SameGeometry(s, s);
    AtUnderRoots(s, sh.owner[b]);
  }

  lemma AtUnderRoots(s: Fs, p: Pos)
    requires At(s, p) != 0 && p.inum < |s.inodes|
    ensures p.Root1? || (p.Data? && IND1_FIRST <= p.k < IND2_FIRST) ==> s.inodes[p.inum].indir1 != 0
    ensures p.Root2? || p.Leaf? || (p.Data? && p.k >= IND2_FIRST) ==> s.inodes[p.inum].indir2 != 0
  {
    hide Word;
    if !InInode(p) {
      ParentThere(s, p);
      if !InInode(Parent(p)) {
        ParentThere(s, Parent(p));
      }
    }
  }

  /** A pointer is only found in an index block that is there. */
  lemma ParentThere(s: Fs, p: Pos)
    requires At(s, p) != 0 && !InInode(p)
    ensures p.inum < |s.inodes| && InRange(p) && At(s, Parent(p)) != 0
  {
    hide Word;
    assert At(s, p) == Via(s, At(s, Parent(p)), Slot(p));
  }

  /** Blocks of other files, free blocks and reserved blocks keep their bits,
      and the truncated file is empty. */
  lemma TruncateKeepsOthers(s: Fs, sh: Shape, s': Fs, sh': Shape, n: nat, m: nat)
    requires Geometry(s) && Owned(s, sh) && Truncated(s, sh, s', sh', n) && m < |s.inodes| && m != n
    ensures 0 <= s.inodes[m].size && s'.inodes[m] == s.inodes[m] && Content(s', m) == Content(s, m)
    ensures s'.inodes[n].size == 0 && Content(s', n) == []
    ensures forall b | 0 <= b < |s.blockMap| && !(b in sh.owner && sh.owner[b].inum == n) ::
              s'.blockMap[b] == s.blockMap[b]
  {
    hide At, Geometry, Compact, Reached;
    SameGeometry(s, s);
    forall i: nat
      ensures ByteAt(s', m, i) == ByteAt(s, m, i)
    {
      OthersAt(s, sh, s', n, Data(m, i / BLOCK_SIZE));
    }
    hide ByteAt;
  }

  /** Filling an empty file and truncating it gives back the block map that was
      there before, exactly under the condition of TruncateFreesAll. */
  lemma GrowThenTruncate(s: Fs, sh: Shape, s1: Fs, sh1: Shape, s2: Fs, sh2: Shape, n: nat)
    requires Geometry(s) && Owned(s, sh) && Geometry(s1) && Owned(s1, sh1) && n < |s.inodes|
    requires sh.extent[n] == EMPTY_EXTENT && Grown(s, sh, s1, sh1, n) && Truncated(s1, sh1, s2, sh2, n)
    ensures s2.blockMap == s.blockMap <==>
            (s1.inodes[n].indir1 != 0 ==> s1.inodes[n].size > FILE_IN_INODE)
            && (s1.inodes[n].indir2 != 0 ==> s1.inodes[n].size > LEVEL3_START)
  {
    hide At, Geometry, Compact, Reached, Extents, DataAgree, Cost, Free;
    SameGeometry(s, s1);
    TruncateFreesAll(s1, sh1, s2, sh2, n);
    forall b | b in sh.owner
      ensures sh.owner[b].inum != n
    {
      EmptyOwnsNothing(s, sh, n, b);
    }
    forall b | b in sh1.owner && sh1.owner[b].inum == n
      ensures b < |s.blockMap| && !s.blockMap[b]
    {
    }
  }

  lemma EmptyOwnsNothing(s: Fs, sh: Shape, n: nat, b: nat)
    requires Geometry(s) && Owned(s, sh) && n < |s.inodes| && sh.extent[n] == EMPTY_EXTENT && b in sh.owner
    ensures sh.owner[b].inum != n
  {
    hide At, Extents, Compact;
    SameGeometry(s, s);
    assert Present(sh, sh.owner[b]);
  }

  /** Writing len bytes to an empty file with that many free blocks ends exactly
      where an index range begins, the range's root having been allocated, or
      the second of them having been needed in vain. */
  predicate Leaks(len: nat, free: nat) {
    || (len == FILE_IN_INODE && free >= 7) || (len > FILE_IN_INODE && free == 7)
    || (len == LEVEL3_START && free >= 263) || (len > LEVEL3_START && 263 <= free <= 265)
  }

  /** What the caller knows decides it: the number of bytes to write to an empty
      file and the number of free blocks say whether truncating the file gives
      back the block map that was there before. */
  lemma WriteThenTruncate(s: Fs, sh: Shape, s1: Fs, sh1: Shape, s2: Fs, sh2: Shape, n: nat, data: seq<byte>, ret: int)
    requires Geometry(s) && Owned(s, sh) && Geometry(s1) && Owned(s1, sh1) && n < |s.inodes|
    requires sh.extent[n] == EMPTY_EXTENT && s.inodes[n].size == 0
    requires Wrote(s, sh, s1, sh1, n, 0, data, ret) && Truncated(s1, sh1, s2, sh2, n)
    ensures s2.blockMap == s.blockMap <==> !Leaks(|data|, Free(s))
  {
    hide At, Geometry, Owned, Grown, Spliced, Truncated, Free, FilledBy, Cost, Compact, Wrote, Leaks, Need;
    WroteParts(s, sh, s1, sh1, n, 0, data, ret);
    EmptyBudget(s, sh, n);
    GrowThenTruncate(s, sh, s1, sh1, s2, sh2, n);
    WroteFrame(s, sh, s1, sh1, n, 0, data, ret);
    BlockedEnd(s, sh, s1, sh1, n, 0, data, ret);
    RootFacts(s1, sh1, n);
    LeakCases(sh.extent[n], sh1.extent[n], Free(s), |data|, ret, s1.inodes[n].size);
    FullWriteIffSpace(s, sh, s1, sh1, n, 0, data, ret);
    WroteSpace(s, sh, s1, sh1, n, 0, data, ret);
    EndFromSpace(sh.extent[n], sh1.extent[n], Free(s), Free(s1), |data|, ret);
  }

  lemma WroteSpace(s: Fs, sh: Shape, s': Fs, sh': Shape, n: nat, off: nat, data: seq<byte>, ret: int)
    requires Wrote(s, sh, s', sh', n, off, data, ret)
    ensures n < |sh.extent| == |sh'.extent| && Budget(s, sh, n) == Free(s') + Cost(sh'.extent[n])
    ensures 0 <= ret <= |data|
            && (ret < |data| && off + ret < MAX_FILE ==>
                Free(s') == 0 && off + ret == BLOCK_SIZE * sh'.extent[n].blocks)
  {
    hide Spliced, FilledBy, Free, Cost;
  }

  /** Where a write to an empty file ends at an index range. */
  lemma EndFromSpace(e: Extent, e1: Extent, free: nat, left: nat, len: nat, ret: nat)
    requires e == EMPTY_EXTENT && Compact(e1) && free == left + Cost(e1) && ret <= len
    requires FilledBy(e, e1, free, 0, len, ret)
    requires ret < len && ret < MAX_FILE ==> left == 0 && ret == BLOCK_SIZE * e1.blocks
    requires ret == len <==> len <= MAX_FILE && free >= Need(BlocksFor(e, len))
    ensures (ret == FILE_IN_INODE && free != 6) || ret == LEVEL3_START <==> Leaks(len, free)
  {
    hide Compact, Need, Filled, FilledBy;
    NeedLen(len);
    if ret == len {
      EndFull(e1, free, left, len);
    } else {
      EndShort(e, e1, free, left, len, ret);
    }
  }

  lemma NeedLen(len: nat)
    ensures var k := (len + BLOCK_SIZE - 1) / BLOCK_SIZE;
            BlocksFor(EMPTY_EXTENT, len) == k
            && (len > FILE_IN_INODE ==> Need(k) >= 8) && (len > LEVEL3_START ==> Need(k) >= 266)
            && (len == FILE_IN_INODE ==> Need(k) == 6) && (len == LEVEL3_START ==> Need(k) == 263)
  {
  }

  lemma EndFull(e1: Extent, free: nat, left: nat, len: nat)
    requires len <= MAX_FILE && free >= Need((len + BLOCK_SIZE - 1) / BLOCK_SIZE)
    ensures (len == FILE_IN_INODE && free != 6) || len == LEVEL3_START <==> Leaks(len, free)
  {
    hide Need;
    NeedLen(len);
  }

  lemma EndShort(e: Extent, e1: Extent, free: nat, left: nat, len: nat, ret: nat)
    requires e == EMPTY_EXTENT && Compact(e1) && free == left + Cost(e1) && ret < len
    requires FilledBy(e, e1, free, 0, len, ret)
    requires ret < MAX_FILE ==> left == 0 && ret == BLOCK_SIZE * e1.blocks
    requires !(len <= MAX_FILE && free >= Need(BlocksFor(e, len)))
    ensures (ret == FILE_IN_INODE && free != 6) || ret == LEVEL3_START <==> Leaks(len, free)
  {
    hide Need, Filled;
    NeedLen(len);
    if ret >= MAX_FILE {
      FilledMost(ret);
    }
  }

  lemma FilledMost(ret: nat)
    requires ret >= MAX_FILE
    ensures Filled(0, 0, ret) > IND2_FIRST + 3
  {
  }

  lemma WroteParts(s: Fs, sh: Shape, s': Fs, sh': Shape, n: nat, off: nat, data: seq<byte>, ret: int)
    requires Wrote(s, sh, s', sh', n, off, data, ret)
    ensures 0 <= ret <= |data| && Grown(s, sh, s', sh', n) && n < |sh.extent| == |sh'.extent|
            && n < |s.inodes| == |s'.inodes|
    ensures FilledBy(sh.extent[n], sh'.extent[n], Budget(s, sh, n), off, |data|, ret)
    ensures s'.inodes[n].size ==
            if RootBlocked(s, sh, n, off, |data|) || off + ret <= s.inodes[n].size then s.inodes[n].size else off + ret
  {
    hide Spliced, FilledBy, Free, Cost;
  }

  lemma LeakCases(e: Extent, e1: Extent, budget: nat, len: nat, ret: nat, size: int)
    requires !e.root1 && !e.root2 && e.blocks == 0 && ret <= len
    requires FilledBy(e, e1, budget, 0, len, ret)
    requires Blocked1(e, budget, len) ==> ret == FILE_IN_INODE
    requires Blocked2(e, budget, len) ==> ret == LEVEL3_START
    requires size == if Blocked1(e, budget, len) || Blocked2(e, budget, len) then 0 else ret
    ensures (e1.root1 ==> size > FILE_IN_INODE) && (e1.root2 ==> size > LEVEL3_START)
            <==> !((ret == FILE_IN_INODE && budget != 6) || ret == LEVEL3_START)
  {
    hide Filled;
  }

  lemma EmptyBudget(s: Fs, sh: Shape, n: nat)
    requires n < |sh.extent| && sh.extent[n] == EMPTY_EXTENT
    ensures Budget(s, sh, n) == Free(s)
  {
    hide Free, Cost;
    EmptyCost(sh.extent[n]);
  }

  lemma EmptyCost(e: Extent)
    requires e == EMPTY_EXTENT
    ensures Cost(e) == 0
  {
  }
}
