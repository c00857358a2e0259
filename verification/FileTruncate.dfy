/** fs_truncate to length 0 and its two lower levels: which bits of the block
    map they clear, and that the file is left empty and the rest intact. */
module FileTruncate {
  import opened Codec
  import opened Image
  import opened Forest
  import opened Flush
  import opened Volumes
  import opened FileWrite

  /** Whether truncating a file of that size reaches position p: the index
      trees are only walked when the size lies beyond the range before them. */
  predicate Reached(p: Pos, size: int) {
    match p
    case Data(_, k) => k < IND1_FIRST || (k < IND2_FIRST && size > FILE_IN_INODE) || size > LEVEL3_START
    case Root1(_) => size > FILE_IN_INODE
    case Root2(_) => size > LEVEL3_START
    case Leaf(_, _) => size > LEVEL3_START
  }

  /** In s exactly the blocks of s0 that sit at positions in C have been freed. */
  ghost predicate Cleared(s0: Fs, sh: Shape, s: Fs, C: iset<Pos>) {
    && |s.blockMap| == |s0.blockMap|
    && forall b | 0 <= b < |s0.blockMap| ::
         s.blockMap[b] == (s0.blockMap[b] && !(b in sh.owner && sh.owner[b] in C))
  }

  /** C and D contain the same positions of file trees that exist. */
  lemma ClearedSame(s0: Fs, sh: Shape, s: Fs, C: iset<Pos>, D: iset<Pos>)
    requires Cleared(s0, sh, s, C)
    requires forall b | b in sh.owner :: sh.owner[b] in C <==> sh.owner[b] in D
    ensures Cleared(s0, sh, s, D)
  {
  }

  lemma ClearedMore(s0: Fs, sh: Shape, s: Fs, C: iset<Pos>, b: nat, p: Pos)
    requires Geometry(s0) && Owned(s0, sh) && Cleared(s0, sh, s, C) && At(s0, p) == b != 0
    ensures b < |s.blockMap| && Cleared(s0, sh, s.(blockMap := s.blockMap[b := false]), C + iset{p})
  {
    hide At, Present, Extents;
  }

  /** How far truncating inode n has come: nothing outside the bitmaps and that
      inode has changed since s0, and C has been freed. */
  ghost predicate Truncating(s0: Fs, sh: Shape, s: Fs, n: nat, C: iset<Pos>) {
    && SameSizes(s0, s) && s.inodeMap == s0.inodeMap && n < |s0.inodes|
    && DataAgree(s0, s, {})
    && Cleared(s0, sh, s, C)
    && (forall m | 0 <= m < |s.inodes| && m != n :: s.inodes[m] == s0.inodes[m])
    && s.inodes[n] == s0.inodes[n].(direct := s.inodes[n].direct)
  }

  /** All is written through, but for inode n. */
  ghost predicate DirtyAt(s: Fs, n: nat) {
    Geometry(s) && SuperCoherent(s) && InodesCoherent(s, {n})
  }

  lemma DirtyMaps(s: Fs, n: nat, m: seq<bool>)
    requires DirtyAt(s, n) && |m| == |s.blockMap|
    ensures DirtyAt(s.(blockMap := m), n)
  {
    hide Word, DecodeInode;
  }

  lemma DirtyFlushed(s: Fs, n: nat)
    requires DirtyAt(s, n)
    ensures Geometry(s) && DirtyAt(FlushMaps(s), n) && MapsCoherent(FlushMaps(s))
  {
    hide SuperCoherent, MapsCoherent, InodesCoherent, FlushMaps, Geometry;
    FlushMapsCoherent(s);
    FlushMapsKeeps(s, {n});
  }

  /** FD_CLR of the block at position p. */
  method FreeAt(v: Volume, b: nat, ghost p: Pos, ghost s0: Fs, ghost n: nat, ghost C: iset<Pos>)
    requires v.Laid() && DirtyAt(v.State(), n) && Geometry(s0) && Owned(s0, v.shape) && b == At(s0, p) && b != 0
    requires Truncating(s0, v.shape, v.State(), n, C)
    modifies v.blockMap
    ensures v.Laid() && DirtyAt(v.State(), n) && Truncating(s0, v.shape, v.State(), n, C + iset{p})
    ensures v.inodes[..] == old(v.inodes[..])
  {
    hide DirtyAt, Geometry, Owned, Cleared, At;
    ghost var s, sh := v.State(), v.shape;
    ClearedMore(s0, sh, s, C, b, p);
    DirtyMaps(s, n, s.blockMap[b := false]);
    v.ClearBlock(b);
    SameGeometry(s, v.State());
    TruncatingMap(s0, sh, s, v.State(), n, C, C + iset{p});
  }

  lemma TruncatingMap(s0: Fs, sh: Shape, s: Fs, s': Fs, n: nat, C: iset<Pos>, D: iset<Pos>)
    requires Truncating(s0, sh, s, n, C) && s' == s.(blockMap := s'.blockMap) && Cleared(s0, sh, s', D)
    ensures Truncating(s0, sh, s', n, D)
  {
  }

  /** update_bitmap in the middle of a truncation. */
  method FlushDuring(v: Volume, ghost s0: Fs, ghost n: nat, ghost C: iset<Pos>)
    requires v.Laid() && DirtyAt(v.State(), n) && Geometry(s0)
    requires Truncating(s0, v.shape, v.State(), n, C)
    modifies v.disk
    ensures v.Laid() && DirtyAt(v.State(), n) && Truncating(s0, v.shape, v.State(), n, C)
    ensures MapsCoherent(v.State())
    ensures v.inodes[..] == old(v.inodes[..])
  {
    hide DirtyAt, Geometry, FlushMaps, MapsCoherent;
    ghost var s := v.State();
    DirtyFlushed(s, n);
    FlushMapsFrame(s);
    SameGeometry(s0, s);
    v.UpdateBitmap();
    SameGeometry(s, v.State());
  }

  // -------------------------------------------------------- second level

  /** The data positions base .. base + i - 1 of inode n. */
  ghost function Below(n: nat, base: nat, i: nat): iset<Pos> {
    iset p: Pos | p.Data? && p.inum == n && base <= p.k < base + i
  }

  lemma BelowNext(n: nat, base: nat, i: nat, C: iset<Pos>)
    ensures C + Below(n, base, i) + iset{Data(n, base + i)} == C + Below(n, base, i + 1)
    ensures C + Below(n, base, 0) == C
  {
  }

  /** Positions at and beyond the end of the file hold nothing. */
  lemma BelowEnd(s0: Fs, sh: Shape, s: Fs, n: nat, base: nat, i: nat, j: nat, C: iset<Pos>)
    requires Geometry(s0) && Owned(s0, sh) && n < |s0.inodes| && i <= j && base + i >= sh.extent[n].blocks
    requires Truncating(s0, sh, s, n, C + Below(n, base, i))
    ensures Truncating(s0, sh, s, n, C + Below(n, base, j))
  {
    hide At, Geometry, Compact;
    ClearedSame(s0, sh, s, C + Below(n, base, i), C + Below(n, base, j));
  }

  /** A height-1 tree: its data positions and its index block. */
  ghost function Subtree(n: nat, base: nat): iset<Pos>
    requires IsBase(base)
  {
    Below(n, base, WORDS_PER_BLOCK) + iset{RootPos(n, base)}
  }

  method TruncateLevel2(v: Volume, root: nat, ghost s0: Fs, ghost n: nat, ghost base: nat, ghost C: iset<Pos>)
    requires v.Laid() && DirtyAt(v.State(), n) && Geometry(s0) && Owned(s0, v.shape)
    requires Truncating(s0, v.shape, v.State(), n, C)
    requires IsBase(base) && root == At(s0, RootPos(n, base)) && root != 0
    modifies v.blockMap, v.disk
    ensures v.Laid() && DirtyAt(v.State(), n) && MapsCoherent(v.State()) && v.inodes[..] == old(v.inodes[..])
    ensures Truncating(s0, v.shape, v.State(), n, C + Subtree(n, base))
  {
    hide DirtyAt, Geometry, Owned, Cleared, At, Word, IsBase, RootPos, MapsCoherent, Below, DataStart, Next;
    ghost var sh := v.shape;
    OwnedOnDisk(s0, sh, RootPos(n, base));
    var rootBlk := v.ReadBlock(root);
    var h1tBlk := DecodeWords(rootBlk);
    assert rootBlk == s0.disk[root];
    var i := 0;
    BelowNext(n, base, 0, C);
    while i < WORDS_PER_BLOCK
      invariant i <= WORDS_PER_BLOCK
      invariant v.Laid() && DirtyAt(v.State(), n) && v.inodes[..] == old(v.inodes[..])
      invariant Truncating(s0, sh, v.State(), n, C + Below(n, base, i))
    {
      var tempBlkNum := h1tBlk[i];
      WordSlot(s0, sh, n, base, root, i);
      if tempBlkNum != 0 {
        FreeAt(v, tempBlkNum, Data(n, base + i), s0, n, C + Below(n, base, i));
        BelowNext(n, base, i, C);
      } else {
        BelowEnd(s0, sh, v.State(), n, base, i, WORDS_PER_BLOCK, C);
        break;
      }
      i := i + 1;
    }
    FreeAt(v, root, RootPos(n, base), s0, n, C + Below(n, base, WORDS_PER_BLOCK));
    assert C + Below(n, base, WORDS_PER_BLOCK) + iset{RootPos(n, base)} == C + Subtree(n, base);
    FlushDuring(v, s0, n, C + Subtree(n, base));
  }

  // --------------------------------------------------------- third level

  /** The leaves before i and the data positions under them. */
  ghost function Leaves(n: nat, i: nat): iset<Pos> {
    iset p: Pos | p.inum == n && ((p.Leaf? && p.i < i)
                                  || (p.Data? && IND2_FIRST <= p.k < IND2_FIRST + WORDS_PER_BLOCK * i))
  }

  lemma LeavesNext(n: nat, i: nat, C: iset<Pos>)
    requires i < WORDS_PER_BLOCK
    ensures var base := IND2_FIRST + WORDS_PER_BLOCK * i;
            IsBase(base) && C + Leaves(n, i) + Subtree(n, base) == C + Leaves(n, i + 1)
    ensures C + Leaves(n, 0) == C
  {
    var base := IND2_FIRST + WORDS_PER_BLOCK * i;
    assert IsBase(base) && RootPos(n, base) == Leaf(n, i);
    assert Leaves(n, i) + Subtree(n, base) == Leaves(n, i + 1);
  }

  lemma LeavesEnd(s0: Fs, sh: Shape, s: Fs, n: nat, i: nat, C: iset<Pos>)
    requires Geometry(s0) && Owned(s0, sh) && n < |s0.inodes| && i >= sh.extent[n].leaves && i <= WORDS_PER_BLOCK
    requires Truncating(s0, sh, s, n, C + Leaves(n, i))
    ensures Truncating(s0, sh, s, n, C + Leaves(n, WORDS_PER_BLOCK))
  {
    hide At, Geometry;
    ClearedSame(s0, sh, s, C + Leaves(n, i), C + Leaves(n, WORDS_PER_BLOCK));
  }

  ghost function BigTree(n: nat): iset<Pos> {
    Leaves(n, WORDS_PER_BLOCK) + iset{Root2(n)}
  }

  method TruncateLevel3(v: Volume, root: nat, ghost s0: Fs, ghost n: nat, ghost C: iset<Pos>)
    requires v.Laid() && DirtyAt(v.State(), n) && Geometry(s0) && Owned(s0, v.shape)
    requires Truncating(s0, v.shape, v.State(), n, C)
    requires root == At(s0, Root2(n)) && root != 0
    modifies v.blockMap, v.disk
    ensures v.Laid() && DirtyAt(v.State(), n) && MapsCoherent(v.State()) && v.inodes[..] == old(v.inodes[..])
    ensures Truncating(s0, v.shape, v.State(), n, C + BigTree(n))
  {
    hide DirtyAt, Geometry, Owned, Cleared, At, Word, IsBase, RootPos, MapsCoherent, Subtree, Leaves, DataStart, Next;
    ghost var sh := v.shape;
    OwnedOnDisk(s0, sh, Root2(n));
    var rootBlk := v.ReadBlock(root);
    var h2tBlk := DecodeWords(rootBlk);
    assert rootBlk == s0.disk[root];
    var i := 0;
    LeavesNext(n, 0, C);
    while i < WORDS_PER_BLOCK
      invariant i <= WORDS_PER_BLOCK
      invariant v.Laid() && DirtyAt(v.State(), n) && v.inodes[..] == old(v.inodes[..])
      invariant Truncating(s0, sh, v.State(), n, C + Leaves(n, i))
    {
      var tempBlkNum := h2tBlk[i];
      LeafSlot(s0, sh, n, root, i);
      if tempBlkNum == 0 {
        LeavesEnd(s0, sh, v.State(), n, i, C);
        break;
      }
      TruncateLevel2(v, h2tBlk[i], s0, n, IND2_FIRST + WORDS_PER_BLOCK * i, C + Leaves(n, i));
      LeavesNext(n, i, C);
      i := i + 1;
    }
    FreeAt(v, root, Root2(n), s0, n, C + Leaves(n, WORDS_PER_BLOCK));
    assert C + Leaves(n, WORDS_PER_BLOCK) + iset{Root2(n)} == C + BigTree(n);
    FlushDuring(v, s0, n, C + BigTree(n));
  }

  // --------------------------------------------------------- fs_truncate

  /** What fs_truncate leaves of inode n. */
  ghost predicate Truncated(s: Fs, sh: Shape, s': Fs, sh': Shape, n: nat) {
    && SameSizes(s, s') && s'.inodeMap == s.inodeMap && n < |s.inodes| && n < |sh.extent|
    && DataAgree(s, s', {})
    && s'.inodes == s.inodes[n := s.inodes[n].(size := 0, direct := NO_DIRECT, indir1 := 0, indir2 := 0)]
    && sh' == Dropped(sh, n)
    && forall b | 0 <= b < |s.blockMap| ::
         s'.blockMap[b] ==
         (s.blockMap[b] && !(b in sh.owner && sh.owner[b].inum == n && Reached(sh.owner[b], s.inodes[n].size)))
  }

  /** The forest without the tree of inode n. */
  ghost function Dropped(sh: Shape, n: nat): Shape
    requires n < |sh.extent|
  {
    Shape(map b | b in sh.owner && sh.owner[b].inum != n :: sh.owner[b], sh.extent[n := EMPTY_EXTENT])
  }

  lemma {:induction false} OthersAt(s: Fs, sh: Shape, s': Fs, n: nat, q: Pos)
    requires Geometry(s) && Owned(s, sh) && SameSizes(s, s') && DataAgree(s, s', {}) && q.inum != n
    requires forall m | 0 <= m < |s.inodes| && m != n :: s'.inodes[m] == s.inodes[m]
    ensures At(s', q) == At(s, q)
    decreases Depth(q)
  {
    hide Word, Geometry, Present, Extents;
    if q.inum < |s.inodes| && InRange(q) && !InInode(q) {
      OthersAt(s, sh, s', n, Parent(q));
    }
  }

  lemma {:induction false} EmptyAt(s: Fs, q: Pos)
    requires q.inum < |s.inodes|
    requires s.inodes[q.inum].direct == NO_DIRECT && s.inodes[q.inum].indir1 == 0 && s.inodes[q.inum].indir2 == 0
    ensures At(s, q) == 0
    decreases Depth(q)
  {
    hide Word;
    if InRange(q) && !InInode(q) {
      EmptyAt(s, Parent(q));
    }
  }

  lemma TruncatedOwned(s: Fs, sh: Shape, s': Fs, sh': Shape, n: nat)
    requires Geometry(s) && Owned(s, sh) && Truncated(s, sh, s', sh', n)
    ensures Geometry(s') && Owned(s', sh')
  {
    hide At, Geometry, DataStart, Compact;
    SameGeometry(s, s');
    forall q: Pos
      ensures At(s', q) == if q.inum == n then 0 else At(s, q)
    {
      if q.inum == n {
        EmptyAt(s', q);
      } else {
        OthersAt(s, sh, s', n, q);
      }
    }
    assert Compact(EMPTY_EXTENT) by { EmptyCompact(); }
  }

  lemma EmptyCompact()
    ensures Compact(EMPTY_EXTENT)
  {
  }

  /** The direct pointers cleared so far, and all beyond the end of the file. */
  ghost predicate DirectCleared(d0: seq<u32>, d: seq<u32>, i: nat) {
    |d0| == N_DIRECT && |d| == N_DIRECT
    && forall k | 0 <= k < N_DIRECT :: d[k] == if k < i then 0 else d0[k]
  }

  /** The loop over inode->direct. */
  method TruncateDirect(v: Volume, inum: nat, ghost s0: Fs)
    requires v.Sound() && inum < v.inodes.Length && s0 == v.State()
    modifies v.blockMap, v.disk, v.inodes
    ensures v.Laid() && DirtyAt(v.State(), inum) && MapsCoherent(v.State())
    ensures Truncating(s0, v.shape, v.State(), inum, Below(inum, 0, N_DIRECT))
    ensures v.inodes[inum].direct == NO_DIRECT
  {
    hide DirtyAt, Geometry, Owned, Cleared, At, MapsCoherent, Below, DataStart, Next, Coherent;
    ghost var sh := v.shape;
    ghost var C: iset<Pos> := iset{};
    TruncatingStart(s0, sh, inum);
    var i := 0;
    BelowNext(inum, 0, 0, C);
    while i < N_DIRECT
      invariant i <= N_DIRECT
      invariant v.Laid() && DirtyAt(v.State(), inum) && MapsCoherent(v.State())
      invariant Truncating(s0, sh, v.State(), inum, C + Below(inum, 0, i))
      invariant DirectCleared(s0.inodes[inum].direct, v.inodes[inum].direct, i)
    {
      var tempBlkNum := v.inodes[inum].direct[i];
      DirectSlot(s0, sh, inum, i);
      ghost var s := v.State();
      v.SetInode(inum, v.inodes[inum].(direct := v.inodes[inum].direct[i := 0]));
      PointerCleared(s0, sh, s, v.State(), inum, C + Below(inum, 0, i));
      if tempBlkNum != 0 {
        FreeAt(v, tempBlkNum, Data(inum, i), s0, inum, C + Below(inum, 0, i));
        BelowNext(inum, 0, i, C);
        FlushDuring(v, s0, inum, C + Below(inum, 0, i + 1));
      } else {
        BelowEnd(s0, sh, v.State(), inum, 0, i, N_DIRECT, C);
        AllDirectClear(s0, sh, inum, v.inodes[inum].direct, i);
        assert C + Below(inum, 0, N_DIRECT) == Below(inum, 0, N_DIRECT);
        return;
      }
      i := i + 1;
    }
    assert C + Below(inum, 0, N_DIRECT) == Below(inum, 0, N_DIRECT);
    assert v.inodes[inum].direct == NO_DIRECT;
  }

  lemma TruncatingStart(s: Fs, sh: Shape, n: nat)
    requires Geometry(s) && Owned(s, sh) && Coherent(s) && n < |s.inodes|
    ensures Truncating(s, sh, s, n, iset{}) && DirtyAt(s, n) && MapsCoherent(s)
  {
    hide At, Present, Extents, Word, DecodeInode, Bit;
  }

  lemma PointerCleared(s0: Fs, sh: Shape, s: Fs, s': Fs, n: nat, C: iset<Pos>)
    requires Geometry(s) && MapsCoherent(s) && DirtyAt(s, n) && Truncating(s0, sh, s, n, C)
    requires s' == s.(inodes := s'.inodes) && |s'.inodes| == |s.inodes|
    requires s'.inodes == s.inodes[n := s.inodes[n].(direct := s'.inodes[n].direct)]
    ensures Geometry(s') && DirtyAt(s', n) && MapsCoherent(s') && Truncating(s0, sh, s', n, C)
  {
    hide Word, DecodeInode, Bit;
  }

  lemma AllDirectClear(s: Fs, sh: Shape, n: nat, d: seq<u32>, i: nat)
    requires Geometry(s) && Owned(s, sh) && n < |s.inodes| && i < N_DIRECT
    requires |d| == N_DIRECT && i >= sh.extent[n].blocks
    requires forall k | 0 <= k < N_DIRECT :: d[k] == if k <= i then 0 else s.inodes[n].direct[k]
    ensures d == NO_DIRECT
  {
    hide At, Geometry;
    forall k | 0 <= k < N_DIRECT
      ensures d[k] == 0
    {
      DirectSlot(s, sh, n, k);
    }
  }

  ghost function Swept(n: nat, size: int): iset<Pos> {
    Below(n, 0, N_DIRECT)
    + (if size > FILE_IN_INODE then Below(n, IND1_FIRST, WORDS_PER_BLOCK) + iset{Root1(n)} else iset{})
    + (if size > LEVEL3_START then BigTree(n) else iset{})
  }

  /** The three sweeps together reach what Reached says. */
  lemma SweptReached(s: Fs, sh: Shape, n: nat, size: int, b: nat)
    requires Geometry(s) && Owned(s, sh) && b in sh.owner
    ensures sh.owner[b] in Swept(n, size) <==> sh.owner[b].inum == n && Reached(sh.owner[b], size)
  {
    hide Geometry, Extents, Present, DataStart, Cap;
    SameGeometry(s, s);
    AtInRange(s, sh.owner[b]);
  }

  lemma AtInRange(s: Fs, p: Pos)
    requires At(s, p) != 0
    ensures InRange(p)
  {
  }

  /** The inode emptied and written out after the sweeps. */
  lemma TruncatedFinish(s0: Fs, sh: Shape, s: Fs, n: nat)
    requires Geometry(s0) && Owned(s0, sh) && DirtyAt(s, n) && MapsCoherent(s) && n < |s0.inodes|
    requires Truncating(s0, sh, s, n, Swept(n, s0.inodes[n].size)) && s.inodes[n].direct == NO_DIRECT
    ensures var s1 := s.(inodes := s.inodes[n := s.inodes[n].(size := 0, indir1 := 0, indir2 := 0)]);
            && Geometry(s1)
            && var s2 := FlushInode(s1, n);
            Geometry(s2) && Coherent(s2) && Truncated(s0, sh, s2, Dropped(sh, n), n)
  {
    hide Owned, At, Reached, Swept, FlushInode, Geometry, DataStart;
    var s1 := s.(inodes := s.inodes[n := s.inodes[n].(size := 0, indir1 := 0, indir2 := 0)]);
    OwnedMarked(s0, sh);
    SameGeometry(s0, s);
    SameGeometry(s, s1);
    assert SuperCoherent(s1) && MapsCoherent(s1) && InodesCoherent(s1, {n}) by { hide Word, DecodeInode, Bit; }
    FlushInodeCoherent(s1, n);
    FlushInodeKeeps(s1, n);
    forall b | b in sh.owner
      ensures sh.owner[b] in Swept(n, s0.inodes[n].size) <==>
              sh.owner[b].inum == n && Reached(sh.owner[b], s0.inodes[n].size)
    {
      SweptReached(s0, sh, n, s0.inodes[n].size, b);
    }
  }

  /** fs_truncate(path, 0) once the path is resolved to a regular file. */
  method TruncateInode(v: Volume, inum: nat)
    requires v.Sound() && inum < v.inodes.Length
    modifies v`shape, v.blockMap, v.disk, v.inodes
    ensures v.Sound() && Truncated(old(v.State()), old(v.shape), v.State(), v.shape, inum)
  {
    hide DirtyAt, Geometry, Owned, Cleared, At, MapsCoherent, Below, BigTree, Coherent, Truncated, Dropped, Compact;
    ghost var s0, sh := v.State(), v.shape;
    RootFacts(s0, sh, inum);
    RootsNeeded(sh.extent[inum]);
    TruncateDirect(v, inum, s0);
    var inode := v.inodes[inum];
    ghost var C := Below(inum, 0, N_DIRECT);
    if inode.size > FILE_IN_INODE {
      FirstBase();
      TruncateLevel2(v, inode.indir1, s0, inum, IND1_FIRST, C);
      C := C + Subtree(inum, IND1_FIRST);
    }
    if inode.size > LEVEL3_START {
      TruncateLevel3(v, inode.indir2, s0, inum, C);
      C := C + BigTree(inum);
    }
    assert C == Swept(inum, s0.inodes[inum].size);
    TruncatedFinish(s0, sh, v.State(), inum);
    v.SetInode(inum, v.inodes[inum].(size := 0, indir1 := 0, indir2 := 0));
    v.UpdateInode(inum);
    v.shape := Dropped(sh, inum);
    TruncatedOwned(s0, sh, v.State(), v.shape, inum);
  }
}
