/** How the block trees change: hanging a fresh zeroed block at the next
    position of a tree, overwriting a data block, and touching blocks that hold
    no pointers.  Each step is described by its effect on the raw device and
    proved to keep the ownership invariant. */
module Forest {
  import opened Codec
  import opened Image

  ghost predicate SameSizes(s: Fs, s': Fs) {
    && s'.inodeMapSz == s.inodeMapSz && s'.blockMapSz == s.blockMapSz && s'.numBlocks == s.numBlocks
    && |s'.disk| == |s.disk| && |s'.inodes| == |s.inodes|
    && |s'.inodeMap| == |s.inodeMap| && |s'.blockMap| == |s.blockMap|
  }

  lemma SameGeometry(s: Fs, s': Fs)
    requires Geometry(s) && SameSizes(s, s')
    ensures Geometry(s') && DataStart(s') == DataStart(s) && Cap(s') == Cap(s)
    ensures 0 < DataStart(s) <= Cap(s) <= |s.blockMap| && Cap(s) <= |s.disk|
  {
  }

  /** The data region is untouched but for the blocks in `except`. */
  ghost predicate DataAgree(s: Fs, s': Fs, except: set<nat>)
    requires |s'.disk| == |s.disk|
  {
    forall b | DataStart(s) <= b < |s.disk| && b !in except :: s'.disk[b] == s.disk[b]
  }

  /** Position p is the next one the write path fills in its tree. */
  ghost predicate Next(e: Extent, p: Pos) {
    match p
    case Data(_, k) =>
      k == e.blocks < MAX_POSITIONS
      && (k < IND1_FIRST || (k < IND2_FIRST && e.root1)
          || (k >= IND2_FIRST && e.leaves > (k - IND2_FIRST) / WORDS_PER_BLOCK))
    case Root1(_) => !e.root1 && e.blocks == IND1_FIRST
    case Root2(_) => !e.root2 && e.blocks == IND2_FIRST
    case Leaf(_, i) =>
      i == e.leaves < WORDS_PER_BLOCK && e.root2 && e.blocks == IND2_FIRST + WORDS_PER_BLOCK * i
  }

  ghost function Grow(e: Extent, p: Pos): Extent {
    match p
    case Data(_, _) => e.(blocks := e.blocks + 1)
    case Root1(_) => e.(root1 := true)
    case Root2(_) => e.(root2 := true)
    case Leaf(_, _) => e.(leaves := e.leaves + 1)
  }

  ghost function Link(sh: Shape, p: Pos, b: nat): Shape
    requires p.inum < |sh.extent|
  {
    Shape(sh.owner[b := p], sh.extent[p.inum := Grow(sh.extent[p.inum], p)])
  }

  lemma GrowCompact(e: Extent, p: Pos)
    requires Compact(e) && Next(e, p)
    ensures Compact(Grow(e, p)) && Cost(Grow(e, p)) == Cost(e) + 1
    ensures InRange(p)
  {
  }

  /** The parent of the next position is there. */
  lemma NextParent(sh: Shape, p: Pos)
    requires p.inum < |sh.extent| && Next(sh.extent[p.inum], p)
    ensures !Present(sh, p)
    ensures !InInode(p) ==> Present(sh, Parent(p))
  {
  }

  /** Word j of index block c now holds b; the rest of c is as before. */
  ghost predicate SlotSet(s: Fs, s': Fs, c: nat, j: nat, b: nat)
    requires |s'.disk| == |s.disk| && j < WORDS_PER_BLOCK
  {
    && 0 < c < |s.disk| && DataAgree(s, s', {b, c})
    && (forall i | 0 <= i < WORDS_PER_BLOCK :: Word(s'.disk[c], i) == if i == j then b else Word(s.disk[c], i))
  }

  /** What linking the free block b at position p does to memory and device:
      b is zeroed and marked, and one pointer is set, in the inode or in one
      word of the parent index block. */
  ghost predicate Linked(s: Fs, s': Fs, p: Pos, b: nat) {
    && SameSizes(s, s') && InRange(p) && p.inum < |s.inodes|
    && b < |s.blockMap| && b < |s.disk| <= MAX_DISK_BLOCKS
    && s'.inodeMap == s.inodeMap
    && s'.blockMap == s.blockMap[b := true]
    && s'.disk[b] == ZeroBlock()
    && if InInode(p) then
         s'.inodes == s.inodes[p.inum := SetInodePtr(s.inodes[p.inum], p, b)] && DataAgree(s, s', {b})
       else
         s'.inodes == s.inodes && SlotSet(s, s', At(s, Parent(p)), Slot(p), b)
  }

  /** A block number that is not yet owned by anyone. */
  ghost predicate Unused(s: Fs, sh: Shape, b: nat) {
    0 < b && DataStart(s) <= b < Cap(s) && b < |s.blockMap| && !s.blockMap[b] && b !in sh.owner
  }

  lemma {:induction false} LinkAt(s: Fs, sh: Shape, s': Fs, p: Pos, b: nat, q: Pos)
    requires Geometry(s) && Owned(s, sh) && Linked(s, s', p, b) && Unused(s, sh, b)
    requires At(s, p) == 0
    ensures At(s', q) == if q == p then b else At(s, q)
    decreases Depth(q)
  {
    hide Word, Geometry, Extents, Present;
    if q.inum < |s.inodes| && InRange(q) && !InInode(q) {
      var r := Parent(q);
      LinkAt(s, sh, s', p, b, r);
      ZeroWords(Slot(q));
      if !InInode(p) && Parent(p) == r && Slot(p) == Slot(q) {
        SlotUnique(p, q);
      }
    }
  }

  lemma SlotUnique(p: Pos, q: Pos)
    requires InRange(p) && InRange(q) && !InInode(p) && !InInode(q)
    requires Parent(p) == Parent(q) && Slot(p) == Slot(q)
    ensures p == q
  {
  }

  lemma LinkExtents(s: Fs, sh: Shape, s': Fs, p: Pos, b: nat)
    requires Geometry(s) && Owned(s, sh) && Linked(s, s', p, b) && Next(sh.extent[p.inum], p)
    ensures Extents(s', Link(sh, p, b))
    ensures forall q :: Present(Link(sh, p, b), q) <==> Present(sh, q) || q == p
  {
    hide Word, At, Compact, Linked, Geometry, DataStart, Cap, SetInodePtr;
    LinkZeroed(s, s', p, b);
    GrowCompact(sh.extent[p.inum], p);
  }

  lemma LinkOwned(s: Fs, sh: Shape, s': Fs, p: Pos, b: nat)
    requires Geometry(s) && Owned(s, sh) && Linked(s, s', p, b) && Unused(s, sh, b)
    requires Next(sh.extent[p.inum], p)
    ensures Geometry(s') && Owned(s', Link(sh, p, b))
    ensures forall q :: At(s', q) == if q == p then b else At(s, q)
  {
    hide Word, Compact, Grow, Next, Extents, At, Present, Geometry, DataStart, Cap, Linked;
    LinkZeroed(s, s', p, b);
    SameGeometry(s, s');
    OwnedMarked(s, sh);
    NextParent(sh, p);
    forall q
      ensures At(s', q) == if q == p then b else At(s, q)
    {
      LinkAt(s, sh, s', p, b, q);
    }
    LinkExtents(s, sh, s', p, b);
  }

  // ---------------------------------------------------- growing one file

  ghost predicate SameMeta(i: Inode, i': Inode) {
    && i'.uid == i.uid && i'.gid == i.gid && i'.mode == i.mode
    && i'.ctime == i.ctime && i'.mtime == i.mtime && i'.pad == i.pad
  }

  /** From (s, sh) to (s', sh') only the tree of inode n has grown: it kept its
      blocks and took over free ones, every block of another inode is as it was,
      and each block taken is one free block less. */
  ghost predicate Grown(s: Fs, sh: Shape, s': Fs, sh': Shape, n: nat) {
    && SameSizes(s, s') && s'.inodeMap == s.inodeMap
    && n < |s.inodes| == |sh.extent| == |sh'.extent|
    && SameMeta(s.inodes[n], s'.inodes[n])
    && (forall m | 0 <= m < |s.inodes| && m != n :: s'.inodes[m] == s.inodes[m] && sh'.extent[m] == sh.extent[m])
    && sh'.extent[n].blocks >= sh.extent[n].blocks
    && (forall b :: b in sh.owner ==> b in sh'.owner && sh'.owner[b] == sh.owner[b])
    && (forall b :: b in sh'.owner ==> b in sh.owner || (sh'.owner[b].inum == n && b < |s.blockMap| && !s.blockMap[b]))
    && (forall b | 0 <= b < |s.disk| && b in sh.owner && sh.owner[b].inum != n :: s'.disk[b] == s.disk[b])
    && (forall b | 0 <= b < |s.blockMap| :: s'.blockMap[b] == (s.blockMap[b] || b in sh'.owner))
    && Free(s') + Cost(sh'.extent[n]) == Free(s) + Cost(sh.extent[n])
  }

  /** The bytes of file n are those of s with `data` written over them at off. */
  ghost predicate Spliced(s: Fs, s': Fs, n: nat, off: nat, data: seq<byte>) {
    forall i: nat :: ByteAt(s', n, i) == if off <= i < off + |data| then data[i - off] else ByteAt(s, n, i)
  }

  lemma OwnedMarked(s: Fs, sh: Shape)
    requires Geometry(s) && Owned(s, sh)
    ensures |sh.extent| == |s.inodes| && forall n | 0 <= n < |s.inodes| :: Compact(sh.extent[n])
    ensures forall b :: b in sh.owner ==> DataStart(s) <= b < Cap(s) && s.blockMap[b]
  {
  }

  lemma OwnedOnDisk(s: Fs, sh: Shape, p: Pos)
    requires Geometry(s) && Owned(s, sh)
    ensures At(s, p) < |s.disk| && (At(s, p) != 0 ==> DataStart(s) <= At(s, p))
  {
    hide At, Extents, Present;
  }

  lemma FirstPointer(s: Fs, d: nat)
    requires d < |s.inodes|
    ensures At(s, Data(d, 0)) == s.inodes[d].direct[0]
  {
  }

  lemma GrownRefl(s: Fs, sh: Shape, n: nat)
    requires Geometry(s) && Owned(s, sh) && n < |s.inodes|
    ensures Grown(s, sh, s, sh, n) && Spliced(s, s, n, 0, [])
  {
  }

  lemma GrownTrans(s: Fs, sh: Shape, s': Fs, sh': Shape, s'': Fs, sh'': Shape, n: nat)
    requires Grown(s, sh, s', sh', n) && Grown(s', sh', s'', sh'', n)
    ensures Grown(s, sh, s'', sh'', n)
  {
    hide FreeCount, Cost;
  }

  lemma SplicedTrans(s: Fs, s': Fs, s'': Fs, n: nat, off: nat, d: seq<byte>, e: seq<byte>)
    requires Spliced(s, s', n, off, d) && Spliced(s', s'', n, off + |d|, e)
    ensures Spliced(s, s'', n, off, d + e)
  {
    hide ByteAt;
  }

  /** One position more, in terms of what Grown looks at. */
  lemma GrownByOne(s: Fs, sh: Shape, s': Fs, p: Pos, b: nat)
    requires SameSizes(s, s') && s'.inodeMap == s.inodeMap && p.inum < |s.inodes| == |sh.extent|
    requires b < |s.blockMap| && !s.blockMap[b] && s'.blockMap == s.blockMap[b := true] && b !in sh.owner
    requires SameMeta(s.inodes[p.inum], s'.inodes[p.inum])
    requires forall m | 0 <= m < |s.inodes| && m != p.inum :: s'.inodes[m] == s.inodes[m]
    requires forall x :: x in sh.owner ==> x < |s.blockMap| && s.blockMap[x]
    requires forall x :: x in sh.owner && sh.owner[x].inum != p.inum && x < |s.disk| ==> s'.disk[x] == s.disk[x]
    requires var e := sh.extent[p.inum]; Grow(e, p).blocks >= e.blocks && Cost(Grow(e, p)) == Cost(e) + 1
    requires Free(s') + 1 == Free(s)
    ensures Grown(s, sh, s', Link(sh, p, b), p.inum)
  {
    hide Grow, Cost, Free;
  }

  lemma LinkFree(s: Fs, s': Fs, b: nat)
    requires SameSizes(s, s') && b < Cap(s) && !s.blockMap[b] && s'.blockMap == s.blockMap[b := true]
    ensures Free(s') + 1 == Free(s)
  {
    hide FreeCount;
    FreeCountSet(s.blockMap, Cap(s), b);
  }

  lemma LinkGrown(s: Fs, sh: Shape, s': Fs, p: Pos, b: nat)
    requires Geometry(s) && Owned(s, sh) && Linked(s, s', p, b) && Unused(s, sh, b)
    requires Next(sh.extent[p.inum], p)
    ensures Geometry(s') && Owned(s', Link(sh, p, b))
    ensures Grown(s, sh, s', Link(sh, p, b), p.inum)
    ensures forall q :: At(s', q) == if q == p then b else At(s, q)
  {
    hide Word, At, Compact, Free, Cost, Linked, Owned, Next, Link, Grown;
    SameGeometry(s, s);
    hide Geometry, DataStart, Cap;
    LinkZeroed(s, s', p, b);
    OwnedMarked(s, sh);
    LinkOwned(s, sh, s', p, b);
    GrowCompact(sh.extent[p.inum], p);
    LinkFree(s, s', b);
    LinkForeign(s, sh, s', p, b);
    GrownByOne(s, sh, s', p, b);
  }

  /** Besides b, linking changes only a block of the same inode. */
  lemma LinkForeign(s: Fs, sh: Shape, s': Fs, p: Pos, b: nat)
    requires Geometry(s) && Owned(s, sh) && Linked(s, s', p, b) && Unused(s, sh, b)
    requires Next(sh.extent[p.inum], p)
    ensures forall x :: x in sh.owner && (sh.owner[x].inum != p.inum || sh.owner[x].Data?) ==> s'.disk[x] == s.disk[x]
  {
    hide Word, Compact, FreeCount;
    if !InInode(p) {
      NextParent(sh, p);
      assert sh.owner[At(s, Parent(p))] == Parent(p);
    }
  }

  lemma LinkBytes(s: Fs, sh: Shape, s': Fs, p: Pos, b: nat)
    requires Geometry(s) && Owned(s, sh) && Linked(s, s', p, b) && Unused(s, sh, b)
    requires Next(sh.extent[p.inum], p)
    ensures forall n: nat, i: nat :: ByteAt(s', n, i) == ByteAt(s, n, i)
  {
    hide Word, Compact, Linked;
    LinkOwned(s, sh, s', p, b);
    LinkZeroed(s, s', p, b);
    NextParent(sh, p);
    LinkForeign(s, sh, s', p, b);
    forall n: nat, i: nat
      ensures ByteAt(s', n, i) == ByteAt(s, n, i)
    {
      var q := Data(n, i / BLOCK_SIZE);
      assert At(s', q) == if q == p then b else At(s, q);
    }
  }

  lemma LinkZeroed(s: Fs, s': Fs, p: Pos, b: nat)
    requires Linked(s, s', p, b)
    ensures SameSizes(s, s') && b < |s.disk| && s'.disk[b] == ZeroBlock()
    ensures p.inum < |s.inodes| && s'.inodeMap == s.inodeMap && s'.blockMap == s.blockMap[b := true]
    ensures forall m | 0 <= m < |s.inodes| && m != p.inum :: s'.inodes[m] == s.inodes[m]
    ensures SameMeta(s.inodes[p.inum], s'.inodes[p.inum]) && s'.inodes[p.inum].size == s.inodes[p.inum].size
  {
  }

  // --------------------------------------- writes that leave pointers alone

  ghost predicate SamePointers(s: Fs, s': Fs) {
    && |s'.inodes| == |s.inodes|
    && forall n | 0 <= n < |s.inodes| ::
         s'.inodes[n].direct == s.inodes[n].direct && s'.inodes[n].indir1 == s.inodes[n].indir1
         && s'.inodes[n].indir2 == s.inodes[n].indir2
  }

  /** Index blocks are as before, so every pointer is. */
  lemma {:induction false} FrameAt(s: Fs, sh: Shape, s': Fs, q: Pos)
    requires Geometry(s) && Owned(s, sh) && SameSizes(s, s') && SamePointers(s, s')
    requires forall b | 0 <= b < |s.disk| && b in sh.owner && !sh.owner[b].Data? :: s'.disk[b] == s.disk[b]
    ensures At(s', q) == At(s, q)
    decreases Depth(q)
  {
    hide Word, Geometry, Present, Extents;
    if q.inum < |s.inodes| && InRange(q) && !InInode(q) {
      FrameAt(s, sh, s', Parent(q));
    }
  }

  lemma FrameOwned(s: Fs, sh: Shape, s': Fs)
    requires Geometry(s) && Owned(s, sh) && SameSizes(s, s') && SamePointers(s, s')
    requires s'.blockMap == s.blockMap && Extents(s', sh)
    requires forall b | 0 <= b < |s.disk| && b in sh.owner && !sh.owner[b].Data? :: s'.disk[b] == s.disk[b]
    ensures Geometry(s') && Owned(s', sh)
    ensures forall q :: At(s', q) == At(s, q)
  {
    hide Word, Compact, At, Present, Geometry, DataStart, Cap;
    SameGeometry(s, s');
    forall q
      ensures At(s', q) == At(s, q)
    {
      FrameAt(s, sh, s', q);
    }
  }
}
