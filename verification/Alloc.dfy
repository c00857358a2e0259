/** Giving a file its next block.  homework.c repeats the same five steps for
    direct pointers, for the two index roots and for the words of an index
    block: find and zero a free block, set the pointer, write the pointer out,
    mark the block, write the maps out. */
module Alloc {
  import opened Codec
  import opened Image
  import opened Forest
  import opened Flush
  import opened Volumes

  ghost function Zeroed(s: Fs, b: nat): Fs
    requires b < |s.disk|
  {
    s.(disk := s.disk[b := ZeroBlock()])
  }

  ghost function WithPtr(s: Fs, p: Pos, b: u32): Fs
    requires p.inum < |s.inodes| && InInode(p)
  {
    s.(inodes := s.inodes[p.inum := SetInodePtr(s.inodes[p.inum], p, b)])
  }

  lemma ZeroedKeeps(s: Fs, b: nat)
    requires Geometry(s) && Coherent(s) && DataStart(s) <= b < Cap(s)
    ensures Geometry(Zeroed(s, b)) && Coherent(Zeroed(s, b))
  {
    hide ZeroBlock, Geometry, DataStart;
    hide SuperCoherent, MapsCoherent, InodesCoherent;
    SameGeometry(s, s);
    SameGeometry(s, Zeroed(s, b));
    MetaAgreeCoherent(s, Zeroed(s, b), {});
  }

  /** Changing one inode in memory leaves the others coherent. */
  lemma WithInodeKeeps(s: Fs, n: nat, ino: Inode)
    requires Geometry(s) && Coherent(s) && n < |s.inodes|
    ensures var s' := s.(inodes := s.inodes[n := ino]);
            Geometry(s') && SuperCoherent(s') && MapsCoherent(s') && InodesCoherent(s', {n})
  {
    hide Word, DecodeInode, Bit;
  }

  lemma MarkedKeeps(s: Fs, m: seq<bool>)
    requires Geometry(s) && |m| == |s.blockMap|
    ensures var s' := s.(blockMap := m);
            Geometry(s') && (SuperCoherent(s) ==> SuperCoherent(s'))
            && (InodesCoherent(s, {}) ==> InodesCoherent(s', {}))
  {
    hide Word, DecodeInode;
  }

  /** Pointer and bitmap written out: the image is coherent again. */
  lemma FlushBoth(s: Fs, n: nat, m: seq<bool>)
    requires Geometry(s) && n < |s.inodes| && |m| == |s.blockMap|
    requires SuperCoherent(s) && InodesCoherent(s, {n})
    ensures Geometry(FlushInode(s, n))
    ensures var s4 := FlushInode(s, n).(blockMap := m);
            Geometry(s4) && Coherent(FlushMaps(s4))
            && SameSizes(s, FlushMaps(s4)) && DataAgree(s, FlushMaps(s4), {})
            && FlushMaps(s4).inodes == s.inodes && FlushMaps(s4).inodeMap == s.inodeMap && FlushMaps(s4).blockMap == m
  {
    hide FlushMaps, FlushInode, Geometry;
    hide SuperCoherent, MapsCoherent, InodesCoherent;
    var s3 := FlushInode(s, n);
    FlushInodeCoherent(s, n);
    FlushInodeKeeps(s, n);
    MarkedKeeps(s3, m);
    var s4 := s3.(blockMap := m);
    FlushMapsCoherent(s4);
    FlushMapsKeeps(s4, {});
    FlushMapsFrame(s4);
  }

  /** The tree of p.inum now has a block at p, and nothing else has changed. */
  ghost predicate Extended(s: Fs, sh: Shape, s': Fs, sh': Shape, p: Pos) {
    && Grown(s, sh, s', sh', p.inum)
    && s'.inodes[p.inum].size == s.inodes[p.inum].size
    && sh'.extent == sh.extent[p.inum := Grow(sh.extent[p.inum], p)]
    && (forall q :: At(s', q) == if q == p then At(s', p) else At(s, q))
    && (forall m: nat, i: nat :: ByteAt(s', m, i) == ByteAt(s, m, i))
  }

  lemma LinkExtended(s: Fs, sh: Shape, s': Fs, p: Pos, b: nat)
    requires Geometry(s) && Owned(s, sh) && Linked(s, s', p, b) && Unused(s, sh, b)
    requires Next(sh.extent[p.inum], p)
    ensures Geometry(s') && Owned(s', Link(sh, p, b))
    ensures Extended(s, sh, s', Link(sh, p, b), p) && At(s', p) == b
  {
    hide Linked, Owned, Geometry, Grown, Next, Grow, At, ByteAt;
    LinkZeroed(s, s', p, b);
    LinkGrown(s, sh, s', p, b);
    LinkBytes(s, sh, s', p, b);
  }

  lemma FreeIsUnused(s: Fs, sh: Shape, b: nat)
    requires Geometry(s) && Owned(s, sh) && b < Cap(s) && !s.blockMap[b]
    ensures Unused(s, sh, b) && s.blockMap[0]
  {
  }

  lemma PointerLinked(s: Fs, sh: Shape, p: Pos, b: nat)
    requires Geometry(s) && Coherent(s) && InInode(p) && InRange(p) && p.inum < |s.inodes|
    requires Unused(s, sh, b)
    ensures var s2 := WithPtr(Zeroed(s, b), p, b);
            && Geometry(s2) && Geometry(FlushInode(s2, p.inum))
            && var s4 := FlushInode(s2, p.inum).(blockMap := s.blockMap[b := true]);
            Geometry(s4) && Coherent(FlushMaps(s4)) && Linked(s, FlushMaps(s4), p, b)
  {
    hide Geometry, Coherent, SuperCoherent, InodesCoherent, MapsCoherent, FlushMaps, FlushInode, ZeroBlock, SetInodePtr;
    SameGeometry(s, s);
    ZeroedKeeps(s, b);
    var s1 := Zeroed(s, b);
    var ino := SetInodePtr(s.inodes[p.inum], p, b);
    WithInodeKeeps(s1, p.inum, ino);
    FlushBoth(WithPtr(s1, p, b), p.inum, s.blockMap[b := true]);
  }

  /** Allocates the block for a pointer of the inode itself: a direct slot,
      indir_1 or indir_2. */
  method AllocPointer(v: Volume, p: Pos) returns (ok: bool)
    requires v.Sound() && p.inum < v.inodes.Length && InInode(p)
    requires Next(v.shape.extent[p.inum], p)
    modifies v`shape, v.disk, v.blockMap, v.inodes
    ensures v.Sound()
    ensures ok ==> Extended(old(v.State()), old(v.shape), v.State(), v.shape, p)
    ensures !ok ==> v.State() == old(v.State()) && v.shape == old(v.shape)
    ensures ok <==> Free(old(v.State())) > 0
  {
    hide Geometry, Owned, Coherent, Extended, Next, FlushMaps, FlushInode, ZeroBlock, SetInodePtr, Linked, Unused;
    ghost var s, sh := v.State(), v.shape;
    SoundBasics(s, sh);
    assert InRange(p) by { NextInRange(sh.extent[p.inum], p); }
    var blk := v.FindFreeBlock();
    if blk < 0 {
      return false;
    }
    FreeCountZero(s.blockMap, Cap(s));
    FreeIsUnused(s, sh, blk);
    PointerLinked(s, sh, p, blk);
    v.SetInode(p.inum, SetInodePtr(v.inodes[p.inum], p, blk));
    v.UpdateInode(p.inum);
    v.MarkBlock(blk);
    v.UpdateBitmap();
    LinkExtended(s, sh, v.State(), p, blk);
    v.shape := Link(sh, p, blk);
    return true;
  }

  lemma SoundBasics(s: Fs, sh: Shape)
    requires Geometry(s) && Owned(s, sh)
    ensures s.blockMap[0] && |sh.extent| == |s.inodes| && Cap(s) <= |s.disk| <= MAX_DISK_BLOCKS
  {
  }

  lemma NextInRange(e: Extent, p: Pos)
    requires Next(e, p)
    ensures InRange(p)
  {
  }

  lemma MapsOut(s: Fs, m: seq<bool>)
    requires Geometry(s) && Coherent(s) && |m| == |s.blockMap|
    ensures var s4 := s.(blockMap := m);
            Geometry(s4) && Coherent(FlushMaps(s4))
            && SameSizes(s, FlushMaps(s4)) && DataAgree(s, FlushMaps(s4), {})
            && FlushMaps(s4).inodes == s.inodes && FlushMaps(s4).inodeMap == s.inodeMap && FlushMaps(s4).blockMap == m
  {
    hide FlushMaps, Geometry;
    hide SuperCoherent, MapsCoherent, InodesCoherent;
    MarkedKeeps(s, m);
    var s4 := s.(blockMap := m);
    FlushMapsCoherent(s4);
    FlushMapsKeeps(s4, {});
    FlushMapsFrame(s4);
  }

  ghost function WithWord(s: Fs, c: nat, j: nat, b: u32): Fs
    requires c < |s.disk| && j < WORDS_PER_BLOCK
  {
    s.(disk := s.disk[c := EncodeWords(DecodeWords(s.disk[c])[j := b])])
  }

  lemma WithWordKeeps(s: Fs, c: nat, j: nat, b: u32)
    requires Geometry(s) && Coherent(s) && DataStart(s) <= c < |s.disk| && j < WORDS_PER_BLOCK
    ensures Geometry(WithWord(s, c, j, b)) && Coherent(WithWord(s, c, j, b))
    ensures forall i | 0 <= i < WORDS_PER_BLOCK ::
              Word(WithWord(s, c, j, b).disk[c], i) == if i == j then b else Word(s.disk[c], i)
  {
    hide Geometry, DataStart, SuperCoherent, MapsCoherent, InodesCoherent, Word, EncodeWords;
    SameGeometry(s, s);
    var s' := WithWord(s, c, j, b);
    SameGeometry(s, s');
    MetaAgreeCoherent(s, s', {});
    var w: Words := DecodeWords(s.disk[c])[j := b];
    WordsRoundTrip(w);
    forall i | 0 <= i < WORDS_PER_BLOCK
      ensures Word(s'.disk[c], i) == w[i]
    {
      assert DecodeWords(s'.disk[c])[i] == w[i];
    }
  }

  lemma WordLinked(s: Fs, sh: Shape, p: Pos, b: nat)
    requires Geometry(s) && Coherent(s) && !InInode(p) && InRange(p) && p.inum < |s.inodes|
    requires Unused(s, sh, b) && DataStart(s) <= At(s, Parent(p)) < |s.disk| && At(s, Parent(p)) != b
    ensures var s2 := WithWord(Zeroed(s, b), At(s, Parent(p)), Slot(p), b);
            && Geometry(s2)
            && var s4 := s2.(blockMap := s.blockMap[b := true]);
            Geometry(s4) && Coherent(FlushMaps(s4)) && Linked(s, FlushMaps(s4), p, b)
  {
    hide Geometry, DataStart, Coherent, FlushMaps, ZeroBlock, At, Parent, Slot, WithWord, Word;
    SameGeometry(s, s);
    ZeroedKeeps(s, b);
    var s1, c := Zeroed(s, b), At(s, Parent(p));
    SameGeometry(s, s1);
    WithWordKeeps(s1, c, Slot(p), b);
    var s2 := WithWord(s1, c, Slot(p), b);
    WithWordFrame(s1, c, Slot(p), b);
    MapsOut(s2, s.blockMap[b := true]);
  }

  lemma WithWordFrame(s: Fs, c: nat, j: nat, b: u32)
    requires DataStart(s) <= c < |s.disk| && j < WORDS_PER_BLOCK
    ensures SameSizes(s, WithWord(s, c, j, b)) && DataAgree(s, WithWord(s, c, j, b), {c})
    ensures DataStart(WithWord(s, c, j, b)) == DataStart(s)
    ensures WithWord(s, c, j, b).inodes == s.inodes && WithWord(s, c, j, b).inodeMap == s.inodeMap
    ensures WithWord(s, c, j, b).blockMap == s.blockMap
  {
    hide EncodeWords;
  }

  lemma ParentBlock(s: Fs, sh: Shape, p: Pos)
    requires Geometry(s) && Owned(s, sh) && p.inum < |s.inodes| && Next(sh.extent[p.inum], p) && !InInode(p)
    ensures var c := At(s, Parent(p));
            c != 0 && DataStart(s) <= c < |s.disk| && c in sh.owner && sh.owner[c] == Parent(p)
  {
    hide At;
    NextParent(sh, p);
  }

  /** Allocates the block for word j of the index block `root`, of which `blk`
      is the caller's copy. */
  method AllocWord(v: Volume, root: nat, blk: Words, j: nat, ghost p: Pos) returns (ok: bool, blk': Words)
    requires v.Sound() && p.inum < v.inodes.Length && !InInode(p)
    requires Free(v.State()) > 0 ==> Next(v.shape.extent[p.inum], p)
    requires root == At(v.State(), Parent(p)) && InRange(p) && j == Slot(p)
    requires root < v.disk.Length && blk == DecodeWords(v.State().disk[root])
    modifies v`shape, v.disk, v.blockMap
    ensures v.Sound()
    ensures root < v.disk.Length && blk' == DecodeWords(v.State().disk[root])
    ensures ok ==> Extended(old(v.State()), old(v.shape), v.State(), v.shape, p)
    ensures !ok ==> v.State() == old(v.State()) && v.shape == old(v.shape)
    ensures ok <==> Free(old(v.State())) > 0
  {
    hide Geometry, DataStart, Owned, Coherent, Extended, Next, FlushMaps, ZeroBlock, EncodeWords, Linked, Unused, At;
    hide Parent, Slot, Word;
    ghost var s, sh := v.State(), v.shape;
    SoundBasics(s, sh);
    SameGeometry(s, s);
    var b := v.FindFreeBlock();
    if b < 0 {
      return false, blk;
    }
    FreeCountZero(s.blockMap, Cap(s));
    ParentBlock(s, sh, p);
    FreeIsUnused(s, sh, b);
    NotOwned(s, sh, b, root);
    WordLinked(s, sh, p, b);
    blk' := blk[j := b];
    assert blk == DecodeWords(v.State().disk[root]);
    v.WriteBlock(root, EncodeWords(blk'));
    assert v.State() == WithWord(Zeroed(s, b), root, j, b);
    v.MarkBlock(b);
    ghost var s4 := v.State();
    v.UpdateBitmap();
    WordsRoundTrip(blk');
    FlushMapsFrame(s4);
    SameGeometry(s, s4);
    LinkExtended(s, sh, v.State(), p, b);
    v.shape := Link(sh, p, b);
    return true, blk';
  }

  lemma NotOwned(s: Fs, sh: Shape, b: nat, c: nat)
    requires Unused(s, sh, b) && c in sh.owner
    ensures b != c && 0 < b && DataStart(s) <= b
  {
  }
}
