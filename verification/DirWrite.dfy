/** When fs_write on a directory, which it does not tell from a file, leaves the
    tree of names as it was. */
module DirWrite {
  import opened Codec
  import opened Image
  import opened Forest
  import opened Paths
  import opened Namespace
  import opened FileWrite
  import opened FileFacts
  import opened DirSteps

  /** The two slots read the same: the name field may differ beyond its NUL, and
      an invalid slot holds anything that ends in one. */
  predicate SlotAgrees(e: Dirent, e': Dirent) {
    && 0 in e'.name && e'.valid == e.valid
    && (e.valid ==> e'.isDir == e.isDir && e'.inode == e.inode && CStr(e'.name) == CStr(e.name))
  }

  predicate SlotsAgree(ds: Dirents, ds': Dirents) {
    forall i | 0 <= i < DIRENTS_PER_BLOCK :: SlotAgrees(ds[i], ds'[i])
  }

  // -------------------------------------------------- in terms of the slots

  /** One tree of names in two volumes: a slot valid in one says the same in both. */
  lemma SameEntry(s: Fs, sh: Shape, s': Fs, sh': Shape, nm: Names, d: nat, i: nat)
    requires Named(s, sh, nm) && Named(s', sh', nm) && IsDir(s, d) && IsDir(s', d) && i < DIRENTS_PER_BLOCK
    ensures d < |s.inodes| && d < |s'.inodes|
    ensures var e, e' := DirOf(s, d)[i], DirOf(s', d)[i];
            0 in e'.name && (e.valid ==> e'.valid && SlotAgrees(e, e'))
  {
    hide DirOf, CStr, IsDirMode, UseOk, EntryOk, ChildOk;
    assert SlotOk(nm, d, i, DirOf(s, d)[i]) && SlotOk(nm, d, i, DirOf(s', d)[i]);
    if DirOf(s, d)[i].valid {
      EntryHere(s', sh', nm, Key(d, CStr(DirOf(s, d)[i].name)));
    }
  }

  lemma NamedAgrees(s: Fs, sh: Shape, s': Fs, sh': Shape, nm: Names, d: nat)
    requires Named(s, sh, nm) && Named(s', sh', nm) && IsDir(s, d) && IsDir(s', d)
    ensures d < |s.inodes| && d < |s'.inodes| && SlotsAgree(DirOf(s, d), DirOf(s', d))
  {
    hide DirOf, CStr, IsDirMode, Named;
    forall i | 0 <= i < DIRENTS_PER_BLOCK
      ensures SlotAgrees(DirOf(s, d)[i], DirOf(s', d)[i])
    {
      SameEntry(s, sh, s', sh', nm, d, i);
      SameEntry(s', sh', s, sh, nm, d, i);
    }
  }

  /** The directories but n are as they were, and n's slots agree. */
  ghost predicate SlotsKept(s: Fs, s': Fs, n: nat) {
    && SameSizes(s, s') && s'.inodeMap == s.inodeMap
    && (forall m | 0 <= m < |s.inodes| :: s'.inodes[m].mode == s.inodes[m].mode)
    && (forall d | 0 <= d < |s.inodes| && IsDir(s, d) && d != n :: DirOf(s', d) == DirOf(s, d))
    && IsDir(s, n) && SlotsAgree(DirOf(s, n), DirOf(s', n))
  }

  lemma KeptSlot(s: Fs, sh: Shape, s': Fs, nm: Names, n: nat, d: nat, i: nat)
    requires Named(s, sh, nm) && SlotsKept(s, s', n) && IsDir(s', d) && i < DIRENTS_PER_BLOCK
    ensures d < |s'.inodes| && SlotOk(nm, d, i, DirOf(s', d)[i])
  {
    hide DirOf, CStr, IsDirMode, UseOk, EntryOk, ChildOk;
    assert IsDir(s, d);
    assert SlotOk(nm, d, i, DirOf(s, d)[i]);
    if d == n {
      assert SlotAgrees(DirOf(s, n)[i], DirOf(s', n)[i]);
    }
  }

  lemma KeptKey(s: Fs, sh: Shape, s': Fs, nm: Names, n: nat, key: Key)
    requires Named(s, sh, nm) && SlotsKept(s, s', n) && key in nm.tree && |nm.rank| == |s'.inodes|
    ensures EntryOk(s', nm, key) && ChildOk(s', nm, key)
  {
    hide DirOf, CStr, IsDirMode, IsRegMode, GoodName, UseOk, SlotOk;
    assert EntryOk(s, nm, key) && ChildOk(s, nm, key);
    if key.dir == n {
      assert SlotAgrees(DirOf(s, n)[nm.tree[key].slot], DirOf(s', n)[nm.tree[key].slot]);
    }
  }

  lemma KeptUse(s: Fs, sh: Shape, s': Fs, sh': Shape, n: nat)
    requires UseOk(s, sh) && SlotsKept(s, s', n) && sh'.extent == sh.extent
    ensures UseOk(s', sh')
  {
    hide DirOf, CStr, IsDirMode;
  }

  lemma KeptNamed(s: Fs, sh: Shape, s': Fs, sh': Shape, nm: Names, n: nat)
    requires Named(s, sh, nm) && SlotsKept(s, s', n) && sh'.extent == sh.extent
    ensures Named(s', sh', nm)
  {
    hide DirOf, CStr, UseOk, EntryOk, ChildOk, SlotOk, SlotsKept;
    NamedUse(s, sh, nm);
    KeptUse(s, sh, s', sh', n);
    KeptSizes(s, s', n);
    forall d, i | 0 <= d < |s'.inodes| && IsDir(s', d) && 0 <= i < DIRENTS_PER_BLOCK
      ensures SlotOk(nm, d, i, DirOf(s', d)[i])
    {
      KeptSlot(s, sh, s', nm, n, d, i);
    }
    forall key | key in nm.tree
      ensures EntryOk(s', nm, key) && ChildOk(s', nm, key)
    {
      KeptKey(s, sh, s', nm, n, key);
    }
  }

  lemma KeptSizes(s: Fs, s': Fs, n: nat)
    requires SlotsKept(s, s', n)
    ensures |s'.inodes| == |s.inodes|
  {
  }

  /** Growing the tree of a directory n and rewriting its first block. */
  lemma GrownKept(s: Fs, sh: Shape, s': Fs, sh': Shape, nm: Names, n: nat)
    requires Geometry(s) && Owned(s, sh) && Named(s, sh, nm) && IsDir(s, n) && Grown(s, sh, s', sh', n)
    ensures n < |s.inodes| == |s'.inodes| && IsDir(s', n)
    ensures SlotsAgree(DirOf(s, n), DirOf(s', n)) ==> SlotsKept(s, s', n)
  {
    hide Geometry, Owned, Named, DecodeDir, CStr, IsDirMode, Free, Cost, SlotsAgree, At;
    NamedUse(s, sh, nm);
    forall d | 0 <= d < |s.inodes| && IsDir(s, d) && d != n
      ensures DirOf(s', d) == DirOf(s, d)
    {
      DirBlock(s, sh, d);
    }
  }

  /** The tree of names survives exactly if the directory keeps its one block and
      every slot reads as before. */
  lemma NamedIff(s: Fs, sh: Shape, s': Fs, sh': Shape, nm: Names, n: nat)
    requires Geometry(s) && Owned(s, sh) && Named(s, sh, nm) && Geometry(s') && Owned(s', sh')
    requires IsDir(s, n) && Grown(s, sh, s', sh', n)
    ensures n < |s.inodes| == |s'.inodes|
    ensures Named(s', sh', nm) <==> sh'.extent == sh.extent && SlotsAgree(DirOf(s, n), DirOf(s', n))
  {
    hide Geometry, Owned, Named, DirOf, CStr, IsDirMode, SlotsAgree, SlotsKept;
    GrownKept(s, sh, s', sh', nm, n);
    if sh'.extent == sh.extent && SlotsAgree(DirOf(s, n), DirOf(s', n)) {
      KeptNamed(s, sh, s', sh', nm, n);
    }
    if Named(s', sh', nm) {
      NamedAgrees(s, sh, s', sh', nm, n);
      NamedExtents(s, sh, s', sh', nm, n);
    }
  }

  lemma NamedExtents(s: Fs, sh: Shape, s': Fs, sh': Shape, nm: Names, n: nat)
    requires Named(s, sh, nm) && Named(s', sh', nm) && IsDir(s, n) && IsDir(s', n) && Grown(s, sh, s', sh', n)
    ensures sh'.extent == sh.extent
  {
    hide IsDirMode, Free, Cost, SlotOk, EntryOk, ChildOk, Placed;
    assert forall m | 0 <= m < |sh.extent| :: sh'.extent[m] == sh.extent[m];
  }

  // --------------------------------------------- in terms of what is written

  /** What the write needs to leave the tree of names alone: it stays in the
      directory's block, or no block is left to go on in, and the slots of the
      block with the new bytes read as before. */
  ghost predicate KeepsNames(s: Fs, n: nat, off: nat, data: seq<byte>) {
    && n < |s.inodes| && off <= BLOCK_SIZE && s.inodes[n].direct[0] < |s.disk|
    && (off + |data| <= BLOCK_SIZE || Free(s) == 0)
    && SlotsAgree(DirOf(s, n), DecodeDir(Patch(s.disk[s.inodes[n].direct[0]], off, InBlock(off, data))))
  }

  /** The part of the data that falls into the block. */
  function InBlock(off: nat, data: seq<byte>): (r: seq<byte>)
    requires off <= BLOCK_SIZE
    ensures off + |r| <= BLOCK_SIZE && r <= data
  {
    if |data| <= BLOCK_SIZE - off then data else data[..BLOCK_SIZE - off]
  }

  /** The tree of blocks stays as it is exactly if the write stays in the block or
      there is no other; the block is filled in any case. */
  lemma DirExtent(s: Fs, sh: Shape, s': Fs, sh': Shape, n: nat, off: nat, data: seq<byte>, ret: int)
    requires Geometry(s) && Owned(s, sh) && Geometry(s') && Owned(s', sh') && n < |s.inodes|
    requires Wrote(s, sh, s', sh', n, off, data, ret) && off <= s.inodes[n].size
    requires n < |sh.extent| && sh.extent[n] == Extent(1, 0, false, false)
    ensures off <= BLOCK_SIZE && |InBlock(off, data)| <= ret <= |data|
    ensures n < |sh'.extent| == |sh.extent|
    ensures sh'.extent == sh.extent <==> off + |data| <= BLOCK_SIZE || Free(s) == 0
  {
    hide Geometry, Spliced, ByteAt, At, Free, Owned;
    OwnedMarked(s, sh);
    OwnedMarked(s', sh');
    SizeFits(s, sh, n);
    assert sh'.extent == sh.extent <==> sh'.extent[n] == sh.extent[n];
  }

  lemma SizeFits(s: Fs, sh: Shape, n: nat)
    requires Geometry(s) && Owned(s, sh) && n < |s.inodes|
    ensures n < |sh.extent| && 0 <= s.inodes[n].size <= BLOCK_SIZE * sh.extent[n].blocks
  {
  }

  /** The first block after the write is the old one with the new bytes. */
  lemma FirstBlockWritten(s: Fs, sh: Shape, s': Fs, sh': Shape, n: nat, off: nat, data: seq<byte>, ret: int)
    requires Geometry(s) && Owned(s, sh) && Geometry(s') && Owned(s', sh') && n < |s.inodes|
    requires Wrote(s, sh, s', sh', n, off, data, ret) && s.inodes[n].direct[0] != 0
    requires off <= BLOCK_SIZE && |InBlock(off, data)| <= ret
    ensures n < |s'.inodes| && s.inodes[n].direct[0] < |s.disk|
    ensures DirOf(s', n) == DecodeDir(Patch(s.disk[s.inodes[n].direct[0]], off, InBlock(off, data)))
  {
    hide Geometry, Owned, At, Free, Cost, DecodeDir, Patch, Spliced, ByteAt;
    var b := s.inodes[n].direct[0];
    WroteFrame(s, sh, s', sh', n, off, data, ret);
    FirstBlock(s, sh, n);
    FirstPointer(s', n);
    GrownKeepsAt(s, sh, s', sh', n, Data(n, 0));
    FirstBlock(s', sh', n);
    var want := Patch(s.disk[b], off, InBlock(off, data));
    forall i | 0 <= i < BLOCK_SIZE
      ensures s'.disk[b][i] == want[i]
    {
      WrittenByte(s, s', n, off, data, ret, i);
    }
    assert s'.disk[b] == want;
  }

  lemma WrittenByte(s: Fs, s': Fs, n: nat, off: nat, data: seq<byte>, ret: int, i: nat)
    requires n < |s.inodes| && n < |s'.inodes| && s'.inodes[n].direct[0] == s.inodes[n].direct[0]
    requires 0 < s.inodes[n].direct[0] < |s.disk| == |s'.disk|
    requires off <= BLOCK_SIZE && |InBlock(off, data)| <= ret <= |data| && i < BLOCK_SIZE
    requires Spliced(s, s', n, off, data[..ret])
    ensures s'.disk[s.inodes[n].direct[0]][i] == Patch(s.disk[s.inodes[n].direct[0]], off, InBlock(off, data))[i]
  {
    FirstPointer(s, n);
    FirstPointer(s', n);
    hide At, Spliced;
    assert ByteAt(s', n, i) == s'.disk[s.inodes[n].direct[0]][i];
    assert ByteAt(s, n, i) == s.disk[s.inodes[n].direct[0]][i];
    SplicedByte(s, s', n, off, data[..ret], i);
  }

  lemma SplicedByte(s: Fs, s': Fs, n: nat, off: nat, d: seq<byte>, i: nat)
    requires Spliced(s, s', n, off, d)
    ensures ByteAt(s', n, i) == if off <= i < off + |d| then d[i - off] else ByteAt(s, n, i)
  {
    hide ByteAt;
  }

  /** fs_write on a directory keeps the tree of names if and only if KeepsNames. */
  lemma DirWriteIff(s: Fs, sh: Shape, s': Fs, sh': Shape, nm: Names, n: nat, off: nat, data: seq<byte>, ret: int)
    requires Geometry(s) && Owned(s, sh) && Named(s, sh, nm) && Geometry(s') && Owned(s', sh') && IsDir(s, n)
    requires Wrote(s, sh, s', sh', n, off, data, ret) && off <= s.inodes[n].size
    ensures n < |s.inodes| && off <= BLOCK_SIZE && s.inodes[n].direct[0] < |s.disk|
    ensures Named(s', sh', nm) <==> KeepsNames(s, n, off, data)
  {
    hide Geometry, Owned, Named, DirOf, IsDirMode, SlotsAgree, Free, Spliced, FilledBy, Grown, DecodeDir, Patch;
    hide InBlock;
    NamedUse(s, sh, nm);
    assert n < |sh.extent| && sh.extent[n] == Extent(1, 0, false, false);
    DirHasBlock(s, sh, n);
    DirExtent(s, sh, s', sh', n, off, data, ret);
    FirstBlockWritten(s, sh, s', sh', n, off, data, ret);
    NamedIff(s, sh, s', sh', nm, n);
  }

  /** Writing the bytes that are there, or none, is one such write. */
  lemma SameBytesKeep(s: Fs, sh: Shape, nm: Names, n: nat, off: nat, data: seq<byte>)
    requires Geometry(s) && Owned(s, sh) && Named(s, sh, nm) && IsDir(s, n) && off + |data| <= BLOCK_SIZE
    requires n < |s.inodes| && s.inodes[n].direct[0] < |s.disk|
    requires s.disk[s.inodes[n].direct[0]][off..off + |data|] == data
    ensures KeepsNames(s, n, off, data)
  {
    hide Geometry, Owned, DecodeDir, CStr, IsDirMode, UseOk, EntryOk, ChildOk;
    NamedUse(s, sh, nm);
    DirBlock(s, sh, n);
    var b := s.disk[s.inodes[n].direct[0]];
    assert Patch(b, off, data) == b;
    forall i | 0 <= i < DIRENTS_PER_BLOCK
      ensures SlotAgrees(DirOf(s, n)[i], DirOf(s, n)[i])
    {
      assert SlotOk(nm, n, i, DirOf(s, n)[i]);
    }
  }
}
