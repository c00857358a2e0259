/** The steps directory operations are made of: writing a directory block,
    claiming an inode, and what the name tree is after an entry is added,
    removed or renamed. */
module DirSteps {
  import opened Codec
  import opened Image
  import opened Forest
  import opened Flush
  import opened Paths
  import opened Namespace
  import opened Volumes
  import opened Alloc
  import opened FileTruncate

  // ------------------------------------------------------ directory blocks

  /** The block of directory d replaced by one holding ds. */
  ghost function WithDir(s: Fs, d: nat, ds: Dirents): Fs
    requires d < |s.inodes| && s.inodes[d].direct[0] < |s.disk|
  {
    s.(disk := s.disk[s.inodes[d].direct[0] := EncodeDir(ds)])
  }

  /** The first block of an inode that has one, of whatever type the inode is. */
  lemma FirstBlock(s: Fs, sh: Shape, d: nat)
    requires Geometry(s) && Owned(s, sh) && d < |s.inodes| && s.inodes[d].direct[0] != 0
    ensures var b := s.inodes[d].direct[0];
            && b == At(s, Data(d, 0)) && DataStart(s) <= b < |s.disk| && b in sh.owner && sh.owner[b] == Data(d, 0)
            && DirOf(s, d) == DecodeDir(s.disk[b])
  {
    hide Owned, Geometry, At, DecodeDir;
    FirstPointer(s, d);
    OwnedOnDisk(s, sh, Data(d, 0));
    OwnerOf(s, sh, Data(d, 0));
  }

  /** Replacing that block keeps all that does not ask for directories, and
      touches no byte of another inode. */
  lemma WithDirSound(s: Fs, sh: Shape, d: nat, ds: Dirents)
    requires Geometry(s) && Owned(s, sh) && Coherent(s) && d < |s.inodes| && s.inodes[d].direct[0] != 0
    ensures s.inodes[d].direct[0] < |s.disk|
    ensures var s' := WithDir(s, d, ds);
            && Geometry(s') && Owned(s', sh) && Coherent(s') && SameSizes(s, s') && DirOf(s', d) == ds
            && (forall e | 0 <= e < |s.inodes| && s.inodes[e].direct[0] != 0 && e != d :: DirOf(s', e) == DirOf(s, e))
            && (forall m: nat, i: nat | m != d :: ByteAt(s', m, i) == ByteAt(s, m, i))
  {
    hide Geometry, Owned, At, DecodeDir, EncodeDir, DataStart, SuperCoherent, MapsCoherent, InodesCoherent, Compact;
    FirstBlock(s, sh, d);
    SameGeometry(s, s);
    var s' := WithDir(s, d, ds);
    assert Extents(s', sh) by { OwnedExtents(s, sh); }
    FrameOwned(s, sh, s');
    MetaAgreeCoherent(s, s', {});
    DirRoundTrip(ds);
    forall e | 0 <= e < |s.inodes| && s.inodes[e].direct[0] != 0 && e != d
      ensures DirOf(s', e) == DirOf(s, e)
    {
      FirstBlock(s, sh, e);
    }
    forall m: nat, i: nat | m != d
      ensures ByteAt(s', m, i) == ByteAt(s, m, i)
    {
      OwnerOf(s, sh, Data(m, i / BLOCK_SIZE));
    }
  }

  /** The bytes of inode d itself: those of the block that was written. */
  lemma WithDirBytes(s: Fs, sh: Shape, d: nat, slot: nat, e: Dirent)
    requires Geometry(s) && Owned(s, sh) && Coherent(s) && d < |s.inodes| && s.inodes[d].direct[0] != 0
    requires slot < DIRENTS_PER_BLOCK
    ensures s.inodes[d].direct[0] < |s.disk|
    ensures forall i: nat :: ByteAt(WithDir(s, d, DirOf(s, d)[slot := e]), d, i)
                             == if 32 * slot <= i < 32 * slot + 32 then DirentByte(e, i - 32 * slot)
                                else ByteAt(s, d, i)
  {
    hide Geometry, Owned, At, DecodeDir, EncodeDir, DataStart, Coherent, DirentByte;
    FirstBlock(s, sh, d);
    var ds := DirOf(s, d)[slot := e];
    WithDirSound(s, sh, d, ds);
    var s' := WithDir(s, d, ds);
    FirstPointer(s', d);
    forall i: nat
      ensures ByteAt(s', d, i)
              == if 32 * slot <= i < 32 * slot + 32 then DirentByte(e, i - 32 * slot) else ByteAt(s, d, i)
    {
      if i < BLOCK_SIZE {
        SlotBytes(s.disk[s.inodes[d].direct[0]], slot, e, i);
      } else {
        WithDirBeyond(s, sh, s', d, i);
      }
    }
  }

  lemma SlotBytes(b: Block, slot: nat, e: Dirent, i: nat)
    requires slot < DIRENTS_PER_BLOCK && i < BLOCK_SIZE
    ensures EncodeDir(DecodeDir(b)[slot := e])[i]
            == if 32 * slot <= i < 32 * slot + 32 then DirentByte(e, i - 32 * slot) else b[i]
  {
    hide EncodeDir, DirentByte, DecodeDirent;
    var t, k := i / 32, i % 32;
    DirentByteAt(DecodeDir(b)[slot := e], t, k);
    if t != slot {
      DirentBytesBack(b, t, k);
    }
  }

  lemma WithDirBeyond(s: Fs, sh: Shape, s': Fs, d: nat, i: nat)
    requires Geometry(s) && Owned(s, sh) && Geometry(s') && Owned(s', sh) && d < |s.inodes| && i >= BLOCK_SIZE
    requires s.inodes[d].direct[0] != 0 && s'.inodes == s.inodes && SameSizes(s, s')
    requires forall b | 0 <= b < |s.disk| && b != s.inodes[d].direct[0] :: s'.disk[b] == s.disk[b]
    ensures ByteAt(s', d, i) == ByteAt(s, d, i)
  {
    hide Geometry, At, Extents, Present;
    FirstBlock(s, sh, d);
    SameGeometry(s, s);
    var q := Data(d, i / BLOCK_SIZE);
    FrameAt(s, sh, s', q);
    OwnerOf(s, sh, q);
  }

  lemma WithDirOwned(s: Fs, sh: Shape, d: nat, ds: Dirents)
    requires Geometry(s) && Owned(s, sh) && UseOk(s, sh) && IsDir(s, d) && Coherent(s)
    ensures s.inodes[d].direct[0] < |s.disk|
    ensures var s' := WithDir(s, d, ds);
            && Geometry(s') && Owned(s', sh) && Coherent(s') && SameSizes(s, s')
            && DirOf(s', d) == ds
            && (forall e | 0 <= e < |s.inodes| && IsDir(s, e) && e != d :: DirOf(s', e) == DirOf(s, e))
            && (forall m: nat, i: nat | m != d :: ByteAt(s', m, i) == ByteAt(s, m, i))
  {
    hide Geometry, Owned, At, DirOf, IsDirMode, DataStart, Coherent, UseOk, ByteAt, WithDir;
    DirBlock(s, sh, d);
    WithDirSound(s, sh, d, ds);
    forall e | 0 <= e < |s.inodes| && IsDir(s, e)
      ensures s.inodes[e].direct[0] != 0
    {
      DirBlock(s, sh, e);
    }
  }

  lemma OwnedExtents(s: Fs, sh: Shape)
    requires Geometry(s) && Owned(s, sh)
    ensures Extents(s, sh)
  {
  }

  lemma OwnerOf(s: Fs, sh: Shape, p: Pos)
    requires Geometry(s) && Owned(s, sh)
    ensures At(s, p) != 0 ==> At(s, p) in sh.owner && sh.owner[At(s, p)] == p
  {
    hide At, Present;
  }

  method WriteDir(v: Volume, d: nat, ds: Dirents)
    requires v.Sound() && d < v.inodes.Length && v.inodes[d].direct[0] != 0
    modifies v.disk
    ensures v.Sound()
    ensures old(v.State()).inodes[d].direct[0] < |old(v.State()).disk|
    ensures v.State() == WithDir(old(v.State()), d, ds)
  {
    hide Geometry, Owned, Coherent, EncodeDir;
    WithDirSound(v.State(), v.shape, d, ds);
    v.WriteBlock(v.inodes[d].direct[0], EncodeDir(ds));
  }

  method ReadDir(v: Volume, d: nat) returns (ds: Dirents)
    requires v.Sound() && d < v.inodes.Length && v.inodes[d].direct[0] != 0
    ensures ds == DirOf(v.State(), d)
  {
    hide Geometry, Owned, Coherent, DecodeDir;
    FirstBlock(v.State(), v.shape, d);
    var blk := v.ReadBlock(v.inodes[d].direct[0]);
    ds := DecodeDir(blk);
  }

  lemma DirHasBlock(s: Fs, sh: Shape, d: nat)
    requires Geometry(s) && Owned(s, sh) && UseOk(s, sh) && IsDir(s, d)
    ensures d < |s.inodes| && s.inodes[d].direct[0] != 0
  {
    hide Geometry, Owned, UseOk, IsDirMode;
    DirBlock(s, sh, d);
  }

  // ----------------------------------------------------- claiming an inode

  lemma InodeMapKeeps(s: Fs, m: seq<bool>)
    requires Geometry(s) && |m| == |s.inodeMap|
    ensures var s' := s.(inodeMap := m);
            Geometry(s') && (SuperCoherent(s) ==> SuperCoherent(s'))
            && (InodesCoherent(s, {}) ==> InodesCoherent(s', {}))
  {
    hide Word, DecodeInode;
  }

  lemma InodeMapOut(s: Fs, m: seq<bool>)
    requires Geometry(s) && Coherent(s) && |m| == |s.inodeMap|
    ensures var s1 := s.(inodeMap := m);
            && Geometry(s1) && Coherent(FlushMaps(s1)) && Geometry(FlushMaps(s1))
            && SameSizes(s, FlushMaps(s1)) && DataAgree(s, FlushMaps(s1), {})
            && FlushMaps(s1).inodes == s.inodes && FlushMaps(s1).inodeMap == m && FlushMaps(s1).blockMap == s.blockMap
  {
    hide FlushMaps, Geometry;
    hide SuperCoherent, MapsCoherent, InodesCoherent;
    InodeMapKeeps(s, m);
    var s1 := s.(inodeMap := m);
    FlushMapsCoherent(s1);
    FlushMapsKeeps(s1, {});
    FlushMapsFrame(s1);
  }

  lemma InodeOut(s: Fs, n: nat, ino: Inode)
    requires Geometry(s) && Coherent(s) && n < |s.inodes|
    ensures var s1 := s.(inodes := s.inodes[n := ino]);
            Geometry(s1) && var s2 := FlushInode(s1, n);
            && Geometry(s2) && Coherent(s2) && SameSizes(s, s2) && DataAgree(s, s2, {})
            && s2.inodes == s.inodes[n := ino] && s2.inodeMap == s.inodeMap && s2.blockMap == s.blockMap
  {
    hide Geometry, DataStart, SuperCoherent, MapsCoherent, InodesCoherent, FlushInode;
    WithInodeKeeps(s, n, ino);
    var s1 := s.(inodes := s.inodes[n := ino]);
    FlushInodeCoherent(s1, n);
    FlushInodeKeeps(s1, n);
    SameGeometry(s, s1);
  }

  ghost predicate NoPointers(ino: Inode) {
    ino.direct == NO_DIRECT && ino.indir1 == 0 && ino.indir2 == 0 && ino.size == 0
  }

  /** An unused inode, without blocks, becomes an empty one; nothing else changes. */
  ghost predicate Claimed(s: Fs, sh: Shape, s': Fs, c: nat, ino: Inode) {
    && SameSizes(s, s') && DataAgree(s, s', {}) && NoPointers(ino)
    && 2 <= c < |s.inodes| && c < |s.inodeMap| && !s.inodeMap[c]
    && |sh.extent| == |s.inodes| && sh.extent[c] == EMPTY_EXTENT
    && s'.inodeMap == s.inodeMap[c := true] && s'.blockMap == s.blockMap
    && s'.inodes == s.inodes[c := ino]
  }

  lemma ClaimedAt(s: Fs, sh: Shape, s': Fs, c: nat, ino: Inode, q: Pos)
    requires Geometry(s) && Owned(s, sh) && Claimed(s, sh, s', c, ino)
    ensures At(s', q) == At(s, q)
  {
    hide At, Geometry, Compact, DataAgree;
    if q.inum == c {
      EmptyAt(s', q);
      assert !Present(sh, q);
    } else {
      OthersAt(s, sh, s', c, q);
    }
  }

  lemma ClaimedOwned(s: Fs, sh: Shape, s': Fs, c: nat, ino: Inode)
    requires Geometry(s) && Owned(s, sh) && Claimed(s, sh, s', c, ino)
    ensures Geometry(s') && Owned(s', sh)
    ensures forall m: nat, i: nat :: ByteAt(s', m, i) == ByteAt(s, m, i)
  {
    hide At, Geometry, Compact, Present, DataStart;
    SameGeometry(s, s');
    forall q
      ensures At(s', q) == At(s, q)
    {
      ClaimedAt(s, sh, s', c, ino, q);
    }
    forall m: nat, i: nat
      ensures ByteAt(s', m, i) == ByteAt(s, m, i)
    {
      OwnerOf(s, sh, Data(m, i / BLOCK_SIZE));
    }
  }

  /** The first clear bit from i on, |m| or more if there is none. */
  function FirstClear(m: seq<bool>, i: nat): (j: nat)
    ensures j >= i && (j < |m| ==> !m[j]) && forall k | i <= k < j && k < |m| :: m[k]
    decreases |m| - i
  {
    if i >= |m| || !m[i] then i else FirstClear(m, i + 1)
  }

  /** The first free bit of the inode map names an inode of the region, or there
      is none: find_free_inode_map_bit is bounded by the map, not by the region. */
  ghost predicate RegionCovers(s: Fs) {
    FirstClear(s.inodeMap, 2) < |s.inodes| || FirstClear(s.inodeMap, 2) >= |s.inodeMap|
  }

  /** find_free_inode_map_bit */
  method FindFreeInode(v: Volume) returns (inum: int)
    requires v.Laid()
    ensures var c := FirstClear(v.State().inodeMap, 2);
            inum == if c < |v.State().inodeMap| then c else -ENOSPC
  {
    var i := 2;
    while i < v.inodeMapSz * BLOCK_SIZE * 8
      invariant 2 <= i && FirstClear(v.State().inodeMap, 2) == FirstClear(v.State().inodeMap, i)
    {
      if !v.inodeMap[i] {
        return i;
      }
      i := i + 1;
    }
    return -ENOSPC;
  }

  /** The inode part of mknod and mkdir: bit set, maps out, inode in memory and out. */
  method ClaimInode(v: Volume, c: nat, ino: Inode)
    requires v.Laid() && Coherent(v.State()) && c < v.inodes.Length && c < v.inodeMap.Length
    modifies v.inodeMap, v.disk, v.inodes
    ensures v.Laid() && Coherent(v.State())
    ensures SameSizes(old(v.State()), v.State()) && DataAgree(old(v.State()), v.State(), {})
    ensures v.State().inodeMap == old(v.State()).inodeMap[c := true] && v.State().blockMap == old(v.State()).blockMap
    ensures v.State().inodes == old(v.State()).inodes[c := ino]
  {
    hide Geometry, Coherent, FlushMaps, FlushInode;
    ghost var s := v.State();
    InodeMapOut(s, s.inodeMap[c := true]);
    v.MarkInode(c);
    v.UpdateBitmap();
    ghost var s2 := v.State();
    SameGeometry(s, s2);
    InodeOut(s2, c, ino);
    v.SetInode(c, ino);
    v.UpdateInode(c);
  }

  // ------------------------------------------------------ the tree of names

  ghost function AddName(nm: Names, d: nat, i: nat, name: Name, c: nat, isDir: bool): Names
    requires d < |nm.rank| && c < |nm.rank|
  {
    var key := Key(d, name);
    Names(nm.tree[key := Entry(i, c, isDir)], nm.parent[c := key], nm.rank[c := nm.rank[d] + 1])
  }

  ghost function DropName(nm: Names, d: nat, name: Name): Names {
    nm.(tree := nm.tree - {Key(d, name)})
  }

  ghost function MoveName(nm: Names, d: nat, src: Name, dst: Name): Names
    requires Key(d, src) in nm.tree
  {
    var e := nm.tree[Key(d, src)];
    Names((nm.tree - {Key(d, src)})[Key(d, dst) := e], nm.parent[e.inum := Key(d, dst)], nm.rank)
  }

  /** The other directories are as they were, and directory d holds ds. */
  ghost predicate DirReplaced(s: Fs, s': Fs, d: nat, ds: Dirents) {
    && |s'.inodes| == |s.inodes| && IsDir(s, d) && IsDir(s', d)
    && (forall e | 0 <= e < |s.inodes| && IsDir(s, e) :: IsDir(s', e))
    && DirOf(s', d) == ds
    && (forall e | 0 <= e < |s.inodes| && IsDir(s, e) && e != d :: DirOf(s', e) == DirOf(s, e))
  }

  /** The new inode is a live one of the right type; a new directory is empty. */
  ghost predicate NewChild(s: Fs, s': Fs, c: nat, isDir: bool) {
    && 2 <= c < |s.inodes| <= |s.inodeMap| && !s.inodeMap[c]
    && |s'.inodes| == |s.inodes| && |s'.inodeMap| == |s.inodeMap|
    && (forall m | 0 <= m < |s.inodes| && m != c :: s'.inodes[m].mode == s.inodes[m].mode)
    && (forall m | 0 <= m < |s.inodeMap| :: s'.inodeMap[m] == (s.inodeMap[m] || m == c))
    && (if isDir then IsDirMode(s'.inodes[c].mode) else IsRegMode(s'.inodes[c].mode))
    && (isDir ==> forall j | 0 <= j < DIRENTS_PER_BLOCK :: DirOf(s', c)[j] == EmptyDirent())
  }

  lemma RegNotDir(mode: u32)
    ensures !(IsRegMode(mode) && IsDirMode(mode))
  {
  }

  lemma UseFacts(s: Fs, sh: Shape, c: nat)
    requires UseOk(s, sh) && c < |s.inodes| && !s.inodeMap[c]
    ensures !IsDir(s, c)
  {
  }

  /** Free slot i of directory d has received the entry e for the new inode c. */
  ghost predicate EntryAdded(s: Fs, nm: Names, s': Fs, d: nat, i: nat, e: Dirent, name: Name, c: nat) {
    && NewChild(s, s', c, e.isDir) && IsDir(s, d)
    && i < DIRENTS_PER_BLOCK && !DirOf(s, d)[i].valid
    && e.valid && 0 in e.name && CStr(e.name) == name && e.inode == c && GoodName(name)
    && Key(d, name) !in nm.tree
    && DirReplaced(s, s', d, DirOf(s, d)[i := e])
  }

  lemma AddSlot(s: Fs, sh: Shape, nm: Names, s': Fs, d: nat, i: nat, e: Dirent, name: Name, c: nat, f: nat, j: nat)
    requires Named(s, sh, nm) && EntryAdded(s, nm, s', d, i, e, name, c) && d < |nm.rank|
    requires f < |s'.inodes| && IsDir(s', f) && j < DIRENTS_PER_BLOCK && c < |nm.rank|
    ensures SlotOk(AddName(nm, d, i, name, c, e.isDir), f, j, DirOf(s', f)[j])
  {
    hide DirOf, CStr, GoodName, UseOk, IsDirMode, IsRegMode;
    NamedUse(s, sh, nm);
    UseFacts(s, sh, c);
    if f == c {
      RegNotDir(s'.inodes[c].mode);
      assert EmptyDirent().name[0] == 0;
    } else {
      assert SlotOk(nm, f, j, DirOf(s, f)[j]);
    }
  }

  lemma AddKey(s: Fs, sh: Shape, nm: Names, s': Fs, d: nat, i: nat, e: Dirent, name: Name, c: nat, key: Key)
    requires Named(s, sh, nm) && EntryAdded(s, nm, s', d, i, e, name, c) && d < |nm.rank| && c < |nm.rank|
    requires |nm.rank| == |s.inodes|
    requires key in AddName(nm, d, i, name, c, e.isDir).tree
    ensures EntryOk(s', AddName(nm, d, i, name, c, e.isDir), key)
            && ChildOk(s', AddName(nm, d, i, name, c, e.isDir), key)
  {
    hide DirOf, CStr, GoodName, UseOk, IsDirMode, IsRegMode, SlotOk, Placed;
    NamedUse(s, sh, nm);
    UseFacts(s, sh, c);
    if key != Key(d, name) {
      assert EntryOk(s, nm, key) && ChildOk(s, nm, key);
    }
  }

  lemma AddPlaced(s: Fs, sh: Shape, nm: Names, d: nat, i: nat, name: Name, c: nat, isDir: bool, key: Key)
    requires Named(s, sh, nm) && Placed(nm, d) && d != c && c < |s.inodes| && !s.inodeMap[c] && d < |nm.rank|
    requires c < |nm.rank| && c != ROOT && Key(d, name) !in nm.tree && key in AddName(nm, d, i, name, c, isDir).tree
    ensures Placed(AddName(nm, d, i, name, c, isDir), key.dir)
  {
    hide DirOf, CStr, GoodName, IsDirMode, IsRegMode, SlotOk, ChildOk;
    if key != Key(d, name) {
      assert Placed(nm, key.dir);
      assert EntryOk(s, nm, key);
    }
  }

  lemma NamedAdd(s: Fs, sh: Shape, nm: Names, s': Fs, sh': Shape, d: nat, i: nat, e: Dirent, name: Name, c: nat)
    requires Named(s, sh, nm) && UseOk(s', sh') && EntryAdded(s, nm, s', d, i, e, name, c) && Placed(nm, d)
    ensures c < |nm.rank| && d < |nm.rank| && Named(s', sh', AddName(nm, d, i, name, c, e.isDir))
  {
    hide DirOf, CStr, GoodName, IsDirMode, IsRegMode, EntryOk, ChildOk, SlotOk, Placed, AddName;
    NamedUse(s, sh, nm);
    UseFacts(s, sh, c);
    hide UseOk;
    var nm' := AddName(nm, d, i, name, c, e.isDir);
    AddRank(nm, d, i, name, c, e.isDir);
    forall f, j | 0 <= f < |s'.inodes| && IsDir(s', f) && 0 <= j < DIRENTS_PER_BLOCK
      ensures SlotOk(nm', f, j, DirOf(s', f)[j])
    {
      AddSlot(s, sh, nm, s', d, i, e, name, c, f, j);
    }
    forall key | key in nm'.tree
      ensures EntryOk(s', nm', key) && ChildOk(s', nm', key) && Placed(nm', key.dir)
    {
      AddKey(s, sh, nm, s', d, i, e, name, c, key);
      AddPlaced(s, sh, nm, d, i, name, c, e.isDir, key);
    }
  }

  lemma AddRank(nm: Names, d: nat, i: nat, name: Name, c: nat, isDir: bool)
    requires d < |nm.rank| && c < |nm.rank|
    ensures |AddName(nm, d, i, name, c, isDir).rank| == |nm.rank|
  {
  }

  /** Types of inodes are the same, and all that were live still are, but
      possibly `gone`. */
  ghost predicate SameModes(s: Fs, s': Fs, gone: nat) {
    && |s'.inodes| == |s.inodes| && |s'.inodeMap| == |s.inodeMap| && |s.inodes| <= |s.inodeMap|
    && (forall m | 0 <= m < |s.inodes| :: s'.inodes[m].mode == s.inodes[m].mode)
    && (forall m | 0 <= m < |s.inodes| && m != gone && s.inodeMap[m] :: s'.inodeMap[m])
  }

  /** The slot of d's entry for `name` has been made invalid. */
  ghost predicate EntryDropped(s: Fs, nm: Names, s': Fs, d: nat, name: Name) {
    && Key(d, name) in nm.tree && IsDir(s, d)
    && nm.tree[Key(d, name)].slot < DIRENTS_PER_BLOCK
    && SameModes(s, s', nm.tree[Key(d, name)].inum)
    && DirReplaced(s, s', d, Invalidated(DirOf(s, d), nm.tree[Key(d, name)].slot))
  }

  function Invalidated(ds: Dirents, i: nat): Dirents
    requires i < DIRENTS_PER_BLOCK
  {
    ds[i := ds[i].(valid := false)]
  }

  function Relabelled(ds: Dirents, i: nat, field: seq<byte>): Dirents
    requires i < DIRENTS_PER_BLOCK && |field| == NAME_FIELD
  {
    ds[i := ds[i].(name := field)]
  }

  lemma DropKey(s: Fs, sh: Shape, nm: Names, s': Fs, d: nat, name: Name, key: Key)
    requires Named(s, sh, nm) && EntryDropped(s, nm, s', d, name) && |nm.rank| == |s.inodes|
    requires key in DropName(nm, d, name).tree
    ensures EntryOk(s', DropName(nm, d, name), key) && ChildOk(s', DropName(nm, d, name), key)
  {
    hide DirOf, CStr, GoodName, UseOk, IsDirMode, IsRegMode;
    assert EntryOk(s, nm, Key(d, name)) && ChildOk(s, nm, Key(d, name));
    assert EntryOk(s, nm, key) && ChildOk(s, nm, key);
    if key.dir == d {
      assert SlotOk(nm, d, nm.tree[key].slot, DirOf(s, d)[nm.tree[key].slot]);
    }
  }

  /** Removing the entry of d for `name`; its inode may be released, and other
      inodes may be marked. */
  lemma NamedDrop(s: Fs, sh: Shape, nm: Names, s': Fs, sh': Shape, d: nat, name: Name)
    requires Named(s, sh, nm) && UseOk(s', sh') && EntryDropped(s, nm, s', d, name)
    requires NoNamesIn(nm, nm.tree[Key(d, name)].inum)
    ensures Named(s', sh', DropName(nm, d, name))
  {
    hide DirOf, CStr, GoodName, UseOk, IsDirMode, IsRegMode, EntryOk, ChildOk;
    NamedUse(s, sh, nm);
    var nm' := DropName(nm, d, name);
    forall f, j | 0 <= f < |s'.inodes| && IsDir(s', f) && 0 <= j < DIRENTS_PER_BLOCK
      ensures SlotOk(nm', f, j, DirOf(s', f)[j])
    {
      assert IsDir(s, f);
      assert SlotOk(nm, f, j, DirOf(s, f)[j]);
      EntryHere(s, sh, nm, Key(d, name));
    }
    forall key | key in nm'.tree
      ensures EntryOk(s', nm', key) && ChildOk(s', nm', key) && Placed(nm', key.dir)
    {
      DropKey(s, sh, nm, s', d, name, key);
      assert Placed(nm, key.dir);
    }
  }

  lemma EntryHere(s: Fs, sh: Shape, nm: Names, key: Key)
    requires Named(s, sh, nm) && key in nm.tree
    ensures var i := nm.tree[key].slot;
            key.dir < |s.inodes| && i < DIRENTS_PER_BLOCK
            && DirOf(s, key.dir)[i].valid && CStr(DirOf(s, key.dir)[i].name) == key.name
            && nm.tree[key] == Entry(i, DirOf(s, key.dir)[i].inode, DirOf(s, key.dir)[i].isDir)
  {
    hide DirOf, CStr, GoodName, UseOk, IsDirMode, IsRegMode;
    assert EntryOk(s, nm, key);
    assert SlotOk(nm, key.dir, nm.tree[key].slot, DirOf(s, key.dir)[nm.tree[key].slot]);
  }

  /** The slot of d's entry for src has received the name field `field`. */
  ghost predicate EntryMoved(s: Fs, nm: Names, s': Fs, d: nat, src: Name, dst: Name, field: seq<byte>) {
    && Key(d, src) in nm.tree && Key(d, dst) !in nm.tree && IsDir(s, d) && GoodName(dst)
    && |field| == NAME_FIELD && 0 in field && CStr(field) == dst
    && nm.tree[Key(d, src)].slot < DIRENTS_PER_BLOCK
    && SameModes(s, s', |s.inodes|)
    && DirReplaced(s, s', d, Relabelled(DirOf(s, d), nm.tree[Key(d, src)].slot, field))
  }

  lemma MoveKey(s: Fs, sh: Shape, nm: Names, s': Fs, d: nat, src: Name, dst: Name, field: seq<byte>, key: Key)
    requires Named(s, sh, nm) && EntryMoved(s, nm, s', d, src, dst, field) && |nm.rank| == |s.inodes|
    requires key in MoveName(nm, d, src, dst).tree
    ensures EntryOk(s', MoveName(nm, d, src, dst), key) && ChildOk(s', MoveName(nm, d, src, dst), key)
  {
    hide DirOf, CStr, GoodName, UseOk, IsDirMode, IsRegMode, SlotOk, Named;
    EntryHere(s, sh, nm, Key(d, src));
    assert EntryOk(s, nm, Key(d, src)) && ChildOk(s, nm, Key(d, src)) by { NamedAt(s, sh, nm, Key(d, src)); }
    if key != Key(d, dst) {
      assert EntryOk(s, nm, key) && ChildOk(s, nm, key) by { NamedAt(s, sh, nm, key); }
      EntryHere(s, sh, nm, key);
    }
  }

  lemma NamedAt(s: Fs, sh: Shape, nm: Names, key: Key)
    requires Named(s, sh, nm) && key in nm.tree
    ensures EntryOk(s, nm, key) && |nm.rank| == |s.inodes| && ChildOk(s, nm, key)
  {
  }

  lemma MovePlaced(s: Fs, sh: Shape, nm: Names, d: nat, src: Name, dst: Name, key: Key)
    requires Named(s, sh, nm) && Key(d, src) in nm.tree && Key(d, dst) !in nm.tree
    requires key in MoveName(nm, d, src, dst).tree
    ensures Placed(MoveName(nm, d, src, dst), key.dir)
  {
    hide DirOf, CStr, GoodName, UseOk, IsDirMode, IsRegMode, SlotOk, EntryOk;
    assert Placed(nm, Key(d, src).dir);
    assert ChildOk(s, nm, Key(d, src));
    if key != Key(d, dst) {
      assert Placed(nm, key.dir);
    }
  }

  lemma NamedMove(s: Fs, sh: Shape, nm: Names, s': Fs, sh': Shape, d: nat, src: Name, dst: Name, field: seq<byte>)
    requires Named(s, sh, nm) && UseOk(s', sh') && EntryMoved(s, nm, s', d, src, dst, field)
    ensures Named(s', sh', MoveName(nm, d, src, dst))
  {
    hide DirOf, CStr, GoodName, UseOk, IsDirMode, IsRegMode, EntryOk, ChildOk;
    NamedUse(s, sh, nm);
    var nm' := MoveName(nm, d, src, dst);
    EntryHere(s, sh, nm, Key(d, src));
    forall f, j | 0 <= f < |s'.inodes| && IsDir(s', f) && 0 <= j < DIRENTS_PER_BLOCK
      ensures SlotOk(nm', f, j, DirOf(s', f)[j])
    {
      assert IsDir(s, f);
      assert SlotOk(nm, f, j, DirOf(s, f)[j]);
    }
    forall key | key in nm'.tree
      ensures EntryOk(s', nm', key) && ChildOk(s', nm', key) && Placed(nm', key.dir)
    {
      MoveKey(s, sh, nm, s', d, src, dst, field, key);
      MovePlaced(s, sh, nm, d, src, dst, key);
    }
  }
}
