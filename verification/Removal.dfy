/** fs_unlink, fs_rmdir and fs_rename. */
module Removal {
  import opened Codec
  import opened Image
  import opened Forest
  import opened Flush
  import opened Paths
  import opened Namespace
  import opened Volumes
  import opened Translation
  import opened FileTruncate
  import opened FileOps
  import opened DirSteps

  /** The state with another inode map, written out. */
  lemma InodeMapOwned(s: Fs, sh: Shape, s': Fs)
    requires Geometry(s) && Owned(s, sh) && SameSizes(s, s') && DataAgree(s, s', {})
    requires s'.inodes == s.inodes && s'.blockMap == s.blockMap
    ensures Geometry(s') && Owned(s', sh)
    ensures forall d | 0 <= d < |s.inodes| && At(s, Data(d, 0)) != 0 :: DirOf(s', d) == DirOf(s, d)
    ensures forall m: nat, i: nat :: ByteAt(s', m, i) == ByteAt(s, m, i)
  {
    hide At, Compact, Present, DecodeDir, DataStart, Geometry;
    SameGeometry(s, s');
    FrameOwned(s, sh, s');
    forall d | 0 <= d < |s.inodes| && At(s, Data(d, 0)) != 0
      ensures DirOf(s', d) == DirOf(s, d)
    {
      OwnerOf(s, sh, Data(d, 0));
      FirstPointer(s, d);
    }
    forall m: nat, i: nat
      ensures ByteAt(s', m, i) == ByteAt(s, m, i)
    {
      OwnerOf(s, sh, Data(m, i / BLOCK_SIZE));
    }
  }

  /** The scan that clears the valid bit of every slot with the name. */
  method DropMatches(v: Volume, d: nat, name: Name) returns (ds: Dirents, found: bool)
    requires v.Sound() && UseOk(v.State(), v.shape) && IsDir(v.State(), d)
    ensures d < v.inodes.Length
    ensures var ds0 := DirOf(v.State(), d);
            && (forall i | 0 <= i < DIRENTS_PER_BLOCK ::
                  ds[i] == if CStr(ds0[i].name) == name && ds0[i].valid then ds0[i].(valid := false) else ds0[i])
            && (found <==> exists i :: 0 <= i < DIRENTS_PER_BLOCK && CStr(ds0[i].name) == name && ds0[i].valid)
  {
    hide Geometry, Owned, Coherent, DirOf, UseOk, CStr;
    DirHasBlock(v.State(), v.shape, d);
    var ds0 := ReadDir(v, d);
    ds, found := ds0, false;
    for i := 0 to DIRENTS_PER_BLOCK
      invariant forall j | i <= j < DIRENTS_PER_BLOCK :: ds[j] == ds0[j]
      invariant forall j | 0 <= j < i ::
                  ds[j] == if CStr(ds0[j].name) == name && ds0[j].valid then ds0[j].(valid := false) else ds0[j]
      invariant found <==> exists j :: 0 <= j < i && CStr(ds0[j].name) == name && ds0[j].valid
    {
      if CStr(ds[i].name) == name {
        if ds[i].valid {
          ds := ds[i := ds[i].(valid := false)];
          found := true;
        }
      }
    }
  }

  /** In a directory that holds the tree's names, that is one slot. */
  lemma OneMatch(s: Fs, sh: Shape, nm: Names, d: nat, name: Name, ds: Dirents)
    requires Geometry(s) && Owned(s, sh) && Named(s, sh, nm) && IsDir(s, d) && Key(d, name) in nm.tree
    requires var ds0 := DirOf(s, d);
             forall i | 0 <= i < DIRENTS_PER_BLOCK ::
               ds[i] == if CStr(ds0[i].name) == name && ds0[i].valid then ds0[i].(valid := false) else ds0[i]
    ensures nm.tree[Key(d, name)].slot < DIRENTS_PER_BLOCK
    ensures ds == Invalidated(DirOf(s, d), nm.tree[Key(d, name)].slot)
    ensures DirOf(s, d)[nm.tree[Key(d, name)].slot].valid && CStr(DirOf(s, d)[nm.tree[Key(d, name)].slot].name) == name
  {
    hide DirOf, CStr, Geometry, Owned, Named;
    EntryHere(s, sh, nm, Key(d, name));
    forall i | 0 <= i < DIRENTS_PER_BLOCK
      ensures ds[i] == Invalidated(DirOf(s, d), nm.tree[Key(d, name)].slot)[i]
    {
      SlotLookup(s, sh, nm, d, name, i);
    }
  }

  /** Directories read the same, and all that was live still is, but `gone`. */
  ghost predicate ReadyToDrop(s: Fs, s1: Fs, sh1: Shape, gone: nat) {
    && SameModes(s, s1, gone) && UseOk(s1, sh1)
    && (forall e | 0 <= e < |s.inodes| && IsDir(s, e) :: IsDir(s1, e) && DirOf(s1, e) == DirOf(s, e))
  }

  lemma RemoveNamed(s: Fs, sh: Shape, nm: Names, s1: Fs, sh1: Shape, d: nat, name: Name)
    requires Named(s, sh, nm) && Key(d, name) in nm.tree && IsDir(s, d)
    requires ReadyToDrop(s, s1, sh1, nm.tree[Key(d, name)].inum)
    requires Geometry(s1) && Owned(s1, sh1) && Coherent(s1)
    requires nm.tree[Key(d, name)].slot < DIRENTS_PER_BLOCK && NoNamesIn(nm, nm.tree[Key(d, name)].inum)
    ensures d < |s1.inodes| && s1.inodes[d].direct[0] < |s1.disk|
    ensures Named(WithDir(s1, d, Invalidated(DirOf(s, d), nm.tree[Key(d, name)].slot)), sh1, DropName(nm, d, name))
  {
    hide Geometry, Owned, Coherent, DirOf, CStr, UseOk, IsDirMode, IsRegMode, EncodeDir, ByteAt, Named, Invalidated;
    hide DropName, NoNamesIn;
    var ds := Invalidated(DirOf(s, d), nm.tree[Key(d, name)].slot);
    WithDirOwned(s1, sh1, d, ds);
    var s2 := WithDir(s1, d, ds);
    UseSame(s1, s2, sh1);
    NamedDrop(s, sh, nm, s2, sh1, d, name);
  }

  /** No valid slot has the empty name, so the scan for it changes nothing. */
  lemma NoEmptyName(s: Fs, sh: Shape, nm: Names, d: nat, ds: Dirents)
    requires Geometry(s) && Owned(s, sh) && Named(s, sh, nm) && IsDir(s, d)
    requires var ds0 := DirOf(s, d);
             forall i | 0 <= i < DIRENTS_PER_BLOCK ::
               ds[i] == if CStr(ds0[i].name) == [] && ds0[i].valid then ds0[i].(valid := false) else ds0[i]
    ensures ds == DirOf(s, d)
    ensures forall i | 0 <= i < DIRENTS_PER_BLOCK :: !(CStr(DirOf(s, d)[i].name) == [] && DirOf(s, d)[i].valid)
  {
    hide DirOf, CStr, Geometry, Owned, Named;
    KeyNotEmpty(s, sh, nm, d);
    forall i | 0 <= i < DIRENTS_PER_BLOCK
      ensures !(CStr(DirOf(s, d)[i].name) == [] && DirOf(s, d)[i].valid)
    {
      SlotLookup(s, sh, nm, d, [], i);
    }
  }

  /** Writing a directory block back as it was read changes nothing. */
  lemma WithDirBack(s: Fs, d: nat)
    requires d < |s.inodes| && s.inodes[d].direct[0] < |s.disk|
    ensures WithDir(s, d, DirOf(s, d)) == s
  {
    hide DirentByte, DecodeDirent;
    var b := s.disk[s.inodes[d].direct[0]];
    forall i | 0 <= i < BLOCK_SIZE
      ensures EncodeDir(DecodeDir(b))[i] == b[i]
    {
      DirentBytesBack(b, i / 32, i % 32);
    }
    assert EncodeDir(DecodeDir(b)) == b;
  }

  lemma InvalidSlot(ds: Dirents, i: nat)
    requires i < DIRENTS_PER_BLOCK
    ensures Invalidated(ds, i) == ds[i := ds[i].(valid := false)]
  {
  }

  /** The last step of unlink and rmdir: the entry is made invalid.  The name is
      the entry's, or empty when get_name was given a trailing slash. */
  method RemoveEntry(v: Volume, d: nat, name: Name, ghost key: Name, ghost s: Fs, ghost sh: Shape) returns (found: bool)
    requires v.Sound() && Geometry(s) && Owned(s, sh) && Named(s, sh, v.names) && IsDir(s, d)
    requires Key(d, key) in v.names.tree && (name == key || name == [])
    requires ReadyToDrop(s, v.State(), v.shape, v.names.tree[Key(d, key)].inum)
    requires NoNamesIn(v.names, v.names.tree[Key(d, key)].inum)
    modifies v`names, v.disk
    ensures v.Sound() && found == (name == key) && d < |s.inodes| == v.inodes.Length
    ensures old(v.names.tree)[Key(d, key)].slot < DIRENTS_PER_BLOCK
    ensures found ==>
              var i, ds := old(v.names.tree)[Key(d, key)].slot, DirOf(s, d);
              DirOf(v.State(), d) == ds[i := ds[i].(valid := false)]
    ensures found ==> v.Valid() && v.names == DropName(old(v.names), d, key)
    ensures !found ==> v.State() == old(v.State()) && v.names == old(v.names)
    ensures v.State().inodes == old(v.State()).inodes && v.State().inodeMap == old(v.State()).inodeMap
    ensures v.State().blockMap == old(v.State()).blockMap && SameSizes(old(v.State()), v.State())
    ensures forall m: nat, i: nat | m != d :: ByteAt(v.State(), m, i) == ByteAt(old(v.State()), m, i)
  {
    hide Geometry, Owned, Coherent, DirOf, CStr, UseOk, IsDirMode, IsRegMode, EncodeDir, ByteAt, Named, Invalidated;
    hide DropName, WithDir, NoNamesIn;
    ghost var s1, nm := v.State(), v.names;
    KeyNotEmpty(s, sh, nm, d);
    EntryHere(s, sh, nm, Key(d, key));
    DirHasBlock(s1, v.shape, d);
    var ds;
    ds, found := DropMatches(v, d, name);
    WithDirOwned(s1, v.shape, d, ds);
    WriteDir(v, d, ds);
    if name == key {
      OneMatch(s, sh, nm, d, name, ds);
      InvalidSlot(DirOf(s, d), nm.tree[Key(d, key)].slot);
      RemoveNamed(s, sh, nm, s1, v.shape, d, name);
      WithDirSame(s1, d, ds);
      v.names := DropName(nm, d, name);
    } else {
      NoEmptyName(s, sh, nm, d, ds);
      WithDirBack(s1, d);
    }
  }

  // ------------------------------------------------------------- fs_unlink

  /** The state of unlink once the file is truncated and its inode released. */
  ghost predicate Unlinked(s: Fs, sh: Shape, s': Fs, sh': Shape, n: nat, d: nat) {
    && n < |s.inodes| && |s'.inodes| == |s.inodes| && n < |s.inodeMap| && n < |sh.extent|
    && s'.inodeMap == s.inodeMap[n := false]
    && sh' == Dropped(sh, n)
    && (forall m | 0 <= m < |s.inodes| && m != n :: s'.inodes[m] == s.inodes[m])
    && (forall m: nat, i: nat | m != d && m != n :: ByteAt(s', m, i) == ByteAt(s, m, i))
    && |s'.blockMap| == |s.blockMap|
    && forall b | 0 <= b < |s.blockMap| ::
         s'.blockMap[b] ==
         (s.blockMap[b] && !(b in sh.owner && sh.owner[b].inum == n && Reached(sh.owner[b], s.inodes[n].size)))
  }

  lemma TruncatedBytes(s: Fs, sh: Shape, s': Fs, sh': Shape, n: nat)
    requires Geometry(s) && Owned(s, sh) && Truncated(s, sh, s', sh', n)
    ensures forall m: nat, i: nat | m != n :: ByteAt(s', m, i) == ByteAt(s, m, i)
  {
    hide At, Compact, Present, DataStart, Geometry, Reached;
    SameGeometry(s, s');
    forall m: nat, i: nat | m != n
      ensures ByteAt(s', m, i) == ByteAt(s, m, i)
    {
      OthersAt(s, sh, s', n, Data(m, i / BLOCK_SIZE));
      OwnerOf(s, sh, Data(m, i / BLOCK_SIZE));
    }
  }

  /** Releasing the truncated file's inode. */
  lemma ReleaseReady(s: Fs, sh: Shape, s1: Fs, sh1: Shape, nm: Names, s2: Fs, n: nat)
    requires Geometry(s1) && Owned(s1, sh1) && Named(s1, sh1, nm) && SameSizes(s1, s2) && DataAgree(s1, s2, {})
    requires s2.inodes == s1.inodes && s2.blockMap == s1.blockMap && n < |s1.inodes| && n < |s1.inodeMap|
    requires s2.inodeMap == s1.inodeMap[n := false] && sh1.extent[n] == EMPTY_EXTENT && !IsDir(s1, n) && n > ROOT
    ensures ReadyToDrop(s1, s2, sh1, n)
  {
    hide Geometry, Owned, Named, DirOf, IsDirMode, ByteAt, At;
    NamedUse(s1, sh1, nm);
    InodeMapOwned(s1, sh1, s2);
    forall e | 0 <= e < |s1.inodes| && IsDir(s1, e)
      ensures IsDir(s2, e) && DirOf(s2, e) == DirOf(s1, e)
    {
      DirBlock(s1, sh1, e);
    }
  }

  lemma FatherIsDir(s: Fs, sh: Shape, nm: Names, path: seq<byte>)
    requires Named(s, sh, nm) && HasParent(path) && Lookup(nm.tree, path).Found?
    ensures var d := Lookup(nm.tree, DirName(Stripped(path)));
            d.Found? && d.isDir && IsDir(s, d.inum)
  {
    hide Named, Lookup, Tokens, DirName, BaseName, Stripped, IsDirMode, HasParent;
    LookupStripped(nm.tree, path);
    ResolvedInode(s, sh, nm, DirName(Stripped(path)));
  }

  /** The father's path is translated and leads to the directory of the name. */
  method FatherOf(v: Volume, path: seq<byte>) returns (d: nat)
    requires v.Valid() && HasParent(path) && Lookup(v.names.tree, path).Found?
    ensures Lookup(v.names.tree, DirName(Stripped(path))) == Found(d, true) && IsDir(v.State(), d)
    ensures var key := Key(d, BaseName(Stripped(path)));
            && key in v.names.tree && v.names.tree[key].inum == Lookup(v.names.tree, path).inum >= 2
            && v.names.tree[key].isDir == Lookup(v.names.tree, path).isDir
  {
    hide Geometry, Owned, Coherent, Named, Tokens, IsDirMode, IsRegMode, Lookup, DirName, BaseName, LastSlash;
    hide Stripped, HasParent;
    HasParentFacts(path);
    LookupStripped(v.names.tree, path);
    var ok, fatherPath := TrancatePath(path);
    var fatherInum := Translate(v, fatherPath);
    LookupOk(v.State(), v.shape, v.names, DirName(Stripped(path)));
    d := fatherInum;
    EntrySlot(v.State(), v.shape, v.names, Key(d, BaseName(Stripped(path))));
  }

  /** A valid slot names an inode that is marked free. */
  ghost predicate Dangles(s: Fs, d: nat, i: nat, n: nat) {
    && IsDir(s, d) && i < DIRENTS_PER_BLOCK && DirOf(s, d)[i].valid && DirOf(s, d)[i].inode == n
    && n < |s.inodeMap| && !s.inodeMap[n]
  }

  /** Such a volume holds no tree of names at all. */
  lemma DanglesBreaks(s: Fs, d: nat, i: nat, n: nat, sh: Shape, nm: Names)
    requires Dangles(s, d, i, n)
    ensures !Named(s, sh, nm)
  {
    hide DirOf, CStr, IsDirMode, Named;
    if Named(s, sh, nm) {
      SlotFacts(s, sh, nm, d, i);
    }
  }

  /** The slot of d's entry for `name` has lost its valid bit and nothing else. */
  ghost predicate SlotDropped(s: Fs, nm: Names, s': Fs, d: nat, name: Name) {
    && d < |s.inodes| == |s'.inodes| && Key(d, name) in nm.tree
    && var i, ds := nm.tree[Key(d, name)].slot, DirOf(s, d);
    i < DIRENTS_PER_BLOCK && DirOf(s', d) == ds[i := ds[i].(valid := false)]
  }

  /** Unlink after the truncation: the inode's bit goes, and the name if it is
      found.  With a trailing slash the name looked for is empty. */
  method ReleaseAndRemove(v: Volume, path: seq<byte>, inum: nat) returns (found: bool)
    requires v.Valid() && HasParent(path) && Lookup(v.names.tree, path) == Found(inum, false)
    requires inum < |v.shape.extent| && v.shape.extent[inum] == EMPTY_EXTENT
    modifies v`names, v.disk, v.inodeMap
    ensures v.Sound() && found == !TrailingSlash(path) && (found ==> v.Valid())
    ensures var d := Lookup(old(v.names.tree), DirName(Stripped(path)));
            && d.Found?
            && v.names == (if found then DropName(old(v.names), d.inum, BaseName(path)) else old(v.names))
            && (!found ==> Key(d.inum, BaseName(Stripped(path))) in v.names.tree
                           && Dangles(v.State(), d.inum,
                                      v.names.tree[Key(d.inum, BaseName(Stripped(path)))].slot, inum))
            && forall m: nat, i: nat | m != d.inum :: ByteAt(v.State(), m, i) == ByteAt(old(v.State()), m, i)
    ensures found ==>
              var d := Lookup(old(v.names.tree), DirName(Stripped(path))).inum;
              SlotDropped(old(v.State()), old(v.names), v.State(), d, BaseName(Stripped(path)))
    ensures v.State().inodes == old(v.State()).inodes && v.State().blockMap == old(v.State()).blockMap
    ensures inum < |old(v.State()).inodeMap| && v.State().inodeMap == old(v.State()).inodeMap[inum := false]
  {
    hide Geometry, Owned, Coherent, Named, Lookup, IsDirMode, IsRegMode, FlushMaps, ByteAt, DropName, DirName;
    hide BaseName, DirOf;
    hide HasParent, Stripped, CStr, UseOk, NoNamesIn;
    ghost var s1, sh1, nm := v.State(), v.shape, v.names;
    ResolvedInode(s1, sh1, nm, path);
    HasParentFacts(path);
    NameOfSlashed(path);
    var d := FatherOf(v, path);
    ghost var key := BaseName(Stripped(path));
    EntryHere(s1, sh1, nm, Key(d, key));
    InodeMapOut(s1, s1.inodeMap[inum := false]);
    v.ClearInode(inum);
    v.UpdateBitmap();
    ghost var s2 := v.State();
    InodeMapOwned(s1, sh1, s2);
    ReleaseReady(s1, sh1, s1, sh1, nm, s2, inum);
    var name := GetName(path);
    KeyNotEmpty(s1, sh1, nm, d);
    FileHasNoNames(s1, sh1, nm, inum);
    found := RemoveEntry(v, d, name, key, s1, sh1);
  }

  /** fs_unlink.  With a trailing slash the file is emptied and its inode
      released, the name stays, and ENOENT is returned. */
  method Unlink(v: Volume, path: seq<byte>) returns (ret: int)
    requires v.Valid() && (FileCode(v.names, path) == 0 ==> HasParent(path))
    modifies v`names, v`shape, v.disk, v.blockMap, v.inodeMap, v.inodes
    ensures v.Sound() && (old(FileCode(v.names, path)) != 0 || !TrailingSlash(path) ==> v.Valid())
    ensures ret == match Lookup(old(v.names.tree), path)
                   case Found(_, isDir) => if isDir then -EISDIR else if TrailingSlash(path) then -ENOENT else 0
                   case Missing => -ENOENT
                   case NotDir => -ENOTDIR
    ensures old(FileCode(v.names, path)) != 0 ==>
              v.State() == old(v.State()) && v.shape == old(v.shape) && v.names == old(v.names)
    ensures old(FileCode(v.names, path)) == 0 ==>
              var d, n := Lookup(old(v.names).tree, DirName(Stripped(path))), Lookup(old(v.names).tree, path);
              && d.Found? && n.Found?
              && Unlinked(old(v.State()), old(v.shape), v.State(), v.shape, n.inum, d.inum)
              && if TrailingSlash(path) then
                   v.names == old(v.names) && Key(d.inum, BaseName(Stripped(path))) in v.names.tree
                   && Dangles(v.State(), d.inum, v.names.tree[Key(d.inum, BaseName(Stripped(path)))].slot, n.inum)
                 else
                   v.names == DropName(old(v.names), d.inum, BaseName(path))
    ensures ret == 0 ==>
              var s, nm := old(v.State()), old(v.names);
              var d, n := Lookup(nm.tree, DirName(Stripped(path))).inum, Lookup(nm.tree, path).inum;
              && n < v.inodes.Length == |s.inodes| && n < v.inodeMap.Length == |s.inodeMap|
              && d < |s.inodes| && Key(d, BaseName(path)) in nm.tree
              && (forall m | 0 <= m < |s.inodeMap| :: v.State().inodeMap[m] == (s.inodeMap[m] && m != n))
              && (forall m | 0 <= m < |s.inodes| && m != n :: v.inodes[m] == s.inodes[m])
              && (forall m: nat, i: nat | m != d && m != n :: ByteAt(v.State(), m, i) == ByteAt(s, m, i))
              && var i, ds := nm.tree[Key(d, BaseName(path))].slot, DirOf(s, d);
              i < DIRENTS_PER_BLOCK && DirOf(v.State(), d) == ds[i := ds[i].(valid := false)]
  {
    hide Geometry, Owned, Coherent, Named, Lookup, IsDirMode, IsRegMode, FlushMaps, ByteAt, DropName, Reached;
    hide DirName, BaseName, DirOf;
    hide Stripped, HasParent, Dangles;
    ghost var s, sh, nm := v.State(), v.shape, v.names;
    LookupOk(s, sh, nm, path);
    var inum := Translate(v, path);
    if inum == -ENOENT || inum == -ENOTDIR {
      return inum;
    }
    ResolvedInode(s, sh, nm, path);
    if IsDirMode(v.inodes[inum].mode) {
      return -EISDIR;
    }
    HasParentFacts(path);
    NameOfSlashed(path);
    FatherIsDir(s, sh, nm, path);
    var truncateResult := Truncate(v, path, 0);
    TruncatedBytes(s, sh, v.State(), v.shape, inum);
    TruncatedNamed(s, sh, v.State(), v.shape, inum, nm);
    var found := ReleaseAndRemove(v, path, inum);
    return if found then 0 else -ENOENT;
  }

  // -------------------------------------------------------------- fs_rmdir

  lemma EmptyDirNoNames(s: Fs, sh: Shape, nm: Names, n: nat)
    requires Named(s, sh, nm) && IsDir(s, n)
    ensures n < |s.inodes|
    ensures (forall i | 0 <= i < DIRENTS_PER_BLOCK :: !DirOf(s, n)[i].valid) <==> NoNamesIn(nm, n)
  {
    hide DirOf, CStr, IsDirMode, IsRegMode, GoodName, UseOk;
    if NoNamesIn(nm, n) {
      forall i | 0 <= i < DIRENTS_PER_BLOCK
        ensures !DirOf(s, n)[i].valid
      {
        assert SlotOk(nm, n, i, DirOf(s, n)[i]);
      }
    } else {
      var key :| key in nm.tree && key.dir == n;
      assert EntryOk(s, nm, key);
    }
  }

  /** The scan of the directory to be removed. */
  method IsEmptyDir(v: Volume, n: nat) returns (empty: bool)
    requires v.Valid() && IsDir(v.State(), n)
    ensures empty <==> NoNamesIn(v.names, n)
  {
    hide Geometry, Owned, Coherent, DirOf, UseOk, Named, NoNamesIn;
    NamedUse(v.State(), v.shape, v.names);
    EmptyDirNoNames(v.State(), v.shape, v.names, n);
    DirHasBlock(v.State(), v.shape, n);
    var dirent := ReadDir(v, n);
    for i := 0 to DIRENTS_PER_BLOCK
      invariant forall j | 0 <= j < i :: !dirent[j].valid
    {
      if dirent[i].valid {
        return false;
      }
    }
    return true;
  }

  lemma SomeNameIn(nm: Names, n: nat)
    ensures NoNamesIn(nm, n) <==> !exists key :: key in nm.tree && key.dir == n
  {
  }

  ghost function RmdirCode(nm: Names, path: seq<byte>): int {
    match Lookup(nm.tree, path)
    case Found(n, isDir) => if !isDir then -ENOTDIR else if !NoNamesIn(nm, n) then -ENOTEMPTY else 0
    case w => Code(w)
  }

  /** More inodes marked, and the image written out. */
  lemma MarkedReady(s: Fs, sh: Shape, nm: Names, s2: Fs, gone: nat)
    requires Geometry(s) && Owned(s, sh) && Named(s, sh, nm) && SameSizes(s, s2) && DataAgree(s, s2, {})
    requires s2.inodes == s.inodes && s2.blockMap == s.blockMap
    requires forall m | 0 <= m < |s.inodeMap| && s.inodeMap[m] :: s2.inodeMap[m]
    ensures Geometry(s2) && Owned(s2, sh) && ReadyToDrop(s, s2, sh, gone)
    ensures forall m: nat, i: nat :: ByteAt(s2, m, i) == ByteAt(s, m, i)
  {
    hide Geometry, Owned, Named, DirOf, IsDirMode, ByteAt, At;
    NamedUse(s, sh, nm);
    InodeMapOwned(s, sh, s2);
    forall e | 0 <= e < |s.inodes| && IsDir(s, e)
      ensures IsDir(s2, e) && DirOf(s2, e) == DirOf(s, e)
    {
      DirBlock(s, sh, e);
    }
  }

  /** The two FD_SET of rmdir.  They set bits where the comments speak of
      releasing: one for the block number, in the inode map, and one for the inode. */
  method MarkTwice(v: Volume, blk: nat, inum: nat)
    requires v.Laid() && Coherent(v.State()) && blk < v.inodeMap.Length && inum < v.inodeMap.Length
    modifies v.inodeMap, v.disk
    ensures v.Laid() && Coherent(v.State())
    ensures SameSizes(old(v.State()), v.State()) && DataAgree(old(v.State()), v.State(), {})
    ensures v.State().inodes == old(v.State()).inodes && v.State().blockMap == old(v.State()).blockMap
    ensures v.State().inodeMap == old(v.State()).inodeMap[blk := true][inum := true]
  {
    hide Geometry, Coherent, FlushMaps;
    ghost var s := v.State();
    InodeMapOut(s, s.inodeMap[blk := true]);
    v.MarkInode(blk);
    v.UpdateBitmap();
    ghost var s1 := v.State();
    SameGeometry(s, s1);
    InodeMapOut(s1, s1.inodeMap[inum := true]);
    v.MarkInode(inum);
    v.UpdateBitmap();
  }

  /** fs_rmdir.  The root is asserted not to be removed, and the bit set for the
      block number must lie in the inode map.  No block and no inode is released,
      and with more than one trailing slash not even the name is removed. */
  method Rmdir(v: Volume, path: seq<byte>) returns (ret: int)
    requires v.Valid() && RmdirLegal(v.State(), v.names, path)
    modifies v`names, v.disk, v.inodeMap
    ensures v.Valid()
    ensures ret == RmdirCode(old(v.names), path)
    ensures match Lookup(old(v.names.tree), path)
            case Found(n, true) =>
              ret == if exists key :: key in old(v.names.tree) && key.dir == n then -ENOTEMPTY else 0
            case Found(_, false) => ret == -ENOTDIR
            case Missing => ret == -ENOENT
            case NotDir => ret == -ENOTDIR
    ensures ret != 0 ==> v.State() == old(v.State()) && v.names == old(v.names)
    ensures ret == 0 ==> DirRemoved(old(v.State()), old(v.names), v.State(), v.names, path)
    ensures ret == 0 ==>
              var s, nm := old(v.State()), old(v.names);
              var d, n := Lookup(nm.tree, DirName(Stripped(path))).inum, Lookup(nm.tree, path).inum;
              && v.State().inodes == s.inodes && n < |s.inodes| && v.inodeMap.Length == |s.inodeMap|
              && (forall m | 0 <= m < |s.inodeMap| ::
                    v.State().inodeMap[m] == (s.inodeMap[m] || m == n || m == s.inodes[n].direct[0]))
              && (forall m: nat, i: nat | m != d :: ByteAt(v.State(), m, i) == ByteAt(s, m, i))
              && (!TrailingSlash(StripOne(path)) ==> SlotDropped(s, nm, v.State(), d, BaseName(Stripped(path))))
  {
    hide Geometry, Owned, Coherent, Named, IsDirMode, IsRegMode, ByteAt, DropName, DirName, BaseName, DirOf;
    hide NoNamesIn, Walk;
    hide UseOk, Stripped, HasParent, StripOne;
    ghost var s, sh, nm := v.State(), v.shape, v.names;
    LookupOk(s, sh, nm, path);
    var inum := Translate(v, path);
    if inum == -ENOENT || inum == -ENOTDIR {
      return inum;
    }
    ResolvedInode(s, sh, nm, path);
    if IsRegMode(v.inodes[inum].mode) {
      return -ENOTDIR;
    }
    var empty := IsEmptyDir(v, inum);
    SomeNameIn(nm, inum);
    if !empty {
      return -ENOTEMPTY;
    }
    var d := FatherOf(v, path);
    MarkTwice(v, v.inodes[inum].direct[0], inum);
    MarkedReady(s, sh, nm, v.State(), inum);
    StripOneParent(path);
    var name := GetName(StripOne(path));
    KeyNotEmpty(s, sh, nm, d);
    var found := RemoveEntry(v, d, name, BaseName(Stripped(path)), s, sh);
    if !found {
      MarkedNamed(s, sh, nm, v.State(), inum);
    }
    return 0;
  }

  /** What rmdir relies on. */
  ghost predicate RmdirLegal(s: Fs, nm: Names, path: seq<byte>) {
    var n := Lookup(nm.tree, path);
    && (n.Found? && n.isDir ==> HasParent(path))
    && (RmdirCode(nm, path) == 0 ==> n.inum < |s.inodes| && s.inodes[n.inum].direct[0] < |s.inodeMap|)
  }

  /** What rmdir has done to an empty directory. */
  ghost predicate DirRemoved(s: Fs, nm: Names, s': Fs, nm': Names, path: seq<byte>) {
    var d, n := Lookup(nm.tree, DirName(Stripped(path))), Lookup(nm.tree, path);
    && d.Found? && n.Found?
    && nm' == (if TrailingSlash(StripOne(path)) then nm else DropName(nm, d.inum, BaseName(StripOne(path))))
    && s'.inodes == s.inodes && s'.blockMap == s.blockMap
    && n.inum < |s.inodes| && n.inum < |s.inodeMap| && s.inodes[n.inum].direct[0] < |s.inodeMap|
    && s'.inodeMap == s.inodeMap[s.inodes[n.inum].direct[0] as nat := true][n.inum := true]
    && (forall m: nat, i: nat | m != d.inum :: ByteAt(s', m, i) == ByteAt(s, m, i))
  }

  /** strip and get_name give the name that trancate_path cuts off, or nothing. */
  lemma StripOneParent(p: seq<byte>)
    requires HasParent(p)
    ensures SLASH in StripOne(p)
    ensures BaseName(StripOne(p)) == if TrailingSlash(StripOne(p)) then [] else BaseName(Stripped(p))
  {
    hide Tokens;
    StripOneSame(p);
    NameOfSlashed(StripOne(p));
  }

  /** More inodes marked: the names are the same. */
  lemma MarkedNamed(s: Fs, sh: Shape, nm: Names, s2: Fs, gone: nat)
    requires Named(s, sh, nm) && ReadyToDrop(s, s2, sh, gone)
    requires s2.inodes == s.inodes && forall m | 0 <= m < |s.inodeMap| && s.inodeMap[m] :: s2.inodeMap[m]
    ensures Named(s2, sh, nm)
  {
    hide DirOf, IsDirMode, IsRegMode, CStr, GoodName, UseOk;
    NamedUse(s, sh, nm);
    forall key | key in nm.tree
      ensures EntryOk(s2, nm, key) && ChildOk(s2, nm, key)
    {
      assert EntryOk(s, nm, key) && ChildOk(s, nm, key);
    }
  }

  // ------------------------------------------------------------- fs_rename

  /** The name field after strncpy and the NUL: the old bytes beyond stay. */
  function Renamed(field: seq<byte>, dst: Name): (f: seq<byte>)
    requires |field| == NAME_FIELD && |dst| < NAME_FIELD
    ensures |f| == NAME_FIELD
  {
    dst + [0] + field[|dst| + 1..]
  }

  lemma RenamedReads(field: seq<byte>, dst: Name)
    requires |field| == NAME_FIELD && |dst| < NAME_FIELD && 0 !in dst
    ensures CStr(Renamed(field, dst)) == dst && 0 in Renamed(field, dst)
  {
    CStrTerminated(dst, field[|dst| + 1..]);
    assert Renamed(field, dst)[|dst|] == 0;
  }

  ghost function RenameCode(nm: Names, src: seq<byte>, dst: seq<byte>): int {
    match Lookup(nm.tree, src)
    case Found(_, _) =>
      if Lookup(nm.tree, dst).Found? then -EEXIST
      else if DirName(Stripped(src)) != DirName(Stripped(dst)) then -EINVAL
      else 0
    case w => Code(w)
  }

  lemma MoveReady(s: Fs, sh: Shape, nm: Names, d: nat, src: Name, dst: Name)
    requires Geometry(s) && Owned(s, sh) && Coherent(s) && Named(s, sh, nm) && IsDir(s, d)
    requires Key(d, src) in nm.tree && Key(d, dst) !in nm.tree && GoodName(dst)
    ensures d < |s.inodes| && s.inodes[d].direct[0] < |s.disk| && nm.tree[Key(d, src)].slot < DIRENTS_PER_BLOCK
    ensures var i := nm.tree[Key(d, src)].slot;
            var s' := WithDir(s, d, Relabelled(DirOf(s, d), i, Renamed(DirOf(s, d)[i].name, dst)));
            Named(s', sh, MoveName(nm, d, src, dst))
  {
    hide Geometry, Owned, Coherent, DirOf, CStr, UseOk, IsDirMode, IsRegMode, EncodeDir, ByteAt, Named, MoveName;
    hide Renamed, GoodName, Relabelled;
    EntryHere(s, sh, nm, Key(d, src));
    NamedUse(s, sh, nm);
    var i := nm.tree[Key(d, src)].slot;
    GoodNameFacts(dst);
    RenamedReads(DirOf(s, d)[i].name, dst);
    var field := Renamed(DirOf(s, d)[i].name, dst);
    var ds := Relabelled(DirOf(s, d), i, field);
    WithDirOwned(s, sh, d, ds);
    var s' := WithDir(s, d, ds);
    UseSame(s, s', sh);
    UseLengths(s, sh);
    NamedMove(s, sh, nm, s', sh, d, src, dst, field);
  }

  /** The directory d with its entry for src relabelled. */
  ghost predicate SlotRenamed(s: Fs, nm: Names, s': Fs, d: nat, src: Name, dst: Name) {
    && d < |s.inodes| && s.inodes[d].direct[0] < |s.disk| && |dst| < NAME_FIELD
    && Key(d, src) in nm.tree && nm.tree[Key(d, src)].slot < DIRENTS_PER_BLOCK
    && var i := nm.tree[Key(d, src)].slot;
    s' == WithDir(s, d, Relabelled(DirOf(s, d), i, Renamed(DirOf(s, d)[i].name, dst)))
  }

  /** The slot, field by field: it keeps its type and inode and, beyond the new
      name and its NUL, its bytes; the other slots stay. */
  lemma SlotOfRenamed(s: Fs, sh: Shape, nm: Names, s': Fs, d: nat, src: Name, dst: Name)
    requires Geometry(s) && Owned(s, sh) && Coherent(s) && Named(s, sh, nm) && IsDir(s, d)
    requires SlotRenamed(s, nm, s', d, src, dst)
    ensures d < |s.inodes| == |s'.inodes| && s'.inodes == s.inodes
    ensures var i := nm.tree[Key(d, src)].slot;
            && i < DIRENTS_PER_BLOCK && |dst| < NAME_FIELD
            && var e, e' := DirOf(s, d)[i], DirOf(s', d)[i];
            && e'.valid && e'.isDir == e.isDir && e'.inode == e.inode
            && e'.name[..|dst|] == dst && e'.name[|dst|] == 0
            && (forall k | |dst| < k < NAME_FIELD :: e'.name[k] == e.name[k])
            && forall j | 0 <= j < DIRENTS_PER_BLOCK && j != i :: DirOf(s', d)[j] == DirOf(s, d)[j]
  {
    hide Geometry, Owned, Coherent, Named, DirOf, CStr, IsDirMode, WithDir, ByteAt;
    var i := nm.tree[Key(d, src)].slot;
    EntryHere(s, sh, nm, Key(d, src));
    NamedUse(s, sh, nm);
    DirHasBlock(s, sh, d);
    var ds := Relabelled(DirOf(s, d), i, Renamed(DirOf(s, d)[i].name, dst));
    WithDirSound(s, sh, d, ds);
    WithDirSame(s, d, ds);
  }

  /** The scan of rename: the matching slot gets the new name, and the block is
      written at once.  Either name is empty if its path ends in a slash: no slot
      matches an empty one, and one that gets it has no name any more. */
  method RenameInDir(v: Volume, d: nat, src: Name, dst: Name)
    requires v.Valid() && IsDir(v.State(), d)
    requires src != [] ==> Key(d, src) in v.names.tree && Key(d, dst) !in v.names.tree && (dst == [] || GoodName(dst))
    modifies v`names, v.disk
    ensures v.Sound()
    ensures src == [] ==> v.State() == old(v.State()) && v.names == old(v.names)
    ensures src != [] ==> SlotRenamed(old(v.State()), old(v.names), v.State(), d, src, dst)
    ensures src != [] && dst != [] ==> v.Valid() && v.names == MoveName(old(v.names), d, src, dst)
    ensures dst == [] ==> v.names == old(v.names)
    ensures v.State().inodes == old(v.State()).inodes && v.State().inodeMap == old(v.State()).inodeMap
    ensures v.State().blockMap == old(v.State()).blockMap
    ensures forall m: nat, i: nat | m != d :: ByteAt(v.State(), m, i) == ByteAt(old(v.State()), m, i)
  {
    hide Geometry, Owned, Coherent, DirOf, CStr, UseOk, IsDirMode, IsRegMode, EncodeDir, ByteAt, Named, MoveName;
    hide Renamed, GoodName, Relabelled;
    hide WithDir;
    ghost var s, sh, nm := v.State(), v.shape, v.names;
    NamedUse(s, sh, nm);
    DirHasBlock(s, sh, d);
    KeyNotEmpty(s, sh, nm, d);
    var dir := ReadDir(v, d);
    ghost var ds0 := dir;
    ghost var slot, ds1 := DIRENTS_PER_BLOCK, ds0;
    if src != [] {
      ShortOrEmpty(dst);
      EntryHere(s, sh, nm, Key(d, src));
      slot := nm.tree[Key(d, src)].slot;
      ds1 := Relabelled(ds0, slot, Renamed(ds0[slot].name, dst));
    }
    WithDirOwned(s, sh, d, ds1);
    WithDirSame(s, d, ds1);
    for i := 0 to DIRENTS_PER_BLOCK
      invariant i <= slot ==> v.State() == s && dir == ds0
      invariant i > slot ==> v.State() == WithDir(s, d, ds1) && dir == ds1
      invariant v.Sound() && v.shape == sh && v.names == nm
    {
      SlotLookup(s, sh, nm, d, src, i);
      if i > slot {
        RelabelledOther(ds0, slot, Renamed(ds0[slot].name, dst), i);
      }
      if dir[i].valid && CStr(dir[i].name) == src {
        dir := Relabelled(dir, i, Renamed(dir[i].name, dst));
        WriteDir(v, d, dir);
      }
    }
    if src != [] && dst != [] {
      MoveReady(s, sh, nm, d, src, dst);
      v.names := MoveName(nm, d, src, dst);
    }
  }

  lemma ShortOrEmpty(n: Name)
    requires n == [] || GoodName(n)
    ensures |n| < NAME_FIELD
  {
  }

  lemma RelabelledOther(ds: Dirents, slot: nat, field: seq<byte>, i: nat)
    requires slot < DIRENTS_PER_BLOCK && |field| == NAME_FIELD && i < DIRENTS_PER_BLOCK && i != slot
    ensures Relabelled(ds, slot, field)[i] == ds[i]
  {
  }

  lemma WithDirSame(s: Fs, d: nat, ds: Dirents)
    requires d < |s.inodes| && s.inodes[d].direct[0] < |s.disk|
    ensures var s' := WithDir(s, d, ds);
            s'.inodes == s.inodes && s'.inodeMap == s.inodeMap && s'.blockMap == s.blockMap
  {
  }

  /** What rename relies on: two paths that can be cut (the C code would free
      what it has not set), and a name that fits the slot it goes to. */
  ghost predicate RenameLegal(nm: Names, src: seq<byte>, dst: seq<byte>) {
    && (Lookup(nm.tree, src).Found? && !Lookup(nm.tree, dst).Found? ==> HasParent(src) && HasParent(dst))
    && (RenameCode(nm, src, dst) == 0 && !TrailingSlash(src) ==> ShortName(dst))
  }

  /** fs_rename.  The two directories are compared as strings.  With a trailing
      slash on the source nothing happens; with one on the destination alone the
      entry loses its name. */
  method Rename(v: Volume, src: seq<byte>, dst: seq<byte>) returns (ret: int)
    requires v.Valid() && RenameLegal(v.names, src, dst)
    modifies v`names, v.disk
    ensures v.Sound() && (ret != 0 || TrailingSlash(src) || !TrailingSlash(dst) ==> v.Valid())
    ensures ret == RenameCode(old(v.names), src, dst)
    ensures match Lookup(old(v.names.tree), src)
            case Found(_, _) =>
              ret == (if Lookup(old(v.names.tree), dst).Found? then -EEXIST
                      else if DirName(Stripped(src)) != DirName(Stripped(dst)) then -EINVAL else 0)
            case Missing => ret == -ENOENT
            case NotDir => ret == -ENOTDIR
    ensures ret != 0 || TrailingSlash(src) ==> v.State() == old(v.State()) && v.names == old(v.names)
    ensures ret == 0 && !TrailingSlash(src) ==>
              var d := Lookup(old(v.names.tree), DirName(src));
              && d.Found? && SlotRenamed(old(v.State()), old(v.names), v.State(), d.inum, BaseName(src), BaseName(dst))
              && v.names == (if TrailingSlash(dst) then old(v.names)
                             else MoveName(old(v.names), d.inum, BaseName(src), BaseName(dst)))
              && v.State().inodes == old(v.State()).inodes && v.State().inodeMap == old(v.State()).inodeMap
              && v.State().blockMap == old(v.State()).blockMap
              && (forall m: nat, i: nat | m != d.inum :: ByteAt(v.State(), m, i) == ByteAt(old(v.State()), m, i))
  {
    hide Geometry, Owned, Coherent, Named, Lookup, IsDirMode, IsRegMode, ByteAt, MoveName, DirName, BaseName;
    hide LastSlash, Tokens;
    hide Stripped, HasParent, WithDir, Relabelled, DirOf, Renamed;
    ghost var s, sh, nm := v.State(), v.shape, v.names;
    LookupOk(s, sh, nm, src);
    LookupOk(s, sh, nm, dst);
    var srcInum := Translate(v, src);
    var dstInum := Translate(v, dst);
    if srcInum < 0 {
      return srcInum;
    }
    if dstInum > 0 {
      return -EEXIST;
    }
    HasParentFacts(src);
    HasParentFacts(dst);
    var ok1, srcFatherPath := TrancatePath(src);
    var ok2, dstFatherPath := TrancatePath(dst);
    if srcFatherPath != dstFatherPath {
      return -EINVAL;
    }
    var d := FatherOf(v, src);
    var srcName := GetName(src);
    var dstName := GetName(dst);
    NameOfSlashed(src);
    NewName(s, sh, nm, dst);
    RenameInDir(v, d, srcName, dstName);
    return 0;
  }

  /** A slot renamed to nothing is valid and has no name. */
  lemma RenamedNameless(s: Fs, sh: Shape, nm: Names, s': Fs, d: nat, src: Name)
    requires Geometry(s) && Owned(s, sh) && Coherent(s) && Named(s, sh, nm) && IsDir(s, d)
    requires SlotRenamed(s, nm, s', d, src, [])
    ensures Nameless(s', d, nm.tree[Key(d, src)].slot)
  {
    hide Geometry, Owned, Coherent, Named, DirOf, CStr, IsDirMode, WithDir, Renamed;
    var i := nm.tree[Key(d, src)].slot;
    EntryHere(s, sh, nm, Key(d, src));
    NamedUse(s, sh, nm);
    DirHasBlock(s, sh, d);
    RenamedReads(DirOf(s, d)[i].name, []);
    WithDirSound(s, sh, d, Relabelled(DirOf(s, d), i, Renamed(DirOf(s, d)[i].name, [])));
    WithDirSame(s, d, Relabelled(DirOf(s, d), i, Renamed(DirOf(s, d)[i].name, [])));
  }
}
