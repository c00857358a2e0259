/** fs_mknod and fs_mkdir. */
module Directory {
  import opened Codec
  import opened Image
  import opened Forest
  import opened Flush
  import opened Paths
  import opened Namespace
  import opened Volumes
  import opened Alloc
  import opened Translation
  import opened DirSteps

  /** The first invalid slot from i on, 32 if all are valid. */
  function FirstInvalid(ds: seq<Dirent>, i: nat): (j: nat)
    requires i <= |ds|
    ensures i <= j <= |ds| && (j < |ds| ==> !ds[j].valid) && forall k | i <= k < j :: ds[k].valid
    decreases |ds| - i
  {
    if i == |ds| || !ds[i].valid then i else FirstInvalid(ds, i + 1)
  }

  lemma FullDirectory(ds: Dirents)
    ensures FirstInvalid(ds, 0) >= DIRENTS_PER_BLOCK <==> forall i | 0 <= i < DIRENTS_PER_BLOCK :: ds[i].valid
  {
  }

  lemma NoClearBit(m: seq<bool>)
    ensures FirstClear(m, 2) >= |m| <==> forall i | 2 <= i < |m| :: m[i]
  {
  }

  /** find_free_dirent_num.  The block number is the inode's first pointer,
      whatever the inode is. */
  method FindFreeDirent(v: Volume, n: nat) returns (slot: int)
    requires v.Sound() && n < v.inodes.Length && v.inodes[n].direct[0] < v.disk.Length
    ensures var i := FirstInvalid(DirOf(v.State(), n), 0);
            slot == if i < DIRENTS_PER_BLOCK then i else -1
  {
    hide Geometry, Owned, Coherent, DecodeDir;
    var blk := v.ReadBlock(v.inodes[n].direct[0]);
    var dir := DecodeDir(blk);
    for i := 0 to DIRENTS_PER_BLOCK
      invariant FirstInvalid(dir, 0) == FirstInvalid(dir, i)
    {
      if !dir[i].valid {
        return i;
      }
    }
    return -1;
  }

  /** A 28-byte field that holds a name and zeros after it. */
  function PadName(n: Name): (f: seq<byte>)
    requires |n| < NAME_FIELD
    ensures |f| == NAME_FIELD
  {
    n + seq<byte>(NAME_FIELD - |n|, _ => 0)
  }

  lemma PadNameReads(n: Name)
    requires |n| < NAME_FIELD && 0 !in n
    ensures CStr(PadName(n)) == n && 0 in PadName(n)
  {
    var rest := seq<byte>(NAME_FIELD - |n| - 1, _ => 0);
    assert PadName(n) == n + [0] + rest;
    CStrTerminated(n, rest);
    assert PadName(n)[|n|] == 0;
  }

  /** Every inode but c, and every byte of a file but those of inodes c and d,
      is as it was. */
  ghost predicate OthersKept(s: Fs, s': Fs, c: nat, d: nat) {
    && |s'.inodes| == |s.inodes|
    && (forall m | 0 <= m < |s.inodes| && m != c :: s'.inodes[m] == s.inodes[m])
    && (forall m: nat, i: nat | m != d && m != c :: ByteAt(s', m, i) == ByteAt(s, m, i))
  }

  /** The code of mknod, the type of the node aside. */
  ghost function MakeCode(s: Fs, nm: Names, path: seq<byte>): int {
    if LastSlash(Stripped(path)) < 0 then -1 else
    match Lookup(nm.tree, DirName(Stripped(path)))
    case Found(d, _) =>
      if Lookup(nm.tree, path).Found? then -EEXIST
      else if d < |s.inodes| && FirstInvalid(DirOf(s, d), 0) >= DIRENTS_PER_BLOCK then -ENOSPC
      else if FirstClear(s.inodeMap, 2) >= |s.inodeMap| then -ENOSPC
      else 0
    case w => Code(w)
  }

  /** The name in directory d now stands for the inode ino, which is in the first
      free place of the table; the first invalid slot says so.  An empty name,
      found after a trailing slash, is no name of the tree. */
  ghost predicate NodeMade(s: Fs, nm: Names, s': Fs, nm': Names, d: nat, name: Name, isDir: bool, ino: Inode) {
    var c := FirstClear(s.inodeMap, 2);
    && d < |s.inodes| && c < |s'.inodes| && c < |s.inodeMap| && c < 0x4000_0000 && |name| < NAME_FIELD
    && OthersKept(s, s', c, d) && s'.inodes[c] == ino && s'.inodeMap == s.inodeMap[c := true]
    && var slot := FirstInvalid(DirOf(s, d), 0);
    && slot < DIRENTS_PER_BLOCK && DirOf(s', d) == DirOf(s, d)[slot := NewEntry(isDir, c, name)]
    && nm'.tree == if name == [] then nm.tree else nm.tree[Key(d, name) := Entry(slot, c, isDir)]
  }

  /** A node made under an empty name leaves a slot without a name. */
  lemma MadeNameless(s: Fs, sh: Shape, nm: Names, s': Fs, nm': Names, d: nat, isDir: bool, ino: Inode)
    requires Named(s, sh, nm) && IsDir(s, d) && NodeMade(s, nm, s', nm', d, [], isDir, ino)
    ensures Nameless(s', d, FirstInvalid(DirOf(s, d), 0))
    ensures forall sh1, nm1 :: !Named(s', sh1, nm1)
  {
    hide DirOf, CStr, IsDirMode, ByteAt, Named, PadName;
    NamedUse(s, sh, nm);
    UseFacts(s, sh, FirstClear(s.inodeMap, 2));
    PadNameReads([]);
    forall sh1, nm1
      ensures !Named(s', sh1, nm1)
    {
      NamelessBreaks(s', d, FirstInvalid(DirOf(s, d), 0), sh1, nm1);
    }
  }

  /** What mknod relies on once its checks are passed: a short name, which it
      asserts, a free inode in the region, and a parent with a first block, since it
      would write to block 0 otherwise. */
  ghost predicate MakeLegal(s: Fs, nm: Names, path: seq<byte>) {
    && HasParent(path) && ShortName(path) && RegionCovers(s)
    && var w := Lookup(nm.tree, DirName(Stripped(path)));
    w.Found? && w.inum < |s.inodes| ==> s.inodes[w.inum].direct[0] != 0
  }

  /** The slot that stands for a new node. */
  function NewEntry(isDir: bool, c: u30, name: Name): Dirent
    requires |name| < NAME_FIELD
  {
    DirentRecord.Dirent(true, isDir, c, PadName(name))
  }

  lemma NewEntryReads(isDir: bool, c: u30, name: Name)
    requires |name| < NAME_FIELD
    ensures var e := NewEntry(isDir, c, name);
            && e.valid && e.isDir == isDir && e.inode == c && e.name[..|name|] == name
            && forall k | |name| <= k < NAME_FIELD :: e.name[k] == 0
  {
  }

  /** What a new node's slot says, field by field, and that all else stays. */
  lemma SlotOfNode(s: Fs, nm: Names, s': Fs, nm': Names, d: nat, name: Name, isDir: bool, ino: Inode)
    requires NodeMade(s, nm, s', nm', d, name, isDir, ino)
    ensures var slot := FirstInvalid(DirOf(s, d), 0);
            && slot < DIRENTS_PER_BLOCK && !DirOf(s, d)[slot].valid && d < |s'.inodes|
            && var e := DirOf(s', d)[slot];
            && e.valid && e.isDir == isDir && e.inode == FirstClear(s.inodeMap, 2) && e.name[..|name|] == name
            && (forall k | |name| <= k < NAME_FIELD :: e.name[k] == 0)
            && forall i | 0 <= i < DIRENTS_PER_BLOCK && i != slot :: DirOf(s', d)[i] == DirOf(s, d)[i]
    ensures var c := FirstClear(s.inodeMap, 2);
            && |s'.inodes| == |s.inodes| && |s'.inodeMap| == |s.inodeMap|
            && (forall m | 0 <= m < |s.inodeMap| :: s'.inodeMap[m] == (s.inodeMap[m] || m == c))
            && (forall m | 0 <= m < |s.inodes| && m != c :: s'.inodes[m] == s.inodes[m])
            && (forall m: nat, i: nat | m != d && m != c :: ByteAt(s', m, i) == ByteAt(s, m, i))
  {
    hide DirOf, NewEntry, ByteAt;
    NewEntryReads(isDir, FirstClear(s.inodeMap, 2), name);
  }

  /** The parent is a regular file: the inode ino is taken and goes by no name,
      and the slot meant for its name has gone over 32 bytes of the file. */
  ghost predicate NodeLost(s: Fs, s': Fs, d: nat, name: Name, ino: Inode) {
    var c := FirstClear(s.inodeMap, 2);
    && d < |s.inodes| && c < |s.inodes| && c < |s.inodeMap| && c < 0x4000_0000 && |name| < NAME_FIELD
    && s'.inodes == s.inodes[c := ino] && s'.inodeMap == s.inodeMap[c := true] && s'.blockMap == s.blockMap
    && var slot := FirstInvalid(DirOf(s, d), 0);
    forall m: nat, i: nat ::
      ByteAt(s', m, i) == if m == d && 32 * slot <= i < 32 * slot + 32
                          then DirentByte(NewEntry(false, c, name), i - 32 * slot) else ByteAt(s, m, i)
  }

  /** The 32 bytes of the file: the header word, the name, and zeros; no other byte
      and no other inode changes. */
  lemma BytesOfLost(s: Fs, s': Fs, d: nat, name: Name, ino: Inode, k: nat)
    requires NodeLost(s, s', d, name, ino) && k < NAME_FIELD
    ensures var o, c := 32 * FirstInvalid(DirOf(s, d), 0), FirstClear(s.inodeMap, 2);
            && ByteAt(s', d, o) + 0x100 * ByteAt(s', d, o + 1) as int + 0x1_0000 * ByteAt(s', d, o + 2) as int
               + 0x100_0000 * ByteAt(s', d, o + 3) as int == 1 + 4 * c
            && ByteAt(s', d, o + 4 + k) == (if k < |name| then name[k] else 0)
            && (forall m: nat, i: nat | m != d || i < o || i >= o + 32 :: ByteAt(s', m, i) == ByteAt(s, m, i))
            && |s'.inodes| == |s.inodes| && forall m | 0 <= m < |s.inodes| && m != c :: s'.inodes[m] == s.inodes[m]
  {
    hide DirOf, ByteAt, FirstInvalid, FirstClear, ByteOf;
    var o, c := 32 * FirstInvalid(DirOf(s, d), 0), FirstClear(s.inodeMap, 2);
    NewEntryReads(false, c, name);
    BytesOfWord(DirentHeader(NewEntry(false, c, name)));
  }

  // ------------------------------------------------------- the new entry

  /** What holds once the inode c is claimed and before the entry is written. */
  ghost predicate ReadyToEnter(s: Fs, sh: Shape, s1: Fs, sh1: Shape, c: nat, isDir: bool) {
    && NewChild(s, s1, c, isDir) && UseOk(s1, sh1)
    && (forall e | 0 <= e < |s.inodes| && IsDir(s, e) :: IsDir(s1, e) && DirOf(s1, e) == DirOf(s, e))
  }

  lemma EnterNamed(s: Fs, sh: Shape, nm: Names, s1: Fs, sh1: Shape, d: nat, slot: nat, e: Dirent, name: Name, c: nat,
                   s2: Fs, nm2: Names)
    requires d < |s.inodes| && d < |s1.inodes| && s1.inodes[d].direct[0] < |s1.disk| && slot < DIRENTS_PER_BLOCK
    requires c < |nm.rank| && d < |nm.rank|
    requires s2 == WithDir(s1, d, DirOf(s, d)[slot := e]) && nm2 == AddName(nm, d, slot, name, c, e.isDir)
    requires e.valid && 0 in e.name && CStr(e.name) == name && e.inode == c && GoodName(name) && Placed(nm, d)
    requires !DirOf(s, d)[slot].valid && Key(d, name) !in nm.tree
    requires IsDir(s, d) && ReadyToEnter(s, sh, s1, sh1, c, e.isDir)
    requires Geometry(s1) && Owned(s1, sh1) && Coherent(s1)
    requires Named(s, sh, nm)
    ensures Named(s2, sh1, nm2)
  {
    hide Geometry, Owned, Coherent, DirOf, CStr, GoodName, UseOk, IsDirMode, IsRegMode, EncodeDir, ByteAt, Named;
    NamedUse(s, sh, nm);
    UseFacts(s, sh, c);
    WithDirOwned(s1, sh1, d, DirOf(s, d)[slot := e]);
    assert UseOk(s2, sh1) by { UseSame(s1, s2, sh1); }
    NamedAdd(s, sh, nm, s2, sh1, d, slot, e, name, c);
  }

  /** Directories are as they were and a regular file's inode has been claimed:
      the names of s are the names of s1. */
  lemma ClaimedNamed(s: Fs, sh: Shape, nm: Names, s1: Fs, c: nat)
    requires Named(s, sh, nm) && ReadyToEnter(s, sh, s1, sh, c, false)
    ensures Named(s1, sh, nm)
  {
    hide DirOf, IsDirMode, IsRegMode, CStr, GoodName, UseOk;
    NamedUse(s, sh, nm);
    UseFacts(s, sh, c);
    RegNotDir(s1.inodes[c].mode);
    assert forall n | 0 <= n < |s.inodes| :: IsDir(s1, n) == IsDir(s, n);
    forall key | key in nm.tree
      ensures EntryOk(s1, nm, key) && ChildOk(s1, nm, key)
    {
      assert EntryOk(s, nm, key) && ChildOk(s, nm, key);
    }
  }

  /** Writing the first block of a regular file keeps the tree of names. */
  lemma FileBlockNamed(s: Fs, sh: Shape, nm: Names, d: nat, ds: Dirents)
    requires Geometry(s) && Owned(s, sh) && Coherent(s) && Named(s, sh, nm)
    requires d < |s.inodes| && s.inodes[d].direct[0] != 0 && !IsDir(s, d)
    ensures s.inodes[d].direct[0] < |s.disk|
    ensures Named(WithDir(s, d, ds), sh, nm)
  {
    hide Geometry, Owned, Coherent, DirOf, IsDirMode, Named, ByteAt, UseOk;
    NamedUse(s, sh, nm);
    WithDirSound(s, sh, d, ds);
    UseLengths(s, sh);
    forall e | 0 <= e < |s.inodes| && IsDir(s, e)
      ensures DirOf(WithDir(s, d, ds), e) == DirOf(s, e)
    {
      DirHasBlock(s, sh, e);
    }
    SameDirsNamed(s, sh, WithDir(s, d, ds), sh, nm);
  }

  /** An entry can be put into the slot of inode d for the claimed inode c. */
  ghost predicate CanEnter(s: Fs, sh: Shape, nm: Names, s1: Fs, sh1: Shape, d: nat, slot: nat, c: nat, isDir: bool,
                           name: Name) {
    && ReadyToEnter(s, sh, s1, sh1, c, isDir)
    && d < |s.inodes| && d < |s1.inodes| && d != c && s1.inodes[d].direct[0] != 0 && DirOf(s1, d) == DirOf(s, d)
    && slot < DIRENTS_PER_BLOCK && !DirOf(s, d)[slot].valid && (name == [] || GoodName(name))
    && (if IsDir(s, d) then Key(d, name) !in nm.tree && Placed(nm, d) else !isDir && sh1 == sh)
  }

  /** A directory can take an entry. */
  lemma DirCanEnter(s: Fs, sh: Shape, nm: Names, s1: Fs, sh1: Shape, d: nat, slot: nat, c: nat, isDir: bool, name: Name)
    requires UseOk(s, sh) && Geometry(s1) && Owned(s1, sh1) && ReadyToEnter(s, sh, s1, sh1, c, isDir) && IsDir(s, d)
    requires slot < DIRENTS_PER_BLOCK && !DirOf(s, d)[slot].valid && (name == [] || GoodName(name))
    requires Key(d, name) !in nm.tree && Placed(nm, d)
    ensures CanEnter(s, sh, nm, s1, sh1, d, slot, c, isDir, name)
  {
    hide Geometry, Owned, UseOk, IsDirMode, IsRegMode, DirOf, GoodName;
    UseFacts(s, sh, c);
    DirHasBlock(s1, sh1, d);
  }

  /** Slot `slot` of inode d's first block has received the entry e. */
  ghost predicate Entered(s: Fs, s': Fs, d: nat, slot: nat, e: Dirent) {
    && d < |s.inodes| && s.inodes[d].direct[0] < |s.disk| && slot < DIRENTS_PER_BLOCK
    && s' == WithDir(s, d, DirOf(s, d)[slot := e])
    && d < |s'.inodes| && DirOf(s', d) == DirOf(s, d)[slot := e]
  }

  /** The parent's first block with the new entry, written out.  Nothing here
      asks whether the parent is a directory. */
  method EnterName(v: Volume, d: nat, slot: nat, c: u30, isDir: bool, name: Name, ghost s: Fs, ghost sh: Shape)
    requires v.Sound() && Named(s, sh, v.names) && CanEnter(s, sh, v.names, v.State(), v.shape, d, slot, c, isDir, name)
    modifies v`names, v.disk
    ensures v.Sound() && |name| < NAME_FIELD && (!IsDir(s, d) || name != [] ==> v.Valid())
    ensures Entered(old(v.State()), v.State(), d, slot, NewEntry(isDir, c, name))
    ensures IsDir(s, d) && name != [] ==> v.names.tree == old(v.names.tree)[Key(d, name) := Entry(slot, c, isDir)]
    ensures !IsDir(s, d) || name == [] ==> v.names == old(v.names)
    ensures forall m: nat, i: nat | m != d :: ByteAt(v.State(), m, i) == ByteAt(old(v.State()), m, i)
  {
    hide Geometry, Owned, Coherent, DirOf, CStr, GoodName, UseOk, IsDirMode, IsRegMode, EncodeDir, ByteAt, Named;
    hide PadName, Placed;
    ghost var s1, nm := v.State(), v.names;
    assert 0 !in name && |name| < NAME_FIELD by { if name != [] { GoodNameFacts(name); } }
    PadNameReads(name);
    var dirent := NewEntry(isDir, c, name);
    var dir := ReadDir(v, d);
    WithDirSound(s1, v.shape, d, dir[slot := dirent]);
    if IsDir(s, d) && name != [] {
      NamedUse(s, sh, nm);
      EnterNamed(s, sh, nm, s1, v.shape, d, slot, dirent, name, c, WithDir(s1, d, dir[slot := dirent]),
                 AddName(nm, d, slot, name, c, isDir));
    } else if !IsDir(s, d) {
      ParentStaysFile(s, sh, s1, c, d);
      ClaimedNamed(s, sh, nm, s1, c);
      FileBlockNamed(s1, sh, nm, d, dir[slot := dirent]);
    }
    WriteDir(v, d, dir[slot := dirent]);
    if IsDir(s, d) && name != [] {
      v.names := AddName(nm, d, slot, name, c, isDir);
    }
  }

  lemma ParentStaysFile(s: Fs, sh: Shape, s1: Fs, c: nat, d: nat)
    requires ReadyToEnter(s, sh, s1, sh, c, false) && d < |s.inodes| && !IsDir(s, d) && d != c
    ensures !IsDir(s1, d)
  {
    hide IsDirMode, IsRegMode, DirOf, UseOk;
  }

  // ------------------------------------------------------------- fs_mknod

  function NewInode(uid: u16, gid: u16, mode: u32, now: u32): Inode {
    InodeRecord(uid, gid, mode, now, now, 0, NO_DIRECT, 0, 0, [0, 0, 0])
  }

  lemma NewInodeFields(uid: u16, gid: u16, mode: u32, now: u32)
    ensures var ino := NewInode(uid, gid, mode, now);
            && NoPointers(ino) && ino.uid == uid && ino.gid == gid && ino.mode == mode
            && ino.ctime == now && ino.mtime == now && ino.size == 0
            && (forall i | 0 <= i < N_DIRECT :: ino.direct[i] == 0) && ino.indir1 == 0 && ino.indir2 == 0
  {
  }

  lemma InodeNumbersSmall(s: Fs)
    requires Geometry(s)
    ensures |s.inodes| < 0x4000_0000 && |s.inodes| <= |s.inodeMap|
  {
  }

  /** Claiming an unused inode for a regular file keeps the forest and the
      directories. */
  lemma ClaimedFile(s: Fs, sh: Shape, nm: Names, s1: Fs, c: nat, ino: Inode)
    requires Geometry(s) && Owned(s, sh) && Named(s, sh, nm) && Claimed(s, sh, s1, c, ino) && IsRegMode(ino.mode)
    ensures Geometry(s1) && Owned(s1, sh) && ReadyToEnter(s, sh, s1, sh, c, false)
    ensures forall m: nat, i: nat :: ByteAt(s1, m, i) == ByteAt(s, m, i)
  {
    hide Geometry, Owned, DecodeDir, IsDirMode, IsRegMode, Named, ByteAt, NoPointers;
    NamedUse(s, sh, nm);
    ClaimedOwned(s, sh, s1, c, ino);
    RegNotDir(ino.mode);
    ClaimedUse(s, sh, s1, c, ino);
    forall e | 0 <= e < |s.inodes| && IsDir(s, e)
      ensures IsDir(s1, e) && DirOf(s1, e) == DirOf(s, e)
    {
      UseFacts(s, sh, c);
      DirBlock(s, sh, e);
    }
  }

  lemma ClaimedUse(s: Fs, sh: Shape, s1: Fs, c: nat, ino: Inode)
    requires UseOk(s, sh) && Claimed(s, sh, s1, c, ino) && !IsDirMode(ino.mode)
    ensures UseOk(s1, sh)
  {
    hide IsDirMode, DataAgree;
    UseFacts(s, sh, c);
  }

  lemma UnusedEmpty(s: Fs, sh: Shape, c: nat)
    requires UseOk(s, sh) && c < |s.inodes| && !s.inodeMap[c]
    ensures sh.extent[c] == EMPTY_EXTENT
  {
  }

  /** The checks that mknod and mkdir share, before anything is changed. */
  method CheckNew(v: Volume, path: seq<byte>) returns (code: int, dirInum: nat)
    requires v.Valid()
    ensures if LastSlash(Stripped(path)) < 0 then code == -1 else
            match Lookup(v.names.tree, DirName(Stripped(path)))
            case Found(d, _) =>
              (if Lookup(v.names.tree, path).Found? then code == -EEXIST else code == 0 && dirInum == d)
            case w => code == Code(w)
  {
    hide Geometry, Owned, Coherent, Named;
    LookupOk(v.State(), v.shape, v.names, DirName(Stripped(path)));
    LookupOk(v.State(), v.shape, v.names, path);
    dirInum := 0;
    var ok, fatherPath := TrancatePath(path);
    if !ok {
      return -1, 0;
    }
    var dirNum := Translate(v, fatherPath);
    if dirNum == -ENOENT || dirNum == -ENOTDIR {
      return dirNum, 0;
    }
    var inum := Translate(v, path);
    if inum > 0 {
      return -EEXIST, 0;
    }
    return 0, dirNum;
  }

  /** The second half of mknod: the inode is claimed and entered. */
  method AddFile(v: Volume, d: nat, slot: nat, c: nat, ino: Inode, name: Name)
    requires v.Valid() && d < v.inodes.Length && v.inodes[d].direct[0] != 0 && IsRegMode(ino.mode) && NoPointers(ino)
    requires 2 <= c < v.inodes.Length && c < v.inodeMap.Length && !v.inodeMap[c]
    requires slot < DIRENTS_PER_BLOCK && !DirOf(v.State(), d)[slot].valid
    requires IsDir(v.State(), d) ==> Key(d, name) !in v.names.tree && Placed(v.names, d)
    requires name == [] || GoodName(name)
    modifies v`names, v.disk, v.inodeMap, v.inodes
    ensures v.Sound() && (!old(IsDir(v.State(), d)) || name != [] ==> v.Valid())
    ensures |name| < NAME_FIELD && c < 0x4000_0000 && d < |old(v.State()).inodes|
    ensures DirOf(v.State(), d) == DirOf(old(v.State()), d)[slot := NewEntry(false, c, name)]
    ensures old(IsDir(v.State(), d)) ==>
              v.names.tree == (if name == [] then old(v.names.tree)
                               else old(v.names.tree)[Key(d, name) := Entry(slot, c, false)])
              && OthersKept(old(v.State()), v.State(), c, d)
    ensures !old(IsDir(v.State(), d)) ==>
              v.names == old(v.names)
              && forall m: nat, i: nat ::
                   ByteAt(v.State(), m, i) == if m == d && 32 * slot <= i < 32 * slot + 32
                                              then DirentByte(NewEntry(false, c, name), i - 32 * slot)
                                              else ByteAt(old(v.State()), m, i)
    ensures v.State().inodes == old(v.State()).inodes[c := ino]
    ensures v.State().inodeMap == old(v.State()).inodeMap[c := true]
  {
    hide Geometry, Owned, Coherent, DirOf, CStr, UseOk, IsDirMode, IsRegMode, ByteAt, Named, EntryOk, NoPointers;
    hide DirentByte, NewEntry, Placed;
    ghost var s, sh, nm := v.State(), v.shape, v.names;
    NamedUse(s, sh, nm);
    InodeNumbersSmall(s);
    UnusedEmpty(s, sh, c);
    UnusedNoBlock(s, sh, c);
    ClaimInode(v, c, ino);
    ghost var s1 := v.State();
    ClaimedFile(s, sh, nm, s1, c, ino);
    ClaimedDirOf(s, sh, s1, c, ino, d);
    EnterName(v, d, slot, c, false, name, s, sh);
    EnteredBytes(s, s1, sh, v.State(), d, slot, NewEntry(false, c, name));
  }

  lemma EnteredBytes(s: Fs, s1: Fs, sh: Shape, s2: Fs, d: nat, slot: nat, e: Dirent)
    requires Geometry(s1) && Owned(s1, sh) && Coherent(s1) && Entered(s1, s2, d, slot, e) && s1.inodes[d].direct[0] != 0
    requires forall m: nat, i: nat :: ByteAt(s1, m, i) == ByteAt(s, m, i)
    requires forall m: nat, i: nat | m != d :: ByteAt(s2, m, i) == ByteAt(s1, m, i)
    ensures forall m: nat, i: nat ::
              ByteAt(s2, m, i) == if m == d && 32 * slot <= i < 32 * slot + 32 then DirentByte(e, i - 32 * slot)
                                  else ByteAt(s, m, i)
  {
    hide Geometry, Owned, Coherent, DirOf, ByteAt, DirentByte, WithDir;
    WithDirBytes(s1, sh, d, slot, e);
    forall m: nat, i: nat
      ensures ByteAt(s2, m, i) == if m == d && 32 * slot <= i < 32 * slot + 32 then DirentByte(e, i - 32 * slot)
                                  else ByteAt(s, m, i)
    {
      assert ByteAt(s1, m, i) == ByteAt(s, m, i);
    }
  }

  lemma UnusedNoBlock(s: Fs, sh: Shape, c: nat)
    requires Geometry(s) && Owned(s, sh) && c < |s.inodes| && c < |sh.extent| && sh.extent[c] == EMPTY_EXTENT
    ensures s.inodes[c].direct[0] == 0
  {
    hide Geometry, Extents;
    FirstPointer(s, c);
    assert !Present(sh, Data(c, 0));
  }

  /** The first block of an inode with one is as before after another is claimed. */
  lemma ClaimedDirOf(s: Fs, sh: Shape, s1: Fs, c: nat, ino: Inode, d: nat)
    requires Geometry(s) && Owned(s, sh) && Claimed(s, sh, s1, c, ino) && d < |s.inodes| && s.inodes[d].direct[0] != 0
    requires s.inodes[c].direct[0] == 0
    ensures d != c && s1.inodes[d] == s.inodes[d] && DirOf(s1, d) == DirOf(s, d)
  {
    hide Geometry, Owned, DecodeDir, NoPointers;
    FirstBlock(s, sh, d);
  }

  /** fs_mknod.  The C code does not look at the type of the parent, nor at what
      get_name finds: after a trailing slash, nothing. */
  method Mknod(v: Volume, path: seq<byte>, mode: u32, uid: u16, gid: u16, now: u32) returns (ret: int)
    requires v.Valid()
    requires IsRegMode(mode) && MakeCode(v.State(), v.names, path) == 0 ==> MakeLegal(v.State(), v.names, path)
    modifies v`names, v.disk, v.inodeMap, v.inodes
    ensures v.Sound()
    ensures ret == if !IsRegMode(mode) then -EINVAL else old(MakeCode(v.State(), v.names, path))
    ensures var s, p := old(v.State()), Lookup(old(v.names.tree), DirName(Stripped(path)));
            ret == if !IsRegMode(mode) then -EINVAL
                   else if SLASH !in Stripped(path) then -1
                   else if p.Missing? then -ENOENT
                   else if p.NotDir? then -ENOTDIR
                   else if Lookup(old(v.names.tree), path).Found? then -EEXIST
                   else if p.inum < |s.inodes| && forall i | 0 <= i < DIRENTS_PER_BLOCK :: DirOf(s, p.inum)[i].valid
                     then -ENOSPC
                   else if forall i | 2 <= i < |s.inodeMap| :: s.inodeMap[i] then -ENOSPC
                   else 0
    ensures ret != 0 ==> v.State() == old(v.State()) && v.names == old(v.names)
    ensures ret == 0 ==>
              var c := FirstClear(old(v.State()).inodeMap, 2);
              && c < v.inodes.Length && v.inodes[c].uid == uid && v.inodes[c].gid == gid && v.inodes[c].mode == mode
              && v.inodes[c].ctime == now && v.inodes[c].mtime == now && v.inodes[c].size == 0
              && (forall i | 0 <= i < N_DIRECT :: v.inodes[c].direct[i] == 0)
              && v.inodes[c].indir1 == 0 && v.inodes[c].indir2 == 0
    ensures ret != 0 || !TrailingSlash(path) ==> v.Valid()
    ensures ret == 0 ==>
              var w, ino := Lookup(old(v.names.tree), DirName(Stripped(path))), NewInode(uid, gid, mode, now);
              w.Found? &&
              if w.isDir then
                NodeMade(old(v.State()), old(v.names), v.State(), v.names, w.inum, BaseName(path), false, ino)
              else
                v.Valid() && v.names == old(v.names)
                && NodeLost(old(v.State()), v.State(), w.inum, BaseName(path), ino)
  {
    hide Geometry, Owned, Coherent, DirOf, CStr, UseOk, IsDirMode, IsRegMode, ByteAt, Named, EntryOk, OthersKept;
    hide DirentByte;
    hide Lookup, Tokens, LastSlash, Stripped, BaseName, DirName, FirstClear, FirstInvalid, NewEntry;
    hide NewInode, NoPointers, Placed, HasParent, ShortName, GoodName;
    ghost var s, sh, nm := v.State(), v.shape, v.names;
    if !IsRegMode(mode) {
      return -EINVAL;
    }
    NewInodeFields(uid, gid, mode, now);
    HasParentFacts(path);
    LookupOk(s, sh, nm, DirName(Stripped(path)));
    var code, d := CheckNew(v, path);
    if code != 0 {
      return code;
    }
    FullDirectory(DirOf(s, d));
    NoClearBit(s.inodeMap);
    FirstPointer(s, d);
    OwnedOnDisk(s, sh, Data(d, 0));
    var slot := FindFreeDirent(v, d);
    if slot < 0 {
      return -ENOSPC;
    }
    var c := FindFreeInode(v);
    if c < 0 {
      return -ENOSPC;
    }
    NewName(s, sh, nm, path);
    LookupPlaced(s, sh, nm, DirName(Stripped(path)));
    RegNotDir(v.inodes[d].mode);
    var name := GetName(path);
    AddFile(v, d, slot, c, NewInode(uid, gid, mode, now), name);
    return 0;
  }

  // ------------------------------------------------------------- fs_mkdir

  /** mode | S_IFDIR */
  function OrDir(mode: u32): u32 {
    if (mode / 0x4000) % 2 == 1 then mode else mode + 0x4000 as int
  }

  /** A free block has been zeroed and marked; no pointer leads to it yet. */
  ghost predicate Reserved(s: Fs, sh: Shape, s': Fs, b: nat) {
    && SameSizes(s, s') && s'.inodes == s.inodes && s'.inodeMap == s.inodeMap
    && Unused(s, sh, b) && b < |s.disk| && s'.blockMap == s.blockMap[b := true]
    && s'.disk[b] == ZeroBlock() && DataAgree(s, s', {b})
  }

  lemma ReservedOwned(s: Fs, sh: Shape, s': Fs, b: nat)
    requires Geometry(s) && Owned(s, sh) && Reserved(s, sh, s', b)
    ensures Geometry(s') && Owned(s', sh) && Free(s') == Free(s) - 1
    ensures forall m: nat, i: nat :: ByteAt(s', m, i) == ByteAt(s, m, i)
    ensures forall d | 0 <= d < |s.inodes| && At(s, Data(d, 0)) != 0 :: DirOf(s', d) == DirOf(s, d)
  {
    hide At, Geometry, Compact, Present, DataStart, ZeroBlock, DecodeDir;
    SameGeometry(s, s');
    FreeCountSet(s.blockMap, Cap(s), b);
    hide FreeCount;
    assert forall q :: At(s', q) == At(s, q) by {
      forall q
        ensures At(s', q) == At(s, q)
      {
        FrameAt(s, sh, s', q);
      }
    }
    forall m: nat, i: nat
      ensures ByteAt(s', m, i) == ByteAt(s, m, i)
    {
      OwnerOf(s, sh, Data(m, i / BLOCK_SIZE));
    }
    forall d | 0 <= d < |s.inodes| && At(s, Data(d, 0)) != 0
      ensures DirOf(s', d) == DirOf(s, d)
    {
      OwnerOf(s, sh, Data(d, 0));
      FirstPointer(s, d);
    }
  }

  lemma ReservedSteps(s: Fs, sh: Shape, b: nat)
    requires Geometry(s) && Owned(s, sh) && Coherent(s) && Unused(s, sh, b) && b < |s.disk|
    ensures var s1 := Zeroed(s, b).(blockMap := s.blockMap[b := true]);
            && Geometry(s1)
            && var s3 := Zeroed(FlushMaps(s1), b);
            Geometry(FlushMaps(s1)) && Geometry(s3) && Coherent(s3) && Reserved(s, sh, s3, b)
  {
    hide Geometry, Coherent, Owned, FlushMaps, ZeroBlock;
    SameGeometry(s, s);
    ZeroedKeeps(s, b);
    var s0 := Zeroed(s, b);
    SameGeometry(s, s0);
    MapsOut(s0, s.blockMap[b := true]);
    var s1 := s0.(blockMap := s.blockMap[b := true]);
    SameGeometry(s0, FlushMaps(s1));
    ZeroedKeeps(FlushMaps(s1), b);
  }

  /** The block part of mkdir.  With no free block the C code would set a bit at
      a negative index. */
  method NewDirBlock(v: Volume) returns (b: nat)
    requires v.Sound() && Free(v.State()) > 0
    modifies v.disk, v.blockMap
    ensures v.Sound() && Reserved(old(v.State()), v.shape, v.State(), b)
  {
    hide Geometry, Owned, Coherent, FlushMaps, ZeroBlock, Free, Reserved, Unused, ByteAt, DirOf;
    ghost var s, sh := v.State(), v.shape;
    SoundBasics(s, sh);
    var blk := v.FindFreeBlock();
    b := blk;
    FreeIsUnused(s, sh, b);
    ReservedSteps(s, sh, b);
    SameGeometry(s, s);
    SameGeometry(s, v.State());
    v.MarkBlock(b);
    v.UpdateBitmap();
    v.WriteBlock(b, ZeroBlock());
    ReservedOwned(s, sh, v.State(), b);
  }

  ghost predicate DirInode(ino: Inode, b: nat) {
    IsDirMode(ino.mode) && ino.direct == [b, 0, 0, 0, 0, 0] && ino.indir1 == 0 && ino.indir2 == 0 && ino.size == 0
  }

  /** The inode of a new directory over a reserved block. */
  ghost predicate DirClaimed(s: Fs, s2: Fs, c: nat, ino: Inode, b: nat) {
    && SameSizes(s, s2) && 2 <= c < |s.inodes| <= |s.inodeMap| && !s.inodeMap[c]
    && s2.inodeMap == s.inodeMap[c := true] && s2.inodes == s.inodes[c := ino]
    && b < |s.blockMap| && b < |s.disk| && s2.blockMap == s.blockMap[b := true]
    && s2.disk[b] == ZeroBlock() && DataAgree(s, s2, {b}) && DirInode(ino, b)
  }

  ghost function Midway(s: Fs, c: nat, ino: Inode): Fs
    requires c < |s.inodes| && c < |s.inodeMap|
  {
    s.(inodeMap := s.inodeMap[c := true], inodes := s.inodes[c := ino.(direct := NO_DIRECT)])
  }

  lemma DirClaimedOwned(s: Fs, sh: Shape, s2: Fs, c: nat, ino: Inode, b: nat)
    requires Geometry(s) && Owned(s, sh) && DirClaimed(s, s2, c, ino, b) && Unused(s, sh, b)
    requires sh.extent[c] == EMPTY_EXTENT
    ensures |sh.extent| == |s.inodes|
    ensures var sh2 := Link(sh, Data(c, 0), b);
            Geometry(s2) && Owned(s2, sh2) && sh2.extent == sh.extent[c := Extent(1, 0, false, false)]
    ensures forall m: nat, i: nat :: ByteAt(s2, m, i) == ByteAt(s, m, i)
  {
    hide At, Geometry, Owned, ByteAt, ZeroBlock, Compact;
    OwnedMarked(s, sh);
    var mid := Midway(s, c, ino);
    var ino0 := ino.(direct := NO_DIRECT);
    assert Claimed(s, sh, mid, c, ino0);
    ClaimedOwned(s, sh, mid, c, ino0);
    SameGeometry(s, mid);
    assert SetInodePtr(ino0, Data(c, 0), b) == ino;
    assert Linked(mid, s2, Data(c, 0), b);
    LinkOwned(mid, sh, s2, Data(c, 0), b);
    LinkBytes(mid, sh, s2, Data(c, 0), b);
  }

  lemma DirClaimedReady(s: Fs, sh: Shape, nm: Names, s2: Fs, c: nat, ino: Inode, b: nat)
    requires Geometry(s) && Owned(s, sh) && Named(s, sh, nm) && DirClaimed(s, s2, c, ino, b) && Unused(s, sh, b)
    requires sh.extent[c] == EMPTY_EXTENT
    ensures |sh.extent| == |s.inodes| && ReadyToEnter(s, sh, s2, Link(sh, Data(c, 0), b), c, true)
  {
    hide At, Geometry, Owned, Named, IsDirMode, IsRegMode, DecodeDir, ZeroBlock, EmptyDirent;
    NamedUse(s, sh, nm);
    UseFacts(s, sh, c);
    assert DirOf(s2, c) == DecodeDir(ZeroBlock());
    forall j | 0 <= j < DIRENTS_PER_BLOCK
      ensures DirOf(s2, c)[j] == EmptyDirent()
    {
      ZeroDir(j);
    }
    forall e | 0 <= e < |s.inodes| && IsDir(s, e)
      ensures IsDir(s2, e) && DirOf(s2, e) == DirOf(s, e)
    {
      DirBlock(s, sh, e);
    }
    DirClaimedUse(s, sh, s2, c, ino, b);
  }

  lemma DirClaimedUse(s: Fs, sh: Shape, s2: Fs, c: nat, ino: Inode, b: nat)
    requires UseOk(s, sh) && DirClaimed(s, s2, c, ino, b) && sh.extent[c] == EMPTY_EXTENT
    ensures UseOk(s2, Link(sh, Data(c, 0), b))
  {
    hide IsDirMode, DataAgree, ZeroBlock;
    UseFacts(s, sh, c);
  }

  /** The second half of mkdir: the inode over block b is claimed and entered. */
  method AddDir(v: Volume, d: nat, slot: nat, c: nat, ino: Inode, b: nat, name: Name, ghost s: Fs)
    requires v.Valid() && IsDir(v.State(), d) && DirInode(ino, b)
    requires Geometry(s) && Owned(s, v.shape) && Named(s, v.shape, v.names) && Reserved(s, v.shape, v.State(), b)
    requires 2 <= c < v.inodes.Length && c < v.inodeMap.Length && !v.inodeMap[c]
    requires slot < DIRENTS_PER_BLOCK && !DirOf(s, d)[slot].valid
    requires Key(d, name) !in v.names.tree && Placed(v.names, d) && (name == [] || GoodName(name))
    modifies v`names, v`shape, v.disk, v.inodeMap, v.inodes
    ensures v.Sound() && (name != [] ==> v.Valid())
    ensures |name| < NAME_FIELD && c < 0x4000_0000 && d < |s.inodes|
    ensures d < v.inodes.Length && DirOf(v.State(), d) == DirOf(s, d)[slot := NewEntry(true, c, name)]
    ensures v.names.tree == if name == [] then old(v.names.tree)
                            else old(v.names.tree)[Key(d, name) := Entry(slot, c, true)]
    ensures OthersKept(s, v.State(), c, d) && v.State().inodes[c] == ino
    ensures v.State().blockMap == old(v.State()).blockMap && v.State().inodeMap == old(v.State()).inodeMap[c := true]
    ensures forall i: nat :: ByteAt(v.State(), c, i) == 0
  {
    hide Geometry, Owned, Coherent, DirOf, CStr, UseOk, IsDirMode, IsRegMode, ByteAt, Named, EntryOk, DirInode;
    hide ZeroBlock, Link, Unused, NewEntry, Placed;
    ghost var sh, nm := v.shape, v.names;
    NamedUse(s, sh, nm);
    InodeNumbersSmall(s);
    UnusedEmpty(s, sh, c);
    ClaimInode(v, c, ino);
    ghost var s2 := v.State();
    ReservedInData(s, sh, b);
    SameGeometry(s, old(v.State()));
    assert DirClaimed(s, s2, c, ino, b);
    DirClaimedOwned(s, sh, s2, c, ino, b);
    DirClaimedReady(s, sh, nm, s2, c, ino, b);
    v.shape := Link(sh, Data(c, 0), b);
    DirCanEnter(s, sh, nm, s2, v.shape, d, slot, c, true, name);
    ZeroDirBytes(s, s2, c, ino, b);
    assert d != c by { UseFacts(s, sh, c); }
    EnterName(v, d, slot, c, true, name, s, sh);
  }

  /** A new directory has no byte other than 0. */
  lemma ZeroDirBytes(s: Fs, s2: Fs, c: nat, ino: Inode, b: nat)
    requires DirClaimed(s, s2, c, ino, b)
    ensures forall i: nat :: ByteAt(s2, c, i) == 0
  {
    hide Word, DataAgree, IsDirMode;
    forall i: nat
      ensures ByteAt(s2, c, i) == 0
    {
      ZeroBeyond(s2, c, i / BLOCK_SIZE);
    }
  }

  lemma ZeroBeyond(s: Fs, c: nat, k: nat)
    requires c < |s.inodes| && s.inodes[c].indir1 == 0 && s.inodes[c].indir2 == 0
    requires forall j | 1 <= j < N_DIRECT :: s.inodes[c].direct[j] == 0
    ensures At(s, Data(c, 0)) == s.inodes[c].direct[0] && (k > 0 ==> At(s, Data(c, k)) == 0)
  {
    hide Word;
    assert At(s, Root1(c)) == 0 && At(s, Root2(c)) == 0;
    if N_DIRECT <= k < MAX_POSITIONS && k >= IND2_FIRST {
      assert At(s, Leaf(c, (k - IND2_FIRST) / WORDS_PER_BLOCK)) == 0;
    }
  }

  lemma ReservedInData(s: Fs, sh: Shape, b: nat)
    requires Geometry(s) && Unused(s, sh, b)
    ensures DataStart(s) <= b < |s.disk| && b < |s.blockMap|
  {
  }

  /** The code of mkdir's checks before it allocates. */
  ghost function DirCheckCode(s: Fs, nm: Names, path: seq<byte>): int {
    if LastSlash(Stripped(path)) < 0 then -1 else
    match Lookup(nm.tree, DirName(Stripped(path)))
    case Found(d, isDir) =>
      if Lookup(nm.tree, path).Found? then -EEXIST
      else if d < |s.inodes| && FirstInvalid(DirOf(s, d), 0) >= DIRENTS_PER_BLOCK then -ENOSPC
      else if !isDir then -ENOTDIR
      else 0
    case w => Code(w)
  }

  /** A directory over the block b, which was free, now goes by the path. */
  ghost predicate DirMade(s: Fs, nm: Names, s': Fs, nm': Names, path: seq<byte>, uid: u16, gid: u16, mode: u32,
                          now: u32, b: u32) {
    && var w := Lookup(nm.tree, DirName(Stripped(path)));
    && w.Found?
    && NodeMade(s, nm, s', nm', w.inum, BaseName(path), true, DirInodeOver(uid, gid, OrDir(mode), now, b))
    && b < |s.blockMap| && !s.blockMap[b] && s'.blockMap == s.blockMap[b as nat := true]
  }

  lemma UnusedFree(s: Fs, sh: Shape, b: nat)
    requires Unused(s, sh, b)
    ensures b < |s.blockMap| && !s.blockMap[b]
  {
  }

  /** mkdir has changed no more than lose one block. */
  ghost predicate BlockLost(s: Fs, s': Fs) {
    && s'.inodes == s.inodes && s'.inodeMap == s.inodeMap && Free(s') == Free(s) - 1
    && (forall m: nat, i: nat :: ByteAt(s', m, i) == ByteAt(s, m, i))
    && exists b :: 0 <= b < |s.blockMap| && Taken(s, s', b)
  }

  ghost predicate Taken(s: Fs, s': Fs, b: nat)
    requires b < |s.blockMap|
  {
    !s.blockMap[b] && s'.blockMap == s.blockMap[b := true]
  }

  /** The checks of mkdir; a file as parent is noticed only after a slot has
      been looked for in its first block. */
  method CheckMkdir(v: Volume, path: seq<byte>) returns (code: int, d: nat, slot: nat)
    requires v.Valid()
    ensures code == DirCheckCode(v.State(), v.names, path)
    ensures code == 0 ==>
              && Lookup(v.names.tree, DirName(Stripped(path))) == Found(d, true) && IsDir(v.State(), d)
              && !Lookup(v.names.tree, path).Found?
              && slot == FirstInvalid(DirOf(v.State(), d), 0) < DIRENTS_PER_BLOCK
  {
    hide Geometry, Owned, Coherent, DirOf, CStr, UseOk, IsDirMode, IsRegMode, Named;
    hide Lookup, Tokens, LastSlash, Stripped, BaseName, DirName, FirstInvalid;
    ghost var s, sh, nm := v.State(), v.shape, v.names;
    slot := 0;
    LookupOk(s, sh, nm, DirName(Stripped(path)));
    code, d := CheckNew(v, path);
    if code != 0 {
      return;
    }
    FirstPointer(s, d);
    OwnedOnDisk(s, sh, Data(d, 0));
    RegNotDir(v.inodes[d].mode);
    var i := FindFreeDirent(v, d);
    if i < 0 {
      return -ENOSPC, d, 0;
    }
    if !IsDirMode(v.inodes[d].mode) {
      return -ENOTDIR, d, 0;
    }
    return 0, d, i;
  }

  /** What mkdir relies on once its checks are passed: besides a short name and a
      free inode in the region, a free block, whose number it does not check. */
  ghost predicate MkdirLegal(s: Fs, path: seq<byte>) {
    HasParent(path) && ShortName(path) && Free(s) > 0 && RegionCovers(s)
  }

  /** mode | S_IFDIR is a directory's exactly if mode names no other type. */
  lemma OrDirMode(mode: u32)
    ensures IsDirMode(OrDir(mode)) <==> (mode / 0x1000) % 0x10 == 0 || (mode / 0x1000) % 0x10 == 4
    ensures IsDirMode(OrDir(mode)) ==>
              && OrDir(mode) % 0x1000 == mode % 0x1000 && (OrDir(mode) / 0x1000) % 0x10 == 4
              && OrDir(mode) / 0x1_0000 == mode / 0x1_0000
  {
    hide OrDir, IsDirMode;
    var high, kind, low := SplitMode(mode);
    OrDirParts(high, kind, low);
  }

  lemma SplitMode(mode: u32) returns (high: nat, kind: nat, low: nat)
    ensures mode == 0x1_0000 * high + 0x1000 * kind + low && kind < 0x10 && low < 0x1000
  {
    high, kind, low := mode / 0x1_0000, (mode / 0x1000) % 0x10, mode % 0x1000;
    var m := mode / 0x1000;
    assert mode == 0x1000 * m + low && m == 0x10 * (m / 0x10) + kind && m / 0x10 == high;
  }

  lemma OrDirParts(high: nat, kind: nat, low: nat)
    requires kind < 0x10 && low < 0x1000 && 0x1_0000 * high + 0x1000 * kind + low < 0x1_0000_0000
    ensures var m: u32 := 0x1_0000 * high + 0x1000 * kind + low;
            && (m / 0x1000) % 0x10 == kind && m % 0x1000 == low && m / 0x1_0000 == high
            && OrDir(m) % 0x1000 == low && OrDir(m) / 0x1_0000 == high
            && (OrDir(m) / 0x1000) % 0x10 == (if (kind / 4) % 2 == 1 then kind else kind + 4)
            && (IsDirMode(OrDir(m)) <==> kind == 0 || kind == 4)
  {
    var m: u32 := 0x1_0000 * high + 0x1000 * kind + low;
    ModeParts(m, high, kind, low);
    ModeBit(m, high, kind, low);
    if (kind / 4) % 2 == 0 {
      assert OrDir(m) == m + 0x4000;
      ModeParts(m + 0x4000, high, kind + 4, low);
    }
  }

  lemma ModeParts(m: nat, high: nat, kind: nat, low: nat)
    requires kind < 0x10 && low < 0x1000 && m == 0x1_0000 * high + 0x1000 * kind + low
    ensures m / 0x1_0000 == high && m % 0x1000 == low && (m / 0x1000) % 0x10 == kind
  {
    ModeHigh(m, high, 0x1000 * kind + low);
    ModeLow(m, 0x10 * high + kind, low);
    ModeKind(m / 0x1000, high, kind);
  }

  lemma ModeHigh(m: nat, q: nat, r: nat)
    requires r < 0x1_0000 && m == 0x1_0000 * q + r
    ensures m / 0x1_0000 == q
  {
  }

  lemma ModeLow(m: nat, q: nat, r: nat)
    requires r < 0x1000 && m == 0x1000 * q + r
    ensures m / 0x1000 == q && m % 0x1000 == r
  {
  }

  lemma ModeKind(m: nat, q: nat, r: nat)
    requires r < 0x10 && m == 0x10 * q + r
    ensures m % 0x10 == r
  {
  }

  lemma ModeBit(m: nat, high: nat, kind: nat, low: nat)
    requires kind < 0x10 && low < 0x1000 && m == 0x1_0000 * high + 0x1000 * kind + low
    ensures (m / 0x4000) % 2 == (kind / 4) % 2
  {
    ModeQuarter(m, 4 * high + kind / 4, 0x1000 * (kind % 4) + low);
  }

  lemma ModeQuarter(m: nat, q: nat, r: nat)
    requires r < 0x4000 && m == 0x4000 * q + r
    ensures m / 0x4000 == q
  {
  }

  lemma DirInodeFields(uid: u16, gid: u16, mode: u32, now: u32, b: u32)
    requires IsDirMode(OrDir(mode))
    ensures var ino := DirInodeOver(uid, gid, OrDir(mode), now, b);
            && DirInode(ino, b) && ino.uid == uid && ino.gid == gid
            && ino.mode % 0x1000 == mode % 0x1000 && (ino.mode / 0x1000) % 0x10 == 4
            && ino.mode / 0x1_0000 == mode / 0x1_0000
            && ino.ctime == now && ino.mtime == now && ino.size == 0 && ino.direct[0] == b
            && (forall i | 1 <= i < N_DIRECT :: ino.direct[i] == 0) && ino.indir1 == 0 && ino.indir2 == 0
  {
    hide OrDir;
    OrDirMode(mode);
  }

  lemma CheckCodes(s: Fs, sh: Shape, nm: Names, path: seq<byte>)
    requires Named(s, sh, nm)
    ensures var p := Lookup(nm.tree, DirName(Stripped(path)));
            DirCheckCode(s, nm, path) ==
            if SLASH !in Stripped(path) then -1
            else if p.Missing? then -ENOENT
            else if p.NotDir? then -ENOTDIR
            else if Lookup(nm.tree, path).Found? then -EEXIST
            else if p.inum < |s.inodes| && forall i | 0 <= i < DIRENTS_PER_BLOCK :: DirOf(s, p.inum)[i].valid
              then -ENOSPC
            else if !p.isDir then -ENOTDIR
            else 0
  {
    hide Named, Lookup, DirOf, Stripped, DirName, FirstInvalid;
    HasParentFacts(path);
    var p := Lookup(nm.tree, DirName(Stripped(path)));
    if p.Found? && p.inum < |s.inodes| {
      FullDirectory(DirOf(s, p.inum));
    }
  }

  /** fs_mkdir, which enters an empty name after a trailing slash as well. */
  method Mkdir(v: Volume, path: seq<byte>, mode: u32, uid: u16, gid: u16, now: u32) returns (ret: int)
    requires v.Valid()
    requires IsDirMode(OrDir(mode)) && DirCheckCode(v.State(), v.names, path) == 0 ==> MkdirLegal(v.State(), path)
    modifies v`names, v`shape, v.disk, v.blockMap, v.inodeMap, v.inodes
    ensures v.Sound() && (ret != 0 || !TrailingSlash(path) ==> v.Valid())
    ensures !IsDirMode(OrDir(mode)) ==> ret == -EINVAL && v.State() == old(v.State())
    ensures IsDirMode(OrDir(mode)) ==>
              var code := old(DirCheckCode(v.State(), v.names, path));
              if code != 0 then ret == code && v.State() == old(v.State())
              else if FirstClear(old(v.State()).inodeMap, 2) >= |old(v.State()).inodeMap| then
                ret == -ENOSPC && BlockLost(old(v.State()), v.State())
              else ret == 0
    ensures var s, p := old(v.State()), Lookup(old(v.names.tree), DirName(Stripped(path)));
            ret == if (mode / 0x1000) % 0x10 != 0 && (mode / 0x1000) % 0x10 != 4 then -EINVAL
                   else if SLASH !in Stripped(path) then -1
                   else if p.Missing? then -ENOENT
                   else if p.NotDir? then -ENOTDIR
                   else if Lookup(old(v.names.tree), path).Found? then -EEXIST
                   else if p.inum < |s.inodes| && forall i | 0 <= i < DIRENTS_PER_BLOCK :: DirOf(s, p.inum)[i].valid
                     then -ENOSPC
                   else if !p.isDir then -ENOTDIR
                   else if forall i | 2 <= i < |s.inodeMap| :: s.inodeMap[i] then -ENOSPC
                   else 0
    ensures ret == 0 ==>
              var s, c := old(v.State()), FirstClear(old(v.State()).inodeMap, 2);
              && c < v.inodes.Length && v.inodes[c].uid == uid && v.inodes[c].gid == gid
              && v.inodes[c].mode % 0x1000 == mode % 0x1000 && (v.inodes[c].mode / 0x1000) % 0x10 == 4
              && v.inodes[c].mode / 0x1_0000 == mode / 0x1_0000
              && v.inodes[c].ctime == now && v.inodes[c].mtime == now && v.inodes[c].size == 0
              && v.inodes[c].direct[0] < |s.blockMap| && !s.blockMap[v.inodes[c].direct[0]]
              && (forall i | 1 <= i < N_DIRECT :: v.inodes[c].direct[i] == 0)
              && v.inodes[c].indir1 == 0 && v.inodes[c].indir2 == 0
              && forall i: nat :: ByteAt(v.State(), c, i) == 0
    ensures ret != 0 ==> v.names == old(v.names) && v.shape == old(v.shape)
    ensures ret == 0 ==>
              exists b :: DirMade(old(v.State()), old(v.names), v.State(), v.names, path, uid, gid, mode, now, b)
    ensures ret == 0 ==> Free(v.State()) == Free(old(v.State())) - 1
  {
    hide Geometry, Owned, Coherent, DirOf, CStr, UseOk, IsDirMode, IsRegMode, ByteAt, Named, EntryOk, OthersKept, Free;
    hide Lookup, Tokens, LastSlash, Stripped, BaseName, DirName, FirstClear, FirstInvalid, OrDir, DirInode;
    hide DirCheckCode, Unused, NewEntry, Placed, DirInodeOver;
    ghost var s, sh, nm := v.State(), v.shape, v.names;
    var dirMode := OrDir(mode);
    OrDirMode(mode);
    if !IsDirMode(dirMode) {
      return -EINVAL;
    }
    var code, d, slot := CheckMkdir(v, path);
    CheckCodes(s, sh, nm, path);
    NoClearBit(s.inodeMap);
    if code != 0 {
      return code;
    }
    NewName(s, sh, nm, path);
    LookupPlaced(s, sh, nm, DirName(Stripped(path)));
    var b := NewDirBlock(v);
    ReservedOwned(s, sh, v.State(), b);
    ReservedNamed(s, sh, nm, v.State(), b);
    assert !s.blockMap[b] by { UnusedFree(s, sh, b); }
    assert Taken(s, v.State(), b);
    var c := FindFreeInode(v);
    if c < 0 {
      return -ENOSPC;
    }
    SoundBasics(s, sh);
    ghost var s1 := v.State();
    var name := GetName(path);
    DirInodeFields(uid, gid, mode, now, b);
    AddDir(v, d, slot, c, DirInodeOver(uid, gid, dirMode, now, b), b, name, s);
    SameFree(s1, v.State());
    assert DirMade(s, nm, v.State(), v.names, path, uid, gid, mode, now, b);
    return 0;
  }

  function DirInodeOver(uid: u16, gid: u16, mode: u32, now: u32, b: u32): (ino: Inode)
    ensures IsDirMode(mode) ==> DirInode(ino, b)
  {
    InodeRecord(uid, gid, mode, now, now, 0, [b, 0, 0, 0, 0, 0], 0, 0, [0, 0, 0])
  }

  lemma ReservedNamed(s: Fs, sh: Shape, nm: Names, s': Fs, b: nat)
    requires Geometry(s) && Owned(s, sh) && Named(s, sh, nm) && Reserved(s, sh, s', b)
    ensures Named(s', sh, nm)
    ensures forall d | 0 <= d < |s.inodes| && IsDir(s, d) :: DirOf(s', d) == DirOf(s, d)
  {
    hide Geometry, Owned, Named, IsDirMode, DirOf, ByteAt, Free, At;
    NamedUse(s, sh, nm);
    ReservedOwned(s, sh, s', b);
    forall d | 0 <= d < |s.inodes| && IsDir(s, d)
      ensures DirOf(s', d) == DirOf(s, d)
    {
      DirBlock(s, sh, d);
    }
    SameDirsNamed(s, sh, s', sh, nm);
  }

  lemma SameFree(s: Fs, s': Fs)
    requires s'.blockMap == s.blockMap && s'.numBlocks == s.numBlocks
    ensures Free(s') == Free(s)
  {
  }
}
