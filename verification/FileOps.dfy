/** fs_write, fs_read and fs_truncate as FUSE calls them: by path. */
module FileOps {
  import opened Codec
  import opened Image
  import opened Forest
  import opened Namespace
  import opened Volumes
  import opened Translation
  import opened FileWrite
  import opened FileRead
  import opened FileTruncate
  import opened DirSteps
  import opened DirWrite

  /** The path leads to a regular file. */
  ghost predicate IsFile(nm: Names, path: seq<byte>) {
    Lookup(nm.tree, path).Found? && !Lookup(nm.tree, path).isDir
  }

  lemma ResolvedInode(s: Fs, sh: Shape, nm: Names, path: seq<byte>)
    requires Named(s, sh, nm) && Lookup(nm.tree, path).Found?
    ensures var w := Lookup(nm.tree, path);
            && 1 <= w.inum < |s.inodes| <= |s.inodeMap| && s.inodeMap[w.inum]
            && (w.isDir <==> IsDir(s, w.inum)) && (w.isDir <==> !IsRegMode(s.inodes[w.inum].mode))
  {
    LookupOk(s, sh, nm, path);
    RegNotDir(s.inodes[Lookup(nm.tree, path).inum].mode);
  }

  lemma WroteNamed(s: Fs, sh: Shape, s': Fs, sh': Shape, n: nat, off: nat, data: seq<byte>, ret: int, nm: Names)
    requires Geometry(s) && Owned(s, sh) && Named(s, sh, nm) && Wrote(s, sh, s', sh', n, off, data, ret)
    requires n < |s.inodes| && !IsDir(s, n) && n < |s.inodeMap| && s.inodeMap[n]
    ensures Named(s', sh', nm)
  {
    hide Geometry, Owned, Named, Spliced, FilledBy, IsDirMode, Grown;
    GrownNamed(s, sh, s', sh', n, nm);
  }

  lemma WroteInFull(s: Fs, sh: Shape, s': Fs, sh': Shape, n: nat, off: nat, data: seq<byte>, ret: int)
    requires Wrote(s, sh, s', sh', n, off, data, ret)
    ensures n < |s.inodes| == |s'.inodes| && 0 <= ret <= |data|
    ensures forall i: nat ::
              ByteAt(s', n, i) == if off <= i < off + ret then data[i - off] else ByteAt(s, n, i)
    ensures s'.inodes[n].uid == s.inodes[n].uid && s'.inodes[n].gid == s.inodes[n].gid
    ensures s'.inodes[n].mode == s.inodes[n].mode
    ensures s'.inodes[n].ctime == s.inodes[n].ctime && s'.inodes[n].mtime == s.inodes[n].mtime
    ensures forall m | 0 <= m < |s.inodes| && m != n :: s'.inodes[m] == s.inodes[m]
  {
    hide ByteAt, FilledBy, Free, Cost;
  }

  /** fs_write on what the path leads to.  A directory is written like a file, and
      its slots then hold the tree of names exactly if KeepsNames; without an inode
      the C code would index the table with an error code. */
  method Write(v: Volume, path: seq<byte>, data: seq<byte>, offset: nat) returns (ret: int)
    requires v.Valid() && Lookup(v.names.tree, path).Found? && |data| <= INT_MAX - FILE_1ST_LEVEL
    modifies v`shape, v.disk, v.blockMap, v.inodes
    ensures v.Sound()
    ensures var s, n := old(v.State()), Lookup(v.names.tree, path).inum;
            && n < |s.inodes|
            && (v.Valid() <==>
                offset > s.inodes[n].size || IsFile(v.names, path) || KeepsNames(s, n, offset, data))
            && if offset > s.inodes[n].size then
                 ret == -EINVAL && v.State() == s && v.shape == old(v.shape)
               else
                 Wrote(s, old(v.shape), v.State(), v.shape, n, offset, data, ret)
    ensures var s, n := old(v.State()), Lookup(v.names.tree, path).inum;
            && n < |s.inodes| == v.inodes.Length
            && (offset <= s.inodes[n].size ==>
                  0 <= ret <= |data| && forall i: nat ::
                    ByteAt(v.State(), n, i) == if offset <= i < offset + ret then data[i - offset] else ByteAt(s, n, i))
            && v.inodes[n].uid == s.inodes[n].uid && v.inodes[n].gid == s.inodes[n].gid
            && v.inodes[n].mode == s.inodes[n].mode
            && v.inodes[n].ctime == s.inodes[n].ctime && v.inodes[n].mtime == s.inodes[n].mtime
            && forall m | 0 <= m < |s.inodes| && m != n :: v.inodes[m] == s.inodes[m]
  {
    hide Geometry, Owned, Coherent, Named, Wrote, Lookup, IsDirMode, IsRegMode, KeepsNames, ByteAt;
    ghost var s, sh, nm := v.State(), v.shape, v.names;
    ResolvedInode(s, sh, nm, path);
    var inum := Translate(v, path);
    ret := WriteInode(v, inum, data, offset);
    if offset <= s.inodes[inum].size {
      WroteInFull(s, sh, v.State(), v.shape, inum, offset, data, ret);
      if IsFile(nm, path) {
        WroteNamed(s, sh, v.State(), v.shape, inum, offset, data, ret, nm);
      } else {
        DirWriteIff(s, sh, v.State(), v.shape, nm, inum, offset, data, ret);
      }
    }
  }

  /** fs_read.  The offset counts as the C int it becomes. */
  method Read(v: Volume, path: seq<byte>, length: u64, offset: nat) returns (ret: int, out: seq<byte>)
    requires v.Valid() && (IsFile(v.names, path) ==> ToInt(offset) >= 0)
    ensures match Lookup(v.names.tree, path)
            case Found(n, isDir) =>
              && n < v.inodes.Length
              && (if isDir then ret == -EISDIR && out == []
                  else
                    var t, z := ToInt(offset), v.inodes[n].size;
                    && z >= 0 && ret == |out|
                    && |out| == (if t >= z || t + length >= SIZE_T_VALUES then 0
                                 else if length < z - t then length else z - t)
                    && forall i | 0 <= i < |out| :: out[i] == ByteAt(v.State(), n, t + i))
            case Missing => ret == -ENOENT && out == []
            case NotDir => ret == -ENOTDIR && out == []
  {
    hide Geometry, Owned, Coherent, Named, Lookup, ByteAt, IsRegMode, IsDirMode, ToInt;
    ghost var s, sh, nm := v.State(), v.shape, v.names;
    LookupOk(s, sh, nm, path);
    var inum := Translate(v, path);
    if inum == -ENOENT || inum == -ENOTDIR {
      return inum, [];
    }
    ResolvedInode(s, sh, nm, path);
    ret, out := ReadInode(v, inum, length, offset);
  }

  lemma TruncatedNamed(s: Fs, sh: Shape, s': Fs, sh': Shape, n: nat, nm: Names)
    requires Geometry(s) && Owned(s, sh) && Named(s, sh, nm) && Truncated(s, sh, s', sh', n)
    requires !IsDir(s, n) && n < |s.inodeMap| && s.inodeMap[n]
    ensures Named(s', sh', nm)
    ensures |s'.inodes| == |s.inodes|
    ensures forall d | 0 <= d < |s.inodes| && IsDir(s, d) :: DirOf(s', d) == DirOf(s, d)
  {
    hide At, Geometry, Owned, Named, DecodeDir, IsDirMode, Reached;
    NamedUse(s, sh, nm);
    forall d | 0 <= d < |s.inodes| && IsDir(s, d)
      ensures DirOf(s', d) == DirOf(s, d)
    {
      DirBlock(s, sh, d);
    }
    SameDirsNamed(s, sh, s', sh', nm);
  }

  lemma TruncatedInode(s: Fs, sh: Shape, s': Fs, sh': Shape, n: nat)
    requires Truncated(s, sh, s', sh', n)
    ensures n < |s.inodes| == |s'.inodes|
    ensures forall m | 0 <= m < |s.inodes| && m != n :: s'.inodes[m] == s.inodes[m]
    ensures s'.inodes[n] == s.inodes[n].(size := 0, direct := NO_DIRECT, indir1 := 0, indir2 := 0)
  {
    hide Reached;
  }

  /** The code of an operation that works on files only. */
  ghost function FileCode(nm: Names, path: seq<byte>): int {
    match Lookup(nm.tree, path)
    case Found(_, isDir) => if isDir then -EISDIR else 0
    case w => Code(w)
  }

  /** fs_truncate, which only knows length 0. */
  method Truncate(v: Volume, path: seq<byte>, len: nat) returns (ret: int)
    requires v.Valid()
    modifies v`shape, v.disk, v.blockMap, v.inodes
    ensures v.Valid()
    ensures ret == if len != 0 then -EINVAL else
                   match Lookup(v.names.tree, path)
                   case Found(_, isDir) => if isDir then -EISDIR else 0
                   case Missing => -ENOENT
                   case NotDir => -ENOTDIR
    ensures ret != 0 ==> v.State() == old(v.State()) && v.shape == old(v.shape)
    ensures ret == 0 ==>
              var n := Lookup(v.names.tree, path).inum;
              && Truncated(old(v.State()), old(v.shape), v.State(), v.shape, n)
              && n < |old(v.State()).inodes| == v.inodes.Length
              && (forall m | 0 <= m < v.inodes.Length && m != n :: v.inodes[m] == old(v.State()).inodes[m])
              && var was, ino := old(v.State()).inodes[n], v.inodes[n];
              && ino.uid == was.uid && ino.gid == was.gid && ino.mode == was.mode
              && ino.ctime == was.ctime && ino.mtime == was.mtime && ino.size == 0
              && (forall i | 0 <= i < N_DIRECT :: ino.direct[i] == 0) && ino.indir1 == 0 && ino.indir2 == 0
  {
    hide Geometry, Owned, Coherent, Named, Truncated, Lookup, IsDirMode, IsRegMode;
    ghost var s, sh, nm := v.State(), v.shape, v.names;
    if len != 0 {
      return -EINVAL;
    }
    LookupOk(s, sh, nm, path);
    var inum := Translate(v, path);
    if inum == -ENOENT || inum == -ENOTDIR {
      return inum;
    }
    ResolvedInode(s, sh, nm, path);
    if IsDirMode(v.inodes[inum].mode) {
      return -EISDIR;
    }
    TruncateInode(v, inum);
    TruncatedInode(s, sh, v.State(), v.shape, inum);
    TruncatedNamed(s, sh, v.State(), v.shape, inum, nm);
    return 0;
  }
}
