/** Writing the in-memory bitmaps and inodes through to their fixed regions of
    the device, and why the image then decodes to what is in memory. */
module Flush {
  import opened Codec
  import opened Image
  import opened Forest

  /** The device after update_bitmap. */
  ghost function FlushMaps(s: Fs): Fs
    requires Geometry(s)
  {
    s.(disk := seq(|s.disk|, b requires 0 <= b < |s.disk| => FlushedBlock(s, b)))
  }

  ghost function FlushedBlock(s: Fs, b: nat): Block
    requires Geometry(s) && b < |s.disk|
  {
    if 1 <= b < 1 + s.inodeMapSz then EncodeBits(s.inodeMap, b - 1)
    else if 1 + s.inodeMapSz <= b < 1 + s.inodeMapSz + s.blockMapSz then EncodeBits(s.blockMap, b - 1 - s.inodeMapSz)
    else s.disk[b]
  }

  /** The sixteen inodes that share a block with inode n. */
  function InodeGroup(s: Fs, n: nat): (g: seq<Inode>)
    requires Geometry(s) && n < |s.inodes|
    ensures |g| == INODES_PER_BLOCK
  {
    s.inodes[n - n % INODES_PER_BLOCK..n - n % INODES_PER_BLOCK + INODES_PER_BLOCK]
  }

  /** The device after update_inode(n). */
  ghost function FlushInode(s: Fs, n: nat): Fs
    requires Geometry(s) && n < |s.inodes|
  {
    s.(disk := s.disk[InodeBlock(s, n) := EncodeInodes(InodeGroup(s, n))])
  }

  lemma FlushMapsCoherent(s: Fs)
    requires Geometry(s)
    ensures Geometry(FlushMaps(s)) && MapsCoherent(FlushMaps(s))
  {
    hide Bit, EncodeBits;
    var s' := FlushMaps(s);
    forall i | 0 <= i < |s.inodeMap|
      ensures s.inodeMap[i] == Bit(s'.disk[1 + i / BITS_PER_BLOCK], i % BITS_PER_BLOCK)
    {
      BitsRoundTrip(s.inodeMap, i / BITS_PER_BLOCK, i % BITS_PER_BLOCK);
    }
    forall i | 0 <= i < |s.blockMap|
      ensures s.blockMap[i] == Bit(s'.disk[1 + s.inodeMapSz + i / BITS_PER_BLOCK], i % BITS_PER_BLOCK)
    {
      BitsRoundTrip(s.blockMap, i / BITS_PER_BLOCK, i % BITS_PER_BLOCK);
    }
  }

  lemma FlushMapsFrame(s: Fs)
    requires Geometry(s)
    ensures SameSizes(s, FlushMaps(s)) && FlushMaps(s).inodes == s.inodes
    ensures FlushMaps(s).inodeMap == s.inodeMap && FlushMaps(s).blockMap == s.blockMap
    ensures DataAgree(s, FlushMaps(s), {})
    ensures forall b | 0 <= b < |s.disk| && (b == 0 || b >= 1 + s.inodeMapSz + s.blockMapSz) ::
              FlushMaps(s).disk[b] == s.disk[b]
  {
    hide EncodeBits;
  }

  lemma InodeBlockRange(s: Fs, n: nat)
    requires Geometry(s) && n < |s.inodes|
    ensures 1 + s.inodeMapSz + s.blockMapSz <= InodeBlock(s, n) < DataStart(s) <= |s.disk|
  {
  }

  lemma InGroup(s: Fs, n: nat, m: nat)
    requires Geometry(s) && n < |s.inodes| && m < |s.inodes| && m / INODES_PER_BLOCK == n / INODES_PER_BLOCK
    ensures |InodeGroup(s, n)| == INODES_PER_BLOCK && InodeGroup(s, n)[m % INODES_PER_BLOCK] == s.inodes[m]
  {
    assert n - n % INODES_PER_BLOCK == m - m % INODES_PER_BLOCK;
  }

  lemma FlushInodeCoherent(s: Fs, n: nat)
    requires Geometry(s) && n < |s.inodes| && InodesCoherent(s, {n})
    ensures Geometry(FlushInode(s, n)) && InodesCoherent(FlushInode(s, n), {})
  {
    hide DecodeInode, EncodeInodes, Geometry, DataStart, InodeGroup;
    var s' := FlushInode(s, n);
    InodeBlockRange(s, n);
    SameGeometry(s, s');
    forall m | 0 <= m < |s.inodes|
      ensures InodeBlock(s, m) < |s'.disk|
      ensures s.inodes[m] == DecodeInode(s'.disk[InodeBlock(s, m)], m % INODES_PER_BLOCK)
    {
      InodeBlockRange(s, m);
      if m / INODES_PER_BLOCK == n / INODES_PER_BLOCK {
        InGroup(s, n, m);
        InodesRoundTrip(InodeGroup(s, n), m % INODES_PER_BLOCK);
      } else {
        assert InodeBlock(s, m) != InodeBlock(s, n);
      }
    }
  }

  /** The metadata regions of s and s' are the same, and so are the tables. */
  ghost predicate MetaAgree(s: Fs, s': Fs)
  {
    && SameSizes(s, s') && DataStart(s) <= |s.disk|
    && s'.inodeMap == s.inodeMap && s'.blockMap == s.blockMap && s'.inodes == s.inodes
    && forall b | 0 <= b < DataStart(s) :: s'.disk[b] == s.disk[b]
  }

  lemma MetaAgreeCoherent(s: Fs, s': Fs, dirty: set<nat>)
    requires Geometry(s) && MetaAgree(s, s')
    ensures Geometry(s')
    ensures SuperCoherent(s) ==> SuperCoherent(s')
    ensures MapsCoherent(s) ==> MapsCoherent(s')
    ensures InodesCoherent(s, dirty) ==> InodesCoherent(s', dirty)
  {
    hide Bit, DecodeInode, Word;
    SameGeometry(s, s');
    if InodesCoherent(s, dirty) {
      forall n | 0 <= n < |s.inodes| && n !in dirty
        ensures s'.inodes[n] == DecodeInode(s'.disk[InodeBlock(s', n)], n % INODES_PER_BLOCK)
      {
        InodeBlockRange(s, n);
      }
    }
  }

  /** update_bitmap makes the maps coherent and disturbs nothing else. */
  lemma FlushMapsKeeps(s: Fs, dirty: set<nat>)
    requires Geometry(s)
    ensures Geometry(FlushMaps(s))
    ensures SuperCoherent(s) ==> SuperCoherent(FlushMaps(s))
    ensures InodesCoherent(s, dirty) ==> InodesCoherent(FlushMaps(s), dirty)
  {
    hide Bit, DecodeInode, Word, EncodeBits;
    var s' := FlushMaps(s);
    FlushMapsFrame(s);
    SameGeometry(s, s');
    if InodesCoherent(s, dirty) {
      forall n | 0 <= n < |s.inodes| && n !in dirty
        ensures s'.inodes[n] == DecodeInode(s'.disk[InodeBlock(s', n)], n % INODES_PER_BLOCK)
      {
        InodeBlockRange(s, n);
      }
    }
  }

  /** update_inode leaves the superblock and the maps alone. */
  lemma FlushInodeKeeps(s: Fs, n: nat)
    requires Geometry(s) && n < |s.inodes|
    ensures Geometry(FlushInode(s, n)) && SameSizes(s, FlushInode(s, n)) && FlushInode(s, n).inodes == s.inodes
    ensures FlushInode(s, n).inodeMap == s.inodeMap && FlushInode(s, n).blockMap == s.blockMap
    ensures SuperCoherent(s) ==> SuperCoherent(FlushInode(s, n))
    ensures MapsCoherent(s) ==> MapsCoherent(FlushInode(s, n))
    ensures forall b | DataStart(s) <= b < |s.disk| :: FlushInode(s, n).disk[b] == s.disk[b]
  {
    hide Bit, EncodeInodes, Word;
    InodeBlockRange(s, n);
    SameGeometry(s, FlushInode(s, n));
  }

  // --------------------------------------------------------------- loading

  /** The bitmap in n blocks from `first` on. */
  function LoadedBits(disk: seq<Block>, first: nat, n: nat): seq<bool>
    requires first + n <= |disk|
  {
    seq<bool>(n * BITS_PER_BLOCK, i requires 0 <= i < n * BITS_PER_BLOCK =>
      Bit(disk[first + i / BITS_PER_BLOCK], i % BITS_PER_BLOCK))
  }

  function LoadedInodes(disk: seq<Block>, first: nat, n: nat): seq<Inode>
    requires first + n <= |disk|
  {
    seq<Inode>(n * INODES_PER_BLOCK, i requires 0 <= i < n * INODES_PER_BLOCK =>
      DecodeInode(disk[first + i / INODES_PER_BLOCK], i % INODES_PER_BLOCK))
  }

  /** The regions described by the superblock lie on the device. */
  predicate Loadable(disk: seq<Block>) {
    disk != [] && 1 + Word(disk[0], 1) + Word(disk[0], 3) + Word(disk[0], 2) <= |disk|
  }

  /** What fs_init loads from an image. */
  function Loaded(disk: seq<Block>): Fs
    requires Loadable(disk)
  {
    var ims: nat, irs: nat, bms: nat := Word(disk[0], 1), Word(disk[0], 2), Word(disk[0], 3);
    Fs(ims, bms, Word(disk[0], 4), disk,
       LoadedBits(disk, 1, ims), LoadedBits(disk, 1 + ims, bms), LoadedInodes(disk, 1 + ims + bms, irs))
  }

  /** What that is: the sizes in words 1 to 4 of block 0, and after it the inode
      map, the block map and the inodes. */
  lemma LoadedInFull(disk: seq<Block>, i: nat)
    requires Loadable(disk)
    ensures disk != []
    ensures var s, imaps, regions, bmaps := Loaded(disk), Word(disk[0], 1), Word(disk[0], 2), Word(disk[0], 3);
            && s.disk == disk && s.inodeMapSz == imaps && s.blockMapSz == bmaps && s.numBlocks == Word(disk[0], 4)
            && |s.inodeMap| == 8192 * imaps && |s.blockMap| == 8192 * bmaps && |s.inodes| == 16 * regions
            && 1 + imaps + bmaps + regions <= |disk|
            && (i < |s.inodeMap| ==> s.inodeMap[i] == Bit(disk[1 + i / 8192], i % 8192))
            && (i < |s.blockMap| ==> s.blockMap[i] == Bit(disk[1 + imaps + i / 8192], i % 8192))
            && (i < |s.inodes| ==> s.inodes[i] == DecodeInode(disk[1 + imaps + bmaps + i / 16], i % 16))
  {
    hide Bit, DecodeInode, Word;
  }

  /** Loading the image of a coherent state gives that state back: the fs_init
      inside fs_getattr changes nothing. */
  lemma ReloadSame(s: Fs)
    requires Geometry(s) && Coherent(s)
    ensures Loadable(s.disk) && Loaded(s.disk) == s
  {
    hide Bit, DecodeInode, Word;
    assert LoadedBits(s.disk, 1, s.inodeMapSz) == s.inodeMap;
    assert LoadedBits(s.disk, 1 + s.inodeMapSz, s.blockMapSz) == s.blockMap;
    assert LoadedInodes(s.disk, 1 + s.inodeMapSz + s.blockMapSz, |s.inodes| / INODES_PER_BLOCK) == s.inodes;
  }

  lemma LoadedCoherent(disk: seq<Block>)
    requires Loadable(disk) && Geometry(Loaded(disk))
    ensures Coherent(Loaded(disk))
  {
    hide Bit, DecodeInode, Word;
  }
}
