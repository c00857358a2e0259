/** The mounted volume of homework.c: the block device of image.c and the
    globals that fs_init fills.  The methods are the ones every operation is
    made of; each states its effect on the whole state. */
module Volumes {
  import opened Codec
  import opened Image
  import opened Flush
  import opened Namespace

  class Volume {
    const inodeMapSz: nat
    const blockMapSz: nat
    const numBlocks: nat
    const disk: array<Block>
    const inodeMap: array<bool>
    const blockMap: array<bool>
    const inodes: array<Inode>

    ghost var shape: Shape  // who owns which block
    ghost var names: Names  // the directory tree

    ghost function State(): Fs
      reads disk, inodeMap, blockMap, inodes
    {
      Fs(inodeMapSz, blockMapSz, numBlocks, disk[..], inodeMap[..], blockMap[..], inodes[..])
    }

    /** The bitmaps are two buffers of the right sizes, as fs_init allocates them. */
    ghost predicate Laid()
      reads disk, inodeMap, blockMap, inodes
    {
      inodeMap != blockMap && Geometry(State())
    }

    /** What holds between operations, directories aside. */
    ghost predicate Sound()
      reads this, disk, inodeMap, blockMap, inodes
    {
      Laid() && Owned(State(), shape) && Coherent(State())
    }

    /** The invariant of a mounted volume. */
    ghost predicate Valid()
      reads this, disk, inodeMap, blockMap, inodes
    {
      Sound() && Named(State(), shape, names)
    }

    /** fs_init: the maps and the inodes are loaded from the regions that the
        superblock describes.  The ghost arguments say what the image holds. */
    constructor Mount(d: array<Block>, ghost sh: Shape, ghost nm: Names)
      requires Loadable(d[..])
      ensures disk == d && State() == Loaded(d[..]) && shape == sh && names == nm
      ensures fresh(inodeMap) && fresh(blockMap) && fresh(inodes) && inodeMap != blockMap
    {
      hide Bit, DecodeInode, Word, LoadedBits, LoadedInodes;
      var image := d[..];
      var ims: nat, irs: nat, bms: nat := Word(d[0], 1), Word(d[0], 2), Word(d[0], 3);
      var im, bm := LoadedBits(image, 1, ims), LoadedBits(image, 1 + ims, bms);
      var inos := LoadedInodes(image, 1 + ims + bms, irs);
      inodeMapSz, blockMapSz, numBlocks := ims, bms, Word(d[0], 4);
      disk := d;
      inodeMap := new bool[|im|](i requires 0 <= i < |im| => im[i]);
      blockMap := new bool[|bm|](i requires 0 <= i < |bm| => bm[i]);
      inodes := new Inode[|inos|](i requires 0 <= i < |inos| => inos[i]);
      shape, names := sh, nm;
      new;
      assert inodeMap[..] == im && blockMap[..] == bm && inodes[..] == inos;
    }

    /** fs_init on a volume that is mounted already, as fs_getattr calls it. */
    method Reload()
      requires Laid() && Coherent(State())
      modifies inodeMap, blockMap, inodes
      ensures State() == old(State())
    {
      hide Bit, DecodeInode, Word, Geometry, Coherent, LoadedBits, LoadedInodes;
      ghost var s := State();
      ReloadSame(s);
      var image := disk[..];
      var ims: nat, irs: nat, bms: nat := Word(disk[0], 1), Word(disk[0], 2), Word(disk[0], 3);
      var im, bm := LoadedBits(image, 1, ims), LoadedBits(image, 1 + ims, bms);
      var inos := LoadedInodes(image, 1 + ims + bms, irs);
      forall i | 0 <= i < inodeMap.Length {
        inodeMap[i] := im[i];
      }
      forall i | 0 <= i < blockMap.Length {
        blockMap[i] := bm[i];
      }
      forall i | 0 <= i < inodes.Length {
        inodes[i] := inos[i];
      }
      assert inodeMap[..] == im && blockMap[..] == bm && inodes[..] == inos;
    }

    // -------------------------------------------------- device (image.c)

    method ReadBlock(b: nat) returns (blk: Block)
      requires b < disk.Length
      ensures blk == State().disk[b]
    {
      blk := disk[b];
    }

    method WriteBlock(b: nat, blk: Block)
      requires 0 < b < disk.Length
      modifies disk
      ensures State() == old(State()).(disk := old(State()).disk[b := blk])
    {
      disk[b] := blk;
    }

    /** A transfer of several blocks from a buffer. */
    method WriteBlocks(first: nat, blks: seq<Block>)
      requires 0 < first && first + |blks| <= disk.Length
      modifies disk
      ensures State() == old(State()).(disk := disk[..])
      ensures forall b | 0 <= b < disk.Length ::
                disk[b] == if first <= b < first + |blks| then blks[b - first] else old(disk[b])
    {
      forall b | first <= b < first + |blks| {
        disk[b] := blks[b - first];
      }
    }

    // ------------------------------------------------- bitmaps and inodes

    method MarkBlock(b: nat)
      requires Laid() && b < blockMap.Length
      modifies blockMap
      ensures State() == old(State()).(blockMap := old(State()).blockMap[b := true])
    {
      blockMap[b] := true;
    }

    method ClearBlock(b: nat)
      requires Laid() && b < blockMap.Length
      modifies blockMap
      ensures State() == old(State()).(blockMap := old(State()).blockMap[b := false])
    {
      blockMap[b] := false;
    }

    method MarkInode(n: nat)
      requires Laid() && n < inodeMap.Length
      modifies inodeMap
      ensures State() == old(State()).(inodeMap := old(State()).inodeMap[n := true])
    {
      inodeMap[n] := true;
    }

    method ClearInode(n: nat)
      requires Laid() && n < inodeMap.Length
      modifies inodeMap
      ensures State() == old(State()).(inodeMap := old(State()).inodeMap[n := false])
    {
      inodeMap[n] := false;
    }

    method SetInode(n: nat, ino: Inode)
      requires n < inodes.Length
      modifies inodes
      ensures State() == old(State()).(inodes := old(State()).inodes[n := ino])
    {
      inodes[n] := ino;
    }

    /** update_bitmap: both maps to the device. */
    method UpdateBitmap()
      requires Laid()
      modifies disk
      ensures State() == FlushMaps(old(State()))
    {
      hide EncodeBits;
      ghost var s := State();
      var im, bm := inodeMap[..], blockMap[..];
      WriteBlocks(1, seq<Block>(inodeMapSz, i requires 0 <= i < inodeMapSz => EncodeBits(im, i)));
      WriteBlocks(1 + inodeMapSz, seq<Block>(blockMapSz, i requires 0 <= i < blockMapSz => EncodeBits(bm, i)));
      assert disk[..] == FlushMaps(s).disk;
    }

    /** update_inode: the block that holds inode inum to the device. */
    method UpdateInode(inum: nat)
      requires Laid() && inum < inodes.Length
      modifies disk
      ensures State() == FlushInode(old(State()), inum)
    {
      hide EncodeInodes;
      InodeBlockRange(State(), inum);
      var offset := 1 + inodeMapSz + blockMapSz + inum / INODES_PER_BLOCK;
      var group := inodes[inum - inum % INODES_PER_BLOCK..inum - inum % INODES_PER_BLOCK + INODES_PER_BLOCK];
      assert group == InodeGroup(State(), inum);
      WriteBlock(offset, EncodeInodes(group));
    }

    // ---------------------------------------------------------- allocator

    /** find_free_block_number: the first free block, zeroed. */
    method FindFreeBlock() returns (blk: int)
      requires Laid() && State().blockMap[0]
      modifies disk
      ensures blk < 0 ==> blk == -ENOSPC && State() == old(State()) && Free(State()) == 0
      ensures blk >= 0 ==> 0 < blk < Cap(State()) && !State().blockMap[blk]
      ensures blk >= 0 ==> forall b | 0 <= b < blk :: State().blockMap[b]
      ensures blk >= 0 ==> State() == old(State()).(disk := old(State()).disk[blk as nat := ZeroBlock()])
    {
      hide ZeroBlock;
      var i := 0;
      while i < blockMapSz * BLOCK_SIZE * 8 && i < numBlocks
        invariant 0 <= i <= Cap(State())
        invariant State() == old(State())
        invariant forall b | 0 <= b < i :: blockMap[b]
      {
        if !blockMap[i] {
          WriteBlock(i, ZeroBlock());
          return i;
        }
        i := i + 1;
      }
      FreeCountZero(State().blockMap, Cap(State()));
      return -ENOSPC;
    }
  }
}
