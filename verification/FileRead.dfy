/** fs_read and its three levels: what they copy out is the stored bytes, in
    order and without a gap. */
module FileRead {
  import opened Codec
  import opened Image
  import opened Forest
  import opened Volumes
  import opened FileWrite

  /** Bytes off .. off + len of file n. */
  function Run(s: Fs, n: nat, off: nat, len: nat): (r: seq<byte>)
    ensures |r| == len
  {
    seq<byte>(len, i requires 0 <= i < len => ByteAt(s, n, off + i))
  }

  lemma RunConcat(s: Fs, n: nat, off: nat, a: nat, b: nat)
    ensures Run(s, n, off, a) + Run(s, n, off + a, b) == Run(s, n, off, a + b)
  {
    hide ByteAt;
  }

  lemma RunInBlock(s: Fs, sh: Shape, n: nat, k: nat, o: nat, len: nat)
    requires Geometry(s) && Owned(s, sh) && o + len <= BLOCK_SIZE && At(s, Data(n, k)) != 0
    ensures At(s, Data(n, k)) < |s.disk|
    ensures Run(s, n, BLOCK_SIZE * k + o, len) == s.disk[At(s, Data(n, k))][o..o + len]
  {
    hide At, Present, Extents;
    var b := At(s, Data(n, k));
    assert b in sh.owner;
    var r, c := Run(s, n, BLOCK_SIZE * k + o, len), s.disk[b][o..o + len];
    forall i | 0 <= i < len
      ensures r[i] == c[i]
    {
      assert r[i] == ByteAt(s, n, BLOCK_SIZE * k + o + i);
      BlockSplit(k, o + i);
    }
  }

  /** fs_read_block */
  method ReadBytes(v: Volume, blknum: nat, o: nat, len: nat, ghost n: nat, ghost k: nat) returns (out: seq<byte>)
    requires v.Sound() && o + len <= BLOCK_SIZE && blknum == At(v.State(), Data(n, k)) && blknum > 0
    ensures out == Run(v.State(), n, BLOCK_SIZE * k + o, len)
  {
    hide At, Owned, Geometry, Coherent, Run;
    RunInBlock(v.State(), v.shape, n, k, o, len);
    var blk := v.ReadBlock(blknum);
    out := blk[o..o + len];
  }

  method ReadLevel1(v: Volume, inum: nat, offset: nat, len: nat) returns (readLength: nat, out: seq<byte>)
    requires v.Sound() && inum < v.inodes.Length && offset < FILE_IN_INODE
    requires offset + len <= BLOCK_SIZE * v.shape.extent[inum].blocks
    ensures readLength == (if offset + len <= FILE_IN_INODE then len else FILE_IN_INODE - offset)
    ensures out == Run(v.State(), inum, offset, readLength)
  {
    hide Geometry, Owned, Coherent, At, Run, Next;
    ghost var s, sh := v.State(), v.shape;
    DirectSlot(s, sh, inum, 0);
    readLength, out := 0, [];
    var blockDirect := offset / BLOCK_SIZE;
    var tempLen: int := len;
    var inBlkOffset: nat := offset % BLOCK_SIZE;
    while blockDirect < N_DIRECT && tempLen > 0
      invariant 0 <= tempLen == len - readLength && out == Run(s, inum, offset, readLength)
      invariant tempLen > 0 ==> BLOCK_SIZE * blockDirect + inBlkOffset == offset + readLength
      invariant inBlkOffset < BLOCK_SIZE
      invariant blockDirect <= N_DIRECT && offset + readLength <= FILE_IN_INODE
      decreases N_DIRECT - blockDirect
    {
      var inBlkLen: nat;
      if tempLen + inBlkOffset > BLOCK_SIZE {
        inBlkLen := BLOCK_SIZE - inBlkOffset;
        tempLen := tempLen - inBlkLen;
      } else {
        inBlkLen := tempLen;
        tempLen := 0;
      }
      DirectSlot(s, sh, inum, blockDirect);
      if v.inodes[inum].direct[blockDirect] == 0 {
        break;
      }
      var piece := ReadBytes(v, v.inodes[inum].direct[blockDirect], inBlkOffset, inBlkLen, inum, blockDirect);
      RunConcat(s, inum, offset, readLength, inBlkLen);
      out := out + piece;
      readLength := readLength + inBlkLen;
      inBlkOffset, blockDirect := 0, blockDirect + 1;
    }
  }

  /** With len == 0 the root may be missing: the loop does not look at it. */
  method ReadLevel2(v: Volume, root: nat, offset: nat, len: nat, ghost n: nat, ghost base: nat)
    returns (readLength: nat, out: seq<byte>)
    requires v.Sound() && n < v.inodes.Length && IsBase(base)
    requires root == At(v.State(), RootPos(n, base)) && (len > 0 ==> root != 0)
    requires FILE_IN_INODE <= offset < LEVEL3_START
    requires len > 0 ==> BLOCK_SIZE * base + offset - FILE_IN_INODE + len <= BLOCK_SIZE * v.shape.extent[n].blocks
    ensures readLength == (if offset + len <= LEVEL3_START then len else LEVEL3_START - offset)
    ensures out == Run(v.State(), n, BLOCK_SIZE * base + offset - FILE_IN_INODE, readLength)
  {
    hide Geometry, Owned, Coherent, At, Run, Next, Word, RootPos, IsBase;
    ghost var s, sh := v.State(), v.shape;
    ghost var start := BLOCK_SIZE * base + offset - FILE_IN_INODE;
    OwnedOnDisk(s, sh, RootPos(n, base));
    readLength, out := 0, [];
    var h1tOffset := offset - FILE_IN_INODE;
    var blockDirect := h1tOffset / BLOCK_SIZE;
    var tempLen: int := len;
    var inBlkOffset: nat := h1tOffset % BLOCK_SIZE;
    var rootBlk := v.ReadBlock(root);
    var h1tBlk := DecodeWords(rootBlk);
    while blockDirect < WORDS_PER_BLOCK && tempLen > 0
      invariant 0 <= tempLen == len - readLength && out == Run(s, n, start, readLength)
      invariant tempLen > 0 ==> BLOCK_SIZE * blockDirect + inBlkOffset == h1tOffset + readLength
      invariant inBlkOffset < BLOCK_SIZE
      invariant blockDirect <= WORDS_PER_BLOCK && offset + readLength <= LEVEL3_START
      decreases WORDS_PER_BLOCK - blockDirect
    {
      var inBlkLen: nat;
      if tempLen + inBlkOffset > BLOCK_SIZE {
        inBlkLen := BLOCK_SIZE - inBlkOffset;
        tempLen := tempLen - inBlkLen;
      } else {
        inBlkLen := tempLen;
        tempLen := 0;
      }
      WordSlot(s, sh, n, base, root, blockDirect);
      if h1tBlk[blockDirect] == 0 {
        break;
      }
      var piece := ReadBytes(v, h1tBlk[blockDirect], inBlkOffset, inBlkLen, n, base + blockDirect);
      RunConcat(s, n, start, readLength, inBlkLen);
      out := out + piece;
      readLength := readLength + inBlkLen;
      inBlkOffset, blockDirect := 0, blockDirect + 1;
    }
  }

  /** The loop adds inBlkLen whatever the inner call returns. */
  method ReadLevel3(v: Volume, root: nat, offset: nat, len: nat, ghost n: nat) returns (readLength: nat, out: seq<byte>)
    requires v.Sound() && n < v.inodes.Length
    requires root == At(v.State(), Root2(n)) && (len > 0 ==> root != 0)
    requires LEVEL3_START <= offset && offset + len <= MAX_FILE
    requires len > 0 ==> offset + len <= BLOCK_SIZE * v.shape.extent[n].blocks
    ensures readLength == len && out == Run(v.State(), n, offset, len)
  {
    hide Geometry, Owned, Coherent, At, Run, Next, Word, RootPos, IsBase;
    ghost var s, sh := v.State(), v.shape;
    OwnedOnDisk(s, sh, Root2(n));
    readLength, out := 0, [];
    var h2tOffset := offset - FILE_1ST_LEVEL - FILE_IN_INODE;
    var blockDirect := h2tOffset / FILE_1ST_LEVEL;
    var tempLen: int := len;
    var inBlkOffset: nat := h2tOffset % FILE_1ST_LEVEL;
    var rootBlk := v.ReadBlock(root);
    var h2tBlk := DecodeWords(rootBlk);
    while blockDirect < WORDS_PER_BLOCK && tempLen > 0
      invariant 0 <= tempLen == len - readLength && out == Run(s, n, offset, readLength)
      invariant tempLen > 0 ==> FILE_1ST_LEVEL * blockDirect + inBlkOffset == h2tOffset + readLength
      invariant inBlkOffset < FILE_1ST_LEVEL
      decreases WORDS_PER_BLOCK - blockDirect
    {
      var inBlkLen: nat;
      if tempLen + inBlkOffset > FILE_1ST_LEVEL {
        inBlkLen := FILE_1ST_LEVEL - inBlkOffset;
        tempLen := tempLen - inBlkLen;
      } else {
        inBlkLen := tempLen;
        tempLen := 0;
      }
      LeafSlot(s, sh, n, root, blockDirect);
      var innerLength, piece := ReadLevel2(v, h2tBlk[blockDirect], inBlkOffset + FILE_IN_INODE, inBlkLen, n,
                                           IND2_FIRST + WORDS_PER_BLOCK * blockDirect);
      RunConcat(s, n, offset, readLength, inBlkLen);
      out := out + piece;
      readLength := readLength + inBlkLen;
      inBlkOffset, blockDirect := 0, blockDirect + 1;
    }
  }

  /** The three reads of fs_read, one per range of the file. */
  method ReadStored(v: Volume, inum: nat, offset: nat, len: nat) returns (ret: nat, out: seq<byte>)
    requires v.Sound() && inum < v.inodes.Length && offset + len <= v.inodes[inum].size
    ensures ret == len && out == Run(v.State(), inum, offset, len)
  {
    hide Geometry, Owned, Coherent, At, Run, ByteAt, IsBase, Compact, Word;
    ghost var s, sh := v.State(), v.shape;
    RootFacts(s, sh, inum);
    SizeInRange(sh.extent[inum]);
    RootsNeeded(sh.extent[inum]);
    FirstBase();
    var tmpOffset, tmpLen := offset, len;
    out := [];
    var readLen, piece;
    if tmpOffset < FILE_IN_INODE {
      readLen, piece := ReadLevel1(v, inum, tmpOffset, tmpLen);
      tmpOffset, tmpLen, out := tmpOffset + readLen, tmpLen - readLen, piece;
    }
    assert out == Run(s, inum, offset, tmpOffset - offset);
    if FILE_IN_INODE <= tmpOffset < LEVEL3_START {
      readLen, piece := ReadLevel2(v, v.inodes[inum].indir1, tmpOffset, tmpLen, inum, IND1_FIRST);
      RunConcat(s, inum, offset, tmpOffset - offset, readLen);
      tmpOffset, tmpLen, out := tmpOffset + readLen, tmpLen - readLen, out + piece;
    }
    assert out == Run(s, inum, offset, tmpOffset - offset);
    if LEVEL3_START <= tmpOffset <= MAX_FILE {
      readLen, piece := ReadLevel3(v, v.inodes[inum].indir2, tmpOffset, tmpLen, inum);
      RunConcat(s, inum, offset, tmpOffset - offset, readLen);
      tmpOffset, tmpLen, out := tmpOffset + readLen, tmpLen - readLen, out + piece;
    }
    return tmpOffset - offset, out;
  }

  /** The conversion of a long number to a C int. */
  function ToInt(x: int): (r: i32)
    ensures 0 <= x <= INT_MAX ==> r == x
    ensures (r - x) % 0x1_0000_0000 == 0
  {
    var m := x % 0x1_0000_0000;
    assert x == 0x1_0000_0000 * (x / 0x1_0000_0000) + m;
    if m <= INT_MAX then m else m - 0x1_0000_0000
  }

  /** Converting once more after the difference was taken loses nothing. */
  lemma ToIntBack(x: nat, n: nat)
    requires n <= INT_MAX
    ensures ToInt(ToInt(x) + n - x) == n
  {
    var q, m := x / 0x1_0000_0000, x % 0x1_0000_0000;
    assert x == 0x1_0000_0000 * q + m;
    var d := ToInt(x) + n - x;
    var k := if m <= INT_MAX then q else q + 1;
    assert d == n + 0x1_0000_0000 * -k;
    WholeTurns(n, -k);
  }

  lemma WholeTurns(n: nat, k: int)
    requires n < 0x1_0000_0000
    ensures (n + 0x1_0000_0000 * k) % 0x1_0000_0000 == n
  {
  }

  const SIZE_T_VALUES: nat := 0x1_0000_0000_0000_0000

  /** fs_read once the path is resolved: the count and the bytes copied out.  The
      offset becomes a C int before it is compared with the size.  A negative one
      is taken for slot 0, down to -1023, and bytes before the block's would be
      copied out; below that the slot itself is negative.  The sum with the length
      is one of size_t, and what is left of the length becomes a C int. */
  method ReadInode(v: Volume, inum: nat, length: u64, offset: nat) returns (ret: int, out: seq<byte>)
    requires v.Sound() && inum < v.inodes.Length
    requires IsRegMode(v.inodes[inum].mode) ==> ToInt(offset) >= 0
    ensures !IsRegMode(v.inodes[inum].mode) ==> ret == -EISDIR && out == []
    ensures IsRegMode(v.inodes[inum].mode) ==>
              var t, z := ToInt(offset), v.inodes[inum].size;
              && z >= 0 && ret == |out|
              && |out| == (if t >= z || t + length >= SIZE_T_VALUES then 0
                           else if length < z - t then length else z - t)
              && forall i | 0 <= i < |out| :: out[i] == ByteAt(v.State(), inum, t + i)
  {
    hide Geometry, Owned, Coherent, ByteAt, ToInt;
    ghost var s, sh := v.State(), v.shape;
    RootFacts(s, sh, inum);
    var tmpOffset := ToInt(offset);
    if !IsRegMode(v.inodes[inum].mode) {
      return -EISDIR, [];
    }
    var size := v.inodes[inum].size;
    if tmpOffset >= size {
      return 0, [];
    }
    var len := length;
    WrappedLength(tmpOffset, len);
    if (tmpOffset + len) % SIZE_T_VALUES > size {
      len := size - tmpOffset;
    }
    var tmpLen := ToInt(len);
    if tmpLen < 0 {
      // No loop of the three levels runs.
      ToIntBack(offset, 0);
      return ToInt(tmpOffset - offset), [];
    }
    var readLen;
    readLen, out := ReadStored(v, inum, tmpOffset, tmpLen);
    ToIntBack(offset, readLen);
    ret := ToInt(tmpOffset + readLen - offset);
  }

  /** A sum that wraps is smaller than the offset, and the length a negative int. */
  lemma WrappedLength(t: nat, len: u64)
    requires t <= INT_MAX
    ensures (t + len) % SIZE_T_VALUES == if t + len < SIZE_T_VALUES then t + len else t + len - SIZE_T_VALUES
    ensures t + len >= SIZE_T_VALUES ==> ToInt(len) < 0
  {
    if t + len >= SIZE_T_VALUES {
      WholeTurns(len - SIZE_T_VALUES + 0x1_0000_0000, 0x1_0000_0000 - 1);
    }
  }

  /** A read delivers the content from the offset on, and nothing beyond its end,
      exactly if the offset fits a C int and its sum with the length a size_t, or
      what the offset becomes lies at or beyond the end, or nothing was asked for;
      if neither fits, the two faults make up for each other.  Here out is what a
      file with the content c delivers. */
  lemma ReadKeepsPromise(c: seq<byte>, offset: nat, length: u64, out: seq<byte>)
    requires |c| <= INT_MAX && ToInt(offset) >= 0
    requires var t, z := ToInt(offset), |c|;
             && |out| == (if t >= z || t + length >= SIZE_T_VALUES then 0 else if length < z - t then length else z - t)
             && forall i | 0 <= i < |out| :: out[i] == c[t + i]
    ensures out == (if offset >= |c| then [] else if offset + length > |c| then c[offset..]
                    else c[offset..offset + length])
            <==> (offset <= INT_MAX <==> ToInt(offset) + length < SIZE_T_VALUES)
                 || ToInt(offset) >= |c| || length == 0
  {
    hide ToInt;
    SmallToInt(offset);
  }

  lemma SmallToInt(x: nat)
    ensures x <= INT_MAX ==> ToInt(x) == x
  {
  }
}
