/** The on-disk formats: 1024-byte blocks seen as 32-bit words, bitmaps,
    inodes and directory entries (fs5600.h).  Every block of the device is a
    plain sequence of bytes; what a block means depends only on who reads it.
    Each format comes with the proof that reading back what was written is the
    identity, and that the zeroed block reads as "nothing" in every format. */
module Codec {

  const BLOCK_SIZE: nat := 1024
  const WORDS_PER_BLOCK: nat := 256
  const BITS_PER_BLOCK: nat := 8192
  const INODES_PER_BLOCK: nat := 16
  const DIRENTS_PER_BLOCK: nat := 32
  const NAME_FIELD: nat := 28
  const N_DIRECT: nat := 6

  type byte = x: int | 0 <= x < 256
  type u16 = x: int | 0 <= x < 0x1_0000
  type u32 = x: int | 0 <= x < 0x1_0000_0000
  type u64 = x: int | 0 <= x < 0x1_0000_0000_0000_0000
  type u30 = x: int | 0 <= x < 0x4000_0000
  type i32 = x: int | -0x8000_0000 <= x < 0x8000_0000

  type Block = b: seq<byte> | |b| == BLOCK_SIZE witness seq(BLOCK_SIZE, _ => 0)
  type Words = w: seq<u32> | |w| == WORDS_PER_BLOCK witness seq(WORDS_PER_BLOCK, _ => 0)

  /** What calloc hands out. */
  function ZeroBlock(): (b: Block)
    ensures forall i | 0 <= i < BLOCK_SIZE :: b[i] == 0
  {
    seq(BLOCK_SIZE, _ => 0)
  }

  // ---------------------------------------------------------------- words

  /** The little-endian 32-bit word with index j of a block. */
  function Word(b: Block, j: nat): u32
    requires j < WORDS_PER_BLOCK
  {
    b[4 * j] as int + 0x100 * b[4 * j + 1] as int + 0x1_0000 * b[4 * j + 2] as int + 0x100_0000 * b[4 * j + 3] as int
  }

  /** A block read into `int blk[256]`. */
  function DecodeWords(b: Block): (w: Words)
  {
    seq(WORDS_PER_BLOCK, j requires 0 <= j < WORDS_PER_BLOCK => Word(b, j))
  }

  /** The number in the four bytes from o on, lowest first. */
  function Four(b: Block, o: nat): int
    requires o + 4 <= BLOCK_SIZE
  {
    b[o] + 0x100 * b[o + 1] as int + 0x1_0000 * b[o + 2] as int + 0x100_0000 * b[o + 3] as int
  }

  function ByteOf(x: u32, k: nat): byte
    requires k < 4
  {
    match k
    case 0 => x % 0x100
    case 1 => (x / 0x100) % 0x100
    case 2 => (x / 0x100 / 0x100) % 0x100
    case _ => x / 0x100 / 0x100 / 0x100
  }

  /** `int blk[256]` written out as a block. */
  function EncodeWords(w: Words): Block
  {
    seq(BLOCK_SIZE, i requires 0 <= i < BLOCK_SIZE => ByteOf(w[i / 4], i % 4))
  }

  lemma WordsRoundTrip(w: Words)
    ensures DecodeWords(EncodeWords(w)) == w
  {
    var b := EncodeWords(w);
    forall j | 0 <= j < WORDS_PER_BLOCK
      ensures Word(b, j) == w[j]
    {
      assert (4 * j) / 4 == j && (4 * j + 1) / 4 == j && (4 * j + 2) / 4 == j && (4 * j + 3) / 4 == j;
      BytesOfWord(w[j]);
    }
  }

  lemma BytesOfWord(x: u32)
    ensures ByteOf(x, 0) as int + 0x100 * ByteOf(x, 1) as int + 0x1_0000 * ByteOf(x, 2) as int
            + 0x100_0000 * ByteOf(x, 3) as int == x
  {
  }

  lemma ZeroWords(j: nat)
    requires j < WORDS_PER_BLOCK
    ensures Word(ZeroBlock(), j) == 0
  {
  }

  // -------------------------------------------------------------- bitmaps

  predicate BitOf(x: nat, k: nat)
  {
    if k == 0 then x % 2 == 1 else BitOf(x / 2, k - 1)
  }

  /** FD_ISSET on the t-th bit of a bitmap block. */
  predicate Bit(b: Block, t: nat)
    requires t < BITS_PER_BLOCK
  {
    BitOf(b[t / 8], t % 8)
  }

  /** Bit t of a bitmap is bit t % 8 of byte t / 8, counted from the low end. */
  lemma BitLayout(b: Block, t: nat)
    requires t < BITS_PER_BLOCK
    ensures Bit(b, t) <==> (b[t / 8] / [1, 2, 4, 8, 16, 32, 64, 128][t % 8]) % 2 == 1
  {
    BitOfByte(b[t / 8], t % 8);
  }

  lemma {:induction false} BitOfByte(x: nat, k: nat)
    requires k < 8
    ensures BitOf(x, k) <==> (x / [1, 2, 4, 8, 16, 32, 64, 128][k]) % 2 == 1
  {
    if k > 0 {
      BitOfByte(x / 2, k - 1);
      Halved(x, k);
    }
  }

  lemma Halved(x: nat, k: nat)
    requires 0 < k < 8
    ensures x / 2 / [1, 2, 4, 8, 16, 32, 64, 128][k - 1] == x / [1, 2, 4, 8, 16, 32, 64, 128][k]
  {
    assert x / 2 / 1 == x / 2 && x / 2 / 2 == x / 4 && x / 2 / 4 == x / 8 && x / 2 / 8 == x / 16;
    assert x / 2 / 16 == x / 32 && x / 2 / 32 == x / 64 && x / 2 / 64 == x / 128;
  }

  function B(x: bool): nat
  {
    if x then 1 else 0
  }

  function Pow2(n: nat): nat
  {
    if n == 0 then 1 else 2 * Pow2(n - 1)
  }

  /** The number whose n low bits are m[o], ..., m[o + n - 1], lowest bit first. */
  function PackBits(m: seq<bool>, o: nat, n: nat): (x: nat)
    requires o + n <= |m|
    ensures x < Pow2(n)
    decreases n
  {
    if n == 0 then 0 else B(m[o]) + 2 * PackBits(m, o + 1, n - 1)
  }

  function PackByte(m: seq<bool>, o: nat): byte
    requires o + 8 <= |m|
  {
    assert Pow2(4) == 16;
    assert Pow2(6) == 64;
    PackBits(m, o, 8)
  }

  /** Block i of the image of a bitmap. */
  function EncodeBits(m: seq<bool>, i: nat): Block
    requires (i + 1) * BITS_PER_BLOCK <= |m|
  {
    seq(BLOCK_SIZE, j requires 0 <= j < BLOCK_SIZE => PackByte(m, i * BITS_PER_BLOCK + 8 * j))
  }

  lemma {:induction false} UnpackBits(m: seq<bool>, o: nat, n: nat, k: nat)
    requires o + n <= |m| && k < n
    ensures BitOf(PackBits(m, o, n), k) == m[o + k]
    decreases n
  {
    if k > 0 {
      UnpackBits(m, o + 1, n - 1, k - 1);
      assert PackBits(m, o, n) / 2 == PackBits(m, o + 1, n - 1);
    }
  }

  lemma BitsRoundTrip(m: seq<bool>, i: nat, t: nat)
    requires (i + 1) * BITS_PER_BLOCK <= |m| && t < BITS_PER_BLOCK
    ensures Bit(EncodeBits(m, i), t) == m[i * BITS_PER_BLOCK + t]
  {
    assert 8 * (t / 8) + t % 8 == t;
    UnpackBits(m, i * BITS_PER_BLOCK + 8 * (t / 8), 8, t % 8);
  }

  lemma {:induction false} ZeroBits(k: nat)
    ensures !BitOf(0, k)
  {
    if k > 0 {
      ZeroBits(k - 1);
    }
  }

  /** x with bit k set. */
  function SetBitOf(x: nat, k: nat): nat
  {
    if k == 0 then (if x % 2 == 1 then x else x + 1) else 2 * SetBitOf(x / 2, k - 1) + x % 2
  }

  lemma {:induction false} SetBitOfReads(x: nat, k: nat, j: nat)
    ensures BitOf(SetBitOf(x, k), j) == (j == k || BitOf(x, j))
  {
    if k > 0 && j > 0 {
      SetBitOfReads(x / 2, k - 1, j - 1);
      assert SetBitOf(x, k) / 2 == SetBitOf(x / 2, k - 1);
    } else if j > 0 {
      assert SetBitOf(x, k) / 2 == x / 2;
    } else if k > 0 {
      assert SetBitOf(x, k) % 2 == x % 2;
    }
  }

  lemma {:induction false} SetBitOfBound(x: nat, k: nat, n: nat)
    requires x < Pow2(n) && k < n
    ensures SetBitOf(x, k) < Pow2(n)
  {
    var p := Pow2(n - 1);
    HalfBound(x, p);
    if k > 0 {
      SetBitOfBound(x / 2, k - 1, n - 1);
      hide Pow2;
    }
  }

  lemma HalfBound(x: nat, p: nat)
    requires x < 2 * p
    ensures x / 2 < p && 0 <= x % 2 < 2 && (x % 2 == 0 ==> x + 1 < 2 * p)
  {
  }

  /** FD_SET on the t-th bit of a bitmap block. */
  function WithBit(b: Block, t: nat): Block
    requires t < BITS_PER_BLOCK
  {
    assert Pow2(4) == 16;
    assert Pow2(6) == 64;
    SetBitOfBound(b[t / 8], t % 8, 8);
    b[t / 8 := SetBitOf(b[t / 8], t % 8)]
  }

  lemma WithBitReads(b: Block, t: nat, u: nat)
    requires t < BITS_PER_BLOCK && u < BITS_PER_BLOCK
    ensures Bit(WithBit(b, t), u) == (u == t || Bit(b, u))
  {
    hide SetBitOf, BitOf;
    if u / 8 == t / 8 {
      SetBitOfReads(b[t / 8], t % 8, u % 8);
    }
  }

  // --------------------------------------------------------------- inodes

  datatype InodeRecord = InodeRecord(
    uid: u16, gid: u16, mode: u32, ctime: u32, mtime: u32, size: i32,
    direct: seq<u32>, indir1: u32, indir2: u32, pad: seq<u32>)

  type Inode = i: InodeRecord | |i.direct| == N_DIRECT && |i.pad| == 3
    witness InodeRecord(0, 0, 0, 0, 0, 0, seq(N_DIRECT, _ => 0), 0, 0, seq(3, _ => 0))

  const NO_DIRECT: seq<u32> := [0, 0, 0, 0, 0, 0]
  const EMPTY_INODE: Inode := InodeRecord(0, 0, 0, 0, 0, 0, NO_DIRECT, 0, 0, [0, 0, 0])

  function InodeWord(ino: Inode, w: nat): u32
    requires w < 16
  {
    if w == 0 then ino.uid + 0x1_0000 * ino.gid as int
    else if w == 1 then ino.mode
    else if w == 2 then ino.ctime
    else if w == 3 then ino.mtime
    else if w == 4 then (if ino.size < 0 then ino.size + 0x1_0000_0000 as int else ino.size)
    else if w < 11 then ino.direct[w - 5]
    else if w == 11 then ino.indir1
    else if w == 12 then ino.indir2
    else ino.pad[w - 13]
  }

  /** The sixteen inodes of one block of the inode region. */
  function EncodeInodes(inos: seq<Inode>): Block
    requires |inos| == INODES_PER_BLOCK
  {
    EncodeWords(InodeWords(inos))
  }

  function InodeWords(inos: seq<Inode>): Words
    requires |inos| == INODES_PER_BLOCK
  {
    seq(WORDS_PER_BLOCK, i requires 0 <= i < WORDS_PER_BLOCK => InodeWord(inos[i / 16], i % 16))
  }

  function WordRun(b: Block, o: nat, n: nat): (r: seq<u32>)
    requires o + n <= WORDS_PER_BLOCK
    ensures |r| == n && forall k | 0 <= k < n :: r[k] == Word(b, o + k)
  {
    seq<u32>(n, k requires 0 <= k < n => Word(b, o + k))
  }

  function DecodeInode(b: Block, t: nat): Inode
    requires t < INODES_PER_BLOCK
  {
    var o := 16 * t;
    InodeRecord(
      Word(b, o) % 0x1_0000, Word(b, o) / 0x1_0000, Word(b, o + 1), Word(b, o + 2), Word(b, o + 3),
      if Word(b, o + 4) < 0x8000_0000 then Word(b, o + 4) else Word(b, o + 4) - 0x1_0000_0000 as int,
      WordRun(b, o + 5, N_DIRECT),
      Word(b, o + 11), Word(b, o + 12),
      WordRun(b, o + 13, 3))
  }

  lemma InodeWordAt(inos: seq<Inode>, t: nat, k: nat)
    requires |inos| == INODES_PER_BLOCK && t < INODES_PER_BLOCK && k < 16
    ensures Word(EncodeInodes(inos), 16 * t + k) == InodeWord(inos[t], k)
  {
    hide Word, InodeWord, EncodeWords;
    var w := InodeWords(inos);
    WordsRoundTrip(w);
    assert DecodeWords(EncodeWords(w))[16 * t + k] == w[16 * t + k];
    assert (16 * t + k) / 16 == t && (16 * t + k) % 16 == k;
  }

  lemma InodesRoundTrip(inos: seq<Inode>, t: nat)
    requires |inos| == INODES_PER_BLOCK && t < INODES_PER_BLOCK
    ensures DecodeInode(EncodeInodes(inos), t) == inos[t]
  {
    hide Word, EncodeInodes;
    var b, o := EncodeInodes(inos), 16 * t;
    InodeWordAt(inos, t, 0);
    InodeWordAt(inos, t, 1);
    InodeWordAt(inos, t, 2);
    InodeWordAt(inos, t, 3);
    InodeWordAt(inos, t, 4);
    InodeWordAt(inos, t, 11);
    InodeWordAt(inos, t, 12);
    forall k | 0 <= k < N_DIRECT
      ensures Word(b, o + 5 + k) == inos[t].direct[k]
    {
      InodeWordAt(inos, t, 5 + k);
    }
    forall k | 0 <= k < 3
      ensures Word(b, o + 13 + k) == inos[t].pad[k]
    {
      InodeWordAt(inos, t, 13 + k);
    }
    assert WordRun(b, o + 5, N_DIRECT) == inos[t].direct;
    assert WordRun(b, o + 13, 3) == inos[t].pad;
  }

  lemma ZeroInode(t: nat)
    requires t < INODES_PER_BLOCK
    ensures DecodeInode(ZeroBlock(), t) == EMPTY_INODE
  {
    var d := DecodeInode(ZeroBlock(), t);
    assert d.direct == EMPTY_INODE.direct;
    assert d.pad == EMPTY_INODE.pad;
  }

  /** Where the fields of struct fs5600_inode lie in its 64 bytes. */
  lemma InodeLayout(b: Block, t: nat)
    requires t < INODES_PER_BLOCK
    ensures var ino, o := DecodeInode(b, t), 64 * t;
            && ino.uid == b[o] + 0x100 * b[o + 1] as int && ino.gid == b[o + 2] + 0x100 * b[o + 3] as int
            && ino.mode == Four(b, o + 4) && ino.ctime == Four(b, o + 8) && ino.mtime == Four(b, o + 12)
            && ino.size == (if b[o + 19] < 0x80 then Four(b, o + 16) else Four(b, o + 16) - 0x1_0000_0000)
            && (forall k | 0 <= k < N_DIRECT :: ino.direct[k] == Four(b, o + 20 + 4 * k))
            && ino.indir1 == Four(b, o + 44) && ino.indir2 == Four(b, o + 48)
            && forall k | 0 <= k < 3 :: ino.pad[k] == Four(b, o + 52 + 4 * k)
  {
  }

  // ---------------------------------------------------- directory entries

  datatype DirentRecord = Dirent(valid: bool, isDir: bool, inode: u30, name: seq<byte>)

  type Dirent = d: DirentRecord | |d.name| == NAME_FIELD
    witness DirentRecord.Dirent(false, false, 0, seq(NAME_FIELD, _ => 0))

  type Dirents = ds: seq<Dirent> | |ds| == DIRENTS_PER_BLOCK
    witness seq(DIRENTS_PER_BLOCK, _ => DirentRecord.Dirent(false, false, 0, seq(NAME_FIELD, _ => 0)))

  function EmptyDirent(): Dirent {
    DirentRecord.Dirent(false, false, 0, seq(NAME_FIELD, _ => 0))
  }

  /** The bit fields valid:1, isDir:1, inode:30 packed from the low end. */
  function DirentHeader(d: Dirent): u32
  {
    B(d.valid) + 2 * B(d.isDir) + 4 * d.inode as int
  }

  function DirentByte(d: Dirent, k: nat): byte
    requires k < 32
  {
    if k < 4 then ByteOf(DirentHeader(d), k) else d.name[k - 4]
  }

  function EncodeDir(ds: Dirents): Block
  {
    seq(BLOCK_SIZE, i requires 0 <= i < BLOCK_SIZE => DirentByte(ds[i / 32], i % 32))
  }

  function DecodeDirent(b: Block, t: nat): Dirent
    requires t < DIRENTS_PER_BLOCK
  {
    var h := Word(b, 8 * t);
    DirentRecord.Dirent(h % 2 == 1, (h / 2) % 2 == 1, h / 4, b[32 * t + 4..32 * t + 32])
  }

  /** A block read into `struct fs5600_dirent dir[32]`. */
  function DecodeDir(b: Block): Dirents
  {
    seq(DIRENTS_PER_BLOCK, t requires 0 <= t < DIRENTS_PER_BLOCK => DecodeDirent(b, t))
  }

  /** Where the fields of struct fs5600_dirent lie in its 32 bytes. */
  lemma DirentLayout(b: Block, t: nat)
    requires t < DIRENTS_PER_BLOCK
    ensures var d, o := DecodeDir(b)[t], 32 * t;
            && d.valid == (b[o] % 2 == 1) && d.isDir == ((b[o] / 2) % 2 == 1)
            && 4 * d.inode as int <= Four(b, o) < 4 * d.inode as int + 4
            && forall k | 0 <= k < NAME_FIELD :: d.name[k] == b[o + 4 + k]
  {
    hide Word, Four;
    assert Word(b, 8 * t) == Four(b, 32 * t) by { WordIsFour(b, 8 * t); }
    LowBits(b, 32 * t);
    var h: int := Word(b, 8 * t);
    assert 4 * (h / 4) <= h < 4 * (h / 4) + 4;
  }

  lemma WordIsFour(b: Block, j: nat)
    requires j < WORDS_PER_BLOCK
    ensures Word(b, j) == Four(b, 4 * j)
  {
  }

  lemma LowBits(b: Block, o: nat)
    requires o + 4 <= BLOCK_SIZE
    ensures Four(b, o) >= 0 && Four(b, o) % 2 == b[o] % 2 && (Four(b, o) / 2) % 2 == (b[o] / 2) % 2
  {
    var low: int, high := b[o], b[o + 1] + 0x100 * b[o + 2] as int + 0x1_0000 * b[o + 3] as int;
    EvenHigh(low, high);
  }

  lemma EvenHigh(low: int, high: int)
    requires 0 <= low && 0 <= high
    ensures (low + 0x100 * high) % 2 == low % 2 && ((low + 0x100 * high) / 2) % 2 == (low / 2) % 2
  {
    assert (low + 0x100 * high) / 2 == low / 2 + 0x80 * high;
  }

  lemma DirentByteAt(ds: Dirents, t: nat, k: nat)
    requires t < DIRENTS_PER_BLOCK && k < 32
    ensures EncodeDir(ds)[32 * t + k] == DirentByte(ds[t], k)
  {
    assert (32 * t + k) / 32 == t && (32 * t + k) % 32 == k;
  }

  lemma DirentWordAt(ds: Dirents, t: nat)
    requires t < DIRENTS_PER_BLOCK
    ensures Word(EncodeDir(ds), 8 * t) == DirentHeader(ds[t])
  {
    hide EncodeDir, DirentHeader;
    DirentByteAt(ds, t, 0);
    DirentByteAt(ds, t, 1);
    DirentByteAt(ds, t, 2);
    DirentByteAt(ds, t, 3);
    BytesOfWord(DirentHeader(ds[t]));
  }

  lemma HeaderFields(d: Dirent)
    ensures var h := DirentHeader(d);
            (h % 2 == 1) == d.valid && ((h / 2) % 2 == 1) == d.isDir && h / 4 == d.inode
  {
  }

  lemma DirentNameAt(ds: Dirents, t: nat)
    requires t < DIRENTS_PER_BLOCK
    ensures EncodeDir(ds)[32 * t + 4..32 * t + 32] == ds[t].name
  {
    hide EncodeDir;
    var field := EncodeDir(ds)[32 * t + 4..32 * t + 32];
    forall k | 0 <= k < NAME_FIELD
      ensures field[k] == ds[t].name[k]
    {
      DirentByteAt(ds, t, k + 4);
    }
  }

  lemma DirentRoundTrip(ds: Dirents, t: nat)
    requires t < DIRENTS_PER_BLOCK
    ensures DecodeDirent(EncodeDir(ds), t) == ds[t]
  {
    hide EncodeDir, Word, DirentHeader;
    DirentWordAt(ds, t);
    DirentNameAt(ds, t);
    HeaderFields(ds[t]);
  }

  /** The bytes of a word. */
  lemma WordBytes(b: Block, j: nat, k: nat)
    requires j < WORDS_PER_BLOCK && k < 4
    ensures ByteOf(Word(b, j), k) == b[4 * j + k]
  {
    WordDigits(b[4 * j], b[4 * j + 1], b[4 * j + 2], b[4 * j + 3], k);
  }

  lemma WordDigits(a: byte, b: byte, c: byte, d: byte, k: nat)
    requires k < 4
    ensures var x := a as int + 0x100 * b as int + 0x1_0000 * c as int + 0x100_0000 * d as int;
            ByteOf(x, k) == match k case 0 => a case 1 => b case 2 => c case _ => d
  {
    var x := a as int + 0x100 * b as int + 0x1_0000 * c as int + 0x100_0000 * d as int;
    assert x / 0x100 == b as int + 0x100 * c as int + 0x1_0000 * d as int;
    assert x / 0x100 / 0x100 == c as int + 0x100 * d as int;
  }

  /** A directory slot that is read and written again gives its bytes back. */
  lemma DirentBytesBack(b: Block, t: nat, k: nat)
    requires t < DIRENTS_PER_BLOCK && k < 32
    ensures DirentByte(DecodeDirent(b, t), k) == b[32 * t + k]
  {
    hide Word, ByteOf;
    if k < 4 {
      HeaderBack(Word(b, 8 * t));
      WordBytes(b, 8 * t, k);
    }
  }

  lemma HeaderBack(h: u32)
    ensures B(h % 2 == 1) + 2 * B((h / 2) % 2 == 1) + 4 * (h / 4) == h
  {
  }

  lemma DirRoundTrip(ds: Dirents)
    ensures DecodeDir(EncodeDir(ds)) == ds
  {
    forall t | 0 <= t < DIRENTS_PER_BLOCK
      ensures DecodeDirent(EncodeDir(ds), t) == ds[t]
    {
      DirentRoundTrip(ds, t);
    }
  }

  lemma ZeroDir(t: nat)
    requires t < DIRENTS_PER_BLOCK
    ensures DecodeDir(ZeroBlock())[t] == EmptyDirent()
  {
    assert ZeroBlock()[32 * t + 4..32 * t + 32] == EmptyDirent().name;
  }

  // ------------------------------------------------------------ C strings

  /** The C string held by a character field: the bytes before the first NUL. */
  function CStr(f: seq<byte>): (r: seq<byte>)
    ensures 0 !in r
  {
    if f == [] || f[0] == 0 then [] else [f[0]] + CStr(f[1..])
  }

  lemma CStrTerminated(n: seq<byte>, rest: seq<byte>)
    requires 0 !in n
    ensures CStr(n + [0] + rest) == n
  {
    if n == [] {
      assert (n + [0] + rest)[0] == 0;
    } else {
      assert (n + [0] + rest)[1..] == n[1..] + [0] + rest;
      CStrTerminated(n[1..], rest);
    }
  }
}
