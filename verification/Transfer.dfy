/** The transfer loops of misc.c: do_put copies a host file in, do_get copies a
    file out, each in chunks of its own size. */
module Transfer {
  import opened Codec
  import opened Image
  import opened Forest
  import opened Paths
  import opened Namespace
  import opened Volumes
  import opened FileWrite
  import opened FileRead
  import opened FileFacts
  import opened FileOps
  import opened DirSteps
  import opened Directory
  import opened NameFacts

  const PUT_MODE: u32 := 0x81FF  // 0777 | S_IFREG

  /** A budget of free blocks that lets a file of len bytes be stored: the data
      and index blocks, and one more when the file ends where the range of
      indir_1 or of indir_2 begins. */
  predicate PutSpace(len: nat, budget: nat) {
    && len <= MAX_FILE && budget >= Need((len + BLOCK_SIZE - 1) / BLOCK_SIZE)
    && !(len == FILE_IN_INODE && budget == 6) && !(len == LEVEL3_START && budget == 263)
  }

  /** Where a put with that many free blocks meets an index root that is missing. */
  predicate AtBoundary(budget: nat, offset: nat) {
    (budget == 6 && offset == FILE_IN_INODE) || (budget == 263 && offset == LEVEL3_START)
  }

  /** A chunk ends just where an index root is missing, and is not the last. */
  predicate PutStuck(len: nat, blksiz: nat, budget: nat)
    requires blksiz > 0
  {
    || (budget == 6 && len > FILE_IN_INODE && FILE_IN_INODE % blksiz == 0)
    || (budget == 263 && len > LEVEL3_START && LEVEL3_START % blksiz == 0)
  }

  /** How far the offset of a put has got. */
  ghost predicate PutOffset(len: nat, blksiz: nat, budget: nat, offset: nat, lost: bool)
    requires blksiz > 0
  {
    && (offset % blksiz == 0 || offset == len) && (lost <==> AtBoundary(budget, offset))
    && (budget == 6 ==> offset <= FILE_IN_INODE) && (budget == 263 ==> offset <= LEVEL3_START)
  }

  /** A stored chunk has lost its tail exactly if it ended at a boundary. */
  lemma LostAtBoundary(s: Fs, sh: Shape, s': Fs, sh': Shape, n: nat, input: seq<byte>, done: nat, len: nat, budget: nat)
    requires Geometry(s) && Owned(s, sh) && Geometry(s') && Owned(s', sh') && n < |s.inodes| && n < |sh.extent|
    requires done + len <= |input| && s.inodes[n].size == done && 0 < len && Budget(s, sh, n) == budget
    requires Wrote(s, sh, s', sh', n, done, input[done..done + len], len)
    ensures LosesTail(s, sh, n, done, len) <==> AtBoundary(budget, done + len)
    ensures (budget == 6 ==> done + len <= FILE_IN_INODE) && (budget == 263 ==> done + len <= LEVEL3_START)
  {
    hide Geometry, Owned, Wrote, ByteAt, Compact, Cost, Free, Blocked1, Blocked2, Budget;
    OwnedMarked(s, sh);
    OwnedMarked(s', sh');
    WroteBudget(s, sh, s', sh', n, done, input[done..done + len], len);
    BlockedEnd(s, sh, s', sh', n, done, input[done..done + len], len);
    BudgetCost(s, sh, n);
    LastChunkLost(sh.extent[n], Budget(s, sh, n), done, done + len);
    BudgetCost(s', sh', n);
    CostSix(sh'.extent[n]);
    BlockedBudget(sh.extent[n], budget, done + len);
  }

  lemma BudgetCost(s: Fs, sh: Shape, n: nat)
    requires n < |sh.extent|
    ensures Cost(sh.extent[n]) <= Budget(s, sh, n)
  {
  }

  lemma BlockedBudget(e: Extent, budget: nat, end: nat)
    ensures Blocked1(e, budget, end) ==> budget == 6
    ensures Blocked2(e, budget, end) ==> budget == 263
  {
  }

  lemma NextMultiple(offset: nat, end: nat, blksiz: nat)
    requires blksiz > 0 && offset % blksiz == 0 && end % blksiz == 0 && offset < end
    ensures offset + blksiz <= end
  {
    var a, b := offset / blksiz, end / blksiz;
    assert offset == blksiz * a && end == blksiz * b;
    if a >= b {
      Times(blksiz, b, a);
    } else {
      Times(blksiz, a, b);
    }
  }

  lemma {:induction false} Times(x: nat, a: nat, b: nat)
    requires a <= b
    ensures x * a <= x * b && (a < b ==> x * a + x <= x * b)
  {
    if a < b {
      Times(x, a, b - 1);
      assert x * b == x * (b - 1) + x;
    }
  }

  lemma NextOffset(offset: nat, blksiz: nat)
    requires blksiz > 0 && offset % blksiz == 0
    ensures (offset + blksiz) % blksiz == 0
  {
    assert offset + blksiz == blksiz * (offset / blksiz + 1);
    Multiple(blksiz, offset / blksiz + 1);
  }

  lemma Multiple(x: nat, a: nat)
    requires x > 0
    ensures (x * a) % x == 0
  {
    var n := x * a;
    QuotientIs(n, x, a, n / x, n % x);
  }

  lemma QuotientIs(n: nat, x: nat, a: nat, q: nat, r: nat)
    requires n == x * a == x * q + r && r < x
    ensures r == 0
  {
    if a > q {
      Times(x, q, a);
    } else {
      Times(x, a, q);
    }
  }

  /** A chunk that comes back short before the boundary would have had space. */
  lemma ShortNotStuck(e: Extent, budget: nat, offset: nat, len: nat, blksiz: nat, total: nat)
    requires Compact(e) && Cost(e) <= budget && 0 < blksiz && offset < total
    requires PutOffset(total, blksiz, budget, offset, false) && PutStuck(total, blksiz, budget)
    requires len == if offset + blksiz <= total then blksiz else total - offset
    ensures offset + len <= MAX_FILE && budget >= Need(BlocksFor(e, offset + len))
  {
    hide Compact, Cost, Need;
    NextMultiple(offset, if budget == 6 then FILE_IN_INODE else LEVEL3_START, blksiz);
    NeedBounds(e);
    NeedCorners();
    NeedMonotone((offset + len + BLOCK_SIZE - 1) / BLOCK_SIZE, if budget == 6 then 6 else 262);
  }

  /** With enough space the next chunk is stored whole. */
  lemma ChunkFits(e: Extent, budget: nat, size: nat, end: nat, len: nat)
    requires Compact(e) && Cost(e) <= budget && PutSpace(len, budget) && size <= end <= len
    ensures end <= MAX_FILE && budget >= Need(BlocksFor(e, end))
    ensures !(Blocked1(e, budget, end) && size < FILE_IN_INODE) && !(Blocked2(e, budget, end) && size < LEVEL3_START)
  {
    hide Compact, Cost, Need;
    NeedBounds(e);
    var k, l := (end + BLOCK_SIZE - 1) / BLOCK_SIZE, (len + BLOCK_SIZE - 1) / BLOCK_SIZE;
    NeedMonotone(k, l);
    NeedCorners();
    if end >= FILE_IN_INODE && budget == 6 {
      NeedMonotone(6, l);
      if l > 6 {
        NeedMonotone(7, l);
      }
    }
    if end >= LEVEL3_START && budget == 263 {
      NeedMonotone(262, l);
      if l > 262 {
        NeedMonotone(263, l);
      }
    }
  }

  lemma NeedCorners()
    ensures Need(6) == 6 && Need(7) == 8 && Need(262) == 263 && Need(263) == 266
  {
  }

  /** A file stored whole has had enough space. */
  lemma StoredHadSpace(e: Extent, budget: nat, len: nat)
    requires Compact(e) && Cost(e) <= budget && len <= BLOCK_SIZE * e.blocks
    ensures len <= MAX_FILE && budget >= Need((len + BLOCK_SIZE - 1) / BLOCK_SIZE)
  {
    NeedBounds(e);
    NeedMonotone((len + BLOCK_SIZE - 1) / BLOCK_SIZE, e.blocks);
  }

  /** The last chunk of a file that ends at an index range with no block to spare
      for the root is not accounted for in the size. */
  lemma LastChunkLost(e: Extent, budget: nat, size: nat, len: nat)
    requires Compact(e) && Cost(e) <= budget && size < len
    ensures len == FILE_IN_INODE && budget == 6 ==> Blocked1(e, budget, len) && size < FILE_IN_INODE
    ensures len == LEVEL3_START && budget == 263 ==> Blocked2(e, budget, len) && size < LEVEL3_START
  {
  }

  /** File n holds the first `done` bytes of the input, or will never hold them all. */
  ghost predicate PutState(s: Fs, sh: Shape, n: nat, input: seq<byte>, done: nat, lost: bool, budget: nat) {
    && n < |s.inodes| && n < |sh.extent| && done <= |input| && 0 <= s.inodes[n].size
    && Budget(s, sh, n) == budget && Content(s, n) <= input
    && (!lost ==> Content(s, n) == input[..done] && (PutSpace(|input|, budget) || done < |input| || |input| == 0))
    && (lost ==> !PutSpace(|input|, budget) && s.inodes[n].size < |input| && s.inodes[n].size < done)
  }

  lemma SpliceAtEnd(c: seq<byte>, d: seq<byte>)
    ensures Splice(c, |c|, d) == c + d
  {
  }

  /** One chunk further, all of it returned as written. */
  lemma PutChunk(s: Fs, sh: Shape, s': Fs, sh': Shape, n: nat, input: seq<byte>, done: nat, len: nat, budget: nat)
    requires Geometry(s) && Owned(s, sh) && Geometry(s') && Owned(s', sh')
    requires PutState(s, sh, n, input, done, false, budget)
    requires 0 < len && done + len <= |input| && s.inodes[n].size == done
    requires Wrote(s, sh, s', sh', n, done, input[done..done + len], len)
    ensures PutState(s', sh', n, input, done + len, LosesTail(s, sh, n, done, len), budget)
  {
    hide Geometry, Owned, Wrote, ByteAt, PutSpace, Need, Compact, Cost, Free, Blocked1, Blocked2, Splice;
    var chunk := input[done..done + len];
    OwnedMarked(s, sh);
    OwnedMarked(s', sh');
    WroteFrame(s, sh, s', sh', n, done, chunk, len);
    WroteBudget(s, sh, s', sh', n, done, chunk, len);
    WriteSplices(s, sh, s', sh', n, done, chunk, len);
    assert chunk[..len] == chunk;
    SpliceAtEnd(Content(s, n), chunk);
    assert input[..done] + chunk == input[..done + len];
    if LosesTail(s, sh, n, done, len) {
      LostHere(s, sh, s', sh', n, input, done, len, budget);
    } else if done + len == |input| {
      StoredHere(s, sh, s', sh', n, input, done, len, budget);
    }
  }

  lemma WroteBudget(s: Fs, sh: Shape, s': Fs, sh': Shape, n: nat, off: nat, data: seq<byte>, ret: int)
    requires Wrote(s, sh, s', sh', n, off, data, ret)
    ensures n < |sh.extent| == |sh'.extent| && Budget(s', sh', n) == Budget(s, sh, n)
    ensures off + ret <= BLOCK_SIZE * sh'.extent[n].blocks
    ensures n < |s.inodes| == |s'.inodes|
    ensures s'.inodes[n].size == s.inodes[n].size || s'.inodes[n].size == off + ret
  {
    hide ByteAt, Cost, Free, RootBlocked;
  }

  /** Whatever a chunk's write has stored, the file holds a prefix of the input. */
  lemma StoredPrefix(s: Fs, sh: Shape, s': Fs, sh': Shape, n: nat, input: seq<byte>, done: nat, len: nat, ret: int)
    requires n < |s.inodes| && done + len <= |input| && s.inodes[n].size == done && Content(s, n) == input[..done]
    requires Wrote(s, sh, s', sh', n, done, input[done..done + len], ret)
    ensures n < |s'.inodes| && 0 <= s'.inodes[n].size && Content(s', n) <= input
  {
    hide ByteAt, Cost, Free, RootBlocked, FilledBy;
    var c := Content(s', n);
    forall i | 0 <= i < |c|
      ensures i < |input| && c[i] == input[i]
    {
      assert c[i] == ByteAt(s', n, i);
      if i < done {
        assert Content(s, n)[i] == ByteAt(s, n, i) == input[i];
      }
    }
  }

  lemma LostHere(s: Fs, sh: Shape, s': Fs, sh': Shape, n: nat, input: seq<byte>, done: nat, len: nat, budget: nat)
    requires Geometry(s) && Owned(s, sh) && Geometry(s') && Owned(s', sh') && n < |s.inodes| && n < |sh.extent|
    requires done + len <= |input| && s.inodes[n].size == done && 0 < len && Budget(s, sh, n) == budget
    requires Wrote(s, sh, s', sh', n, done, input[done..done + len], len) && LosesTail(s, sh, n, done, len)
    requires Content(s, n) == input[..done]
    ensures n < |s'.inodes| && s'.inodes[n].size == done && !PutSpace(|input|, budget) && Content(s', n) <= input
  {
    hide Geometry, Owned, Grown, Spliced, ByteAt, PutSpace, Need, Compact, Cost, Free;
    OwnedMarked(s, sh);
    StoredPrefix(s, sh, s', sh', n, input, done, len, len);
    WroteBudget(s, sh, s', sh', n, done, input[done..done + len], len);
    if PutSpace(|input|, budget) {
      ChunkFits(sh.extent[n], budget, done, done + len, |input|);
    }
  }

  lemma StoredHere(s: Fs, sh: Shape, s': Fs, sh': Shape, n: nat, input: seq<byte>, done: nat, len: nat, budget: nat)
    requires Geometry(s) && Owned(s, sh) && Geometry(s') && Owned(s', sh') && n < |s.inodes| && n < |sh.extent|
    requires done + len == |input| && s.inodes[n].size == done && 0 < len && Budget(s, sh, n) == budget
    requires Wrote(s, sh, s', sh', n, done, input[done..done + len], len) && !LosesTail(s, sh, n, done, len)
    ensures PutSpace(|input|, budget)
  {
    hide Geometry, Owned, Wrote, Grown, Spliced, ByteAt, Need, Compact, Free, Cost, Blocked1, Blocked2;
    OwnedMarked(s, sh);
    OwnedMarked(s', sh');
    WroteBudget(s, sh, s', sh', n, done, input[done..done + len], len);
    StoredHadSpace(sh'.extent[n], budget, |input|);
    LastChunkLost(sh.extent[n], budget, done, |input|);
  }

  /** A chunk that came back short: there was not enough space. */
  lemma PutShort(s: Fs, sh: Shape, s': Fs, sh': Shape, n: nat, input: seq<byte>, done: nat, len: nat, ret: int,
                 budget: nat,
                 blksiz: nat)
    requires Geometry(s) && Owned(s, sh) && Geometry(s') && Owned(s', sh')
    requires PutState(s, sh, n, input, done, false, budget)
    requires 0 < len && done + len <= |input| && s.inodes[n].size == done
    requires Wrote(s, sh, s', sh', n, done, input[done..done + len], ret) && ret < len
    requires 0 < blksiz && len == if done + blksiz <= |input| then blksiz else |input| - done
    requires PutOffset(|input|, blksiz, budget, done, false)
    ensures !PutSpace(|input|, budget) && n < |s'.inodes| && 0 <= s'.inodes[n].size < |input|
    ensures Content(s', n) <= input
    ensures !PutStuck(|input|, blksiz, budget)
  {
    hide Geometry, Owned, Wrote, ByteAt, PutSpace, Need, Compact, Cost, Free, PutStuck, PutOffset;
    OwnedMarked(s, sh);
    FullWriteIffSpace(s, sh, s', sh', n, done, input[done..done + len], ret);
    WroteBudget(s, sh, s', sh', n, done, input[done..done + len], ret);
    RootFacts(s', sh', n);
    StoredPrefix(s, sh, s', sh', n, input, done, len, ret);
    if PutSpace(|input|, budget) {
      ChunkFits(sh.extent[n], budget, done, done + len, |input|);
    }
    if PutStuck(|input|, blksiz, budget) {
      ShortNotStuck(sh.extent[n], budget, done, len, blksiz, |input|);
    }
  }

  /** What do_put relies on: what mknod does, and a parent that is no file and a
      path without a trailing slash, since it could not write to a node without a
      name. */
  ghost predicate PutLegal(s: Fs, nm: Names, path: seq<byte>) {
    MakeCode(s, nm, path) == 0 ==>
      Clean(path) && MakeLegal(s, nm, path) && var w := Lookup(nm.tree, DirName(path)); w.Found? ==> w.isDir
  }

  /** The new file of do_put. */
  method MakeTarget(v: Volume, path: seq<byte>, uid: u16, gid: u16, now: u32) returns (val: int)
    requires v.Valid() && PutLegal(v.State(), v.names, path)
    modifies v`names, v.disk, v.inodeMap, v.inodes
    ensures v.Valid() && val == old(MakeCode(v.State(), v.names, path))
    ensures val != 0 ==> v.State() == old(v.State()) && v.names == old(v.names)
    ensures val == 0 ==>
              && IsFile(v.names, path)
              && PutState(v.State(), v.shape, Lookup(v.names.tree, path).inum, [], 0, false, Free(old(v.State())))
              && Lookup(v.names.tree, path).inum < v.inodes.Length
              && var ino := v.inodes[Lookup(v.names.tree, path).inum];
              && ino.uid == uid && ino.gid == gid && ino.mode == 0x81FF && ino.ctime == now && ino.mtime == now
  {
    hide Geometry, Owned, Coherent, Named, MakeCode, ByteAt, DirOf, FirstClear, FirstInvalid, Free, OthersKept;
    hide IsRegMode, NodeLost, RegionCovers;
    hide Tokens, BaseName, DirName, Stripped, LastSlash, PutSpace;
    ghost var s, sh, nm := v.State(), v.shape, v.names;
    PutModeIsReg();
    if MakeCode(s, nm, path) == 0 {
      PathSplit(path);
    }
    val := Mknod(v, path, PUT_MODE, uid, gid, now);
    if val == 0 {
      TargetFacts(s, sh, nm, path);
      var w := Lookup(nm.tree, DirName(path));
      AddedResolves(s, sh, nm, path, w.inum, FirstInvalid(DirOf(s, w.inum), 0), FirstClear(s.inodeMap, 2), false);
      MoreFacts(v.State(), v.shape, v.names, path);
      EmptyTarget(s, sh, nm, v.State(), FirstClear(s.inodeMap, 2));
    }
  }

  lemma PutModeIsReg()
    ensures IsRegMode(PUT_MODE)
  {
  }

  lemma TargetFacts(s: Fs, sh: Shape, nm: Names, path: seq<byte>)
    requires Named(s, sh, nm) && Lookup(nm.tree, DirName(path)).Found?
    requires MakeCode(s, nm, path) == 0
    ensures 2 <= FirstClear(s.inodeMap, 2) < |s.inodeMap| && !s.inodeMap[FirstClear(s.inodeMap, 2)]
  {
    hide Named;
  }

  lemma MoreFacts(s: Fs, sh: Shape, nm: Names, path: seq<byte>)
    requires Named(s, sh, nm) && Lookup(nm.tree, path).Found?
    ensures Lookup(nm.tree, path).inum < |s.inodes|
  {
    LookupOk(s, sh, nm, path);
  }

  lemma EmptyState(s: Fs, sh: Shape, n: nat, input: seq<byte>, done: nat)
    requires n < |s.inodes| && s.inodes[n].size == 0 && n < |sh.extent| && sh.extent[n] == EMPTY_EXTENT
    requires input == [] && done == 0
    ensures PutState(s, sh, n, input, done, false, Free(s))
  {
    hide ByteAt, Free, PutSpace, Cost;
    assert Content(s, n) == [];
    EmptyCost(sh.extent[n]);
  }

  lemma EmptyTarget(s: Fs, sh: Shape, nm: Names, s': Fs, c: nat)
    requires Geometry(s) && Owned(s, sh) && Named(s, sh, nm) && c < |s.inodes| && c < |s.inodeMap| && !s.inodeMap[c]
    requires |s'.inodes| == |s.inodes| && s'.inodes[c].size == 0 && s'.blockMap == s.blockMap
             && s'.numBlocks == s.numBlocks
    ensures PutState(s', sh, c, [], 0, false, Free(s))
  {
    hide Geometry, Owned, Named, ByteAt, PutSpace, Free, UseOk, Compact, PutState;
    NamedUse(s, sh, nm);
    UnusedEmpty(s, sh, c);
    OwnedMarked(s, sh);
    SameFree(s, s');
    EmptyState(s', sh, c, [], 0);
  }

  lemma PutStart(s: Fs, sh: Shape, n: nat, input: seq<byte>, budget: nat)
    requires PutState(s, sh, n, [], 0, false, budget) && input != []
    ensures PutState(s, sh, n, input, 0, false, budget)
  {
    hide ByteAt, Free, Cost, PutSpace;
    var none: seq<byte> := [];
    assert input[..0] == none[..0] == none;
  }

  /** do_put.  The file ends up holding the whole input exactly when there was
      space for it, whatever the chunk size.  A put that ran out of space returns
      0 all the same, unless a chunk ended just where an index root is missing. */
  method Put(v: Volume, path: seq<byte>, input: seq<byte>, blksiz: nat, uid: u16, gid: u16, now: u32) returns (ret: int)
    requires v.Valid() && PutLegal(v.State(), v.names, path) && 0 < blksiz <= INT_MAX - FILE_1ST_LEVEL
    modifies v`names, v`shape, v.disk, v.blockMap, v.inodeMap, v.inodes
    ensures v.Valid()
    ensures old(MakeCode(v.State(), v.names, path)) != 0 ==>
              ret == old(MakeCode(v.State(), v.names, path)) && v.State() == old(v.State()) && v.names == old(v.names)
    ensures old(MakeCode(v.State(), v.names, path)) == 0 ==>
              && IsFile(v.names, path)
              && var n := Lookup(v.names.tree, path).inum;
              n < |v.State().inodes| && v.State().inodes[n].size >= 0
              && (Content(v.State(), n) == input <==> PutSpace(|input|, Free(old(v.State()))))
              && Content(v.State(), n) <= input
              && ret == if PutStuck(|input|, blksiz, Free(old(v.State()))) then -EINVAL else 0
    ensures old(MakeCode(v.State(), v.names, path)) == 0 ==>
              && Lookup(v.names.tree, path).inum < v.inodes.Length
              && var ino, free := v.inodes[Lookup(v.names.tree, path).inum], Free(old(v.State()));
              && ino.uid == uid && ino.gid == gid && ino.mode == 0x81FF && ino.ctime == now && ino.mtime == now
              && ret == if (free == 6 && |input| > 6144 && 6144 % blksiz == 0)
                           || (free == 263 && |input| > 268288 && 268288 % blksiz == 0) then -EINVAL else 0
  {
    hide Geometry, Owned, Coherent, Named, MakeCode, ByteAt, Free, PutState, PutSpace, Wrote, Lookup, LosesTail, Budget;
    hide PutStuck, PutOffset, AtBoundary, Content;
    ghost var budget := Free(v.State());
    var val := MakeTarget(v, path, uid, gid, now);
    if val != 0 {
      return val;
    }
    ghost var n := Lookup(v.names.tree, path).inum;
    ghost var nm := v.names;
    StuckInNumbers(|input|, blksiz, budget);
    PutOffsetStart(|input|, blksiz, budget);
    if input == [] {
      PutDone(v.State(), v.shape, n, input, 0, false, budget);
      return 0;
    }
    PutStart(v.State(), v.shape, n, input, budget);
    var offset := 0;
    ghost var lost := false;
    while offset < |input|
      invariant v.Valid() && v.names == nm && offset <= |input|
      invariant PutState(v.State(), v.shape, n, input, offset, lost, budget) && val >= 0
      invariant PutOffset(|input|, blksiz, budget, offset, lost)
      invariant offset == |input| ==> !PutStuck(|input|, blksiz, budget)
      invariant n < v.inodes.Length && v.inodes[n].uid == uid && v.inodes[n].gid == gid
      invariant v.inodes[n].mode == 0x81FF && v.inodes[n].ctime == now && v.inodes[n].mtime == now
    {
      var len := if offset + blksiz <= |input| then blksiz else |input| - offset;
      ghost var s, sh := v.State(), v.shape;
      PutSizes(s, sh, n, input, offset, lost, budget);
      val := Write(v, path, input[offset..offset + len], offset);
      if val != len {
        if !lost {
          WroteReturn(s, sh, v.State(), v.shape, n, offset, input[offset..offset + len], val);
          PutShort(s, sh, v.State(), v.shape, n, input, offset, len, val, budget, blksiz);
        }
        PutLost(|input|, blksiz, budget, offset, lost);
        PutFailed(v.State(), n, input);
        break;
      }
      PutChunk(s, sh, v.State(), v.shape, n, input, offset, len, budget);
      PutOffsetNext(s, sh, v.State(), v.shape, n, input, offset, len, budget, blksiz);
      lost := LosesTail(s, sh, n, offset, len);
      offset := offset + len;
    }
    if offset >= |input| {
      PutDone(v.State(), v.shape, n, input, offset, lost, budget);
    }
    return if val >= 0 then 0 else val;
  }

  lemma StuckInNumbers(len: nat, blksiz: nat, free: nat)
    requires blksiz > 0
    ensures PutStuck(len, blksiz, free) <==>
            (free == 6 && len > 6144 && 6144 % blksiz == 0) || (free == 263 && len > 268288 && 268288 % blksiz == 0)
  {
  }

  lemma PutOffsetStart(len: nat, blksiz: nat, budget: nat)
    requires blksiz > 0
    ensures PutOffset(len, blksiz, budget, 0, false) && (len == 0 ==> !PutStuck(len, blksiz, budget))
  {
  }

  lemma PutLost(len: nat, blksiz: nat, budget: nat, offset: nat, lost: bool)
    requires blksiz > 0 && PutOffset(len, blksiz, budget, offset, lost) && offset < len
    ensures lost ==> PutStuck(len, blksiz, budget)
  {
  }

  lemma PutOffsetNext(s: Fs, sh: Shape, s': Fs, sh': Shape, n: nat, input: seq<byte>, offset: nat, len: nat,
                      budget: nat,
                      blksiz: nat)
    requires Geometry(s) && Owned(s, sh) && Geometry(s') && Owned(s', sh')
    requires PutState(s, sh, n, input, offset, false, budget) && s.inodes[n].size == offset < |input| && 0 < blksiz
    requires len == if offset + blksiz <= |input| then blksiz else |input| - offset
    requires Wrote(s, sh, s', sh', n, offset, input[offset..offset + len], len)
    requires PutOffset(|input|, blksiz, budget, offset, false)
    ensures PutOffset(|input|, blksiz, budget, offset + len, LosesTail(s, sh, n, offset, len))
    ensures offset + len == |input| ==> !PutStuck(|input|, blksiz, budget)
  {
    hide Geometry, Owned, Wrote, ByteAt, LosesTail, Budget, PutSpace;
    LostAtBoundary(s, sh, s', sh', n, input, offset, len, budget);
    NextOffset(offset, blksiz);
  }

  lemma WroteReturn(s: Fs, sh: Shape, s': Fs, sh': Shape, n: nat, off: nat, data: seq<byte>, ret: int)
    requires Wrote(s, sh, s', sh', n, off, data, ret)
    ensures 0 <= ret <= |data|
  {
  }

  lemma PutDone(s: Fs, sh: Shape, n: nat, input: seq<byte>, done: nat, lost: bool, budget: nat)
    requires PutState(s, sh, n, input, done, lost, budget) && done == |input|
    ensures n < |s.inodes| && s.inodes[n].size >= 0 && Content(s, n) <= input
    ensures Content(s, n) == input <==> PutSpace(|input|, budget)
  {
    hide ByteAt, Free, Cost;
    assert input[..|input|] == input;
  }

  lemma PutSizes(s: Fs, sh: Shape, n: nat, input: seq<byte>, done: nat, lost: bool, budget: nat)
    requires PutState(s, sh, n, input, done, lost, budget)
    ensures n < |s.inodes| && n < |sh.extent| && s.inodes[n].size >= 0 && Content(s, n) <= input
    ensures lost ==> s.inodes[n].size < done && s.inodes[n].size < |input| && !PutSpace(|input|, budget)
    ensures !lost ==> s.inodes[n].size == done
  {
    hide ByteAt, Free, Cost, PutSpace;
  }

  lemma PutFailed(s: Fs, n: nat, input: seq<byte>)
    requires n < |s.inodes| && 0 <= s.inodes[n].size < |input|
    ensures Content(s, n) != input
  {
    hide ByteAt;
  }

  lemma FileSizes(s: Fs, sh: Shape, nm: Names, path: seq<byte>)
    requires Geometry(s) && Owned(s, sh) && Named(s, sh, nm) && IsFile(nm, path)
    ensures var n := Lookup(nm.tree, path).inum;
            n < |s.inodes| && 0 <= s.inodes[n].size == |Content(s, n)| <= INT_MAX
  {
    hide Geometry, Named, At, Lookup;
    ResolvedInode(s, sh, nm, path);
  }

  lemma ChunkRead(s: Fs, n: nat, offset: nat, chunk: seq<byte>)
    requires n < |s.inodes| && offset + |chunk| <= s.inodes[n].size
    requires forall i | 0 <= i < |chunk| :: chunk[i] == ByteAt(s, n, offset + i)
    ensures Content(s, n)[..offset] + chunk == Content(s, n)[..offset + |chunk|]
  {
    hide ByteAt;
  }

  /** do_get: chunks are read until none is left. */
  method Get(v: Volume, path: seq<byte>, blksiz: nat) returns (ret: int, output: seq<byte>)
    requires v.Valid() && 0 < blksiz <= INT_MAX
    ensures match Lookup(v.names.tree, path)
            case Found(n, isDir) =>
              n < |v.State().inodes|
              && (if isDir then ret == -EISDIR && output == []
                  else v.State().inodes[n].size >= 0 && ret == 0 && output == Content(v.State(), n))
            case w => ret == Code(w) && output == []
  {
    hide Geometry, Owned, Coherent, Named, ByteAt, Lookup, Content, ToInt;
    var offset := 0;
    output := [];
    if IsFile(v.names, path) {
      FileSizes(v.State(), v.shape, v.names, path);
    }
    while true
      invariant 0 <= offset == |output| <= INT_MAX
      invariant output != [] ==> IsFile(v.names, path)
      invariant IsFile(v.names, path) ==>
                  var n := Lookup(v.names.tree, path).inum;
                  n < |v.State().inodes| && v.State().inodes[n].size >= 0
                  && offset <= |Content(v.State(), n)| && output == Content(v.State(), n)[..offset]
      decreases if IsFile(v.names, path) then |Content(v.State(), Lookup(v.names.tree, path).inum)| - offset else 0
    {
      SmallToInt(offset);
      var len, chunk := Read(v, path, blksiz, offset);
      if IsFile(v.names, path) {
        ChunkRead(v.State(), Lookup(v.names.tree, path).inum, offset, chunk);
      }
      if len <= 0 {
        ret := len;
        break;
      }
      output := output + chunk;
      offset := offset + len;
    }
  }

  /** Copying in and out again reproduces the input exactly when it fitted; the
      two chunk sizes do not matter. */
  method PutThenGet(v: Volume, path: seq<byte>, input: seq<byte>, putSize: nat, getSize: nat, uid: u16, gid: u16,
                    now: u32)
    returns (output: seq<byte>)
    requires v.Valid() && PutLegal(v.State(), v.names, path) && 0 < putSize <= INT_MAX - FILE_1ST_LEVEL
    requires 0 < getSize <= INT_MAX && MakeCode(v.State(), v.names, path) == 0
    modifies v`names, v`shape, v.disk, v.blockMap, v.inodeMap, v.inodes
    ensures v.Valid()
    ensures output == input <==> PutSpace(|input|, Free(old(v.State())))
  {
    hide Geometry, Owned, Coherent, Named, MakeCode, ByteAt, Free, PutSpace, Lookup, Content;
    var r := Put(v, path, input, putSize, uid, gid, now);
    r, output := Get(v, path, getSize);
  }
}
