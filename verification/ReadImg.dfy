/** read-img: the breadth-first walk over an image that reports references to
    blocks and inodes that are marked free. */
module ReadImg {
  import opened Codec
  import opened Image
  import opened Forest
  import opened Paths
  import opened Namespace
  import opened DirSteps
  import opened NameFacts

  /** Every pointer leads to a block of the disk and a bit of the block map; the
      C program would read outside its buffers otherwise. */
  ghost predicate Walkable(s: Fs) {
    Geometry(s) && forall p :: At(s, p) < |s.disk| && At(s, p) < |s.blockMap|
  }

  lemma OwnedWalkable(s: Fs, sh: Shape)
    requires Geometry(s) && Owned(s, sh)
    ensures Walkable(s)
  {
    hide At, Extents, Present;
    SameGeometry(s, s);
  }

  // -------------------------------------------------------- one file's blocks

  /** The walk follows data position k of inode n: it has a block, and in the
      range of indir_2 no leaf up to its own is missing. */
  ghost predicate Followed(s: Fs, n: nat, k: nat) {
    At(s, Data(n, k)) != 0
    && (k >= IND2_FIRST ==> forall i | 0 <= i <= (k - IND2_FIRST) / WORDS_PER_BLOCK :: At(s, Leaf(n, i)) != 0)
  }

  ghost function FollowedBlocks(s: Fs, n: nat, upTo: nat): set<nat> {
    set k | 0 <= k < upTo && Followed(s, n, k) :: At(s, Data(n, k)) as nat
  }

  lemma FollowedNext(s: Fs, n: nat, k: nat)
    ensures FollowedBlocks(s, n, k + 1) ==
            FollowedBlocks(s, n, k) + (if Followed(s, n, k) then {At(s, Data(n, k)) as nat} else {})
  {
    hide Followed, At;
  }

  lemma FollowedSkip(s: Fs, n: nat, k: nat, l: nat)
    requires k <= l && forall j | k <= j < l :: !Followed(s, n, j)
    ensures FollowedBlocks(s, n, l) == FollowedBlocks(s, n, k)
  {
    hide Followed, At;
  }

  /** The walk's own map has gained the blocks in B; an ERROR has been counted
      for each of them that is marked free. */
  ghost predicate Noted(s: Fs, before: seq<bool>, now: seq<bool>, errors: nat, B: set<nat>) {
    && |now| == |before|
    && (forall b | 0 <= b < |now| :: now[b] == (before[b] || b in B))
    && (errors == 0 <==> forall b | b in B :: b < |s.blockMap| && s.blockMap[b])
  }

  lemma NotedMore(s: Fs, o: seq<bool>, now: seq<bool>, errors: nat, B: set<nat>, b: nat)
    requires Noted(s, o, now, errors, B) && b < |now| && b < |s.blockMap|
    ensures Noted(s, o, now[b := true], if s.blockMap[b] then errors else errors + 1, B + {b})
  {
  }

  /** A block number other than 0 is noted, with an ERROR if it is marked free. */
  method NoteBlock(s: Fs, b: nat, blkmap: array<bool>, e: nat, ghost o: seq<bool>, ghost n: nat, ghost k: nat)
    returns (errors: nat)
    requires Walkable(s) && blkmap.Length == |s.disk|
    requires b == At(s, Data(n, k)) && (b != 0 ==> Followed(s, n, k))
    requires Noted(s, o, blkmap[..], e, FollowedBlocks(s, n, k))
    modifies blkmap
    ensures Noted(s, o, blkmap[..], errors, FollowedBlocks(s, n, k + 1))
  {
    hide At, Geometry, Noted, FollowedBlocks;
    FollowedNext(s, n, k);
    errors := e;
    if b != 0 {
      NotedMore(s, o, blkmap[..], e, FollowedBlocks(s, n, k), b);
      ghost var now := blkmap[..];
      blkmap[b] := true;
      assert blkmap[..] == now[b := true];
      if !s.blockMap[b] {
        errors := e + 1;
      }
    } else {
      assert FollowedBlocks(s, n, k) + {} == FollowedBlocks(s, n, k);
    }
  }

  /** The words of a height-1 index block over positions base .. base + 255. */
  method NoteWords(s: Fs, root: nat, blkmap: array<bool>, e: nat, ghost o: seq<bool>, ghost n: nat, ghost base: nat)
    returns (errors: nat)
    requires Walkable(s) && blkmap.Length == |s.disk| && 0 < root < |s.disk| && n < |s.inodes|
    requires forall j | 0 <= j < WORDS_PER_BLOCK ::
               Word(s.disk[root], j) == At(s, Data(n, base + j))
                 && (Word(s.disk[root], j) != 0 ==> Followed(s, n, base + j))
    requires Noted(s, o, blkmap[..], e, FollowedBlocks(s, n, base))
    modifies blkmap
    ensures Noted(s, o, blkmap[..], errors, FollowedBlocks(s, n, base + WORDS_PER_BLOCK))
  {
    hide At, Geometry, Noted, FollowedBlocks, Word, Followed;
    errors := e;
    for i := 0 to WORDS_PER_BLOCK
      invariant Noted(s, o, blkmap[..], errors, FollowedBlocks(s, n, base + i))
    {
      assert Word(s.disk[root], i) == At(s, Data(n, base + i));
      errors := NoteBlock(s, Word(s.disk[root], i), blkmap, errors, o, n, base + i);
    }
  }

  lemma SingleWords(s: Fs, n: nat, j: nat)
    requires n < |s.inodes| && j < WORDS_PER_BLOCK && 0 < s.inodes[n].indir1 < |s.disk|
    ensures var w := Word(s.disk[s.inodes[n].indir1], j);
            w == At(s, Data(n, IND1_FIRST + j)) && (w != 0 ==> Followed(s, n, IND1_FIRST + j))
  {
    hide Word;
    assert At(s, Root1(n)) == s.inodes[n].indir1;
  }

  lemma LeafWords(s: Fs, n: nat, i: nat, j: nat)
    requires n < |s.inodes| && i < WORDS_PER_BLOCK && j < WORDS_PER_BLOCK && 0 < At(s, Leaf(n, i)) < |s.disk|
    requires forall k | 0 <= k <= i :: At(s, Leaf(n, k)) != 0
    ensures var w := Word(s.disk[At(s, Leaf(n, i))], j);
            var k := IND2_FIRST + WORDS_PER_BLOCK * i + j;
            w == At(s, Data(n, k)) && (w != 0 ==> Followed(s, n, k))
  {
    hide Word;
    var k := IND2_FIRST + WORDS_PER_BLOCK * i + j;
    assert Parent(Data(n, k)) == Leaf(n, i) && Slot(Data(n, k)) == j;
    assert At(s, Data(n, k)) == Via(s, At(s, Leaf(n, i)), j);
  }

  lemma NoRoot1(s: Fs, n: nat)
    requires n < |s.inodes| && s.inodes[n].indir1 == 0
    ensures FollowedBlocks(s, n, IND2_FIRST) == FollowedBlocks(s, n, IND1_FIRST)
  {
    hide Word, FollowedBlocks;
    forall j | IND1_FIRST <= j < IND2_FIRST
      ensures !Followed(s, n, j)
    {
      assert At(s, Data(n, j)) == Via(s, At(s, Root1(n)), j - IND1_FIRST);
    }
    FollowedSkip(s, n, IND1_FIRST, IND2_FIRST);
  }

  lemma NoLeaf(s: Fs, n: nat, i: nat)
    requires i <= WORDS_PER_BLOCK && (i < WORDS_PER_BLOCK ==> At(s, Leaf(n, i)) == 0)
    ensures FollowedBlocks(s, n, MAX_POSITIONS) == FollowedBlocks(s, n, IND2_FIRST + WORDS_PER_BLOCK * i)
  {
    hide At, FollowedBlocks;
    forall j | IND2_FIRST + WORDS_PER_BLOCK * i <= j < MAX_POSITIONS
      ensures !Followed(s, n, j)
    {
      assert (j - IND2_FIRST) / WORDS_PER_BLOCK >= i;
    }
    FollowedSkip(s, n, IND2_FIRST + WORDS_PER_BLOCK * i, MAX_POSITIONS);
  }

  /** The part of the walk that looks at a file. */
  method CheckFile(s: Fs, n: nat, blkmap: array<bool>) returns (errors: nat)
    requires Walkable(s) && blkmap.Length == |s.disk| && n < |s.inodes|
    modifies blkmap
    ensures Noted(s, old(blkmap[..]), blkmap[..], errors, FollowedBlocks(s, n, MAX_POSITIONS))
  {
    hide At, Geometry, Noted, FollowedBlocks, Word, Followed;
    ghost var o := blkmap[..];
    var ino := s.inodes[n];
    errors := 0;
    NotedStart(s, o, n);
    for i := 0 to N_DIRECT
      invariant Noted(s, o, blkmap[..], errors, FollowedBlocks(s, n, i))
    {
      DirectFollowed(s, n, i);
      errors := NoteBlock(s, ino.direct[i], blkmap, errors, o, n, i);
    }
    IndirectAt(s, n);
    if ino.indir1 != 0 {
      forall j | 0 <= j < WORDS_PER_BLOCK
        ensures Word(s.disk[ino.indir1], j) == At(s, Data(n, IND1_FIRST + j))
        ensures Word(s.disk[ino.indir1], j) != 0 ==> Followed(s, n, IND1_FIRST + j)
      {
        SingleWords(s, n, j);
      }
      errors := NoteWords(s, ino.indir1, blkmap, errors, o, n, IND1_FIRST);
    } else {
      NoRoot1(s, n);
    }
    errors := CheckDouble(s, n, blkmap, errors, o);
  }

  lemma NotedStart(s: Fs, o: seq<bool>, n: nat)
    ensures Noted(s, o, o, 0, FollowedBlocks(s, n, 0))
  {
  }

  lemma DirectFollowed(s: Fs, n: nat, i: nat)
    requires n < |s.inodes| && i < N_DIRECT
    ensures s.inodes[n].direct[i] == At(s, Data(n, i)) && (At(s, Data(n, i)) != 0 ==> Followed(s, n, i))
  {
  }

  lemma IndirectAt(s: Fs, n: nat)
    requires n < |s.inodes|
    ensures s.inodes[n].indir1 == At(s, Root1(n)) && s.inodes[n].indir2 == At(s, Root2(n))
  {
  }

  lemma LeafAt(s: Fs, n: nat, i: nat)
    requires n < |s.inodes| && i < WORDS_PER_BLOCK
    ensures At(s, Leaf(n, i)) == Via(s, s.inodes[n].indir2, i)
  {
    hide Word;
  }

  /** The double-indirect tree, up to its first missing leaf. */
  method CheckDouble(s: Fs, n: nat, blkmap: array<bool>, e: nat, ghost o: seq<bool>) returns (errors: nat)
    requires Walkable(s) && blkmap.Length == |s.disk| && n < |s.inodes|
    requires Noted(s, o, blkmap[..], e, FollowedBlocks(s, n, IND2_FIRST))
    modifies blkmap
    ensures Noted(s, o, blkmap[..], errors, FollowedBlocks(s, n, MAX_POSITIONS))
  {
    hide At, Geometry, Noted, FollowedBlocks, Word, Followed;
    errors := e;
    var root := s.inodes[n].indir2;
    IndirectAt(s, n);
    if root == 0 {
      LeafAt(s, n, 0);
      NoLeaf(s, n, 0);
      return;
    }
    var buf1 := s.disk[root];
    var i := 0;
    while i < WORDS_PER_BLOCK && Word(buf1, i) != 0
      invariant i <= WORDS_PER_BLOCK
      invariant forall k | 0 <= k < i :: At(s, Leaf(n, k)) != 0
      invariant Noted(s, o, blkmap[..], errors, FollowedBlocks(s, n, IND2_FIRST + WORDS_PER_BLOCK * i))
    {
      LeafAt(s, n, i);
      var leaf := Word(buf1, i);
      ghost var base := IND2_FIRST + WORDS_PER_BLOCK * i;
      forall j | 0 <= j < WORDS_PER_BLOCK
        ensures Word(s.disk[leaf], j) == At(s, Data(n, base + j))
        ensures Word(s.disk[leaf], j) != 0 ==> Followed(s, n, base + j)
      {
        LeafWords(s, n, i, j);
      }
      errors := NoteWords(s, leaf, blkmap, errors, o, n, base);
      i := i + 1;
    }
    if i < WORDS_PER_BLOCK {
      LeafAt(s, n, i);
    }
    NoLeaf(s, n, i);
  }

  // ---------------------------------------------------------------- the queue

  datatype QueueEntry = QueueEntry(dir: bool, inum: nat)

  const QUEUE_SIZE: nat := 100

  /** In the walk's own maps only bits marked in the image's maps are set. */
  ghost predicate AllMarked(mine: seq<bool>, marks: seq<bool>) {
    forall b | 0 <= b < |mine| && mine[b] :: b < |marks| && marks[b]
  }

  /** How the walk over a good image has come about: for each queue entry but the
      first, the name it was found under and the queue index of the directory
      that holds the name; and for each inode seen, its queue index. */
  datatype Trace = Trace(key: seq<Key>, via: seq<nat>, pos: map<nat, nat>)

  /** The names of the entries before `done`, and of the entry at `done` those in
      slots before `part`, are exactly what the queue holds besides the root. */
  ghost predicate Explored(nm: Names, q: seq<QueueEntry>, t: Trace, done: nat, part: nat) {
    && |q| == |t.key| == |t.via| >= 1 && q[0] == QueueEntry(true, ROOT) && done <= |q|
    && (forall m | 1 <= m < |q| :: Arrived(nm, q, t, m, done, part))
    && (forall m | 0 <= m < |q| :: q[m].inum in t.pos && t.pos[q[m].inum] == m)
    && (forall n | n in t.pos :: t.pos[n] < |q| && q[t.pos[n]].inum == n)
    && (forall key, i | key in nm.tree && 0 <= i < |q| && Passed(nm, q, key, i, done, part) ::
          nm.tree[key].inum in t.pos)
  }

  ghost predicate Arrived(nm: Names, q: seq<QueueEntry>, t: Trace, m: nat, done: nat, part: nat)
    requires 1 <= m < |q| == |t.key| == |t.via|
  {
    && t.key[m] in nm.tree && nm.tree[t.key[m]].inum == q[m].inum && nm.tree[t.key[m]].isDir == q[m].dir
    && t.via[m] < m && Passed(nm, q, t.key[m], t.via[m], done, part)
  }

  /** The walk has passed the slot of `key` in the directory at queue index i. */
  ghost predicate Passed(nm: Names, q: seq<QueueEntry>, key: Key, i: nat, done: nat, part: nat)
    requires i < |q| && key in nm.tree
  {
    q[i].dir && q[i].inum == key.dir && (i < done || (i == done && nm.tree[key].slot < part))
  }

  /** Whatever is in the queue is reachable. */
  lemma {:induction false} QueuedReachable(nm: Names, q: seq<QueueEntry>, t: Trace, done: nat, part: nat, m: nat)
    returns (ts: seq<Name>)
    requires Explored(nm, q, t, done, part) && m < |q|
    ensures Walk(nm.tree, Found(ROOT, true), ts) == Found(q[m].inum, q[m].dir)
    ensures Reachable(nm, q[m].inum)
  {
    if m == 0 {
      ts := [];
    } else {
      assert Arrived(nm, q, t, m, done, part);
      var us := QueuedReachable(nm, q, t, done, part, t.via[m]);
      WalkSnoc(nm.tree, Found(ROOT, true), us, t.key[m].name);
      ts := us + [t.key[m].name];
    }
  }

  /** Once all is explored, whatever a walk finds is in the queue, with its type. */
  lemma {:induction false} ReachableQueued(s: Fs, sh: Shape, nm: Names, q: seq<QueueEntry>, t: Trace, ts: seq<Name>)
    requires Named(s, sh, nm) && Explored(nm, q, t, |q|, 0)
    ensures var w := Walk(nm.tree, Found(ROOT, true), ts);
            w.Found? ==> w.inum in t.pos && q[t.pos[w.inum]].dir == w.isDir
    decreases |ts|
  {
    hide Named, Arrived;
    if ts == [] {
      assert q[0].inum == ROOT;
    } else {
      var us, u := ts[..|ts| - 1], ts[|ts| - 1];
      assert ts == us + [u];
      WalkSnoc(nm.tree, Found(ROOT, true), us, u);
      ReachableQueued(s, sh, nm, q, t, us);
      var v := Walk(nm.tree, Found(ROOT, true), us);
      if v.Found? && v.isDir && Key(v.inum, u) in nm.tree {
        var key := Key(v.inum, u);
        assert Passed(nm, q, key, t.pos[v.inum], |q|, 0);
        QueuedType(s, sh, nm, q, t, key);
      }
    }
  }

  lemma QueuedType(s: Fs, sh: Shape, nm: Names, q: seq<QueueEntry>, t: Trace, key: Key)
    requires Named(s, sh, nm) && Explored(nm, q, t, |q|, 0) && key in nm.tree && nm.tree[key].inum in t.pos
    ensures q[t.pos[nm.tree[key].inum]].dir == nm.tree[key].isDir
  {
    hide Named;
    var m := t.pos[nm.tree[key].inum];
    OneName(s, sh, nm, key, key);
    assert m > 0;
    assert Arrived(nm, q, t, m, |q|, 0);
    OneName(s, sh, nm, key, t.key[m]);
  }

  // ------------------------------------------------------ over a good image

  ghost predicate Good(s: Fs, sh: Shape, nm: Names) {
    Geometry(s) && Owned(s, sh) && Named(s, sh, nm)
  }

  /** A slot that is invalid leads nowhere. */
  lemma SkipSlot(s: Fs, sh: Shape, nm: Names, q: seq<QueueEntry>, t: Trace, done: nat, i: nat)
    requires Named(s, sh, nm) && Explored(nm, q, t, done, i) && done < |q| && i < DIRENTS_PER_BLOCK
    requires q[done].inum < |s.inodes| && !DirOf(s, q[done].inum)[i].valid
    ensures Explored(nm, q, t, done, i + 1)
  {
    hide DirOf, CStr, IsDirMode, IsRegMode, GoodName, UseOk, ChildOk, SlotOk;
    var part := i + 1;
    forall key, k | key in nm.tree && 0 <= k < |q| && Passed(nm, q, key, k, done, part)
      ensures nm.tree[key].inum in t.pos
    {
      assert EntryOk(s, nm, key);
      assert Passed(nm, q, key, k, done, i);
    }
    forall m | 1 <= m < |q|
      ensures Arrived(nm, q, t, m, done, part)
    {
      assert Arrived(nm, q, t, m, done, i);
    }
  }

  ghost function Queued(t: Trace, key: Key, done: nat, inum: nat): Trace {
    Trace(t.key + [key], t.via + [done], t.pos[inum := |t.key|])
  }

  /** A valid slot's inode has not been seen before. */
  lemma NotSeen(s: Fs, sh: Shape, nm: Names, q: seq<QueueEntry>, t: Trace, done: nat, key: Key)
    requires Named(s, sh, nm) && key in nm.tree && done < |q| && key.dir == q[done].inum
    requires Explored(nm, q, t, done, nm.tree[key].slot)
    ensures nm.tree[key].inum !in t.pos
  {
    hide Named;
    OneName(s, sh, nm, key, key);
    if nm.tree[key].inum in t.pos {
      var m := t.pos[nm.tree[key].inum];
      assert m > 0;
      assert Arrived(nm, q, t, m, done, nm.tree[key].slot);
      OneName(s, sh, nm, key, t.key[m]);
    }
  }

  /** Entering the inode of a valid slot. */
  lemma TakeSlot(s: Fs, sh: Shape, nm: Names, q: seq<QueueEntry>, t: Trace, done: nat, key: Key)
    requires Named(s, sh, nm) && key in nm.tree && done < |q| && q[done] == QueueEntry(true, key.dir)
    requires Explored(nm, q, t, done, nm.tree[key].slot)
    ensures var e := nm.tree[key];
            Explored(nm, q + [QueueEntry(e.isDir, e.inum)], Queued(t, key, done, e.inum), done, e.slot + 1)
  {
    hide Named;
    var e := nm.tree[key];
    NotSeen(s, sh, nm, q, t, done, key);
    var q', t' := q + [QueueEntry(e.isDir, e.inum)], Queued(t, key, done, e.inum);
    var part := e.slot + 1;
    forall m | 1 <= m < |q'|
      ensures Arrived(nm, q', t', m, done, part)
    {
      if m < |q| {
        assert Arrived(nm, q, t, m, done, e.slot);
      }
    }
    forall k, i | k in nm.tree && 0 <= i < |q'| && Passed(nm, q', k, i, done, part)
      ensures nm.tree[k].inum in t'.pos
    {
      SameSlotSameKey(s, sh, nm, k, key);
      if k != key {
        assert Passed(nm, q, k, i, done, e.slot);
      }
    }
  }

  lemma SameSlotSameKey(s: Fs, sh: Shape, nm: Names, k: Key, l: Key)
    requires Named(s, sh, nm) && k in nm.tree && l in nm.tree
    ensures k.dir == l.dir && nm.tree[k].slot == nm.tree[l].slot ==> k == l
  {
    hide Named;
    EntryHere(s, sh, nm, k);
    EntryHere(s, sh, nm, l);
  }

  /** All 32 slots passed, or no directory: on to the next queue entry. */
  lemma NextEntry(s: Fs, sh: Shape, nm: Names, q: seq<QueueEntry>, t: Trace, done: nat, part: nat)
    requires Named(s, sh, nm) && done < |q| && Explored(nm, q, t, done, part)
    requires part == DIRENTS_PER_BLOCK || !q[done].dir
    ensures Explored(nm, q, t, done + 1, 0)
  {
    hide DirOf, CStr, IsDirMode, IsRegMode, GoodName, UseOk, ChildOk, SlotOk;
    var next := done + 1;
    forall m | 1 <= m < |q|
      ensures Arrived(nm, q, t, m, next, 0)
    {
      assert Arrived(nm, q, t, m, done, part);
    }
    forall key, i | key in nm.tree && 0 <= i < |q| && Passed(nm, q, key, i, next, 0)
      ensures nm.tree[key].inum in t.pos
    {
      assert EntryOk(s, nm, key);
      assert Passed(nm, q, key, i, done, part);
    }
  }

  // ------------------------------------------ what the walk does on any image

  /** The queue entries that the slots before i of directory d give rise to. */
  ghost function Children(s: Fs, d: nat, i: nat): seq<QueueEntry>
    requires d < |s.inodes| && i <= DIRENTS_PER_BLOCK
  {
    if i == 0 then []
    else
      var e := DirOf(s, d)[i - 1];
      Children(s, d, i - 1) + if e.valid && e.inode < |s.inodes| then [QueueEntry(e.isDir, e.inode)] else []
  }

  /** The entries that follow from queue entry e. */
  ghost function Followers(s: Fs, e: QueueEntry): seq<QueueEntry>
    requires e.inum < |s.inodes|
  {
    if e.dir && IsDirMode(s.inodes[e.inum].mode) then Children(s, e.inum, DIRENTS_PER_BLOCK) else []
  }

  /** The blocks that queue entry e refers to. */
  ghost function BlocksAt(s: Fs, e: QueueEntry): set<nat>
    requires e.inum < |s.inodes|
  {
    if !e.dir then FollowedBlocks(s, e.inum, MAX_POSITIONS)
    else if IsDirMode(s.inodes[e.inum].mode) then {s.inodes[e.inum].direct[0] as nat}
    else {}
  }

  ghost function Inums(q: seq<QueueEntry>): set<nat> {
    set e | e in q :: e.inum
  }

  ghost predicate Inside(s: Fs, q: seq<QueueEntry>) {
    forall m | 0 <= m < |q| :: q[m].inum < |s.inodes|
  }

  /** The breadth-first queue after the entries of q have been taken from it. */
  ghost function Expanded(s: Fs, q: seq<QueueEntry>): seq<QueueEntry>
    requires Inside(s, q)
  {
    if q == [] then [QueueEntry(true, ROOT)] else Expanded(s, q[..|q| - 1]) + Followers(s, q[|q| - 1])
  }

  ghost function BlocksOf(s: Fs, q: seq<QueueEntry>): set<nat>
    requires Inside(s, q)
  {
    if q == [] then {} else BlocksOf(s, q[..|q| - 1]) + BlocksAt(s, q[|q| - 1])
  }

  ghost function InodesOf(s: Fs, q: seq<QueueEntry>): set<nat>
    requires Inside(s, q)
  {
    if q == [] then {} else InodesOf(s, q[..|q| - 1]) + Inums(Followers(s, q[|q| - 1]))
  }

  /** The valid slots before i name inodes of the region that are marked. */
  ghost predicate SlotsClean(s: Fs, d: nat, i: nat)
    requires d < |s.inodes| && i <= DIRENTS_PER_BLOCK
  {
    forall k | 0 <= k < i && DirOf(s, d)[k].valid ::
      DirOf(s, d)[k].inode < |s.inodes| && DirOf(s, d)[k].inode < |s.inodeMap| && s.inodeMap[DirOf(s, d)[k].inode]
  }

  /** Nothing is wrong with what e refers to: its blocks and inodes are marked,
      and a directory is one. */
  ghost predicate EntryClean(s: Fs, e: QueueEntry)
    requires e.inum < |s.inodes|
  {
    && (forall b | b in BlocksAt(s, e) :: b < |s.blockMap| && s.blockMap[b])
    && (e.dir ==> IsDirMode(s.inodes[e.inum].mode) && SlotsClean(s, e.inum, DIRENTS_PER_BLOCK))
  }

  /** What a clean directory entry is, slot by slot. */
  lemma CleanDir(s: Fs, e: QueueEntry)
    requires e.inum < |s.inodes| <= |s.inodeMap| && e.dir
    ensures EntryClean(s, e) <==>
            && IsDirMode(s.inodes[e.inum].mode)
            && s.inodes[e.inum].direct[0] < |s.blockMap| && s.blockMap[s.inodes[e.inum].direct[0]]
            && forall k | 0 <= k < DIRENTS_PER_BLOCK && DirOf(s, e.inum)[k].valid ::
                 DirOf(s, e.inum)[k].inode < |s.inodes| && s.inodeMap[DirOf(s, e.inum)[k].inode]
  {
    hide DirOf, IsDirMode, FollowedBlocks;
  }

  /** What a clean file entry is, position by position. */
  lemma CleanFile(s: Fs, e: QueueEntry)
    requires e.inum < |s.inodes| && !e.dir
    ensures EntryClean(s, e) <==>
            forall k | 0 <= k < MAX_POSITIONS && Followed(s, e.inum, k) ::
              At(s, Data(e.inum, k)) < |s.blockMap| && s.blockMap[At(s, Data(e.inum, k))]
  {
    hide At, Followed;
    if EntryClean(s, e) {
      forall k | 0 <= k < MAX_POSITIONS && Followed(s, e.inum, k)
        ensures At(s, Data(e.inum, k)) < |s.blockMap| && s.blockMap[At(s, Data(e.inum, k))]
      {
        var b: nat := At(s, Data(e.inum, k));
        assert b in FollowedBlocks(s, e.inum, MAX_POSITIONS) && b in BlocksAt(s, e);
      }
    }
  }

  /** The positions that the walk follows: those with a block, which in the range
      of indir_1 and indir_2 it finds by their index blocks, the latter up to the
      first missing leaf. */
  lemma FollowedInFull(s: Fs, n: nat, k: nat)
    requires n < |s.inodes| && k < MAX_POSITIONS
    ensures Followed(s, n, k) <==>
            if k < 6 then s.inodes[n].direct[k] != 0
            else if k < 262 then Via(s, s.inodes[n].indir1, k - 6) != 0
            else
              var i, j := (k - 262) / 256, (k - 262) % 256;
              && (forall h | 0 <= h <= i :: Via(s, s.inodes[n].indir2, h) != 0)
              && Via(s, Via(s, s.inodes[n].indir2, i), j) != 0
  {
    hide Word, Via;
    assert At(s, Root1(n)) == s.inodes[n].indir1;
    if k >= IND2_FIRST {
      forall h | 0 <= h <= (k - IND2_FIRST) / WORDS_PER_BLOCK
        ensures At(s, Leaf(n, h)) == Via(s, s.inodes[n].indir2, h)
      {
        assert At(s, Root2(n)) == s.inodes[n].indir2;
      }
    }
  }

  lemma {:induction false} ChildOf(s: Fs, d: nat, i: nat, f: QueueEntry)
    requires d < |s.inodes| && i <= DIRENTS_PER_BLOCK
    ensures f in Children(s, d, i) <==>
            exists k :: 0 <= k < i && DirOf(s, d)[k].valid && DirOf(s, d)[k].inode < |s.inodes|
                        && f == QueueEntry(DirOf(s, d)[k].isDir, DirOf(s, d)[k].inode)
    decreases i
  {
    hide DirOf;
    if i > 0 {
      ChildOf(s, d, i - 1, f);
    }
  }

  /** What follows from an entry: the inodes of the region in the valid slots of a
      directory that is one, with the types the slots say. */
  lemma FollowsInFull(s: Fs, e: QueueEntry, f: QueueEntry)
    requires e.inum < |s.inodes|
    ensures f in Followers(s, e) <==>
            && e.dir && IsDirMode(s.inodes[e.inum].mode)
            && exists k :: 0 <= k < DIRENTS_PER_BLOCK && DirOf(s, e.inum)[k].valid
                           && DirOf(s, e.inum)[k].inode < |s.inodes|
                           && f == QueueEntry(DirOf(s, e.inum)[k].isDir, DirOf(s, e.inum)[k].inode)
  {
    hide DirOf, IsDirMode, Children;
    ChildOf(s, e.inum, DIRENTS_PER_BLOCK, f);
  }

  /** The blocks an entry refers to: a directory's first, or those of a file that
      the walk follows. */
  lemma BlocksInFull(s: Fs, e: QueueEntry, b: nat)
    requires e.inum < |s.inodes|
    ensures b in BlocksAt(s, e) <==>
            if e.dir then IsDirMode(s.inodes[e.inum].mode) && b == s.inodes[e.inum].direct[0]
            else
              exists k :: 0 <= k < MAX_POSITIONS && At(s, Data(e.inum, k)) == b != 0
                && (k >= IND2_FIRST ==>
                    forall i | 0 <= i <= (k - IND2_FIRST) / WORDS_PER_BLOCK :: At(s, Leaf(e.inum, i)) != 0)
  {
    hide At, IsDirMode;
  }

  /** The walk's own maps hold what the entries refer to. */
  lemma {:induction false} MapsInFull(s: Fs, q: seq<QueueEntry>, b: nat)
    requires Inside(s, q)
    ensures b in BlocksOf(s, q) <==> exists m :: 0 <= m < |q| && b in BlocksAt(s, q[m])
    ensures b in InodesOf(s, q) <==> exists m, f :: 0 <= m < |q| && f in Followers(s, q[m]) && f.inum == b
    decreases |q|
  {
    hide BlocksAt, Followers;
    if q != [] {
      var p, e := q[..|q| - 1], q[|q| - 1];
      MapsInFull(s, p, b);
      if m :| 0 <= m < |q| && b in BlocksAt(s, q[m]) {
        assert m < |p| ==> q[m] == p[m];
      }
      if m, f :| 0 <= m < |q| && f in Followers(s, q[m]) && f.inum == b {
        assert m < |p| ==> q[m] == p[m];
      }
    }
  }

  /** Each entry of a chain, from the root on, is one that the walk queues when
      it takes the one before. */
  ghost predicate Chain(s: Fs, c: seq<QueueEntry>) {
    Inside(s, c) && c != [] && c[0] == QueueEntry(true, ROOT)
    && forall i | 0 <= i < |c| - 1 :: Follows(s, c, i)
  }

  ghost predicate Follows(s: Fs, c: seq<QueueEntry>, i: nat)
    requires Inside(s, c) && i + 1 < |c|
  {
    c[i + 1] in Followers(s, c[i])
  }

  ghost predicate Referenced(s: Fs, e: QueueEntry) {
    exists c :: Chain(s, c) && c[|c| - 1] == e
  }

  lemma ReferencedRoot(s: Fs)
    requires ROOT < |s.inodes|
    ensures Referenced(s, QueueEntry(true, ROOT))
  {
    var c := [QueueEntry(true, ROOT)];
    assert Chain(s, c) && c[|c| - 1] == QueueEntry(true, ROOT);
  }

  lemma ReferencedNext(s: Fs, e: QueueEntry, f: QueueEntry)
    requires Referenced(s, e) && e.inum < |s.inodes| && f.inum < |s.inodes| && f in Followers(s, e)
    ensures Referenced(s, f)
  {
    hide Followers;
    var c :| Chain(s, c) && c[|c| - 1] == e;
    var d := c + [f];
    forall i | 0 <= i < |d| - 1
      ensures Follows(s, d, i)
    {
      if i < |c| - 1 {
        assert Follows(s, c, i);
      }
    }
    assert Chain(s, d) && d[|d| - 1] == f;
  }

  /** The state of the walk once the entries of q are done: its maps hold exactly
      what those refer to, and an ERROR has been printed unless all are clean. */
  ghost predicate Traversed(s: Fs, q: seq<QueueEntry>, queue: seq<QueueEntry>, blkmap: seq<bool>, inomap: seq<bool>,
                            errors: nat) {
    && Inside(s, q) && queue == Expanded(s, q)
    && (forall e | e in queue :: Referenced(s, e))
    && |blkmap| == |s.disk| && |inomap| == |s.inodes|
    && (forall b | 0 <= b < |blkmap| :: blkmap[b] <==> b in BlocksOf(s, q))
    && (forall j | 0 <= j < |inomap| :: inomap[j] <==> j in InodesOf(s, q))
    && (errors == 0 <==> forall m | 0 <= m < |q| :: EntryClean(s, q[m]))
  }

  lemma {:induction false} ChildrenInside(s: Fs, d: nat, i: nat)
    requires d < |s.inodes| && i <= DIRENTS_PER_BLOCK
    ensures Inside(s, Children(s, d, i))
    decreases i
  {
    hide DirOf;
    if i > 0 {
      ChildrenInside(s, d, i - 1);
    }
  }

  lemma NextInside(s: Fs, e: QueueEntry, f: QueueEntry)
    requires e.inum < |s.inodes| && f in Followers(s, e)
    ensures f.inum < |s.inodes|
  {
    hide Children, IsDirMode;
    ChildrenInside(s, e.inum, DIRENTS_PER_BLOCK);
  }

  lemma TraversedStep(s: Fs, q: seq<QueueEntry>, queue: seq<QueueEntry>, blkmap: seq<bool>, inomap: seq<bool>,
                      errors: nat,
                   e: QueueEntry, queue': seq<QueueEntry>, blkmap': seq<bool>, imap': seq<bool>, errors': nat)
    requires Traversed(s, q, queue, blkmap, inomap, errors) && e.inum < |s.inodes| && e in queue
    requires queue' == queue + Followers(s, e) && |blkmap'| == |blkmap| && |imap'| == |inomap|
    requires forall b | 0 <= b < |blkmap| :: blkmap'[b] == (blkmap[b] || b in BlocksAt(s, e))
    requires forall j | 0 <= j < |inomap| :: imap'[j] == (inomap[j] || j in Inums(Followers(s, e)))
    requires errors' == 0 <==> errors == 0 && EntryClean(s, e)
    ensures Traversed(s, q + [e], queue', blkmap', imap', errors')
  {
    hide Followers, BlocksAt, Inums, EntryClean;
    var r := q + [e];
    assert r[..|r| - 1] == q && r[|r| - 1] == e;
    forall f | f in Followers(s, e)
      ensures Referenced(s, f)
    {
      NextInside(s, e, f);
      ReferencedNext(s, e, f);
    }
    hide Referenced, Expanded, BlocksOf, InodesOf;
    assert (forall m | 0 <= m < |r| :: EntryClean(s, r[m])) <==>
        (forall m | 0 <= m < |q| :: EntryClean(s, q[m])) && EntryClean(s, e) by {
      if forall m | 0 <= m < |r| :: EntryClean(s, r[m]) {
        forall m | 0 <= m < |q|
          ensures EntryClean(s, q[m])
        {
          assert r[m] == q[m];
        }
        assert EntryClean(s, r[|q|]);
      }
    }
  }

  /** When no ERROR was printed, all that was followed is marked. */
  lemma {:induction false} CleanMarked(s: Fs, q: seq<QueueEntry>)
    requires Inside(s, q) && |s.inodes| <= |s.inodeMap| && forall m | 0 <= m < |q| :: EntryClean(s, q[m])
    ensures forall b | b in BlocksOf(s, q) :: b < |s.blockMap| && s.blockMap[b]
    ensures forall j | j in InodesOf(s, q) :: j < |s.inodeMap| && s.inodeMap[j]
    decreases |q|
  {
    hide BlocksAt;
    if q != [] {
      var e, p := q[|q| - 1], q[..|q| - 1];
      assert EntryClean(s, e);
      forall m | 0 <= m < |p|
        ensures EntryClean(s, p[m])
      {
        assert p[m] == q[m];
      }
      CleanMarked(s, p);
      if e.dir {
        ChildrenMarked(s, e.inum, DIRENTS_PER_BLOCK);
      }
    }
  }

  lemma {:induction false} ChildrenMarked(s: Fs, d: nat, i: nat)
    requires d < |s.inodes| && i <= DIRENTS_PER_BLOCK && SlotsClean(s, d, i)
    ensures forall j | j in Inums(Children(s, d, i)) :: j < |s.inodeMap| && s.inodeMap[j]
    decreases i
  {
    hide DirOf;
    if i > 0 {
      ChildrenMarked(s, d, i - 1);
      ChildrenNext(s, d, i - 1);
      hide Inums, Children;
    } else {
      ChildrenNext(s, d, 0);
      NoInums();
    }
  }

  // --------------------------------------------------------------- the walk

  lemma WalkableSizes(s: Fs)
    requires Walkable(s)
    ensures ROOT < |s.inodes| <= |s.inodeMap| && 0 < |s.disk|
    ensures forall n | 0 <= n < |s.inodes| :: s.inodes[n].direct[0] < |s.disk| && s.inodes[n].direct[0] < |s.blockMap|
  {
    forall n | 0 <= n < |s.inodes|
      ensures s.inodes[n].direct[0] == At(s, Data(n, 0))
    {
    }
  }

  /** The part of the walk that looks at a directory's slots.  Its queue entry is
      the one at `done`; ghost arguments describe a good image. */
  method CheckDir(s: Fs, n: nat, inomap: array<bool>, queue: array<QueueEntry>, head: nat, e: nat,
                  ghost sh: Shape, ghost nm: Names, ghost t: Trace, ghost done: nat)
    returns (errors: nat, overflow: bool, head': nat, ghost t': Trace)
    requires Walkable(s) && n < |s.inodes| && queue.Length == QUEUE_SIZE && done < head <= QUEUE_SIZE
    requires inomap.Length == |s.inodes| && queue[done] == QueueEntry(true, n)
    requires Good(s, sh, nm) ==> e == 0 && Explored(nm, queue[..head], t, done, 0) && IsDir(s, n)
    modifies inomap, queue
    ensures head <= head' <= QUEUE_SIZE && queue[..head] == old(queue[..head])
    ensures !overflow ==>
              && queue[..head'] == old(queue[..head]) + Children(s, n, DIRENTS_PER_BLOCK)
              && (forall j | 0 <= j < |s.inodes| ::
                  inomap[j] == (old(inomap[j]) || j in Inums(Children(s, n, DIRENTS_PER_BLOCK))))
              && (errors == 0 <==>
                  e == 0 && forall k | 0 <= k < DIRENTS_PER_BLOCK && DirOf(s, n)[k].valid ::
                              var j := DirOf(s, n)[k].inode;
                              j < |s.inodes| && j < |s.inodeMap| && s.inodeMap[j])
    ensures Good(s, sh, nm) ==> errors == 0
    ensures Good(s, sh, nm) && !overflow ==> Explored(nm, queue[..head'], t', done, DIRENTS_PER_BLOCK)
    ensures Good(s, sh, nm) && overflow ==> ManyReachable(nm)
  {
    hide Geometry, Owned, Named, DirOf, CStr, Explored, IsDirMode, ManyReachable, Queued, Inums, Good, Children;
    errors, overflow, head', t' := e, false, head, t;
    WalkableSizes(s);
    var de := DirOf(s, n);
    assert queue[..head] + [] == queue[..head];
    NoInums();
    ChildrenNext(s, n, 0);
    for i := 0 to DIRENTS_PER_BLOCK
      invariant head <= head' <= QUEUE_SIZE && queue[..head] == old(queue[..head])
      invariant queue[..head'] == old(queue[..head]) + Children(s, n, i)
      invariant forall j | 0 <= j < |s.inodes| :: inomap[j] == (old(inomap[j]) || j in Inums(Children(s, n, i)))
      invariant errors == 0 <==> e == 0 && SlotsClean(s, n, i)
      invariant Good(s, sh, nm) ==> errors == 0 && Explored(nm, queue[..head'], t', done, i)
    {
      assert queue[..head][done] == old(queue[..head])[done];
      GoodSlot(s, sh, nm, n, i);
      ChildrenNext(s, n, i);
      if de[i].valid {
        var j := de[i].inode;
        if j >= |s.inodes| {
          errors := errors + 1;
        } else {
          inomap[j] := true;
          if !s.inodeMap[j] {
            errors := errors + 1;
          }
          ghost var entry := QueueEntry(de[i].isDir, j);
          if head' == QUEUE_SIZE {
            if Good(s, sh, nm) {
              OverflowMany(s, sh, nm, queue[..head'], t', done, i, Key(n, CStr(de[i].name)));
            }
            overflow := true;
            return;
          }
          if Good(s, sh, nm) {
            TakeSlot(s, sh, nm, queue[..head'], t', done, Key(n, CStr(de[i].name)));
            t' := Queued(t', Key(n, CStr(de[i].name)), done, j);
          }
          ghost var q := queue[..head'];
          queue[head'] := QueueEntry(de[i].isDir, j);
          head' := head' + 1;
          assert queue[..head'] == q + [entry];
        }
      } else if Good(s, sh, nm) {
        SkipSlot(s, sh, nm, queue[..head'], t', done, i);
      }
    }
    CleanSlots(s, n);
  }

  lemma CleanSlots(s: Fs, d: nat)
    requires d < |s.inodes|
    ensures SlotsClean(s, d, DIRENTS_PER_BLOCK) <==>
            forall k | 0 <= k < DIRENTS_PER_BLOCK && DirOf(s, d)[k].valid ::
              var j := DirOf(s, d)[k].inode;
              j < |s.inodes| && j < |s.inodeMap| && s.inodeMap[j]
  {
    hide DirOf;
  }

  lemma NoInums()
    ensures Inums([]) == {}
  {
  }

  lemma ChildrenNext(s: Fs, d: nat, i: nat)
    requires d < |s.inodes| && i < DIRENTS_PER_BLOCK
    ensures Children(s, d, 0) == []
    ensures var e, c, c' := DirOf(s, d)[i], Children(s, d, i), Children(s, d, i + 1);
            if e.valid && e.inode < |s.inodes| then
              c' == c + [QueueEntry(e.isDir, e.inode)] && Inums(c') == Inums(c) + {e.inode as nat}
            else c' == c
  {
    hide DirOf;
  }

  /** On a good image, what a valid slot names. */
  lemma GoodSlot(s: Fs, sh: Shape, nm: Names, d: nat, i: nat)
    requires Good(s, sh, nm) ==> IsDir(s, d)
    requires i < DIRENTS_PER_BLOCK && d < |s.inodes|
    ensures Good(s, sh, nm) ==> Named(s, sh, nm)
    ensures var e := DirOf(s, d)[i];
            Good(s, sh, nm) && e.valid ==>
              var key := Key(d, CStr(e.name));
              key in nm.tree && nm.tree[key] == Entry(i, e.inode, e.isDir)
              && e.inode < |s.inodes| <= |s.inodeMap| && s.inodeMap[e.inode]
  {
    hide Geometry, Owned, Named, DirOf, CStr, IsDirMode;
    if Good(s, sh, nm) {
      SlotFacts(s, sh, nm, d, i);
    }
  }

  /** More objects can be reached than the queue has room for. */
  ghost predicate ManyReachable(nm: Names) {
    exists R: set<nat> :: |R| > QUEUE_SIZE && forall n | n in R :: Reachable(nm, n)
  }

  lemma {:induction false} InumsDistinct(q: seq<QueueEntry>, n: nat)
    requires n <= |q| && forall i, j | 0 <= i < j < |q| :: q[i].inum != q[j].inum
    ensures |set m | 0 <= m < n :: q[m].inum| == n
  {
    if n > 0 {
      InumsDistinct(q, n - 1);
      assert (set m | 0 <= m < n :: q[m].inum) == (set m | 0 <= m < n - 1 :: q[m].inum) + {q[n - 1].inum};
    }
  }

  lemma OverflowMany(s: Fs, sh: Shape, nm: Names, q: seq<QueueEntry>, t: Trace, done: nat, i: nat, key: Key)
    requires Named(s, sh, nm) && |q| == QUEUE_SIZE && done < |q| && Explored(nm, q, t, done, i)
    requires key in nm.tree && key.dir == q[done].inum && q[done].dir && nm.tree[key].slot == i
    ensures ManyReachable(nm)
  {
    hide Named, Arrived, Reachable, Walk;
    NotSeen(s, sh, nm, q, t, done, key);
    InumsDistinct(q, |q|);
    var seen := set m | 0 <= m < |q| :: q[m].inum;
    var R := seen + {nm.tree[key].inum};
    forall n | n in R
      ensures Reachable(nm, n)
    {
      if n in seen {
        var m :| 0 <= m < |q| && q[m].inum == n;
        var ts := QueuedReachable(nm, q, t, done, i, m);
      } else {
        var us := QueuedReachable(nm, q, t, done, i, done);
        WalkSnoc(nm.tree, Found(ROOT, true), us, key.name);
        ReachedBy(nm, us + [key.name]);
      }
    }
  }

  /** A queue of that length that holds all that can be reached says otherwise. */
  lemma QueueHoldsAll(nm: Names, q: seq<QueueEntry>)
    requires forall i, j | 0 <= i < j < |q| :: q[i].inum != q[j].inum
    requires forall n: nat :: Reachable(nm, n) ==> exists i :: 0 <= i < |q| && q[i].inum == n
    ensures |q| <= QUEUE_SIZE ==> !ManyReachable(nm)
  {
    hide Reachable;
    InumsDistinct(q, |q|);
    var S := set m | 0 <= m < |q| :: q[m].inum;
    if R: set<nat> :| |R| > QUEUE_SIZE && forall n | n in R :: Reachable(nm, n) {
      assert R <= S;
      assert S == R + (S - R);
    }
  }

  lemma ReachedBy(nm: Names, ts: seq<Name>)
    requires Walk(nm.tree, Found(ROOT, true), ts).Found?
    ensures Reachable(nm, Walk(nm.tree, Found(ROOT, true), ts).inum)
  {
  }

  /** The entry at `done` of a walk over a good image is of the type it says. */
  lemma EntryType(s: Fs, sh: Shape, nm: Names, q: seq<QueueEntry>, t: Trace, done: nat)
    requires Good(s, sh, nm) && Explored(nm, q, t, done, 0) && done < |q|
    ensures q[done].inum < |s.inodes|
    ensures q[done].dir ==> IsDir(s, q[done].inum)
    ensures q[done].dir ==>
              s.inodes[q[done].inum].direct[0] < |s.blockMap| && s.blockMap[s.inodes[q[done].inum].direct[0]]
  {
    hide Geometry, Owned, Named, Explored;
    var ts := QueuedReachable(nm, q, t, done, 0, done);
    WalkedFacts(s, sh, nm, ts);
    NamedUse(s, sh, nm);
    if q[done].dir {
      DirBlock(s, sh, q[done].inum);
      OwnedMarked(s, sh);
    }
  }

  lemma WalkedFacts(s: Fs, sh: Shape, nm: Names, ts: seq<Name>)
    requires Named(s, sh, nm)
    ensures WalkedOk(s, Walk(nm.tree, Found(ROOT, true), ts))
  {
    NamedUse(s, sh, nm);
    WalkOk(s, sh, nm, Found(ROOT, true), ts);
  }

  /** The blocks followed for a file of a good image are all marked. */
  lemma FileBlocksMarked(s: Fs, sh: Shape, o: seq<bool>, now: seq<bool>, errors: nat, n: nat)
    requires Geometry(s) && Owned(s, sh) && Noted(s, o, now, errors, FollowedBlocks(s, n, MAX_POSITIONS))
    ensures errors == 0
  {
    hide At, Extents, Present, Geometry;
    SameGeometry(s, s);
  }

  /** The queue entry at `tail`, a directory that is one. */
  method TakeDir(s: Fs, entry: QueueEntry, blkmap: array<bool>, inomap: array<bool>, queue: array<QueueEntry>,
                 head: nat, e: nat,
                 ghost sh: Shape, ghost nm: Names, ghost t: Trace, ghost tail: nat)
    returns (errors: nat, overflow: bool, head': nat, ghost t': Trace)
    requires Walkable(s) && entry.inum < |s.inodes| && entry.dir && IsDirMode(s.inodes[entry.inum].mode)
    requires blkmap != inomap && queue.Length == QUEUE_SIZE && tail < head <= QUEUE_SIZE && queue[tail] == entry
    requires Traversed(s, queue[..tail], queue[..head], blkmap[..], inomap[..], e)
    requires Good(s, sh, nm) ==> e == 0 && Explored(nm, queue[..head], t, tail, 0)
    modifies blkmap, inomap, queue
    ensures head <= head' <= QUEUE_SIZE && queue[..tail] == old(queue[..tail]) && (!overflow ==> queue[tail] == entry)
    ensures !overflow ==> Traversed(s, old(queue[..tail]) + [entry], queue[..head'], blkmap[..], inomap[..], errors)
    ensures Good(s, sh, nm) ==> errors == 0
    ensures Good(s, sh, nm) && !overflow ==> Explored(nm, queue[..head'], t', tail + 1, 0)
    ensures Good(s, sh, nm) && overflow ==> ManyReachable(nm)
  {
    hide Geometry, DirOf, Explored, IsDirMode, ManyReachable, At, Traversed, Children, SlotsClean, Inums, Good;
    WalkableSizes(s);
    errors := e;
    ghost var done, q, o, seen := queue[..tail], queue[..head], blkmap[..], inomap[..];
    TraversedLengths(s, done, q, o, seen, e);
    if Good(s, sh, nm) {
      EntryType(s, sh, nm, q, t, tail);
    }
    var b := s.inodes[entry.inum].direct[0];
    if !s.blockMap[b] {
      errors := errors + 1;
    }
    blkmap[b] := true;
    assert blkmap[..] == o[b := true];
    assert entry in q by { assert q[tail] == entry; }
    ghost var e1 := errors;
    errors, overflow, head', t' := CheckDir(s, entry.inum, inomap, queue, head, errors, sh, nm, t, tail);
    assert queue[..|q|] == q && queue[..tail] == queue[..|q|][..tail] == q[..tail];
    CleanSlots(s, entry.inum);
    if !overflow {
      assert queue[tail] == queue[..|q|][tail] == q[tail];
      if Good(s, sh, nm) {
        DirDone(s, sh, nm, queue[..head'], t', tail);
      }
      DirStep(s, done, q, o, seen, e, entry, queue[..head'], inomap[..], e1, errors);
    }
  }

  /** The loop: breadth first, from the root on. */
  method WalkImage(s: Fs, ghost sh: Shape, ghost nm: Names)
    returns (errors: nat, overflow: bool, blkmap: array<bool>, inomap: array<bool>, queue: array<QueueEntry>, head: nat,
             ghost t: Trace)
    requires Walkable(s)
    ensures head <= queue.Length == QUEUE_SIZE
    ensures !overflow ==> Traversed(s, queue[..head], queue[..head], blkmap[..], inomap[..], errors)
    ensures Good(s, sh, nm) ==> errors == 0
    ensures Good(s, sh, nm) && overflow ==> ManyReachable(nm)
    ensures Good(s, sh, nm) && !overflow ==> Explored(nm, queue[..head], t, head, 0)
  {
    hide Geometry, Owned, Named, DirOf, CStr, Explored, IsDirMode, ManyReachable, Queued, Noted, FollowedBlocks;
    hide Reachable, HasName, At;
    hide Traversed, Children, SlotsClean, Inums, Good;
    WalkableSizes(s);
    errors, overflow := 0, false;
    blkmap := new bool[|s.disk|](_ => false);
    inomap := new bool[|s.inodes|](_ => false);
    queue := new QueueEntry[QUEUE_SIZE](_ => QueueEntry(true, ROOT));
    head := 1;
    var tail := 0;
    t := Trace([Key(0, [])], [0], map[ROOT := 0]);
    WalkStart(nm, queue[..head], t);
    TraversedStart(s, queue[..head], blkmap[..], inomap[..]);
    assert queue[..0] == [];
    while head != tail
      invariant tail <= head <= QUEUE_SIZE && blkmap != inomap
      invariant Traversed(s, queue[..tail], queue[..head], blkmap[..], inomap[..], errors)
      invariant Good(s, sh, nm) ==> errors == 0 && Explored(nm, queue[..head], t, tail, 0)
      decreases QUEUE_SIZE - tail
    {
      ghost var done, q, o, seen, e0 := queue[..tail], queue[..head], blkmap[..], inomap[..], errors;
      TraversedInside(s, done, q, o, seen, errors, tail);
      var entry := queue[tail];
      if Good(s, sh, nm) {
        EntryType(s, sh, nm, q, t, tail);
      }
      if !entry.dir {
        var found := CheckFile(s, entry.inum, blkmap);
        if Good(s, sh, nm) {
          FileDone(s, sh, nm, q, t, tail, o, blkmap[..], found);
        }
        errors := errors + found;
        FileStep(s, done, q, o, seen, e0, entry, blkmap[..], found);
      } else if !IsDirMode(s.inodes[entry.inum].mode) {
        errors := errors + 1;
        WrongTypeStep(s, done, q, o, seen, e0, entry);
      } else {
        errors, overflow, head, t := TakeDir(s, entry, blkmap, inomap, queue, head, errors, sh, nm, t, tail);
        if overflow {
          return;
        }
      }
      assert queue[..tail + 1] == done + [entry];
      tail := tail + 1;
    }
  }

  /** The program.  On any image the walk is breadth first, its maps end up
      holding exactly what the queued entries refer to, and no ERROR is printed
      exactly if all of that is marked.  An image of a sound volume yields no
      ERROR, and unless more objects can be reached than fit the queue, which is
      when it overflows, the queue ends up holding each inode with a name once and
      nothing else. */
  method CheckImage(s: Fs, ghost sh: Shape, ghost nm: Names)
    returns (errors: nat, overflow: bool, blkmap: array<bool>, inomap: array<bool>, queue: array<QueueEntry>, head: nat)
    requires Walkable(s)
    ensures head <= queue.Length
    ensures !overflow ==> Traversed(s, queue[..head], queue[..head], blkmap[..], inomap[..], errors)
    ensures !overflow ==> Inside(s, queue[..head]) && |s.inodes| <= |s.inodeMap|
    ensures !overflow ==>
              var q := queue[..head];
              errors == 0 <==>
              && (forall m | 0 <= m < |q| && q[m].dir ::
                    && IsDirMode(s.inodes[q[m].inum].mode)
                    && s.inodes[q[m].inum].direct[0] < |s.blockMap| && s.blockMap[s.inodes[q[m].inum].direct[0]])
              && (forall m, k | 0 <= m < |q| && q[m].dir && 0 <= k < DIRENTS_PER_BLOCK
                    && DirOf(s, q[m].inum)[k].valid ::
                    DirOf(s, q[m].inum)[k].inode < |s.inodes| && s.inodeMap[DirOf(s, q[m].inum)[k].inode])
              && (forall m, k | 0 <= m < |q| && !q[m].dir && 0 <= k < MAX_POSITIONS && Followed(s, q[m].inum, k) ::
                    At(s, Data(q[m].inum, k)) < |s.blockMap| && s.blockMap[At(s, Data(q[m].inum, k))])
    ensures Good(s, sh, nm) ==> errors == 0
    ensures Good(s, sh, nm) ==> (overflow <==> ManyReachable(nm))
    ensures Good(s, sh, nm) && !overflow ==>
              var q := queue[..head];
              && (forall i, j | 0 <= i < j < |q| :: q[i].inum != q[j].inum)
              && (forall n: nat :: Reachable(nm, n) <==> exists i :: 0 <= i < |q| && q[i].inum == n)
              && (forall n: nat :: HasName(nm, n) <==> exists i :: 0 <= i < |q| && q[i].inum == n)
  {
    hide Geometry, Owned, Named, DirOf, Explored, IsDirMode, ManyReachable, Reachable, HasName, At, Traversed, Good;
    hide Followed;
    ghost var t;
    errors, overflow, blkmap, inomap, queue, head, t := WalkImage(s, sh, nm);
    if !overflow {
      if Good(s, sh, nm) {
        WalkEnd(s, sh, nm, queue[..head], t);
      }
      ReportInFull(s, queue[..head], blkmap[..], inomap[..], errors);
    }
  }

  lemma TraversedStart(s: Fs, queue: seq<QueueEntry>, blkmap: seq<bool>, inomap: seq<bool>)
    requires queue == [QueueEntry(true, ROOT)] && |blkmap| == |s.disk| && |inomap| == |s.inodes| && ROOT < |s.inodes|
    requires (forall b | 0 <= b < |blkmap| :: !blkmap[b]) && (forall j | 0 <= j < |inomap| :: !inomap[j])
    ensures Traversed(s, [], queue, blkmap, inomap, 0)
  {
    hide Referenced;
    ReferencedRoot(s);
  }

  /** Every entry ever queued is of an inode of the region. */
  lemma {:induction false} ExpandedInside(s: Fs, q: seq<QueueEntry>)
    requires Inside(s, q) && ROOT < |s.inodes|
    ensures Inside(s, Expanded(s, q))
    decreases |q|
  {
    hide Children, IsDirMode;
    if q != [] {
      ExpandedInside(s, q[..|q| - 1]);
      ChildrenInside(s, q[|q| - 1].inum, DIRENTS_PER_BLOCK);
    }
  }

  lemma TraversedInside(s: Fs, done: seq<QueueEntry>, q: seq<QueueEntry>, blkmap: seq<bool>, inomap: seq<bool>,
                        errors: nat, tail: nat)
    requires Traversed(s, done, q, blkmap, inomap, errors) && tail < |q| && ROOT < |s.inodes|
    ensures q[tail].inum < |s.inodes| && |blkmap| == |s.disk| && |inomap| == |s.inodes|
  {
    ExpandedInside(s, done);
  }

  lemma FileStep(s: Fs, done: seq<QueueEntry>, q: seq<QueueEntry>, o: seq<bool>, seen: seq<bool>, e0: nat,
                 entry: QueueEntry, now: seq<bool>, found: nat)
    requires Traversed(s, done, q, o, seen, e0) && entry in q && entry.inum < |s.inodes| && !entry.dir
    requires Noted(s, o, now, found, FollowedBlocks(s, entry.inum, MAX_POSITIONS))
    ensures |now| == |o| && Traversed(s, done + [entry], q, now, seen, e0 + found)
  {
    hide FollowedBlocks, Traversed;
    assert Followers(s, entry) == [] && q + [] == q;
    assert BlocksAt(s, entry) == FollowedBlocks(s, entry.inum, MAX_POSITIONS);
    assert EntryClean(s, entry) <==> found == 0;
    NoInums();
    assert |o| == |s.disk| by { TraversedLengths(s, done, q, o, seen, e0); }
    TraversedStep(s, done, q, o, seen, e0, entry, q, now, seen, e0 + found);
  }

  lemma TraversedLengths(s: Fs, done: seq<QueueEntry>, q: seq<QueueEntry>, blkmap: seq<bool>, inomap: seq<bool>,
                         errors: nat)
    requires Traversed(s, done, q, blkmap, inomap, errors)
    ensures |blkmap| == |s.disk| && |inomap| == |s.inodes|
  {
  }

  lemma WrongTypeStep(s: Fs, done: seq<QueueEntry>, q: seq<QueueEntry>, o: seq<bool>, seen: seq<bool>, e0: nat,
                      entry: QueueEntry)
    requires Traversed(s, done, q, o, seen, e0) && entry in q && entry.inum < |s.inodes| && entry.dir
    requires !IsDirMode(s.inodes[entry.inum].mode)
    ensures Traversed(s, done + [entry], q, o, seen, e0 + 1)
  {
    hide Traversed, IsDirMode;
    assert Followers(s, entry) == [] && q + [] == q;
    NoInums();
    TraversedStep(s, done, q, o, seen, e0, entry, q, o, seen, e0 + 1);
  }

  lemma DirStep(s: Fs, done: seq<QueueEntry>, q: seq<QueueEntry>, o: seq<bool>, seen: seq<bool>, e0: nat,
                entry: QueueEntry, q': seq<QueueEntry>, seen': seq<bool>, e1: nat, errors: nat)
    requires Traversed(s, done, q, o, seen, e0) && entry in q && entry.inum < |s.inodes| && entry.dir
             && IsDirMode(s.inodes[entry.inum].mode)
    requires s.inodes[entry.inum].direct[0] < |s.blockMap| && s.inodes[entry.inum].direct[0] < |o|
    requires e1 == if s.blockMap[s.inodes[entry.inum].direct[0]] then e0 else e0 + 1
    requires q' == q + Children(s, entry.inum, DIRENTS_PER_BLOCK) && |seen'| == |seen| == |s.inodes|
    requires forall j | 0 <= j < |s.inodes| ::
               seen'[j] == (seen[j] || j in Inums(Children(s, entry.inum, DIRENTS_PER_BLOCK)))
    requires errors == 0 <==> e1 == 0 && SlotsClean(s, entry.inum, DIRENTS_PER_BLOCK)
    ensures Traversed(s, done + [entry], q', o[s.inodes[entry.inum].direct[0] as nat := true], seen', errors)
  {
    hide Traversed, IsDirMode, SlotsClean, Children, Inums;
    TraversedStep(s, done, q, o, seen, e0, entry, q', o[s.inodes[entry.inum].direct[0] as nat := true], seen', errors);
  }

  lemma FileDone(s: Fs, sh: Shape, nm: Names, q: seq<QueueEntry>, t: Trace, tail: nat, o: seq<bool>, now: seq<bool>,
                 found: nat)
    requires Good(s, sh, nm) && Explored(nm, q, t, tail, 0) && tail < |q| && !q[tail].dir
    requires Noted(s, o, now, found, FollowedBlocks(s, q[tail].inum, MAX_POSITIONS))
    ensures found == 0 && Explored(nm, q, t, tail + 1, 0)
  {
    hide Geometry, Owned, Named, Explored, Noted, FollowedBlocks;
    FileBlocksMarked(s, sh, o, now, found, q[tail].inum);
    NextEntry(s, sh, nm, q, t, tail, 0);
  }

  lemma DirDone(s: Fs, sh: Shape, nm: Names, q: seq<QueueEntry>, t: Trace, tail: nat)
    requires Good(s, sh, nm) && Explored(nm, q, t, tail, DIRENTS_PER_BLOCK) && tail < |q|
    ensures Explored(nm, q, t, tail + 1, 0)
  {
    hide Geometry, Owned, Named, Explored;
    NextEntry(s, sh, nm, q, t, tail, DIRENTS_PER_BLOCK);
  }

  lemma WalkEnd(s: Fs, sh: Shape, nm: Names, q: seq<QueueEntry>, t: Trace)
    requires Good(s, sh, nm) && Explored(nm, q, t, |q|, 0)
    ensures forall i, j | 0 <= i < j < |q| :: q[i].inum != q[j].inum
    ensures forall n: nat :: Reachable(nm, n) <==> exists i :: 0 <= i < |q| && q[i].inum == n
    ensures forall n: nat :: HasName(nm, n) <==> exists i :: 0 <= i < |q| && q[i].inum == n
    ensures |q| <= QUEUE_SIZE ==> !ManyReachable(nm)
  {
    hide Geometry, Owned, Named, Explored, HasName, Reachable, ManyReachable;
    WalkDone(s, sh, nm, q, t);
    QueueHoldsAll(nm, q);
  }

  lemma {:induction false} NextQueued(s: Fs, q: seq<QueueEntry>, m: nat, e: QueueEntry)
    requires Inside(s, q) && m < |q| && e in Followers(s, q[m])
    ensures e in Expanded(s, q)
    decreases |q|
  {
    hide Followers;
    if m < |q| - 1 {
      NextQueued(s, q[..|q| - 1], m, e);
    }
  }

  lemma {:induction false} ChainQueued(s: Fs, q: seq<QueueEntry>, c: seq<QueueEntry>)
    requires Inside(s, q) && q == Expanded(s, q) && Chain(s, c)
    ensures c[|c| - 1] in q
    decreases |c|
  {
    hide Followers;
    if |c| == 1 {
      RootQueued(s, q);
    } else {
      var p := c[..|c| - 1];
      forall i | 0 <= i < |p| - 1
        ensures Follows(s, p, i)
      {
        assert Follows(s, c, i);
      }
      ChainQueued(s, q, p);
      var m :| 0 <= m < |q| && q[m] == p[|p| - 1];
      assert Follows(s, c, |c| - 2);
      NextQueued(s, q, m, c[|c| - 1]);
    }
  }

  lemma ReferencedQueued(s: Fs, q: seq<QueueEntry>, e: QueueEntry)
    requires Inside(s, q) && q == Expanded(s, q) && Referenced(s, e)
    ensures e in q
  {
    var c :| Chain(s, c) && c[|c| - 1] == e;
    ChainQueued(s, q, c);
  }

  lemma {:induction false} RootQueued(s: Fs, q: seq<QueueEntry>)
    requires Inside(s, q)
    ensures QueueEntry(true, ROOT) in Expanded(s, q)
    decreases |q|
  {
    hide Followers;
    if q != [] {
      RootQueued(s, q[..|q| - 1]);
    }
  }

  /** A walk over any image prints no ERROR exactly if nothing is wrong with
      whatever can be reached from the root; its maps then hold marked blocks
      and inodes only. */
  lemma NoErrorIffClean(s: Fs, q: seq<QueueEntry>, blkmap: seq<bool>, inomap: seq<bool>, errors: nat)
    requires Walkable(s) && Traversed(s, q, q, blkmap, inomap, errors)
    ensures |s.inodes| <= |s.inodeMap|
    ensures errors == 0 <==>
            && (forall n: nat | n < |s.inodes| && Referenced(s, QueueEntry(true, n)) ::
                  && IsDirMode(s.inodes[n].mode)
                  && s.inodes[n].direct[0] < |s.blockMap| && s.blockMap[s.inodes[n].direct[0]]
                  && forall k | 0 <= k < DIRENTS_PER_BLOCK && DirOf(s, n)[k].valid ::
                       DirOf(s, n)[k].inode < |s.inodes| && s.inodeMap[DirOf(s, n)[k].inode])
            && (forall n: nat | n < |s.inodes| && Referenced(s, QueueEntry(false, n)) ::
                  forall k | 0 <= k < MAX_POSITIONS && Followed(s, n, k) ::
                    At(s, Data(n, k)) < |s.blockMap| && s.blockMap[At(s, Data(n, k))])
    ensures errors == 0 ==> AllMarked(blkmap, s.blockMap) && AllMarked(inomap, s.inodeMap)
  {
    hide Followers, EntryClean, Geometry, At, Referenced, DirOf, IsDirMode, Followed;
    WalkableSizes(s);
    AllReferencedClean(s, q, blkmap, inomap, errors);
    forall n: nat | n < |s.inodes|
      ensures EntryClean(s, QueueEntry(true, n)) <==>
              && IsDirMode(s.inodes[n].mode)
              && s.inodes[n].direct[0] < |s.blockMap| && s.blockMap[s.inodes[n].direct[0]]
              && forall k | 0 <= k < DIRENTS_PER_BLOCK && DirOf(s, n)[k].valid ::
                   DirOf(s, n)[k].inode < |s.inodes| && s.inodeMap[DirOf(s, n)[k].inode]
      ensures EntryClean(s, QueueEntry(false, n)) <==>
              forall k | 0 <= k < MAX_POSITIONS && Followed(s, n, k) ::
                At(s, Data(n, k)) < |s.blockMap| && s.blockMap[At(s, Data(n, k))]
    {
      CleanDir(s, QueueEntry(true, n));
      CleanFile(s, QueueEntry(false, n));
    }
  }

  lemma AllReferencedClean(s: Fs, q: seq<QueueEntry>, blkmap: seq<bool>, inomap: seq<bool>, errors: nat)
    requires Walkable(s) && Traversed(s, q, q, blkmap, inomap, errors)
    ensures errors == 0 <==>
            && (forall n: nat | n < |s.inodes| && Referenced(s, QueueEntry(true, n)) ::
                  EntryClean(s, QueueEntry(true, n)))
            && (forall n: nat | n < |s.inodes| && Referenced(s, QueueEntry(false, n)) ::
                  EntryClean(s, QueueEntry(false, n)))
    ensures errors == 0 ==> AllMarked(blkmap, s.blockMap) && AllMarked(inomap, s.inodeMap)
  {
    hide Followers, EntryClean, Geometry, At, Referenced;
    WalkableSizes(s);
    if errors == 0 {
      CleanMarked(s, q);
      forall e: QueueEntry | e.inum < |s.inodes| && Referenced(s, e)
        ensures EntryClean(s, e)
      {
        ReferencedQueued(s, q, e);
      }
    } else {
      var m :| 0 <= m < |q| && !EntryClean(s, q[m]);
      assert q[m] in q;
      assert q[m] == QueueEntry(q[m].dir, q[m].inum);
    }
  }

  /** The walk's report in full: no ERROR exactly if each directory entry is a
      directory with its block marked whose valid slots name marked inodes of the
      region, and each block that the walk follows for a file entry is marked. */
  lemma ReportInFull(s: Fs, q: seq<QueueEntry>, blkmap: seq<bool>, inomap: seq<bool>, errors: nat)
    requires Walkable(s) && Traversed(s, q, q, blkmap, inomap, errors)
    ensures Inside(s, q) && |s.inodes| <= |s.inodeMap|
    ensures errors == 0 <==>
            && (forall m | 0 <= m < |q| && q[m].dir ::
                  && IsDirMode(s.inodes[q[m].inum].mode)
                  && s.inodes[q[m].inum].direct[0] < |s.blockMap| && s.blockMap[s.inodes[q[m].inum].direct[0]])
            && (forall m, k | 0 <= m < |q| && q[m].dir && 0 <= k < DIRENTS_PER_BLOCK
                  && DirOf(s, q[m].inum)[k].valid ::
                  DirOf(s, q[m].inum)[k].inode < |s.inodes| && s.inodeMap[DirOf(s, q[m].inum)[k].inode])
            && (forall m, k | 0 <= m < |q| && !q[m].dir && 0 <= k < MAX_POSITIONS && Followed(s, q[m].inum, k) ::
                  At(s, Data(q[m].inum, k)) < |s.blockMap| && s.blockMap[At(s, Data(q[m].inum, k))])
  {
    hide EntryClean, Geometry, At, DirOf, IsDirMode, Referenced, Expanded, BlocksOf, InodesOf;
    WalkableSizes(s);
    hide Followed;
    forall m | 0 <= m < |q|
      ensures EntryClean(s, q[m]) <==>
              if q[m].dir then
                && IsDirMode(s.inodes[q[m].inum].mode)
                && s.inodes[q[m].inum].direct[0] < |s.blockMap| && s.blockMap[s.inodes[q[m].inum].direct[0]]
                && forall k | 0 <= k < DIRENTS_PER_BLOCK && DirOf(s, q[m].inum)[k].valid ::
                     DirOf(s, q[m].inum)[k].inode < |s.inodes| && s.inodeMap[DirOf(s, q[m].inum)[k].inode]
              else
                forall k | 0 <= k < MAX_POSITIONS && Followed(s, q[m].inum, k) ::
                  At(s, Data(q[m].inum, k)) < |s.blockMap| && s.blockMap[At(s, Data(q[m].inum, k))]
    {
      if q[m].dir {
        CleanDir(s, q[m]);
      } else {
        CleanFile(s, q[m]);
      }
    }
  }

  lemma WalkStart(nm: Names, q: seq<QueueEntry>, t: Trace)
    requires q == [QueueEntry(true, ROOT)] && t == Trace([Key(0, [])], [0], map[ROOT := 0])
    ensures Explored(nm, q, t, 0, 0)
  {
  }

  lemma WalkDone(s: Fs, sh: Shape, nm: Names, q: seq<QueueEntry>, t: Trace)
    requires Named(s, sh, nm) && Explored(nm, q, t, |q|, 0)
    ensures forall i, j | 0 <= i < j < |q| :: q[i].inum != q[j].inum
    ensures forall n: nat :: Reachable(nm, n) <==> exists i :: 0 <= i < |q| && q[i].inum == n
    ensures forall n: nat :: HasName(nm, n) <==> exists i :: 0 <= i < |q| && q[i].inum == n
  {
    hide Named, Arrived, Walk, HasName;
    forall n: nat
      ensures Reachable(nm, n) <==> exists i :: 0 <= i < |q| && q[i].inum == n
      ensures HasName(nm, n) <==> Reachable(nm, n)
    {
      ReachableIffNamed(s, sh, nm, n);
      if Reachable(nm, n) {
        var ts: seq<Name> :| Walk(nm.tree, Found(ROOT, true), ts).Found?
          && Walk(nm.tree, Found(ROOT, true), ts).inum == n;
        ReachableQueued(s, sh, nm, q, t, ts);
      }
      if i: nat :| i < |q| && q[i].inum == n {
        var ts := QueuedReachable(nm, q, t, |q|, 0, i);
      }
    }
  }
}
