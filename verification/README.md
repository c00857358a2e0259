# The CS5600 file system, verified

A model of the CS5600 file system of `homework.c`, of the image builder
`mkfs-x6.c`, of the image walker `read-img.c`, and of the two transfer loops of
`misc.c`, with proofs about every run of them.

## What is modelled

**State.** `Volumes.Volume` is a mounted volume: one array of 1024-byte blocks
(the device), two arrays of bits (`inode_map`, `block_map`) and the inode table,
all changed in place. Blocks are bytes; index words, bitmaps, inodes and directory
slots are read out of and written into them (`Codec`). `Image.Fs` is the same
state as a value, `Volume.State()`. Two ghost fields describe it: the *shape* says
which position of which file's block tree owns a block, the *names* are the tree of
names.

**Invariant.** `Volume.Valid()` holds between operations and has four parts.
`Geometry`: the regions fit the device. `Owned`: no block has two owners; owned
blocks are marked and lie in the data region; every file tree is filled without
holes, an index block exists only if all before its range is full, and only the
last leaf of the double-indirect tree may be less than full. `Coherent`: the maps
and the inode table are what their regions of the device decode to. `Named`: the
valid directory slots are exactly a tree of names: each name stands for a live inode
of the right type, which has no other name, and hangs in a directory that is the root,
inode 1, or has a name itself. So every name is found from the root
(`NameFacts.ReachableIffNamed`). A directory that rmdir has left behind has no name and
no names in it.

**Operations.** Each C routine with a loop or an update in place is a method with
that loop: the three levels of write, read and truncate, the allocator, the
directory scans, `translate`, `trancate_path`, `get_name`, the six name and three
file operations, the bitmap loop of `mkfs-x6`, the breadth-first loop of
`read-img`, and the loops of `do_put` and `do_get`. Each is proved against a
relation between the old and the new state (`Wrote`, `Truncated`, `NodeMade`,
`NodeLost`, `DirMade`, `Unlinked`, `DirRemoved`, names updated by `DropName` or
`MoveName`); what those relations mean for a reader of files and for every path is
proved separately (`FileFacts`, `NameFacts`).

**Runs.** `Runs.Session` puts it together: from an image that mkfs made, through
any sequence of operations, to an image in which read-img finds nothing wrong, unless
over 100 objects can be reached, when the C program would write past its queue. The
worlds that a run goes through are related step by step (`Runs.IsRun`), and
`RunFacts` says what a run leaves alone: files it does not target,
paths whose names it does not change.

Where the code and its comments disagree, the code is followed. These are results:
exact conditions, and where a member of `Departures` is named an input as well.

- A write that needs an index root and finds no block for it returns the bytes it
  stored but does not update the size (homework.c:1088-1090, 1108-1110):
  `FileFacts.WriteSplices`, `Departures.TailLost`.
- A write that ends where an index range begins allocates that range's root, which
  truncate does not free (homework.c:598, 602): `FileFacts.TruncateFreesAll`, and in
  terms of the bytes to write and the free blocks `FileFacts.WriteThenTruncate`;
  `Departures.LeakedRoot`.
- `fs_read` converts its offset to an int before it looks for the end of the file
  (homework.c:914), and adds the length to it as a `size_t` (927):
  `FileRead.ReadKeepsPromise`, `Departures.ReadBeyond`.
- `fs_write` does not ask whether it writes a directory (homework.c:1065-1068): the
  tree of names survives if and only if the write stays in the directory's block, or no
  other block is free, and every slot of the block with the new bytes reads as before:
  `FileOps.Write`, `DirWrite.DirWriteIff`; `Departures.RootWritten`.
- `fs_mknod` does not ask whether the parent is a directory (homework.c:350-363):
  `Directory.Mknod` states the whole outcome below a file, `Departures.MknodUnderFile`
  when the file's content is damaged; `Departures.NodeInFile`.
- `fs_mknod` and `fs_mkdir` take the name after the last slash (homework.c:391-402,
  537-546), which is empty when the path ends in one: they return 0 and enter a valid
  slot without a name: `Directory.Mknod`, `Directory.Mkdir`, `Directory.MadeNameless`;
  `Departures.MknodSlashed`.
- `fs_mkdir` loses a block when there is no inode (homework.c:522-525):
  `Directory.Mkdir` with `BlockLost`; `Departures.MkdirLosesBlock`.
- `fs_unlink` with a trailing slash releases the file, keeps its name and fails
  (homework.c:681-698): `Removal.Unlink`, `Departures.UnlinkSlashed`.
- `fs_rmdir` sets bits where its comments speak of releasing, the first of them in
  the wrong map (homework.c:745-751), and with two trailing slashes keeps the name:
  `Removal.Rmdir`; `Departures.RmdirKeepsBlock`, `Departures.RmdirSlashed`.
- `fs_rename` with a trailing slash does nothing (source) or leaves an entry without
  a name (destination), and returns 0 (homework.c:822-842): `Removal.Rename`,
  `Departures.RenamedAway`.
- `do_put` returns 0 when it ran out of space, unless a chunk ended just where an
  index root is missing (misc.c:255-263): `Transfer.Put`, `Departures.PutReports`.

Preconditions stand for what the C code leaves undefined or asserts, each only on
the inputs that get there. `MakeLegal` and `MkdirLegal`: a path without a NUL and a
name of fewer than 28 bytes (asserted at homework.c:399 and 545); the first
free inode bit must name an inode of the region, because the search is bounded by the
map (homework.c:435-437); below a file mknod needs the file to have a first block
(it would write block 0, asserted at image.c:56); mkdir needs a free block, whose
number it does not check (homework.c:516-519). `RmdirLegal`: not the root (asserted
at homework.c:726), and the block number set in the inode map lies in that map.
`RenameLegal`: two paths that can be cut, since the C code frees what it has not set
(homework.c:804-807), and a name that fits its slot. `FileOps.Write`: something to
write to, and a length that keeps C ints in range. `FileOps.Read`: an offset whose int
is not negative. `Transfer.PutLegal`: a path that the writes after
the mknod find. `Runs.Legal` adds what keeps the names a tree, and `Runs.IsLegal`
decides all of it before the call.

## Layout

`Codec` formats · `Image` state and invariant · `Forest` growing block trees ·
`Flush` write-through and loading · `Volumes` the class · `Alloc` one block more ·
`FileWrite`, `FileRead`, `FileTruncate`, `FileFacts`, `DirWrite`, `FileOps` files ·
`Paths`, `Namespace`, `Translation`, `DirSteps`, `Directory`, `Removal`, `NameFacts` names ·
`Mkfs`, `ReadImg`, `Transfer` the other programs · `Runs`, `RunFacts`, `Departures`.

`dafny verify dfyconfig.toml` checks everything.

## Model

| member | source | states |
|---|---|---|
| Runs.Session | homework.c:339-848 | from mkfs of any size through any run of operations the invariant holds, no block has two owners, a reload gives the state in memory, and read-img prints no ERROR unless its queue of 100 overflows, which happens if and only if over 100 objects can be reached |
| Runs.Run | homework.c:339-848 | every world of a run satisfies the whole invariant, and each operation takes one to the next as its relation says |
| RunFacts.RunKeepsFile | homework.c:339-1130 | over a whole run a file that no operation targets (writes, truncates, unlinks, makes a node under) keeps a name, its inode and every byte |
| RunFacts.StepKeepsFile | homework.c:339-1130 | no single operation changes a file it does not target |
| RunFacts.StepResolves | homework.c:339-848 | after a successful operation its new path leads to the new inode, its removed path is missing, and a renamed subtree is found under the new path |
| RunFacts.StepChanges | homework.c:339-848 | each operation changes the tree of names at the names of its own paths only |
| RunFacts.StepKeepsPath | homework.c:112-848 | one operation leaves every path alone that asks for none of the names it changes, and an added name every path that led somewhere |
| RunFacts.RunKeepsPath | homework.c:112-848 | over a whole run a path that no operation disturbs leads where it led, be it an inode or an error |
| RunFacts.RunKeepsPathAndFile | homework.c:112-1130 | a path to a file, neither disturbed nor targeted in a run, leads to the same inode with the same bytes at its end |
| RunFacts.StepMakes | homework.c:361-557 | a successful mknod or mkdir of a run has made an empty inode with the operation's owner, group, permissions and time |
| RunFacts.SkippedMknod | homework.c:350-399 | when a run does not perform a mknod, both ways: it would make a node, and its path, the first clear inode bit or the parent's block rule it out |
| RunFacts.SkippedMkdir | homework.c:484-545 | the same for mkdir, with the free blocks in place of the parent's block |
| RunFacts.SkippedOthers | homework.c:567-848 | the same for the other operations: truncate and getattr are always performed |
| Runs.IsLegal | homework.c:350-399 | whether the preconditions of an operation, and what keeps the names a tree, hold can be decided before it is called, both ways |
| Runs.Perform | homework.c:339-848 | every operation keeps the invariant and does exactly what its relation says, return value and both bitmaps included |
| Runs.Getattr | homework.c:221-234 | the reload inside getattr changes nothing; the return value is the outcome of the path lookup |
| FileWrite.WriteInode | homework.c:1061-1130 | a write past the end is refused without a change; any other stores a prefix of the buffer, grows the tree densely, stops short only on a full disk or at the largest file, and sets the size unless an index root is missing |
| FileWrite.WriteLevel1 | homework.c:1132-1175 | a contiguous prefix of the chunk is spliced into the direct range; short only when the disk is full, right where the file's blocks end |
| FileWrite.WriteLevel2 | homework.c:1177-1221 | the same under any height-1 index block, with the cached copy equal to the block at every round |
| FileWrite.WriteLevel3 | homework.c:1223-1267 | the same under indir_2; going on after a short inner write never leaves a gap |
| FileWrite.FillDirect | homework.c:1140-1172 | one round: a missing direct block is allocated, the bytes patched in; it fails only with no free block and without a change |
| FileWrite.FillSlot | homework.c:1189-1218 | one round under an index block; the copy returned is the block as it is on the device |
| FileWrite.LeafBlock | homework.c:1241-1257 | a missing leaf is allocated at the next free word of the root; the root's copy is as on the device |
| FileWrite.FillLeaf | homework.c:1234-1264 | one round of the third level, and why the next must fail when this one was short |
| FileWrite.PatchBlock | homework.c:1166-1169 | exactly the bytes of one block change, in one file, and no pointer |
| FileWrite.WriteSingle | homework.c:1079-1102 | allocates indir_1 if needed; fails exactly when it is missing and no block is free |
| FileWrite.WriteDouble | homework.c:1103-1122 | the same for indir_2 |
| FileWrite.WriteLow | homework.c:1073-1102 | the first two ranges together; a missing root stops the write at byte 6144 exactly |
| FileWrite.FinishWrite | homework.c:1123-1129 | the size is raised to where the write ended, never lowered |
| FileWrite.RootWords | homework.c:1231-1258 | writing below a leaf leaves the cached copy of the root valid |
| FileFacts.WriteSplices | homework.c:1061-1130 | the new content is the old with the returned prefix spliced in if and only if no tail was lost to a missing index root |
| FileFacts.BlockedEnd | homework.c:1088-1110 | a write that misses an index root has stopped at 6144 or at 268288 |
| FileFacts.FullWriteIffSpace | homework.c:1061-1287 | the whole buffer is stored if and only if the range fits the largest file and the free blocks cover the missing data and index blocks |
| FileFacts.WriteKeepsOthers | homework.c:1061-1267 | every other file keeps its inode and content |
| FileFacts.NoSharing | homework.c:1275-1287 | a block owned at two positions is owned at one; owned blocks are marked and in the data region |
| FileFacts.LocateBijection | homework.c:956-1028 | the arithmetic of the three levels maps the offsets below 67377152 one-to-one onto (level, slot, subslot, byte) |
| FileFacts.ByteIsChased | homework.c:1008-1046 | a file's byte at an offset is the one found by following the pointers at that place |
| FileFacts.TruncateFreesAll | homework.c:585-645 | truncation frees every block of the file if and only if no index root exists at or before the size its walk needs |
| FileFacts.TruncateKeepsOthers | homework.c:567-645 | other files keep inode and content, all other bits stay, the file is empty |
| FileFacts.GrowThenTruncate | homework.c:567-645 | growing an empty file and truncating it restores the block map if and only if the same condition holds |
| FileFacts.WriteThenTruncate | homework.c:567-645 | writing to an empty file and truncating it gives the block map back if and only if the bytes to write and the free blocks are not of the four kinds that leak |
| FileFacts.EndFromSpace | homework.c:1079-1122 | where a write to an empty file ends at an index range, in terms of its length and the free blocks, both ways |
| FileFacts.NeedBounds | homework.c:1073-1129 | the blocks a dense tree uses lie between what its data needs and what one more block would need |
| FileTruncate.TruncateInode | homework.c:584-612 | exactly the owned blocks that the size makes reachable are freed, the inode is emptied, all is written through |
| FileTruncate.TruncateDirect | homework.c:585-597 | the direct loop frees the direct blocks and clears the pointers, stopping at the first hole without missing one |
| FileTruncate.TruncateLevel2 | homework.c:615-629 | exactly the data blocks under the index block and the block itself are freed |
| FileTruncate.TruncateLevel3 | homework.c:631-645 | exactly the leaves, what is under them, and the root are freed |
| FileTruncate.TruncatedOwned | homework.c:567-612 | the forest without the file's tree satisfies the ownership invariant |
| FileTruncate.SweptReached | homework.c:585-604 | the three sweeps together cover the positions that the size makes reachable, both ways |
| FileRead.ReadInode | homework.c:907-952 | with t the int that the offset becomes and z the size: min(len, z - t) bytes come out, byte i being the file's byte t + i, and that is the return value; none if t is at or past the end or t+len does not fit a size_t; EISDIR for what is no regular file |
| FileRead.ReadKeepsPromise | homework.c:907-928 | those bytes are the content from the offset on, and nothing past the end, if and only if the offset fits an int just when t+len fits a size_t, or t lies at or past the end, or nothing was asked for |
| FileRead.WrappedLength | homework.c:927-930 | a length whose sum with the offset wraps is left alone and becomes a negative int, so that nothing is copied |
| FileRead.ToIntBack | homework.c:951 | the count returned, converted to int once more, is the number of bytes copied |
| FileRead.ReadStored | homework.c:929-951 | the three levels in turn copy out every stored byte of the range, in order |
| FileRead.ReadLevel1 | homework.c:956-978 | the direct part of a range, never through a zero pointer |
| FileRead.ReadLevel2 | homework.c:980-1006 | the part under one index block, never through a zero pointer |
| FileRead.ReadLevel3 | homework.c:1008-1033 | the part under indir_2; ignoring the inner count is right |
| FileRead.ReadBytes | homework.c:1035-1046 | the bytes of a block are the bytes of the file at that position |
| FileOps.Write | homework.c:1061-1072 | by path to a file or a directory: the returned number of bytes of the buffer are the object's bytes from the offset on and all its other bytes, its owner, mode and times, and every other inode stay; the whole invariant holds afterwards if and only if the offset was refused, the path led to a file, or the directory's slots are as DirWrite.DirWriteIff asks |
| DirWrite.DirWriteIff | homework.c:1061-1130 | a write to a directory leaves the tree of names intact if and only if it stays in the block or no block is free, and the slots of the old block with the new bytes read as before |
| DirWrite.NamedIff | homework.c:1061-1130 | after any growth and rewriting of one directory the tree of names holds if and only if the directory has its one block and every slot agrees in validity, type, inode and name |
| DirWrite.DirExtent | homework.c:1073-1129 | the directory gets no second block if and only if the write ends in the first or no block is free; the first is filled in any case |
| DirWrite.SameBytesKeep | homework.c:1061-1130 | writing to a directory nothing, or the bytes that are there, leaves the tree of names intact |
| FileOps.Read | homework.c:907-952 | by path: the same bytes and count, EISDIR for a directory, ENOENT or ENOTDIR as the lookup says; nothing changes |
| FileOps.Truncate | homework.c:567-612 | by path, with every error code; an error changes nothing; otherwise owner, mode and times stay, size and pointers are 0, and every other inode stays |
| FileOps.TruncatedNamed | homework.c:567-612 | truncating a file leaves the tree of names intact |
| Alloc.AllocPointer | homework.c:1149-1164 | a block for a pointer of the inode: fails exactly when none is free; else the tree has one more position and every byte of every file is as before |
| Alloc.AllocWord | homework.c:1197-1211 | the same for a word of an index block, whose cached copy stays exact |
| Alloc.LinkExtended | homework.c:1149-1164 | hanging a zeroed free block at the next position adds that position only |
| Forest.LinkAt | homework.c:1275-1287 | a recycled block starts with zero pointers, so only the new position's pointer changes |
| Forest.LinkOwned | homework.c:1140-1164 | the ownership invariant survives an allocation |
| Forest.LinkGrown | homework.c:1140-1164 | an allocation grows one tree, takes one free block and touches no other file's block |
| Forest.LinkBytes | homework.c:1275-1287 | no byte of any file changes by an allocation, since new blocks read as zeros |
| Forest.FrameOwned | homework.c:1166-1169 | writing data blocks keeps the ownership invariant |
| Forest.SplicedTrans | homework.c:1170-1171 | two chunks written one after the other are one splice |
| Volumes.Volume.FindFreeBlock | homework.c:1275-1287 | the first free block, zeroed, never block 0; ENOSPC exactly when none is free |
| Volumes.Volume.UpdateBitmap | homework.c:1269-1272 | both maps go to their regions and nothing else of the device changes |
| Volumes.Volume.UpdateInode | homework.c:412-415 | the block that holds the inode is written from the table |
| Volumes.Volume.Mount | homework.c:61-88 | the state loaded is what the regions of the image decode to |
| Volumes.Volume.Reload | homework.c:61-88 | loading a coherent image again changes nothing |
| Volumes.Volume.ReadBlock | image.c:37-51 | a read in the device's range delivers the block |
| Volumes.Volume.WriteBlock | image.c:53-64 | a write in range, not to block 0, replaces that block only |
| Flush.ReloadSame | homework.c:61-88 | decoding the image of a coherent state gives that state |
| Flush.LoadedCoherent | homework.c:61-88 | what is loaded is coherent |
| Flush.LoadedInFull | homework.c:61-88 | what mounting loads: the sizes in the superblock's words, and behind it the inode map, the block map and the inodes |
| Flush.FlushMapsCoherent | homework.c:1269-1272 | after update_bitmap the regions decode to the maps in memory |
| Flush.FlushInodeCoherent | homework.c:412-415 | after update_inode every inode of the region decodes to the one in memory |
| Flush.MetaAgreeCoherent | homework.c:1166-1169 | writes to the data region leave the metadata coherent |
| Codec.WordsRoundTrip | homework.c:1186-1187 | index blocks read back as written |
| Codec.BitsRoundTrip | homework.c:1269-1272 | bitmaps read back as written |
| Codec.InodesRoundTrip | fs5600.h:38-49 | inodes read back as written, all fields |
| Codec.InodeLayout | fs5600.h:38-49 | where each field of an inode lies in its 64 bytes, lowest byte first |
| Codec.DirRoundTrip | fs5600.h:16-21 | directory blocks read back as written, all fields |
| Codec.DirentLayout | fs5600.h:16-21 | where each field of a directory slot lies in its 32 bytes |
| Codec.DirentBytesBack | fs5600.h:16-21 | a directory slot read and written again gives its 32 bytes back |
| Codec.WithBitReads | mkfs-x6.c:93-96 | FD_SET on a bitmap in a disk block sets that bit and no other |
| Codec.BitLayout | mkfs-x6.c:93-96 | bit t of a map is bit t mod 8 of byte t / 8 |
| Codec.CStrTerminated | homework.c:400-401 | a name followed by a NUL reads as that name |
| Paths.NextToken | homework.c:131-165 | one strtok call delivers the first remaining token and where it ends |
| Paths.TrancatePath | homework.c:178-196 | the path up to its last slash once trailing slashes are gone; fails when there is none |
| Paths.GetName | homework.c:422-432 | what follows the last slash |
| Paths.PathSplit | homework.c:178-196 | the two parts concatenate back to the path and have its tokens |
| Paths.StripOneSame | homework.c:417-421 | one trailing slash makes no difference to the tokens and the truncated path |
| Paths.StrippedTokens | homework.c:112-196 | trailing slashes make no difference to the tokens |
| Namespace.LookupSplit | homework.c:112-196 | looking a path up is looking its name up in what the truncated path leads to, errors included |
| Namespace.LookupCases | homework.c:112-174 | a path without components is the root; another is what the directory of its last component holds under that name, ENOTDIR below a file |
| Namespace.LookupStripped | homework.c:112-196 | the same with trailing slashes, which translate and trancate_path skip |
| Namespace.LookupOk | homework.c:112-174 | what a path leads to is a live inode of the type the slot says |
| Namespace.LookupPlaced | homework.c:112-174 | a directory that a path leads to is the root or has a name |
| Namespace.GrownNamed | homework.c:1061-1130 | writing a file leaves the tree of names intact |
| Namespace.SameDirsNamed | homework.c:149-160 | the tree of names depends on directory blocks, types and the inode map only |
| Translation.Translate | homework.c:112-174 | reading directory blocks token by token gives the inode, ENOENT or ENOTDIR that the lookup in the tree gives, for every path |
| Translation.NewName | homework.c:354-359 | the name that get_name finds for a path that leads nowhere is free in the path's directory, and empty exactly after a trailing slash |
| Translation.FindEntry | homework.c:149-160 | the scan that does not stop at a match finds the one valid slot of that name |
| DirSteps.FindFreeInode | homework.c:434-443 | the first clear bit from 2 on, within the map |
| DirSteps.ClaimInode | homework.c:381-386 | bit, maps and inode go out; all stays coherent and no data block changes |
| DirSteps.WithDirOwned | homework.c:404-407 | writing one directory's block changes that directory only and keeps ownership and coherence |
| DirSteps.WithDirSound | homework.c:404-406 | writing the first block of any inode as a directory keeps ownership and coherence and no other inode's bytes change |
| DirSteps.WithDirBytes | homework.c:404-406 | of the inode itself exactly the 32 bytes of the slot change |
| DirSteps.ClaimedOwned | homework.c:381-386 | claiming an unused inode keeps ownership and every byte |
| DirSteps.NamedAdd | homework.c:391-407 | filling a free slot adds one name and keeps the tree invariant |
| DirSteps.NamedDrop | homework.c:687-695 | invalidating a slot removes one name and keeps the tree invariant |
| DirSteps.NamedMove | homework.c:836-842 | renaming a slot moves one name and keeps the tree invariant |
| Directory.FindFreeDirent | homework.c:445-459 | the first invalid slot, -1 if there is none |
| Directory.Mknod | homework.c:339-410 | for every path each return value with the order of the checks; on success the first clear inode has the given owner, group, mode and times and is empty, and below a directory exactly the new name appears, below a file no name changes and 32 bytes of the file are overwritten; otherwise nothing changes; after a trailing slash the name is empty and the tree is as before, but the slot is valid |
| Directory.SlotOfNode | homework.c:391-407 | the new slot is valid, of the right type, with the inode's number, the name and zeros after it; every other slot, inode and bit stays |
| Directory.BytesOfLost | homework.c:391-407 | below a file the 32 bytes are the header word, the name and zeros, and no other byte or inode changes |
| Directory.MadeNameless | homework.c:391-407 | a node made below a directory under an empty name leaves a volume that holds no tree of names |
| Directory.CheckNew | homework.c:344-359 | the checks that mknod and mkdir share, with their order |
| Directory.AddFile | homework.c:381-407 | claiming and entering a file keeps the whole invariant, below a file, and below a directory unless the name is empty |
| Directory.EnterName | homework.c:391-407 | exactly one slot of the parent's first block is written; below a directory the name resolves to the inode, unless it is empty |
| Directory.FileBlockNamed | homework.c:404-406 | overwriting a file's first block keeps the tree of names |
| Directory.ClaimedNamed | homework.c:381-386 | taking an inode without naming it keeps the tree of names |
| Directory.Mkdir | homework.c:470-557 | for every path each return value with the order of the checks; on success the first clear inode has the given owner, group, permissions and times, the directory type, and one formerly free block of zeros, and the name appears (an empty one after a trailing slash); exactly one block lost when there is no inode |
| Directory.OrDirMode | homework.c:472-475 | or-ing the directory bit gives a directory's mode exactly for modes of no other type, and leaves the permissions |
| Directory.CheckMkdir | homework.c:477-504 | the checks of mkdir in order, the parent's type after the free slot |
| Directory.NewDirBlock | homework.c:516-521 | a free block is zeroed and marked and owned by no one yet |
| Directory.AddDir | homework.c:527-551 | claiming and entering a directory keeps the whole invariant unless the name is empty |
| Directory.ReservedOwned | homework.c:516-521 | reserving a block keeps ownership, costs one free block, changes no byte |
| Removal.Unlink | homework.c:651-702 | for every path each return value; on success the slot has lost its valid bit only, the inode's bit is clear, the reachable blocks are freed, and every other inode, bit and byte stays; with a trailing slash the same but for the name, which stays in a valid slot, and ENOENT |
| Removal.DanglesBreaks | homework.c:675-698 | a volume with a slot for a freed inode holds no tree of names |
| Removal.DropMatches | homework.c:685-694 | the scan invalidates exactly the valid slots of that name |
| Removal.OneMatch | homework.c:685-694 | in a directory of the tree that is exactly the entry's slot |
| Removal.RemoveEntry | homework.c:679-695 | removing the entry keeps the whole invariant; with an empty name nothing is found and the device is as before |
| Removal.Rmdir | homework.c:709-773 | for every path each return value, ENOTEMPTY exactly if some name stands in the directory; on success two inode bits are set, no block or inode is released, and the slot has lost its valid bit only, or is as before if two slashes trail |
| Removal.StripOneParent | homework.c:753-757 | strip and get_name give the name that trancate_path cuts off, or nothing after a second slash |
| Removal.MarkTwice | homework.c:745-751 | both FD_SETs go to the inode map |
| Removal.IsEmptyDir | homework.c:729-743 | the scan decides whether the tree has names in the directory |
| Removal.Rename | homework.c:789-848 | for every two paths: the source's lookup error if it has one, else EEXIST if the destination is found, else EINVAL if the directories differ, else 0; an error changes nothing; on success the entry has the new name and nothing else changes; with a slash after the source nothing happens, with one after the destination the slot's name is empty |
| Removal.SlotOfRenamed | homework.c:834-842 | the slot keeps its type, its inode and the bytes beyond the new name and its NUL; the other slots stay |
| Removal.RenamedNameless | homework.c:834-842 | the slot renamed to nothing is valid and has no name |
| Translation.NamelessBreaks | homework.c:834-842 | a volume with such a slot holds no tree of names |
| Removal.RenameInDir | homework.c:833-842 | renaming the matching slot in place, old bytes after the NUL included, keeps the invariant |
| Removal.FatherOf | homework.c:668-681 | the truncated path leads to the directory that holds the name |
| NameFacts.OneName | homework.c:354-410 | each inode has at most one name, the root none, and named inodes are marked |
| NameFacts.DistinctNames | homework.c:354-410 | names are unique among the valid slots of a directory |
| NameFacts.ReachableIffNamed | homework.c:112-174 | an inode is reached from the root if and only if it is the root or some name stands for it |
| NameFacts.PathTo | homework.c:112-174 | every name of the tree is found from the root by a sequence of names |
| NameFacts.NoCycles | homework.c:488-557 | no inode is reached from itself |
| NameFacts.OnePath | homework.c:112-174 | no inode is reached by two sequences of names |
| NameFacts.AddedResolves | homework.c:339-410 | after mknod or mkdir the new path leads to the new inode |
| NameFacts.AddedKeeps | homework.c:339-410 | every path that resolved before still does, to the same inode |
| NameFacts.DroppedIsMissing | homework.c:651-702 | after unlink or rmdir the path gives ENOENT |
| NameFacts.MovedSubtree | homework.c:789-848 | after rename the old path is gone and everything below is found under the new one |
| NameFacts.UnrelatedPaths | homework.c:112-174 | paths that do not ask for an updated name resolve as before |
| NameFacts.UpdatedPath | homework.c:112-174 | after any update within one directory, a path into it resolves to what the new tree holds |
| Mkfs.MakeFs | mkfs-x6.c:59-116 | for every multiple of the block size the superblock gives the magic number, the number of blocks, root inode 1, and for the two maps and the inode region the least number of blocks that holds n, n/4 bits and n/4 inodes of 64 bytes; the rest is as BitsOfImage and InodesOfImage say |
| Mkfs.LayoutSizes | mkfs-x6.c:62-83 | each region is the smallest that holds what it is for, and they follow one another |
| Mkfs.BitsOfImage | mkfs-x6.c:93-96 | the inode map has bits 0 and 1, the block map those up to the block after the inode region, and no others |
| Mkfs.InodesOfImage | mkfs-x6.c:98-102 | inode 1 has owner 1001, group 125, mode 040777, both times, size 1024 and the root block as its only pointer; the other inodes and all later blocks are zero |
| Mkfs.MarkBlocks | mkfs-x6.c:95-96 | the loop marks exactly the blocks up to the root block |
| Mkfs.LayoutFits | mkfs-x6.c:62-84 | from five blocks up the regions and the root block are disjoint and fit; the maps cover all blocks and inodes |
| Mkfs.FiveIsLeast | mkfs-x6.c:62-84 | the regions and the root block are in order and fit if and only if there are at least five blocks |
| Mkfs.FewBlocks | mkfs-x6.c:62-84 | with fewer the root block is off the disk, or for three blocks is where the root inode goes |
| Mkfs.MadeEmpty | mkfs-x6.c:87-102 | the image loads to a coherent empty volume |
| Mkfs.EmptyVolumeValid | mkfs-x6.c:93-102 | the empty volume satisfies the ownership and the tree invariant |
| ReadImg.CheckImage | read-img.c:65-141 | on any image no ERROR exactly if each directory queued is one, its block is marked and its valid slots name marked inodes of the region, and each block followed for a file queued is marked; the maps hold exactly what the entries refer to; on a sound image no ERROR, and the root and each inode with a name queued once, unless the queue overflows, which it does if and only if over 100 can be reached |
| ReadImg.WalkImage | read-img.c:65-141 | the loop: the queue is the breadth-first expansion of the root, and the maps and the count of ERRORs are those of its entries |
| ReadImg.ReportInFull | read-img.c:72-138 | the condition for no ERROR, slot by slot and position by position |
| ReadImg.FollowedInFull | read-img.c:79-111 | which positions of a file the walk follows, in terms of its pointers and the words of its index blocks |
| ReadImg.FollowsInFull | read-img.c:126-137 | what an entry adds to the queue: the inodes of the region in the valid slots of a directory that is one, with their types |
| ReadImg.BlocksInFull | read-img.c:79-123 | the blocks an entry refers to: a directory's first, or those followed for a file |
| ReadImg.MapsInFull | read-img.c:82-137 | the walk's maps hold a block or an inode exactly if some entry refers to it |
| ReadImg.CheckFile | read-img.c:72-113 | exactly the blocks the pointer walk follows are noted, with an ERROR exactly if one is marked free |
| ReadImg.CheckDouble | read-img.c:97-111 | the part under indir_2, up to its first missing leaf |
| ReadImg.CheckDir | read-img.c:125-138 | exactly the children in valid slots are queued and noted, and no ERROR is counted exactly if each valid slot names a marked inode of the region |
| ReadImg.NoErrorIffClean | read-img.c:65-141 | a walk over any image prints no ERROR if and only if, for whatever can be reached by references from the root, directories are directories with a marked block whose valid slots name marked inodes of the region, and the blocks followed for files are marked |
| ReadImg.CleanMarked | read-img.c:79-138 | without an ERROR every block and inode noted is marked allocated |
| ReadImg.TakeSlot | read-img.c:125-138 | on a sound image a slot's inode has not been queued before |
| ReadImg.OverflowMany | read-img.c:65-68 | the queue overflows on a sound image only if over 100 objects can be reached |
| ReadImg.QueueHoldsAll | read-img.c:65-141 | a queue of 100 that holds each reachable object once leaves no more to be reached |
| ReadImg.WalkDone | read-img.c:69-141 | the finished queue holds the reachable inodes, which are the root and those with a name, each once |
| Transfer.Put | misc.c:241-264 | the file has the given owner and group and mode 0100777, holds a prefix of the input, and the whole of it if and only if there was space, whatever the chunk size; EINVAL is returned exactly when a chunk ended where an index root is missing, 0 otherwise |
| Transfer.LostAtBoundary | misc.c:255-260 | a stored chunk loses its tail exactly if it ends at byte 6144 with six blocks, or at 268288 with 263 |
| Transfer.Get | misc.c:271-292 | the whole content comes out, whatever the chunk size, or the lookup's error |
| Transfer.PutThenGet | misc.c:255-289 | put and get reproduce the input if and only if there was space for it |
| Transfer.PutChunk | misc.c:255-260 | one chunk stored extends the file's content by it, or its tail is lost |
| Transfer.PutShort | misc.c:256-258 | a chunk that came back short means there was not enough space |
| Transfer.MakeTarget | misc.c:250-253 | the new file is there and empty, or nothing has changed |
| Departures.TailLost | homework.c:1088-1090 | with six free blocks a write of 6144 bytes returns 6144 and the file is still empty |
| Departures.PutReports | misc.c:255-263 | with six free blocks a put of 6145 bytes returns 0 for every chunk size that does not divide 6144, and never stores them |
| Departures.FillAndEmpty | homework.c:585-604 | on a mounted volume, for every empty file without blocks and every buffer, filling and truncating gives the block map back if and only if it is not one of the kinds that leak |
| Departures.LeakedRoot | homework.c:598-604 | with seven free blocks and 6144 bytes it leaks |
| Departures.ReadBeyond | homework.c:914-928 | a read at offset 2^32 of a one-byte file delivers the byte |
| Departures.MknodUnderFile | homework.c:339-410 | mknod below a file: the invariant and every path are kept, and the file's content is damaged if and only if the checks pass and the first invalid slot of its first block begins below its size |
| Departures.DamageIff | homework.c:404-406 | the overwritten slot damages the content if and only if it begins below the size |
| Departures.NodeInFile | homework.c:339-410 | mknod of /f/x returns 0, the path still gives ENOTDIR, and the one byte of /f has changed |
| Departures.MknodSlashed | homework.c:339-410 | mknod of /f/ on an empty volume returns 0 and leaves a volume without a tree of names |
| Departures.MkdirLosesBlock | homework.c:516-525 | on a volume with seven free blocks and no free inode mkdir returns ENOSPC and six are free |
| Departures.RmdirKeepsBlock | homework.c:745-751 | mkdir and rmdir of /f on a volume with seven free blocks return 0; the path is missing, a block beyond the root's is marked, and six are free |
| Departures.RmdirSlashed | homework.c:753-757 | rmdir of /f// returns 0 and the path still leads to the directory |
| Departures.UnlinkSlashed | homework.c:651-702 | unlink of /f/ returns ENOENT and leaves a volume without a tree of names |
| Departures.RenamedAway | homework.c:789-848 | rename of /f to /g/ returns 0 and leaves a volume without a tree of names |
| Departures.RootWritten | homework.c:1061-1130 | a write of one even byte to / makes the slot of /f invalid and the tree of names is lost |

## Left out

- FUSE glue, `fs_ops`, `fs_statfs`, `fs_readdir`, `set_attr`, `fs_chmod`, `fs_utime`: single-field updates and listings that add no harder property.
- `getuid`, `getgid` and `time`: parameters of the operations.
- Host files in `image.c`, `mkfs-x6.c` and `misc.c`: the device is an array of blocks, host files are byte sequences.
- `malloc`, `free`, `sleep`, `printf`: without effect on the state.
- The command shell of `misc.c` apart from the two transfer loops.
- `mktest.c`: one fixed image.
- The last two reports of `read-img.c` (143-153): they cannot show a leak; printing is reduced to whether there is an ERROR line.
- Directory.Mknod: requires, once its checks are passed, an inode bit inside the region, a short name, and a first block below a file; the C code would write outside the inode table, fail an assertion, or write block 0.
- Directory.Mkdir: requires the same of the path and the inode bit, and a free block, because the C code would set a bit at a negative index.
- Removal.Unlink: requires, for a file, a path with a slash before its name; the C code would use a pointer it has not set.
- Removal.Rmdir: requires that the block number lies in the inode map, because the C code would write outside it, and that the path is not the root, which it asserts.
- Removal.Rename: requires paths that can be cut, because the C code would free pointers it has not set, and a destination name that fits its slot.
- FileOps.Write: requires a path that leads somewhere, because the C code would index the inode table with an error code; lengths are bounded so that the level arithmetic stays in range.
- FileOps.Read: requires an offset that becomes no negative int, because the C code would read before the block buffer or before the direct pointers; `size_t` has 64 bits.
- FileWrite.WriteInode: does not give the number of leaf index blocks as a function of the input after a write that ran out of space; at most one of them is empty, as the invariant says.
- ReadImg.CheckImage: requires that no pointer of the image leads off the disk, and stops where the C code would write past its queue of 100 entries; its own maps have one bit per block and inode, where the C code rounds their sizes down (32-33).
- Mkfs.MakeFs: bounds the number of blocks so that the size in bytes is a C int.
- Transfer.Put: requires what mknod does, a parent that is no file, and a path without a trailing slash, because the writes would go to an error code; chunk sizes are positive C ints.
- The five allocation steps that the C code repeats inline: one method each for inode pointers and index words.
- Concurrency and crashes: the code is single-threaded and does not order its writes.
