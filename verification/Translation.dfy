/** translate: a path to an inode number, by reading directory blocks. */
module Translation {
  import opened Codec
  import opened Image
  import opened Paths
  import opened Namespace
  import opened Volumes

  /** The entry of directory d with a given name, if its valid slots have one. */
  lemma SlotLookup(s: Fs, sh: Shape, nm: Names, d: nat, name: Name, i: nat)
    requires Geometry(s) && Owned(s, sh) && Named(s, sh, nm) && IsDir(s, d) && i < DIRENTS_PER_BLOCK
    ensures d < |s.inodes|
    ensures var e := DirOf(s, d)[i];
            e.valid && CStr(e.name) == name <==> Key(d, name) in nm.tree && nm.tree[Key(d, name)].slot == i
    ensures var e := DirOf(s, d)[i];
            e.valid && CStr(e.name) == name ==> nm.tree[Key(d, name)] == Entry(i, e.inode, e.isDir)
  {
    hide DirOf, Geometry, Owned, CStr, IsDirMode, IsRegMode;
    assert SlotOk(nm, d, i, DirOf(s, d)[i]);
    if Key(d, name) in nm.tree {
      assert EntryOk(s, nm, Key(d, name));
    }
  }

  /** The scan of one directory block for a name; it does not stop at a match. */
  method FindEntry(v: Volume, d: nat, token: Name) returns (found: bool, inum: nat, isDir: bool)
    requires v.Valid() && IsDir(v.State(), d)
    ensures found <==> Key(d, token) in v.names.tree
    ensures found ==> v.names.tree[Key(d, token)].inum == inum && v.names.tree[Key(d, token)].isDir == isDir
  {
    hide Geometry, Owned, Coherent, DirOf, DecodeDir, CStr, Named, UseOk;
    ghost var s, sh, nm := v.State(), v.shape, v.names;
    NamedUse(s, sh, nm);
    DirBlock(s, sh, d);
    var blk := v.ReadBlock(v.inodes[d].direct[0]);
    var dir := DecodeDir(blk);
    found, inum, isDir := false, 0, false;
    for i := 0 to DIRENTS_PER_BLOCK
      invariant found <==> Key(d, token) in nm.tree && nm.tree[Key(d, token)].slot < i
      invariant found ==> nm.tree[Key(d, token)].inum == inum && nm.tree[Key(d, token)].isDir == isDir
    {
      SlotLookup(s, sh, nm, d, token, i);
      if CStr(dir[i].name) == token && dir[i].valid {
        found, inum, isDir := true, dir[i].inode, dir[i].isDir;
      }
    }
    EntrySlot(s, sh, nm, Key(d, token));
  }

  lemma EntrySlot(s: Fs, sh: Shape, nm: Names, key: Key)
    requires Named(s, sh, nm)
    ensures key in nm.tree ==> EntryOk(s, nm, key) && ChildOk(s, nm, key)
    ensures key in nm.tree ==> nm.tree[key].slot < DIRENTS_PER_BLOCK && 2 <= nm.tree[key].inum < |s.inodes|
    ensures key in nm.tree ==> (nm.tree[key].isDir ==> IsDir(s, nm.tree[key].inum))
    ensures key in nm.tree ==> IsDir(s, key.dir)
    ensures key in nm.tree ==> s.inodeMap[nm.tree[key].inum]
  {
    hide DirOf, CStr, GoodName;
    if key in nm.tree {
      assert EntryOk(s, nm, key) && ChildOk(s, nm, key);
    }
  }

  lemma KeyNotEmpty(s: Fs, sh: Shape, nm: Names, d: nat)
    requires Named(s, sh, nm)
    ensures Key(d, []) !in nm.tree
  {
    hide DirOf, CStr, IsDirMode;
    EntrySlot(s, sh, nm, Key(d, []));
  }

  /** A valid slot without a name. */
  ghost predicate Nameless(s: Fs, d: nat, i: nat) {
    IsDir(s, d) && i < DIRENTS_PER_BLOCK && DirOf(s, d)[i].valid && CStr(DirOf(s, d)[i].name) == []
  }

  /** Such a volume holds no tree of names at all. */
  lemma NamelessBreaks(s: Fs, d: nat, i: nat, sh: Shape, nm: Names)
    requires Nameless(s, d, i)
    ensures !Named(s, sh, nm)
  {
    hide DirOf, CStr, IsDirMode, Named;
    if Named(s, sh, nm) {
      KeyNotEmpty(s, sh, nm, d);
      SlotFacts(s, sh, nm, d, i);
    }
  }

  /** The name that get_name finds for a path that leads nowhere: it is free in
      the path's directory, and empty exactly after a trailing slash. */
  lemma NewName(s: Fs, sh: Shape, nm: Names, path: seq<byte>)
    requires Named(s, sh, nm) && HasParent(path) && !Lookup(nm.tree, path).Found?
    ensures SLASH in path && (BaseName(path) == [] <==> TrailingSlash(path))
    ensures BaseName(path) == [] || (ShortName(path) ==> GoodName(BaseName(path)))
    ensures var p := Lookup(nm.tree, DirName(Stripped(path)));
            p.Found? && p.isDir ==> Key(p.inum, BaseName(path)) !in nm.tree
  {
    hide Named, Lookup, Tokens, DirName, LastSlash;
    HasParentFacts(path);
    NameOfSlashed(path);
    LookupStripped(nm.tree, path);
    var p := Lookup(nm.tree, DirName(Stripped(path)));
    if p.Found? {
      KeyNotEmpty(s, sh, nm, p.inum);
    }
    if !TrailingSlash(path) {
      PathSplit(path);
    }
  }

  /** translate reads the blocks and agrees with Lookup in the tree they hold. */
  method Translate(v: Volume, path: seq<byte>) returns (inum: int)
    requires v.Valid()
    ensures match Lookup(v.names.tree, path)
            case Found(n, _) => inum == n
            case Missing => inum == -ENOENT
            case NotDir => inum == -ENOTDIR
  {
    hide Geometry, Owned, Coherent, Named, Tokens;
    ghost var s, sh, nm := v.State(), v.shape, v.names;
    NamedUse(s, sh, nm);
    var inodeNum: nat, curIsDir := ROOT, true;
    var found, start, end := NextToken(path, 0);
    assert path[0..] == path;
    while found
      invariant start <= end <= |path| && (found ==> start < end)
      invariant curIsDir ==> IsDir(s, inodeNum)
      invariant Lookup(nm.tree, path)
                == Walk(nm.tree, Found(inodeNum, curIsDir),
                    if found then [path[start..end]] + Tokens(path[end..]) else [])
      decreases if found then |path| - end + 1 else 0
    {
      var token := path[start..end];
      ghost var rest := Tokens(path[end..]);
      assert ([token] + rest)[1..] == rest;
      if !curIsDir {
        WalkStuck(nm.tree, NotDir, rest);
        return -ENOTDIR;
      }
      var ok, next, nextIsDir := FindEntry(v, inodeNum, token);
      if !ok {
        WalkStuck(nm.tree, Missing, rest);
        return -ENOENT;
      }
      EntrySlot(s, sh, nm, Key(inodeNum, token));
      inodeNum, curIsDir := next, nextIsDir;
      found, start, end := NextToken(path, end);
    }
    return inodeNum;
  }
}
