/** Path strings: strtok on "/", trancate_path and get_name. */
module Paths {
  import opened Codec

  const SLASH: byte := 47

  type Name = seq<byte>

  function TokenLen(p: seq<byte>): (n: nat)
    ensures n <= |p| && (n < |p| ==> p[n] == SLASH) && SLASH !in p[..n]
  {
    if p == [] || p[0] == SLASH then 0 else 1 + TokenLen(p[1..])
  }

  /** The tokens strtok(path, "/") delivers (section 7.24.5.8 of C11). */
  function Tokens(p: seq<byte>): seq<Name>
    decreases |p|
  {
    if p == [] then []
    else if p[0] == SLASH then Tokens(p[1..])
    else [p[..TokenLen(p)]] + Tokens(p[TokenLen(p)..])
  }

  lemma SkipSlash(path: seq<byte>, i: nat)
    requires i < |path| && path[i] == SLASH
    ensures Tokens(path[i..]) == Tokens(path[i + 1..])
  {
    assert path[i..][1..] == path[i + 1..];
  }

  lemma TakeToken(path: seq<byte>, i: nat, j: nat)
    requires i < j <= |path| && path[i] != SLASH && TokenLen(path[i..]) == j - i
    ensures Tokens(path[i..]) == [path[i..j]] + Tokens(path[j..])
  {
    assert path[i..][..j - i] == path[i..j] && path[i..][j - i..] == path[j..];
  }

  /** One call of strtok, continuing at pos. */
  method NextToken(path: seq<byte>, pos: nat) returns (found: bool, start: nat, end: nat)
    requires pos <= |path|
    ensures pos <= start <= end <= |path|
    ensures !found ==> Tokens(path[pos..]) == []
    ensures found ==> start < end
                      && Tokens(path[pos..]) == [path[start..end]] + Tokens(path[end..])
  {
    hide Tokens, TokenLen;
    start := pos;
    while start < |path| && path[start] == SLASH
      invariant pos <= start <= |path| && Tokens(path[start..]) == Tokens(path[pos..])
    {
      SkipSlash(path, start);
      start := start + 1;
    }
    end := start;
    if start == |path| {
      NoTokens(path[start..]);
      return false, start, end;
    }
    while end < |path| && path[end] != SLASH
      invariant start <= end <= |path|
      invariant TokenLen(path[start..]) == end - start + TokenLen(path[end..])
    {
      TokenLenSuffix(path, end);
      end := end + 1;
    }
    TokenEnds(path[end..]);
    TokenBegins(path[start..]);
    TakeToken(path, start, end);
    found := true;
  }

  lemma NoTokens(p: seq<byte>)
    requires p == []
    ensures Tokens(p) == []
  {
  }

  lemma TokenEnds(p: seq<byte>)
    requires p == [] || p[0] == SLASH
    ensures TokenLen(p) == 0
  {
  }

  lemma TokenBegins(p: seq<byte>)
    requires p != [] && p[0] != SLASH
    ensures TokenLen(p) > 0
  {
  }

  lemma TokenLenSuffix(path: seq<byte>, i: nat)
    requires i < |path| && path[i] != SLASH
    ensures TokenLen(path[i..]) == 1 + TokenLen(path[i + 1..])
  {
    assert path[i..][1..] == path[i + 1..];
  }

  /** Index of the last slash, -1 if there is none. */
  function LastSlash(p: seq<byte>): (i: int)
    ensures -1 <= i < |p| && (i >= 0 ==> p[i] == SLASH)
    ensures forall k | i < k < |p| :: p[k] != SLASH
  {
    if p == [] then -1 else if p[|p| - 1] == SLASH then |p| - 1 else LastSlash(p[..|p| - 1])
  }

  /** The path up to and including its last slash, and what follows. */
  function DirName(p: seq<byte>): seq<byte> { p[..LastSlash(p) + 1] }

  function BaseName(p: seq<byte>): seq<byte> { p[LastSlash(p) + 1..] }

  function Stripped(p: seq<byte>): (r: seq<byte>)
    ensures r <= p && (r != [] ==> r[|r| - 1] != SLASH)
    ensures forall k | |r| <= k < |p| :: p[k] == SLASH
  {
    if p == [] then [] else if p[|p| - 1] == SLASH then Stripped(p[..|p| - 1]) else p
  }

  lemma StrippedStep(p: seq<byte>, i: nat)
    requires i < |p|
    ensures p[i] == SLASH ==> Stripped(p[..i + 1]) == Stripped(p[..i])
    ensures p[i] != SLASH ==> Stripped(p[..i + 1]) == p[..i + 1]
  {
    assert p[..i + 1][..i] == p[..i];
  }

  lemma LastSlashStep(p: seq<byte>, i: nat)
    requires i < |p|
    ensures LastSlash(p[..i + 1]) == if p[i] == SLASH then i else LastSlash(p[..i])
  {
    assert p[..i + 1][..i] == p[..i];
  }

  lemma StrippedNothing(p: seq<byte>)
    requires p == []
    ensures Stripped(p) == [] && LastSlash(p) == -1
  {
  }

  /** trancate_path: trailing slashes are skipped, then everything after the
      last slash is cut off; false when no slash is left. */
  method TrancatePath(path: seq<byte>) returns (ok: bool, trancated: seq<byte>)
    ensures ok <==> LastSlash(Stripped(path)) >= 0
    ensures ok ==> trancated == DirName(Stripped(path))
  {
    hide Stripped, LastSlash;
    trancated := [];
    var i := |path| - 1;
    assert path[..|path|] == path;
    while i >= 0
      invariant -1 <= i < |path| && Stripped(path) == Stripped(path[..i + 1])
    {
      StrippedStep(path, i);
      if path[i] != SLASH {
        break;
      }
      i := i - 1;
    }
    StrippedNothing([]);
    ghost var q := Stripped(path);
    assert q == path[..i + 1];
    while i >= 0
      invariant -1 <= i < |path| && LastSlash(q) == LastSlash(path[..i + 1]) && path[..i + 1] <= q
    {
      LastSlashStep(path, i);
      if path[i] == SLASH {
        return true, path[..i + 1];
      }
      i := i - 1;
    }
    return false, [];
  }

  /** get_name: what follows the last slash.  Without a slash the C code would
      point before the string. */
  method GetName(path: seq<byte>) returns (name: seq<byte>)
    requires SLASH in path
    ensures name == BaseName(path)
  {
    hide LastSlash;
    var i := |path| - 1;
    assert path[..|path|] == path;
    while i >= 0
      invariant -1 <= i < |path| && LastSlash(path) == LastSlash(path[..i + 1])
      invariant SLASH in path[..i + 1]
    {
      LastSlashStep(path, i);
      if path[i] == SLASH {
        i := i + 1;
        break;
      }
      assert path[..i + 1] == path[..i] + [path[i]];
      i := i - 1;
    }
    name := path[i..];
  }

  /** A path with a slash, but with none at its end; FUSE passes down no other
      but the root. */
  predicate Clean(p: seq<byte>) {
    p != [] && SLASH in p && p[|p| - 1] != SLASH && 0 !in p
  }

  predicate TrailingSlash(p: seq<byte>) {
    p != [] && p[|p| - 1] == SLASH
  }

  /** The last component fits a directory entry. */
  predicate ShortName(p: seq<byte>) { |BaseName(p)| < NAME_FIELD }

  predicate GoodName(n: Name) {
    0 < |n| < NAME_FIELD && 0 !in n && SLASH !in n
  }

  lemma GoodNameFacts(n: Name)
    requires GoodName(n)
    ensures 0 !in n && 0 < |n| < NAME_FIELD
  {
  }

  lemma {:induction false} TokensConcat(a: seq<byte>, b: seq<byte>)
    requires a == [] || a[|a| - 1] == SLASH
    ensures Tokens(a + b) == Tokens(a) + Tokens(b)
    decreases |a|
  {
    if a == [] {
      assert a + b == b;
    } else if a[0] == SLASH {
      assert (a + b)[1..] == a[1..] + b;
      TokensConcat(a[1..], b);
    } else {
      var n := TokenLen(a);
      TokenLenConcat(a, b);
      assert (a + b)[..n] == a[..n] && (a + b)[n..] == a[n..] + b;
      TokensConcat(a[n..], b);
    }
  }

  lemma {:induction false} TokenLenConcat(a: seq<byte>, b: seq<byte>)
    requires a != [] && a[|a| - 1] == SLASH
    ensures TokenLen(a + b) == TokenLen(a)
  {
    if a[0] != SLASH {
      assert (a + b)[1..] == a[1..] + b;
      TokenLenConcat(a[1..], b);
    }
  }

  lemma {:induction false} TokensOfName(n: Name)
    requires SLASH !in n
    ensures Tokens(n) == if n == [] then [] else [n]
  {
    if n != [] {
      var l := TokenLen(n);
      assert l == |n|;
      assert n[..l] == n && n[l..] == [];
    }
  }

  lemma CleanSlash(p: seq<byte>)
    requires Clean(p)
    ensures Stripped(p) == p
    ensures 0 <= LastSlash(p) < |p| - 1 && p[LastSlash(p)] == SLASH && SLASH !in p[LastSlash(p) + 1..]
  {
    hide Tokens;
  }

  /** For a clean path, trancate_path and get_name split it into two parts that
      concatenate back to it, and whose tokens are those of the path. */
  lemma PathSplit(p: seq<byte>)
    requires Clean(p)
    ensures Stripped(p) == p && LastSlash(p) >= 0
    ensures DirName(p) + BaseName(p) == p
    ensures BaseName(p) != [] && SLASH !in BaseName(p) && 0 !in BaseName(p)
    ensures Tokens(p) == Tokens(DirName(p)) + [BaseName(p)]
  {
    hide Tokens, Stripped, LastSlash;
    CleanSlash(p);
    TokensConcat(DirName(p), BaseName(p));
    TokensOfName(BaseName(p));
  }

  /** A path of which trancate_path leaves something: with a slash before its
      last component. */
  predicate HasParent(p: seq<byte>) {
    SLASH in Stripped(p) && 0 !in p
  }

  lemma HasParentFacts(p: seq<byte>)
    ensures HasParent(p) ==> LastSlash(Stripped(p)) >= 0 && SLASH in p && Clean(Stripped(p))
    ensures Clean(p) ==> HasParent(p) && Stripped(p) == p
    ensures LastSlash(Stripped(p)) >= 0 ==> SLASH in Stripped(p)
  {
    hide Tokens;
    StrippedTokens(p);
  }

  /** Trailing slashes make no difference to translate. */
  lemma {:induction false} StrippedTokens(p: seq<byte>)
    ensures Tokens(Stripped(p)) == Tokens(p)
    ensures SLASH in Stripped(p) && 0 !in p ==> Clean(Stripped(p))
    decreases |p|
  {
    if TrailingSlash(p) {
      assert p == p[..|p| - 1] + [SLASH];
      StrippedTokens(p[..|p| - 1]);
      TokensTrailing(p[..|p| - 1]);
    }
  }

  /** A path's name is empty exactly if it ends in a slash. */
  lemma NameOfSlashed(p: seq<byte>)
    requires SLASH in p
    ensures BaseName(p) == [] <==> TrailingSlash(p)
    ensures !TrailingSlash(p) ==> Stripped(p) == p
  {
  }

  /** strip: one trailing slash removed. */
  function StripOne(p: seq<byte>): seq<byte> {
    if p != [] && p[|p| - 1] == SLASH then p[..|p| - 1] else p
  }

  lemma {:induction false} TokensTrailing(p: seq<byte>)
    ensures Tokens(p + [SLASH]) == Tokens(p)
    decreases |p|
  {
    var q := p + [SLASH];
    if p == [] {
      assert q[1..] == [];
    } else if p[0] == SLASH {
      assert q[1..] == p[1..] + [SLASH];
      TokensTrailing(p[1..]);
    } else {
      var n := TokenLen(p);
      TokenLenTrailing(p);
      assert q[..n] == p[..n] && q[n..] == p[n..] + [SLASH];
      TokensTrailing(p[n..]);
    }
  }

  lemma {:induction false} TokenLenTrailing(p: seq<byte>)
    ensures TokenLen(p + [SLASH]) == TokenLen(p)
  {
    if p == [] {
      assert (p + [SLASH])[0] == SLASH;
    } else {
      assert (p + [SLASH])[1..] == p[1..] + [SLASH];
      TokenLenTrailing(p[1..]);
    }
  }

  /** One trailing slash makes no difference to translate and trancate_path. */
  lemma StripOneSame(p: seq<byte>)
    ensures Tokens(StripOne(p)) == Tokens(p) && Stripped(StripOne(p)) == Stripped(p)
  {
    if p != [] && p[|p| - 1] == SLASH {
      var q := StripOne(p);
      assert p == q + [SLASH];
      TokensTrailing(q);
    }
  }
}
