/** The suffix trie of whitelisted test paths: paths are entered from their last element. */
module SuffixTrie {

  type Path = seq<string>

  datatype Trie = Trie(children: map<string, Trie>, isEnd: bool)

  function Empty(): Trie { Trie(map[], false) }

  function Child(t: Trie, e: string): Trie { if e in t.children then t.children[e] else Empty() }

  function Reversed(p: Path): (r: Path)
    ensures |r| == |p| && forall i :: 0 <= i < |p| ==> r[i] == p[|p| - 1 - i]
  {
    seq(|p|, i requires 0 <= i < |p| => p[|p| - 1 - i])
  }

  /** The node reached along `rev` exists and is the end of an inserted path. */
  predicate Ends(t: Trie, rev: Path)
    decreases |rev|
  {
    if |rev| == 0 then t.isEnd else rev[0] in t.children && Ends(t.children[rev[0]], rev[1..])
  }

  function Inserted(t: Trie, rev: Path): Trie
    decreases |rev|
  {
    if |rev| == 0 then t.(isEnd := true)
    else t.(children := t.children[rev[0] := Inserted(Child(t, rev[0]), rev[1..])])
  }

  lemma {:induction false} NothingInEmpty(rev: Path)
    ensures !Ends(Empty(), rev)
  {
  }

  /** Inserting a path adds that path and no other. */
  lemma {:induction false} InsertAddsPath(t: Trie, rev: Path, q: Path)
    ensures Ends(Inserted(t, rev), q) <==> Ends(t, q) || q == rev
    decreases |rev|
  {
    if |rev| > 0 && |q| > 0 && q[0] == rev[0] {
      InsertAddsPath(Child(t, rev[0]), rev[1..], q[1..]);
      if rev[0] !in t.children { NothingInEmpty(q[1..]); }
      assert q == rev <==> q[1..] == rev[1..] by {
        assert q == [q[0]] + q[1..] && rev == [rev[0]] + rev[1..];
      }
    }
  }

  lemma ReversedInjective(p: Path, q: Path)
    ensures Reversed(p) == Reversed(q) <==> p == q
  {
    if Reversed(p) == Reversed(q) {
      forall i | 0 <= i < |p| ensures p[i] == q[i] {
        assert Reversed(p)[|p| - 1 - i] == Reversed(q)[|p| - 1 - i];
      }
    }
  }

  predicate HeldAt(t: Trie, paths: seq<Path>, q: Path) { Ends(t, Reversed(q)) <==> q in paths }

  ghost predicate Holds(t: Trie, paths: seq<Path>) { forall q: Path :: HeldAt(t, paths, q) }

  /** The trie built from a list of paths holds exactly those. */
  method FromPaths(paths: seq<Path>) returns (t: Trie)
    ensures Holds(t, paths)
  {
    t := Empty();
    forall q: Path ensures HeldAt(t, paths[..0], q) { NothingInEmpty(Reversed(q)); }
    for i := 0 to |paths|
      invariant Holds(t, paths[..i])
    {
      ghost var before, more := t, paths[..i + 1];
      t := Inserted(t, Reversed(paths[i]));
      forall q: Path ensures HeldAt(t, more, q) {
        assert HeldAt(before, paths[..i], q);
        InsertAddsPath(before, Reversed(paths[i]), Reversed(q));
        ReversedInjective(q, paths[i]);
        assert more == paths[..i] + [paths[i]];
      }
    }
    assert paths[..|paths|] == paths;
  }

  /** Whether exactly this path was inserted. */
  method Matches(t: Trie, path: Path) returns (b: bool)
    ensures b <==> Ends(t, Reversed(path))
  {
    var cur, rev := t, Reversed(path);
    for i := 0 to |rev|
      invariant Ends(t, rev) <==> Ends(cur, rev[i..])
    {
      assert rev[i..][1..] == rev[i + 1..];
      if rev[i] !in cur.children { return false; }
      cur := cur.children[rev[i]];
    }
    b := cur.isEnd;
  }

  ghost predicate EndsWithin(t: Trie, rev: Path, k: nat) { 0 < k <= |rev| && Ends(t, rev[..k]) }

  /** Some prefix of `rev`, of at least one element, ends an inserted path. */
  predicate Within(t: Trie, rev: Path)
    decreases |rev|
  {
    |rev| > 0 && rev[0] in t.children && (t.children[rev[0]].isEnd || Within(t.children[rev[0]], rev[1..]))
  }

  lemma {:induction false} EndsWithinIsWithin(t: Trie, rev: Path, k: nat)
    requires EndsWithin(t, rev, k)
    ensures Within(t, rev)
    decreases |rev|
  {
    assert rev[..k][1..] == rev[1..][..k - 1];
    assert Ends(t.children[rev[0]], rev[1..][..k - 1]);
    if k > 1 { EndsWithinIsWithin(t.children[rev[0]], rev[1..], k - 1); }
  }

  lemma {:induction false} WithinEndsSomewhere(t: Trie, rev: Path) returns (k: nat)
    requires Within(t, rev)
    ensures EndsWithin(t, rev, k)
    decreases |rev|
  {
    var next := t.children[rev[0]];
    if next.isEnd {
      k := 1;
    } else {
      k := WithinEndsSomewhere(next, rev[1..]);
      k := k + 1;
    }
    assert rev[..k][1..] == rev[1..][..k - 1];
  }

  /** The walk of `contains`. */
  method Contains(t: Trie, path: Path) returns (b: bool)
    ensures b <==> Within(t, Reversed(path))
  {
    var cur, rev := t, Reversed(path);
    for i := 0 to |rev|
      invariant Within(t, rev) <==> Within(cur, rev[i..])
    {
      assert rev[i..][1..] == rev[i + 1..];
      if rev[i] !in cur.children { return false; }
      cur := cur.children[rev[i]];
      if cur.isEnd { return true; }
    }
    b := false;
  }

  /** `p` is a suffix of `path` that is not empty. */
  predicate IsSuffix(p: Path, path: Path) { 0 < |p| <= |path| && path[|path| - |p|..] == p }

  lemma PrefixOfReversed(path: Path, k: nat)
    requires k <= |path|
    ensures Reversed(path)[..k] == Reversed(path[|path| - k..])
  {
    var a, b := Reversed(path)[..k], Reversed(path[|path| - k..]);
    forall i | 0 <= i < k ensures a[i] == b[i] {
    }
  }

  lemma SuffixEnds(t: Trie, paths: seq<Path>, path: Path, p: Path)
    requires Holds(t, paths) && IsSuffix(p, path)
    ensures EndsWithin(t, Reversed(path), |p|) <==> p in paths
  {
    PrefixOfReversed(path, |p|);
    assert HeldAt(t, paths, p);
  }

  /** With the trie built from `paths`, `contains` holds of a path exactly when one of `paths`,
      other than the empty path, is a suffix of it. */
  lemma {:induction false} ContainsMeansSuffix(t: Trie, paths: seq<Path>, path: Path)
    requires Holds(t, paths)
    ensures Within(t, Reversed(path)) <==> exists p :: p in paths && IsSuffix(p, path)
  {
    if Within(t, Reversed(path)) {
      var k := WithinEndsSomewhere(t, Reversed(path));
      SuffixEnds(t, paths, path, path[|path| - k..]);
    }
    if p :| p in paths && IsSuffix(p, path) {
      SuffixEnds(t, paths, path, p);
      EndsWithinIsWithin(t, Reversed(path), |p|);
    }
  }
}
