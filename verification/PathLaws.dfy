/** Laws of path resolution over the graph of dentries: what the special names, plain names and
symlinks lead to, and how paths compose.
 */
module PathLaws {

  import opened PathResolution
  import opened PathStrings
  import opened Wrappers

  /** A directory the caller may search. */
  predicate Searchable(fs: Fs, d: Dentry) { fs.kind(d) == Dir && fs.executable(d) == Ok(true) }

  /** A name that stands for a child. */
  predicate PlainName(x: string) {
    0 < |x| <= 255 && SlashFree(x, 0, |x|) && x != ['.'] && x != ['.', '.']
  }

  lemma SingleName(x: string)
    requires |x| > 0 && SlashFree(x, 0, |x|)
    ensures Components(x) == [x] && Components(x + ['/']) == [x]
    ensures !EndsSlash(x) && EndsSlash(x + ['/']) && !StartsSlash(x)
  {
    OneName(x, 0, |x|);
    assert x[0..|x|] == x;
    ComponentsEndSlash(x);
  }

  /** A path of one name, without and with a final slash. */
  lemma {:induction false} NameMeaning(fs: Fs, d: Dentry, x: string, follow: bool, budget: nat)
    requires |x| > 0 && SlashFree(x, 0, |x|)
    ensures Meaning(fs, d, x, follow, budget) == Resolve(fs, d, [x], false, follow, budget)
    ensures Meaning(fs, d, x + ['/'], follow, budget) == Resolve(fs, d, [x], true, follow, budget)
  {
    SingleName(x);
  }

  lemma {:induction false} LastStep(fs: Fs, d: Dentry, x: string, slash: bool, follow: bool, budget: nat, n: Dentry)
    requires Lookup(fs, d, x) == Ok(n) && !(fs.kind(n) == SymLink && follow)
    ensures Resolve(fs, d, [x], slash, follow, budget) == if slash && fs.kind(n) != Dir then Err(ENOTDIR) else Ok(n)
  {
    assert |[x][1..]| == 0;
  }

  // Single names.

  lemma DotIs(fs: Fs, d: Dentry, follow: bool)
    requires Searchable(fs, d)
    ensures ResolvePath(fs, d, ['.'], follow) == Ok(d) == ResolvePath(fs, d, ['.', '/'], follow)
  {
    hide Components;
    NameMeaning(fs, d, ['.'], follow, SYMLINKS_MAX);
    assert ['.'] + ['/'] == ['.', '/'];
    LastStep(fs, d, ['.'], false, follow, SYMLINKS_MAX, d);
    LastStep(fs, d, ['.'], true, follow, SYMLINKS_MAX, d);
  }

  lemma DotDotIs(fs: Fs, d: Dentry, follow: bool)
    requires Searchable(fs, d) && !(fs.kind(fs.parent(d)) == SymLink && follow)
    ensures ResolvePath(fs, d, ['.', '.'], follow) == Ok(fs.parent(d))
  {
    hide Components;
    NameMeaning(fs, d, ['.', '.'], follow, SYMLINKS_MAX);
    LastStep(fs, d, ['.', '.'], false, follow, SYMLINKS_MAX, fs.parent(d));
  }

  /** A plain name leads to the child, or fails as the directory's own lookup does; a final slash
      asks for a directory. */
  lemma ChildIs(fs: Fs, d: Dentry, x: string, follow: bool)
    requires Searchable(fs, d) && PlainName(x)
    ensures fs.child(d, x).Err? ==> ResolvePath(fs, d, x, follow) == Err(fs.child(d, x).error)
    ensures fs.child(d, x).Ok? && (fs.kind(fs.child(d, x).value) != SymLink || !follow) ==>
              var n := fs.child(d, x).value;
              && ResolvePath(fs, d, x, follow) == Ok(n)
              && ResolvePath(fs, d, x + ['/'], follow) == if fs.kind(n) == Dir then Ok(n) else Err(ENOTDIR)
  {
    NameMeaning(fs, d, x, follow, SYMLINKS_MAX);
    if fs.child(d, x).Ok? && (fs.kind(fs.child(d, x).value) != SymLink || !follow) {
      LastStep(fs, d, x, false, follow, SYMLINKS_MAX, fs.child(d, x).value);
      LastStep(fs, d, x, true, follow, SYMLINKS_MAX, fs.child(d, x).value);
    }
  }

  /** Nothing is found below a dentry that is no directory or may not be searched. */
  lemma Unsearchable(fs: Fs, d: Dentry, p: string, follow: bool)
    requires |p| <= 4096 && |Components(p)| > 0
    ensures fs.kind(d) != Dir ==> ResolvePath(fs, d, p, follow) == Err(ENOTDIR)
    ensures fs.kind(d) == Dir && fs.executable(d) == Ok(false) ==> ResolvePath(fs, d, p, follow) == Err(EACCES)
    ensures fs.kind(d) == Dir && fs.executable(d).Err? ==> ResolvePath(fs, d, p, follow) == Err(fs.executable(d).error)
  {
  }

  lemma TooLong(fs: Fs, d: Dentry, p: string, follow: bool)
    ensures |p| > 4096 ==> ResolvePath(fs, d, p, follow) == Err(ENAMETOOLONG)
    ensures 255 < |p| <= 4096 && SlashFree(p, 0, |p|) && Searchable(fs, d) ==>
              ResolvePath(fs, d, p, follow) == Err(ENAMETOOLONG)
  {
    if |p| > 0 && SlashFree(p, 0, |p|) { SingleName(p); }
  }

  // Symlinks.

  /** A followed symlink means its target, from the root if the target is absolute and from the
      symlink's own directory otherwise, with one link less to spend. */
  lemma LinkIs(fs: Fs, d: Dentry, x: string, n: Dentry, budget: nat)
    requires Searchable(fs, d) && PlainName(x) && fs.child(d, x) == Ok(n) && fs.kind(n) == SymLink
    ensures budget == 0 ==> Meaning(fs, d, x, true, budget) == Err(ELOOP)
    ensures budget > 0 && fs.readLink(n).Err? ==> Meaning(fs, d, x, true, budget) == Err(fs.readLink(n).error)
    ensures budget > 0 && fs.readLink(n).Ok? && |fs.readLink(n).value| == 0 ==>
              Meaning(fs, d, x, true, budget) == Err(ENOENT)
    ensures budget > 0 && fs.readLink(n).Ok? && |fs.readLink(n).value| > 0 ==>
              var link := fs.readLink(n).value;
              Meaning(fs, d, x, true, budget) ==
              Meaning(fs, if link[0] == '/' then fs.root else d, link, true, budget - 1)
  {
    NameMeaning(fs, d, x, true, budget);
    assert [x][1..] == [];
    if fs.readLink(n).Ok? { assert Components(fs.readLink(n).value) + [] == Components(fs.readLink(n).value); }
  }

  /** In directory `d`, name `i` is a symlink to name `i + 1`. */
  predicate LinkAt(fs: Fs, d: Dentry, names: seq<string>, i: nat)
    requires i + 1 < |names|
  {
    PlainName(names[i]) && fs.child(d, names[i]).Ok? && fs.kind(fs.child(d, names[i]).value) == SymLink
    && fs.readLink(fs.child(d, names[i]).value) == Ok(names[i + 1])
  }

  lemma {:induction false} ChainMeaning(fs: Fs, d: Dentry, names: seq<string>, n: Dentry, budget: nat)
    requires Searchable(fs, d) && |names| > 0 && (forall i :: 0 <= i < |names| - 1 ==> LinkAt(fs, d, names, i))
    requires var last := names[|names| - 1];
             PlainName(last) && fs.child(d, last) == Ok(n) && fs.kind(n) != SymLink
    ensures Meaning(fs, d, names[0], true, budget) == if |names| - 1 <= budget then Ok(n) else Err(ELOOP)
    decreases |names|
  {
    if |names| == 1 {
      NameMeaning(fs, d, names[0], true, budget);
      LastStep(fs, d, names[0], false, true, budget, n);
    } else {
      assert LinkAt(fs, d, names, 0);
      LinkIs(fs, d, names[0], fs.child(d, names[0]).value, budget);
      assert names[1][0] != '/' by { assert |names| == 2 || LinkAt(fs, d, names, 1); }
      if budget > 0 {
        forall i | 0 <= i < |names[1..]| - 1 ensures LinkAt(fs, d, names[1..], i) {
          assert LinkAt(fs, d, names, i + 1);
        }
        ChainMeaning(fs, d, names[1..], n, budget - 1);
      }
    }
  }

  /** A chain of symlinks is followed exactly when it has at most forty of them. */
  lemma FortyLinks(fs: Fs, d: Dentry, names: seq<string>, n: Dentry)
    requires Searchable(fs, d) && |names| > 0 && (forall i :: 0 <= i < |names| - 1 ==> LinkAt(fs, d, names, i))
    requires var last := names[|names| - 1];
             PlainName(last) && fs.child(d, last) == Ok(n) && fs.kind(n) != SymLink
    ensures ResolvePath(fs, d, names[0], true) == if |names| - 1 <= 40 then Ok(n) else Err(ELOOP)
  {
    ChainMeaning(fs, d, names, n, SYMLINKS_MAX);
    assert |names| > 1 ==> LinkAt(fs, d, names, 0);
  }

  /** A symlink to itself is never resolved. */
  lemma {:induction false} SelfLink(fs: Fs, d: Dentry, x: string, budget: nat)
    requires Searchable(fs, d) && LinkAt(fs, d, [x, x], 0)
    ensures Meaning(fs, d, x, true, budget) == Err(ELOOP)
    decreases budget
  {
    assert [x, x][0] == x && [x, x][1] == x;
    LinkIs(fs, d, x, fs.child(d, x).value, budget);
    if budget > 0 { SelfLink(fs, d, x, budget - 1); }
  }

  // Paths put together.

  /** Names `cs` and then names `rest` is `cs`, to a directory, and then `rest` from there, with the
      links that `cs` did not spend. */
  lemma {:induction false} ResolveThen(fs: Fs, d: Dentry, cs: seq<string>, rest: seq<string>, slash: bool, follow: bool,
                                       budget: nat) returns (left: nat)
    requires |rest| > 0
    ensures left <= budget
    ensures match Resolve(fs, d, cs, true, true, budget)
            case Ok(n) => Resolve(fs, d, cs + rest, slash, follow, budget) == Resolve(fs, n, rest, slash, follow, left)
            case Err(e) => Resolve(fs, d, cs + rest, slash, follow, budget) == Err(e)
    decreases budget, |cs|, d
  {
    left := budget;
    var all := cs + rest;
    if |cs| == 0 {
      assert all == rest;
    } else {
      assert all[0] == cs[0] && all[1..] == cs[1..] + rest;
      var looked := Lookup(fs, d, cs[0]);
      if looked.Ok? {
        var n := looked.value;
        if fs.kind(n) == SymLink {
          left := ExpandThen(fs, d, n, cs[1..], rest, slash, follow, budget);
        } else {
          left := ResolveThen(fs, n, cs[1..], rest, slash, follow, budget);
        }
      }
    }
  }

  lemma {:induction false} ExpandThen(fs: Fs, d: Dentry, n: Dentry, cs: seq<string>, rest: seq<string>, slash: bool,
                                      follow: bool, budget: nat) returns (left: nat)
    requires |rest| > 0
    ensures left <= budget
    ensures match Expand(fs, d, n, cs, true, true, budget)
            case Ok(m) => Expand(fs, d, n, cs + rest, slash, follow, budget) == Resolve(fs, m, rest, slash, follow, left)
            case Err(e) => Expand(fs, d, n, cs + rest, slash, follow, budget) == Err(e)
    decreases budget, 0, d
  {
    left := budget;
    if budget > 0 && fs.readLink(n).Ok? && |fs.readLink(n).value| > 0 {
      var link := fs.readLink(n).value;
      assert Components(link) + (cs + rest) == (Components(link) + cs) + rest;
      left := ResolveThen(fs, if StartsSlash(link) then fs.root else d, Components(link) + cs, rest, slash, follow, budget - 1);
    }
  }

  /** The path `p/q` is `p/`, symlinks followed, and then `q` from the directory that is; it fails
      as `p/` does. */
  lemma PathsCompose(fs: Fs, d: Dentry, p: string, q: string, follow: bool, budget: nat) returns (left: nat)
    requires |Components(q)| > 0
    ensures left <= budget
    ensures match Meaning(fs, d, p + ['/'], true, budget)
            case Ok(n) => Meaning(fs, d, p + ['/'] + q, follow, budget) == Meaning(fs, n, q, follow, left)
            case Err(e) => Meaning(fs, d, p + ['/'] + q, follow, budget) == Err(e)
  {
    ComponentsConcat(p, q);
    ComponentsEndSlash(p);
    assert |q| > 0 && EndsSlash(p + ['/'] + q) == EndsSlash(q);
    left := ResolveThen(fs, d, Components(p), Components(q), EndsSlash(q), follow, budget);
  }

  lemma UpAgain(fs: Fs, n: Dentry, x: string, c: Dentry, follow: bool, budget: nat)
    requires Searchable(fs, n) && PlainName(x) && fs.child(n, x) == Ok(c)
    requires Searchable(fs, c) && fs.parent(c) == n
    ensures Meaning(fs, n, x + ['/'] + ['.', '.'], follow, budget) == Ok(n)
  {
    var up := ['.', '.'];
    SingleName(x);
    SingleName(up);
    ComponentsConcat(x, up);
    var cs := [x] + [up];
    assert cs[0] == x && cs[1..] == [up];
    LastStep(fs, c, up, false, follow, budget, n);
  }

  /** Going down into a child whose parent is the directory, and up again, is staying there. */
  lemma DownAndUp(fs: Fs, d: Dentry, p: string, x: string, n: Dentry, c: Dentry, follow: bool, budget: nat)
    requires Meaning(fs, d, p + ['/'], true, budget) == Ok(n) && Searchable(fs, n)
    requires PlainName(x) && fs.child(n, x) == Ok(c) && Searchable(fs, c) && fs.parent(c) == n
    ensures Meaning(fs, d, p + ['/'] + (x + ['/'] + ['.', '.']), follow, budget) == Ok(n)
    ensures Meaning(fs, d, p + ['/'] + ['.'], follow, budget) == Ok(n)
  {
    var up, dot := x + ['/'] + ['.', '.'], ['.'];
    SingleName(x);
    SingleName(['.', '.']);
    ComponentsConcat(x, ['.', '.']);
    SingleName(dot);
    var left := PathsCompose(fs, d, p, up, follow, budget);
    UpAgain(fs, n, x, c, follow, left);
    left := PathsCompose(fs, d, p, dot, follow, budget);
    LastStep(fs, n, dot, false, follow, left, n);
  }
}
