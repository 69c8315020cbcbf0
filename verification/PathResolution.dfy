/** Path resolution: the lookup loop with its symlink expansion, against resolution over a list of
components, and the split of a path into directory and base name.
 */
module PathResolution {

  import opened PathStrings
  import opened Wrappers

  type Dentry = nat

  type Fd = int

  datatype Kind = Dir | SymLink | Other

  datatype Errno = ENOTDIR | EACCES | ENAMETOOLONG | ENOENT | ELOOP | EBADF | Inner(code: nat)

  const PATH_MAX: nat := 4096
  const NAME_MAX: nat := 255
  const SYMLINKS_MAX: nat := 40

  /** What one lookup sees of the file system: any graph of dentries, cycles included. */
  datatype Fs = Fs(
    root: Dentry,
    kind: Dentry -> Kind,
    executable: Dentry -> Result<bool, Errno>,
    parent: Dentry -> Dentry,
    child: (Dentry, string) -> Result<Dentry, Errno>,
    readLink: Dentry -> Result<string, Errno>)

  function Lookup(fs: Fs, d: Dentry, name: string): Result<Dentry, Errno> {
    if fs.kind(d) != Dir then Err(ENOTDIR)
    else match fs.executable(d)
      case Err(e) => Err(e)
      case Ok(x) =>
        if !x then Err(EACCES)
        else if |name| > NAME_MAX then Err(ENAMETOOLONG)
        else if name == [DOT] then Ok(d)
        else if name == [DOT, DOT] then Ok(fs.parent(d))
        else fs.child(d, name)
  }

  // Resolution over components.

  /** Resolves the names `cs` one after the other from `d`; a symlink puts the components of its
      target in front of the names that remain. `slash` says the path ended in a slash. */
  function Resolve(fs: Fs, d: Dentry, cs: seq<string>, slash: bool, follow: bool, budget: nat): Result<Dentry, Errno>
    decreases budget, |cs|, d
  {
    if |cs| == 0 then Ok(d)
    else match Lookup(fs, d, cs[0])
      case Err(e) => Err(e)
      case Ok(n) =>
        var tail := |cs| == 1;
        if fs.kind(n) == SymLink && (follow || !tail) then
          Expand(fs, d, n, cs[1..], slash, follow, budget)
        else if (!tail || slash) && fs.kind(n) != Dir then Err(ENOTDIR)
        else Resolve(fs, n, cs[1..], slash, follow, budget)
  }

  function Expand(fs: Fs, d: Dentry, n: Dentry, rest: seq<string>, slash: bool, follow: bool, budget: nat)
    : Result<Dentry, Errno>
    decreases budget, 0, d
  {
    if budget == 0 then Err(ELOOP)
    else match fs.readLink(n)
      case Err(e) => Err(e)
      case Ok(link) =>
        if |link| == 0 then Err(ENOENT)
        else Resolve(fs, if StartsSlash(link) then fs.root else d, Components(link) + rest,
                     slash || (|rest| == 0 && EndsSlash(link)), follow, budget - 1)
  }

  /** What looking up the path `p` from `d` means. */
  function ResolvePath(fs: Fs, d: Dentry, p: string, follow: bool): Result<Dentry, Errno> {
    if |p| > PATH_MAX then Err(ENAMETOOLONG)
    else Meaning(fs, d, p, follow, SYMLINKS_MAX)
  }

  function Meaning(fs: Fs, d: Dentry, p: string, follow: bool, budget: nat): Result<Dentry, Errno> {
    Resolve(fs, d, Components(p), EndsSlash(p), follow, budget)
  }

  // The parts of a path.

  /** The string the loop continues with after a symlink: target, then what remained. */
  function Spliced(link: string, remain: string, mustBeDir: bool): string {
    if |remain| > 0 then link + [SLASH] + remain else if mustBeDir then link + [SLASH] else link
  }

  lemma SplicedComponents(link: string, remain: string, mustBeDir: bool)
    requires |link| > 0 && (|remain| > 0 ==> mustBeDir && remain[0] != SLASH)
    ensures var s := Spliced(link, remain, mustBeDir);
            && Components(s) == Components(link) + Components(remain)
            && StartsSlash(s) == StartsSlash(link)
            && EndsSlash(s) == (if |remain| > 0 then EndsSlash(remain) else mustBeDir || EndsSlash(link))
  {
    if |remain| > 0 {
      ComponentsConcat(link, remain);
    } else {
      ComponentsEndSlash(link);
    }
  }

  // The lookup loop.

  function NextName(s: string): string { s[0..Find(s)] }

  function PathRemain(s: string): string {
    if Find(s) < |s| then TrimStart(s[Find(s) + 1..]) else s[..0]
  }

  predicate MustBeDir(s: string) { Find(s) < |s| }

  /** One turn of the loop takes the first name off. */
  lemma CutComponents(s: string)
    requires |s| > 0 && s[0] != SLASH
    ensures var cs, remain := Components(s), PathRemain(s);
            && |cs| > 0 && cs[0] == NextName(s) && cs[1..] == Components(remain)
            && (|remain| == 0 <==> |cs| == 1)
            && EndsSlash(s) == (if |remain| == 0 then MustBeDir(s) else EndsSlash(remain))
            && (|remain| > 0 ==> MustBeDir(s) && remain[0] != SLASH) && |remain| < |s|
  {
    var e := Find(s);
    if e < |s| {
      hide Names, FindIn;
      FirstName(s, 0, |s|);
      SlashSkipped(s, e, |s|);
      var u := s[e + 1..];
      ComponentsFrom(s, e + 1);
      TrimStartKeeps(u);
    } else {
      OneName(s, 0, |s|);
    }
  }

  /** One turn of the loop that does not follow a symlink keeps the meaning of the rest. */
  lemma PlainTurn(fs: Fs, d: Dentry, s: string, follow: bool, budget: nat, n: Dentry)
    requires |s| > 0 && s[0] != SLASH && Lookup(fs, d, NextName(s)) == Ok(n)
    requires !(fs.kind(n) == SymLink && (follow || |PathRemain(s)| > 0))
    ensures Meaning(fs, d, s, follow, budget) ==
            if MustBeDir(s) && fs.kind(n) != Dir then Err(ENOTDIR)
            else Meaning(fs, n, PathRemain(s), follow, budget)
  {
    CutComponents(s);
    if |PathRemain(s)| == 0 {
      assert |Components(s)[1..]| == 0;
      assert Resolve(fs, n, [], EndsSlash(s), follow, budget) == Ok(n);
    }
  }

  lemma ErrTurn(fs: Fs, d: Dentry, s: string, follow: bool, budget: nat)
    requires |s| > 0 && s[0] != SLASH
    ensures var looked := Lookup(fs, d, NextName(s));
            looked.Err? ==> Meaning(fs, d, s, follow, budget) == Err(looked.error)
  {
    CutComponents(s);
  }

  lemma {:induction false} FollowTurn(fs: Fs, d: Dentry, s: string, follow: bool, budget: nat, n: Dentry)
    requires |s| > 0 && s[0] != SLASH && Lookup(fs, d, NextName(s)) == Ok(n)
    requires fs.kind(n) == SymLink && (follow || |PathRemain(s)| > 0)
    ensures Meaning(fs, d, s, follow, budget) ==
            Expand(fs, d, n, Components(PathRemain(s)), EndsSlash(s), follow, budget)
  {
    CutComponents(s);
  }

  /** Nor does a turn that follows one: the spliced string means what the expansion means. */
  lemma LinkTurn(fs: Fs, d: Dentry, s: string, follow: bool, budget: nat, n: Dentry, link: string)
    requires |s| > 0 && s[0] != SLASH && budget > 0 && Lookup(fs, d, NextName(s)) == Ok(n)
    requires fs.kind(n) == SymLink && (follow || |PathRemain(s)| > 0) && fs.readLink(n) == Ok(link) && |link| > 0
    ensures var next := Spliced(link, PathRemain(s), MustBeDir(s));
            Meaning(fs, d, s, follow, budget) ==
            Meaning(fs, if StartsSlash(next) then fs.root else d, TrimStart(next), follow, budget - 1)
  {
    var remain, next := PathRemain(s), Spliced(link, PathRemain(s), MustBeDir(s));
    FollowTurn(fs, d, s, follow, budget, n);
    CutComponents(s);
    SplicedComponents(link, remain, MustBeDir(s));
    TrimStartKeeps(next);
    var slash := EndsSlash(s) || (|Components(remain)| == 0 && EndsSlash(link));
    if |Components(next)| > 0 { assert EndsSlash(TrimStart(next)) == slash; }
  }

  lemma FailedTurn(fs: Fs, d: Dentry, s: string, follow: bool, budget: nat, n: Dentry)
    requires |s| > 0 && s[0] != SLASH && Lookup(fs, d, NextName(s)) == Ok(n)
    requires fs.kind(n) == SymLink && (follow || |PathRemain(s)| > 0)
    ensures var meaning, target := Meaning(fs, d, s, follow, budget), fs.readLink(n);
            && (budget == 0 ==> meaning == Err(ELOOP))
            && (budget > 0 && target.Err? ==> meaning == Err(target.error))
            && (budget > 0 && target.Ok? && |target.value| == 0 ==> meaning == Err(ENOENT))
  {
    FollowTurn(fs, d, s, follow, budget, n);
  }

  lemma NextPaths(s: string, next: string)
    requires |s| > 0 && s[0] != SLASH
    ensures |PathRemain(s)| < |s| && !StartsSlash(PathRemain(s)) && !StartsSlash(TrimStart(next))
  {
    CutComponents(s);
  }

  lemma EmptyMeaning(fs: Fs, d: Dentry, s: string, follow: bool, budget: nat)
    requires |s| == 0
    ensures Meaning(fs, d, s, follow, budget) == Ok(d)
  {
  }

  /** The loop ends for every file system, cyclic symlinks included, and finds what resolution
      over the component list finds. */
  method LookupFromParent(fs: Fs, parent: Dentry, path: string, follow: bool) returns (r: Result<Dentry, Errno>)
    requires !StartsSlash(path)
    ensures r == ResolvePath(fs, parent, path, follow)
  {
    hide Meaning, Lookup, NextName, PathRemain, MustBeDir, Spliced, TrimStart;
    if |path| > PATH_MAX { return Err(ENAMETOOLONG); }
    var follows := 0;
    var dentry, relativePath := parent, path;
    while |relativePath| > 0
      invariant follows <= SYMLINKS_MAX && !StartsSlash(relativePath)
      invariant Meaning(fs, dentry, relativePath, follow, SYMLINKS_MAX - follows)
             == Meaning(fs, parent, path, follow, SYMLINKS_MAX)
      decreases SYMLINKS_MAX - follows, |relativePath|
    {
      ErrTurn(fs, dentry, relativePath, follow, SYMLINKS_MAX - follows);
      var nextName, pathRemain, mustBeDir := NextName(relativePath), PathRemain(relativePath), MustBeDir(relativePath);
      var looked := Lookup(fs, dentry, nextName);
      if looked.Err? { return Err(looked.error); }
      var next := looked.value;
      var nextIsTail := |pathRemain| == 0;
      if fs.kind(next) == SymLink && (follow || !nextIsTail) {
        FailedTurn(fs, dentry, relativePath, follow, SYMLINKS_MAX - follows, next);
        if follows >= SYMLINKS_MAX { return Err(ELOOP); }
        var target := fs.readLink(next);
        if target.Err? { return Err(target.error); }
        if |target.value| == 0 { return Err(ENOENT); }
        LinkTurn(fs, dentry, relativePath, follow, SYMLINKS_MAX - follows, next, target.value);
        var linkPath := Spliced(target.value, pathRemain, mustBeDir);
        NextPaths(relativePath, linkPath);
        if StartsSlash(linkPath) { dentry := fs.root; }
        relativePath := TrimStart(linkPath);
        follows := follows + 1;
      } else {
        PlainTurn(fs, dentry, relativePath, follow, SYMLINKS_MAX - follows, next);
        if mustBeDir && fs.kind(next) != Dir { return Err(ENOTDIR); }
        NextPaths(relativePath, relativePath);
        dentry, relativePath := next, pathRemain;
      }
    }
    EmptyMeaning(fs, dentry, relativePath, follow, SYMLINKS_MAX - follows);
    r := Ok(dentry);
  }

  /** Only the names and the final slash matter; how many slashes separate the names does not. */
  lemma OnlyComponentsMatter(fs: Fs, d: Dentry, p: string, q: string, follow: bool)
    requires |p| <= PATH_MAX && |q| <= PATH_MAX
    requires Components(p) == Components(q) && (|Components(p)| > 0 ==> EndsSlash(p) == EndsSlash(q))
    ensures ResolvePath(fs, d, p, follow) == ResolvePath(fs, d, q, follow)
  {
  }

  lemma RepeatedSlashes(fs: Fs, d: Dentry, p: string, q: string, follow: bool)
    requires |p + [SLASH] + [SLASH] + q| <= PATH_MAX
    ensures ResolvePath(fs, d, p + [SLASH] + [SLASH] + q, follow) == ResolvePath(fs, d, p + [SLASH] + q, follow)
  {
    ComponentsConcat(p, q);
    ComponentsConcat(p + [SLASH], q);
    ComponentsEndSlash(p);
    OnlyComponentsMatter(fs, d, p + [SLASH] + [SLASH] + q, p + [SLASH] + q, follow);
  }

  // Directory and base name.

  /** What the callers of `lookup_dir_and_base_name` do next: look the base name up in the directory. */
  function ThenBase(fs: Fs, dir: Result<Dentry, Errno>, name: string, slash: bool): Result<Dentry, Errno> {
    match dir
    case Err(e) => Err(e)
    case Ok(d) =>
      match Lookup(fs, d, name)
      case Err(e) => Err(e)
      case Ok(n) => if slash && fs.kind(n) != Dir then Err(ENOTDIR) else Ok(n)
  }

  /** Resolving all names without following the last is resolving all but the last, with
      following, and then looking the last one up, errors and symlink budget included. */
  lemma {:induction false} ResolveSplit(fs: Fs, d: Dentry, cs: seq<string>, name: string, slash: bool, dirSlash: bool,
                                        budget: nat)
    ensures Resolve(fs, d, cs + [name], slash, false, budget)
         == ThenBase(fs, Resolve(fs, d, cs, dirSlash, true, budget), name, slash)
    decreases budget, |cs|, d
  {
    var all := cs + [name];
    if |cs| == 0 {
      assert |all[1..]| == 0;
    } else {
      assert all[0] == cs[0] && all[1..] == cs[1..] + [name];
      var looked := Lookup(fs, d, cs[0]);
      if looked.Ok? {
        var n := looked.value;
        if fs.kind(n) == SymLink {
          ExpandSplit(fs, d, n, cs[1..], name, slash, dirSlash, budget);
        } else {
          ResolveSplit(fs, n, cs[1..], name, slash, dirSlash, budget);
        }
      }
    }
  }

  lemma {:induction false} ExpandSplit(fs: Fs, d: Dentry, n: Dentry, rest: seq<string>, name: string,
                                       slash: bool, dirSlash: bool, budget: nat)
    ensures Expand(fs, d, n, rest + [name], slash, false, budget)
         == ThenBase(fs, Expand(fs, d, n, rest, dirSlash, true, budget), name, slash)
    decreases budget, 0, d
  {
    if budget > 0 {
      match fs.readLink(n)
      case Err(e) =>
      case Ok(link) =>
        if |link| > 0 {
          var cs := Components(link);
          assert cs + (rest + [name]) == (cs + rest) + [name];
          ResolveSplit(fs, if StartsSlash(link) then fs.root else d, cs + rest, name, slash,
                       dirSlash || (|rest| == 0 && EndsSlash(link)), budget - 1);
        }
    }
  }

  /** The same when the directory part is [DOT]. */
  lemma {:induction false} ResolveDot(fs: Fs, d: Dentry, name: string, slash: bool, dirSlash: bool, budget: nat)
    ensures Resolve(fs, d, [name], slash, false, budget)
         == ThenBase(fs, Resolve(fs, d, [[DOT]], dirSlash, true, budget), name, slash)
  {
    ResolveSplit(fs, d, [], name, slash, dirSlash, budget);
    assert [] + [name] == [name];
    assert Lookup(fs, d, [DOT]).Ok? ==> Resolve(fs, d, [[DOT]], dirSlash, true, budget) == Ok(d) by {
      assert [[DOT]][1..] == [] && Resolve(fs, d, [], dirSlash, true, budget) == Ok(d);
    }
  }

  // Whole paths.

  datatype FsPath = Absolute(path: string) | CwdRelative(path: string) | Cwd | FdRelative(fd: Fd, path: string) | AtFd(fd: Fd)

  const AT_FDCWD: Fd := -100

  /** `FsPath::new`. */
  function NewFsPath(dirfd: Fd, path: string): Result<FsPath, Errno> {
    if |path| > PATH_MAX then Err(ENAMETOOLONG)
    else if StartsSlash(path) then Ok(Absolute(path))
    else if dirfd >= 0 then Ok(if |path| == 0 then AtFd(dirfd) else FdRelative(dirfd, path))
    else if dirfd == AT_FDCWD then Ok(if |path| == 0 then Cwd else CwdRelative(path))
    else Err(EBADF)
  }

  datatype FsResolver = FsResolver(fs: Fs, cwd: Dentry, openDir: Fd -> Result<Dentry, Errno>)

  /** Where a path starts, and the string to resolve from there. */
  function Start(r: FsResolver, p: FsPath): Result<Dentry, Errno> {
    match p
    case Absolute(_) => Ok(r.fs.root)
    case CwdRelative(_) => Ok(r.cwd)
    case Cwd => Ok(r.cwd)
    case FdRelative(fd, _) => r.openDir(fd)
    case AtFd(fd) => r.openDir(fd)
  }

  predicate HasText(p: FsPath) { !p.Cwd? && !p.AtFd? }

  /** What a path means, read off its text. */
  function PathMeaning(r: FsResolver, p: FsPath, follow: bool): Result<Dentry, Errno> {
    match Start(r, p)
    case Err(e) => Err(e)
    case Ok(d) => if HasText(p) then Meaning(r.fs, d, p.path, follow, SYMLINKS_MAX) else Ok(d)
  }

  /** Paths as `FsPath::new` makes them. */
  predicate WellFormed(p: FsPath) {
    HasText(p) ==> 0 < |p.path| <= PATH_MAX && (p.Absolute? <==> StartsSlash(p.path))
  }

  lemma NewIsWellFormed(dirfd: Fd, path: string)
    ensures NewFsPath(dirfd, path).Ok? ==>
              && WellFormed(NewFsPath(dirfd, path).value)
              && (HasText(NewFsPath(dirfd, path).value) ==> NewFsPath(dirfd, path).value.path == path)
  {
  }

  lemma TrimmedMeaning(fs: Fs, d: Dentry, s: string, follow: bool, budget: nat)
    ensures Meaning(fs, d, TrimStart(s), follow, budget) == Meaning(fs, d, s, follow, budget)
  {
    TrimStartKeeps(s);
  }

  method LookupInner(r: FsResolver, p: FsPath, follow: bool) returns (res: Result<Dentry, Errno>)
    requires WellFormed(p)
    ensures res == PathMeaning(r, p, follow)
    ensures p.Absolute? ==> res == ResolvePath(r.fs, r.fs.root, p.path, follow)
    ensures p.CwdRelative? ==> res == ResolvePath(r.fs, r.cwd, p.path, follow)
    ensures p.Cwd? ==> res == Ok(r.cwd)
    ensures p.FdRelative? ==>
              match r.openDir(p.fd)
              case Err(e) => res == Err(e)
              case Ok(d) => res == ResolvePath(r.fs, d, p.path, follow)
    ensures p.AtFd? ==> res == r.openDir(p.fd)
  {
    hide Meaning;
    match p {
      case Absolute(path) =>
        TrimmedMeaning(r.fs, r.fs.root, path, follow, SYMLINKS_MAX);
        res := LookupFromParent(r.fs, r.fs.root, TrimStart(path), follow);
      case CwdRelative(path) =>
        res := LookupFromParent(r.fs, r.cwd, path, follow);
      case Cwd =>
        res := Ok(r.cwd);
      case FdRelative(fd, path) =>
        var parent := r.openDir(fd);
        if parent.Err? { return Err(parent.error); }
        res := LookupFromParent(r.fs, parent.value, path, follow);
      case AtFd(fd) =>
        res := r.openDir(fd);
    }
  }

  /** `FsPath::new` and the lookup together: where a path given with a directory descriptor leads. */
  method LookupAt(r: FsResolver, dirfd: Fd, path: string, follow: bool) returns (res: Result<Dentry, Errno>)
    ensures |path| > 4096 ==> res == Err(ENAMETOOLONG)
    ensures 0 < |path| <= 4096 && path[0] == '/' ==> res == ResolvePath(r.fs, r.fs.root, path, follow)
    ensures |path| <= 4096 && (|path| == 0 || path[0] != '/') ==>
              if dirfd == -100 then res == if |path| == 0 then Ok(r.cwd) else ResolvePath(r.fs, r.cwd, path, follow)
              else if dirfd < 0 then res == Err(EBADF)
              else match r.openDir(dirfd)
                   case Err(e) => res == Err(e)
                   case Ok(d) => res == if |path| == 0 then Ok(d) else ResolvePath(r.fs, d, path, follow)
  {
    hide Meaning;
    NewIsWellFormed(dirfd, path);
    var p := NewFsPath(dirfd, path);
    if p.Err? { return Err(p.error); }
    res := LookupInner(r, p.value, follow);
  }

  lemma DirMeaning(fs: Fs, d: Dentry, s: string, dir: string, budget: nat)
    requires var cs := Components(s);
             |cs| > 0 && Components(dir) == (if |cs| == 1 && !StartsSlash(s) then [[DOT]] else cs[..|cs| - 1])
    ensures var cs := Components(s);
            Meaning(fs, d, s, false, budget) ==
            ThenBase(fs, Meaning(fs, d, dir, true, budget), cs[|cs| - 1], EndsSlash(s))
  {
    var cs := Components(s);
    var last := cs[|cs| - 1];
    if |cs| == 1 && !StartsSlash(s) {
      assert cs == [last];
      ResolveDot(fs, d, last, EndsSlash(s), EndsSlash(dir), budget);
    } else {
      assert cs == cs[..|cs| - 1] + [last];
      ResolveSplit(fs, d, cs[..|cs| - 1], last, EndsSlash(s), EndsSlash(dir), budget);
    }
  }

  lemma SameStart(r: FsResolver, p: FsPath, s: string)
    requires HasText(p)
    ensures var q := p.(path := s);
            q.path == s && HasText(q) && Start(r, q) == Start(r, p)
  {
  }

  /** Lookup of a whole path is lookup of its directory, then of its base name. */
  lemma PathSplits(r: FsResolver, p: FsPath)
    requires HasText(p) && |Components(p.path)| > 0
    ensures PathMeaning(r, p, false) ==
            ThenBase(r.fs, PathMeaning(r, p.(path := DirPath(p.path)), true),
                     TrimEnd(BaseName(p.path)), EndsSlash(BaseName(p.path)))
  {
    var s := p.path;
    BaseNameIs(s);
    DirPathIs(s);
    SameStart(r, p, DirPath(s));
    if Start(r, p).Ok? { DirMeaning(r.fs, Start(r, p).value, s, DirPath(s), SYMLINKS_MAX); }
  }

  lemma RootSplits(r: FsResolver, p: FsPath)
    requires p.Absolute? && |Components(p.path)| == 0
    ensures PathMeaning(r, Absolute(DirPath(p.path)), true) == Ok(r.fs.root) && BaseName(p.path) == [DOT]
  {
    hide Names, DirPath, BaseName;
    NoComponents(p.path);
    RootComponents();
  }

  lemma DirWellFormed(p: FsPath)
    requires WellFormed(p) && HasText(p)
    ensures WellFormed(p.(path := DirPath(p.path)))
  {
    if |Components(p.path)| == 0 { NoComponents(p.path); } else { DirPathIs(p.path); }
  }

  /** Whatever directory and base name it returns, looking the base name up in that directory
      gives exactly what a lookup of the whole path without following its last symlink gives. */
  method LookupDirAndBaseName(r: FsResolver, p: FsPath) returns (res: Result<(Dentry, string), Errno>)
    requires WellFormed(p)
    ensures !HasText(p) ==> res == Err(ENOENT)
    ensures p.Absolute? && |Components(p.path)| == 0 ==> res == Ok((r.fs.root, [DOT]))
    ensures HasText(p) && |Components(p.path)| > 0 && res.Ok? ==>
              PathMeaning(r, p, false) ==
              ThenBase(r.fs, Ok(res.value.0), TrimEnd(res.value.1), EndsSlash(res.value.1))
    ensures HasText(p) && |Components(p.path)| > 0 && res.Err? ==> PathMeaning(r, p, false) == Err(res.error)
    ensures HasText(p) && |Components(p.path)| > 0 && res.Ok? ==>
              var cs := Components(p.path);
              TrimEnd(res.value.1) == cs[|cs| - 1] && EndsSlash(res.value.1) == EndsSlash(p.path)
  {
    if !HasText(p) { return Err(ENOENT); }
    var s := p.path;
    DirWellFormed(p);
    if |Components(s)| > 0 { PathSplits(r, p); BaseNameIs(s); } else if p.Absolute? { RootSplits(r, p); }
    var dir, fileName := DirPath(s), BaseName(s);
    var d := LookupInner(r, p.(path := dir), true);
    if d.Err? { return Err(d.error); }
    res := Ok((d.value, fileName));
  }
}
