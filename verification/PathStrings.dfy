/** Paths as strings: the names between the slashes, and the cuts and trims made on them. */
module PathStrings {

  const SLASH: char := '/'
  const DOT: char := '.'

  predicate StartsSlash(s: string) { |s| > 0 && s[0] == SLASH }

  predicate EndsSlash(s: string) { |s| > 0 && s[|s| - 1] == SLASH }

  predicate SlashFree(s: string, lo: nat, hi: nat)
    requires lo <= hi <= |s|
  {
    forall i :: lo <= i < hi ==> s[i] != SLASH
  }

  predicate Slashes(s: string, lo: nat, hi: nat)
    requires lo <= hi <= |s|
  {
    forall i :: lo <= i < hi ==> s[i] == SLASH
  }

  // Searches within `s[lo..hi]`.

  /** The position of the first slash, or `hi`. */
  function FindIn(s: string, lo: nat, hi: nat): (e: nat)
    requires lo <= hi <= |s|
    ensures lo <= e <= hi && SlashFree(s, lo, e) && (e < hi ==> s[e] == SLASH)
    decreases hi - lo, s
  {
    if lo == hi || s[lo] == SLASH then lo else FindIn(s, lo + 1, hi)
  }

  function Find(s: string): nat { FindIn(s, 0, |s|) }

  /** The position of the first character that is no slash, or `|s|`. */
  function SkipIn(s: string, lo: nat): (k: nat)
    requires lo <= |s|
    ensures lo <= k <= |s| && Slashes(s, lo, k) && (k < |s| ==> s[k] != SLASH)
    decreases |s| - lo, s
  {
    if lo < |s| && s[lo] == SLASH then SkipIn(s, lo + 1) else lo
  }

  /** The position after the last character of `s[..hi]` that is no slash, or 0. */
  function EndIn(s: string, hi: nat): (k: nat)
    requires hi <= |s|
    ensures k <= hi && Slashes(s, k, hi) && (k > 0 ==> s[k - 1] != SLASH)
    decreases hi, s
  {
    if hi > 0 && s[hi - 1] == SLASH then EndIn(s, hi - 1) else hi
  }

  /** The position after the last slash of `s[..hi]`, or 0. */
  function AfterSlashIn(s: string, hi: nat): (k: nat)
    requires hi <= |s|
    ensures k <= hi && SlashFree(s, k, hi) && (k > 0 ==> s[k - 1] == SLASH)
    decreases hi, s
  {
    if hi == 0 || s[hi - 1] == SLASH then hi else AfterSlashIn(s, hi - 1)
  }

  function TrimStart(s: string): string { s[SkipIn(s, 0)..] }

  function TrimEnd(s: string): string { s[..EndIn(s, |s|)] }

  /** The names between the slashes of `s[lo..hi]`. */
  function Names(s: string, lo: nat, hi: nat): seq<string>
    requires lo <= hi <= |s|
    decreases hi - lo, s
  {
    if lo == hi then []
    else if s[lo] == SLASH then Names(s, lo + 1, hi)
    else [s[lo..FindIn(s, lo, hi)]] + Names(s, FindIn(s, lo, hi), hi)
  }

  function Components(s: string): seq<string> { Names(s, 0, |s|) }

  // Names of parts and of shifted copies.

  lemma {:induction false} FindShorter(s: string, lo: nat, k: nat, hi: nat)
    requires lo <= k < hi <= |s| && s[k] == SLASH
    ensures FindIn(s, lo, hi) == FindIn(s, lo, k)
    decreases k - lo
  {
    if lo < k && s[lo] != SLASH { FindShorter(s, lo + 1, k, hi); }
  }

  /** A slash separates: the names on its two sides are independent. */
  lemma {:induction false} NamesAt(s: string, lo: nat, k: nat, hi: nat)
    requires lo <= k < hi <= |s| && s[k] == SLASH
    ensures Names(s, lo, hi) == Names(s, lo, k) + Names(s, k + 1, hi)
    decreases k - lo
  {
    if lo < k {
      if s[lo] == SLASH {
        NamesAt(s, lo + 1, k, hi);
      } else {
        FindShorter(s, lo, k, hi);
        NamesAt(s, FindIn(s, lo, k), k, hi);
      }
    }
  }

  predicate SameText(s: string, lo: nat, hi: nat, t: string, d: nat)
    requires lo <= hi <= |s| && hi + d <= |t|
  {
    forall i :: lo <= i < hi ==> s[i] == t[i + d]
  }

  lemma {:induction false} FindShifted(s: string, lo: nat, hi: nat, t: string, d: nat)
    requires lo <= hi <= |s| && hi + d <= |t| && SameText(s, lo, hi, t, d)
    ensures FindIn(t, lo + d, hi + d) == FindIn(s, lo, hi) + d
    decreases hi - lo
  {
    if lo < hi && s[lo] != SLASH { FindShifted(s, lo + 1, hi, t, d); }
  }

  lemma {:induction false} FirstName(s: string, lo: nat, hi: nat)
    requires lo < hi <= |s| && s[lo] != SLASH
    ensures lo < FindIn(s, lo, hi)
    ensures Names(s, lo, hi) == [s[lo..FindIn(s, lo, hi)]] + Names(s, FindIn(s, lo, hi), hi)
  {
  }

  lemma SliceShifted(s: string, lo: nat, hi: nat, t: string, d: nat)
    requires lo <= hi <= |s| && hi + d <= |t| && SameText(s, lo, hi, t, d)
    ensures t[lo + d..hi + d] == s[lo..hi]
  {
    var a, b := t[lo + d..hi + d], s[lo..hi];
    forall i | 0 <= i < hi - lo ensures a[i] == b[i] {
      assert s[lo + i] == t[lo + i + d];
    }
  }

  lemma NamesFrom(s: string, lo: nat, e: nat, hi: nat, t: string, d: nat)
    requires lo < hi <= |s| && hi + d <= |t| && s[lo] != SLASH && t[lo + d] != SLASH
    requires e == FindIn(s, lo, hi) && FindIn(t, lo + d, hi + d) == e + d && t[lo + d..e + d] == s[lo..e]
    requires Names(t, e + d, hi + d) == Names(s, e, hi)
    ensures Names(t, lo + d, hi + d) == Names(s, lo, hi)
  {
    hide *;
    FirstName(s, lo, hi);
    FirstName(t, lo + d, hi + d);
  }

  lemma SameTextPart(s: string, lo: nat, hi: nat, t: string, d: nat, a: nat, b: nat)
    requires lo <= a <= b <= hi <= |s| && hi + d <= |t| && SameText(s, lo, hi, t, d)
    ensures SameText(s, a, b, t, d) && (lo < hi ==> t[lo + d] == s[lo])
  {
  }

  lemma {:induction false} NamesShifted(s: string, lo: nat, hi: nat, t: string, d: nat)
    requires lo <= hi <= |s| && hi + d <= |t| && SameText(s, lo, hi, t, d)
    ensures Names(t, lo + d, hi + d) == Names(s, lo, hi)
    decreases hi - lo
  {
    if lo < hi {
      var e := if s[lo] == SLASH then lo + 1 else FindIn(s, lo, hi);
      SameTextPart(s, lo, hi, t, d, e, hi);
      NamesShifted(s, e, hi, t, d);
      if s[lo] != SLASH {
        FindShifted(s, lo, hi, t, d);
        SameTextPart(s, lo, hi, t, d, lo, e);
        SliceShifted(s, lo, e, t, d);
        NamesFrom(s, lo, e, hi, t, d);
      }
    }
  }

  lemma {:induction false} ComponentsFrom(s: string, k: nat)
    requires k <= |s|
    ensures Components(s[k..]) == Names(s, k, |s|)
  {
    NamesShifted(s[k..], 0, |s| - k, s, k);
  }

  lemma {:induction false} ComponentsUpTo(s: string, k: nat)
    requires k <= |s|
    ensures Components(s[..k]) == Names(s, 0, k)
  {
    NamesShifted(s[..k], 0, k, s, 0);
  }

  lemma ComponentsAt(s: string, k: nat)
    requires k < |s| && s[k] == SLASH
    ensures Components(s) == Components(s[..k]) + Components(s[k + 1..])
  {
    NamesAt(s, 0, k, |s|);
    ComponentsUpTo(s, k);
    ComponentsFrom(s, k + 1);
  }

  lemma ComponentsConcat(p: string, q: string)
    ensures Components(p + [SLASH] + q) == Components(p) + Components(q)
  {
    var s := p + [SLASH] + q;
    ComponentsAt(s, |p|);
    assert s[..|p|] == p && s[|p| + 1..] == q;
  }

  lemma ComponentsEndSlash(s: string)
    ensures Components(s + [SLASH]) == Components(s)
  {
    var t := s + [SLASH];
    NamesAt(t, 0, |s|, |t|);
    ComponentsUpTo(t, |s|);
    assert t[..|s|] == s;
  }

  lemma {:induction false} FindNone(s: string, lo: nat, hi: nat)
    requires lo <= hi <= |s| && SlashFree(s, lo, hi)
    ensures FindIn(s, lo, hi) == hi
    decreases hi - lo
  {
    if lo < hi { FindNone(s, lo + 1, hi); }
  }

  /** A stretch without slashes is one name. */
  lemma {:induction false} OneName(s: string, lo: nat, hi: nat)
    requires lo < hi <= |s| && SlashFree(s, lo, hi)
    ensures Names(s, lo, hi) == [s[lo..hi]] && FindIn(s, lo, hi) == hi
  {
    FindNone(s, lo, hi);
    FirstName(s, lo, hi);
  }

  // Trimming.

  lemma {:induction false} NamesSkip(s: string, lo: nat)
    requires lo <= |s|
    ensures Names(s, lo, |s|) == Names(s, SkipIn(s, lo), |s|)
    decreases |s| - lo
  {
    if lo < |s| && s[lo] == SLASH { NamesSkip(s, lo + 1); }
  }

  lemma {:induction false} NoNamesIff(s: string)
    ensures |Components(s)| == 0 <==> SkipIn(s, 0) == |s|
  {
    NamesSkip(s, 0);
  }

  lemma TrimStartKeeps(s: string)
    ensures Components(TrimStart(s)) == Components(s) && !StartsSlash(TrimStart(s))
    ensures |Components(s)| == 0 <==> |TrimStart(s)| == 0
    ensures |Components(s)| > 0 ==> EndsSlash(TrimStart(s)) == EndsSlash(s)
    ensures |Components(s)| == 0 && |s| > 0 ==> EndsSlash(s)
  {
    var k := SkipIn(s, 0);
    NamesSkip(s, 0);
    NoNamesIff(s);
    ComponentsFrom(s, k);
  }

  lemma {:induction false} NamesEnd(s: string, hi: nat)
    requires hi <= |s|
    ensures Names(s, 0, hi) == Names(s, 0, EndIn(s, hi))
    decreases hi
  {
    if hi > 0 && s[hi - 1] == SLASH {
      NamesAt(s, 0, hi - 1, hi);
      NamesEnd(s, hi - 1);
    }
  }

  lemma TrimEndKeeps(s: string)
    ensures Components(TrimEnd(s)) == Components(s) && !EndsSlash(TrimEnd(s))
    ensures |TrimEnd(s)| == 0 <==> |Components(s)| == 0
    ensures |TrimEnd(s)| > 0 ==> TrimEnd(s)[0] == s[0]
    ensures |TrimEnd(s)| == 0 && |s| > 0 ==> s[0] == SLASH
  {
    var k := EndIn(s, |s|);
    NamesEnd(s, |s|);
    ComponentsUpTo(s, k);
    NoNamesIff(s);
    if k > 0 { assert SkipIn(s, 0) <= k - 1; }
  }

  // The last name.

  /** What comes before the last slash, and the name after it. */
  lemma {:induction false} LastName(q: string)
    requires |q| > 0 && !EndsSlash(q)
    ensures var k := AfterSlashIn(q, |q|);
            && k < |q| && Components(q) == Names(q, 0, if k > 0 then k - 1 else 0) + [q[k..|q|]]
  {
    var k := AfterSlashIn(q, |q|);
    assert k < |q| && |Names(q, 0, 0)| == 0;
    hide Names, AfterSlashIn;
    OneName(q, k, |q|);
    if k > 0 { NamesAt(q, 0, k - 1, |q|); }
  }

  /** Names are not empty and have no slash. */
  lemma {:induction false} NamesAreNames(s: string, lo: nat, hi: nat, i: nat)
    requires lo <= hi <= |s| && i < |Names(s, lo, hi)|
    ensures var name := Names(s, lo, hi)[i];
            |name| > 0 && SlashFree(name, 0, |name|)
    decreases hi - lo
  {
    if s[lo] == SLASH {
      NamesAreNames(s, lo + 1, hi, i);
    } else if i > 0 {
      NamesAreNames(s, FindIn(s, lo, hi), hi, i - 1);
    }
  }

  /** The pieces of `s[lo..hi]` cut after each slash, without those that are only a slash. */
  function Pieces(s: string, lo: nat, hi: nat): seq<string>
    requires lo <= hi <= |s|
    decreases hi - lo, s
  {
    if lo == hi then []
    else
      var e := FindIn(s, lo, hi);
      if e == hi then [s[lo..hi]]
      else if e == lo then Pieces(s, lo + 1, hi)
      else [s[lo..e + 1]] + Pieces(s, e + 1, hi)
  }

  /** The last piece is the last name, and the slash if there is one. */
  predicate Agree(cs: seq<string>, ps: seq<string>, slash: bool) {
    && (|cs| == 0 <==> |ps| == 0)
    && (|cs| > 0 ==> ps[|ps| - 1] == if slash then cs[|cs| - 1] + [SLASH] else cs[|cs| - 1])
  }

  lemma AgreeCons(name: string, cs: seq<string>, ps: seq<string>, slash: bool)
    requires Agree(cs, ps, slash) && (|cs| == 0 ==> slash)
    ensures Agree([name] + cs, [name + [SLASH]] + ps, slash)
  {
  }

  lemma SlashSkipped(s: string, lo: nat, hi: nat)
    requires lo < hi <= |s| && s[lo] == SLASH
    ensures Names(s, lo, hi) == Names(s, lo + 1, hi) && Pieces(s, lo, hi) == Pieces(s, lo + 1, hi)
  {
  }

  lemma FirstPiece(s: string, lo: nat, e: nat, hi: nat)
    requires lo < e < hi <= |s| && e == FindIn(s, lo, hi)
    ensures Pieces(s, lo, hi) == [s[lo..e + 1]] + Pieces(s, e + 1, hi)
  {
  }

  lemma NameAndPiece(s: string, lo: nat, e: nat, hi: nat)
    requires lo < e < hi <= |s| && e == FindIn(s, lo, hi)
    ensures Names(s, lo, hi) == [s[lo..e]] + Names(s, e + 1, hi)
    ensures Pieces(s, lo, hi) == [s[lo..e] + [SLASH]] + Pieces(s, e + 1, hi)
  {
    hide Names, Pieces, FindIn;
    FirstName(s, lo, hi);
    FirstPiece(s, lo, e, hi);
    SlashSkipped(s, e, hi);
    assert s[lo..e + 1] == s[lo..e] + [SLASH];
  }

  lemma {:induction false} OnePiece(s: string, lo: nat, hi: nat)
    requires lo < hi <= |s| && FindIn(s, lo, hi) == hi
    ensures Agree(Names(s, lo, hi), Pieces(s, lo, hi), false) && |Names(s, lo, hi)| > 0 && s[hi - 1] != SLASH
  {
    OneName(s, lo, hi);
    assert Pieces(s, lo, hi) == [s[lo..hi]];
    assert SlashFree(s, lo, hi);
  }

  lemma {:induction false} LastPiece(s: string, lo: nat, hi: nat)
    requires lo <= hi <= |s|
    ensures Agree(Names(s, lo, hi), Pieces(s, lo, hi), hi > 0 && s[hi - 1] == SLASH)
    ensures |Names(s, lo, hi)| == 0 && lo < hi ==> s[hi - 1] == SLASH
    decreases hi - lo
  {
    if lo < hi {
      hide Names, Pieces, Agree, FindIn;
      var e := FindIn(s, lo, hi);
      if e == hi {
        OnePiece(s, lo, hi);
      } else {
        LastPiece(s, e + 1, hi);
        if e == lo {
          SlashSkipped(s, lo, hi);
        } else {
          NameAndPiece(s, lo, e, hi);
          AgreeCons(s[lo..e], Names(s, e + 1, hi), Pieces(s, e + 1, hi), s[hi - 1] == SLASH);
        }
      }
    }
  }

  // The two halves of `split_path`.

  function BaseName(path: string): string {
    var pieces := Pieces(path, 0, |path|);
    if |pieces| == 0 then [DOT] else pieces[|pieces| - 1]
  }

  /** The text before the last slash, or ".". */
  function BeforeLastSlash(s: string): string {
    var k := AfterSlashIn(s, |s|);
    if k > 0 then s[..k - 1] else [DOT]
  }

  function DirPath(path: string): string {
    var trimmed := TrimEnd(path);
    if |trimmed[AfterSlashIn(trimmed, |trimmed|)..]| == 0 then [SLASH]
    else
      var dir := TrimEnd(BeforeLastSlash(trimmed));
      if |dir| == 0 then [SLASH] else dir
  }

  lemma TrimOneSlash(s: string)
    requires |s| > 0 && s[|s| - 1] != SLASH
    ensures TrimEnd(s) == s && TrimEnd(s + [SLASH]) == s
  {
    var t := s + [SLASH];
    assert EndIn(t, |t|) == EndIn(t, |s|) == |s|;
    assert t[..|s|] == s;
  }

  /** The base name is the last name and any final slash. */
  lemma BaseNameIs(path: string)
    requires |Components(path)| > 0
    ensures var cs := Components(path);
            && BaseName(path) == (if EndsSlash(path) then cs[|cs| - 1] + [SLASH] else cs[|cs| - 1])
            && TrimEnd(BaseName(path)) == cs[|cs| - 1] && EndsSlash(BaseName(path)) == EndsSlash(path)
  {
    LastPiece(path, 0, |path|);
    var cs := Components(path);
    var last := cs[|cs| - 1];
    NamesAreNames(path, 0, |path|, |cs| - 1);
    TrimOneSlash(last);
  }

  lemma DotComponents()
    ensures Components([DOT]) == [[DOT]] && TrimEnd([DOT]) == [DOT]
  {
    var s := [DOT];
    OneName(s, 0, 1);
    assert s[0..1] == s;
  }

  lemma RootComponents()
    ensures |Components([SLASH])| == 0
  {
    var s := [SLASH];
    NamesAt(s, 0, 0, 1);
  }

  /** The directory path has all names but the last, and is absolute when the path is. */
  lemma DirPathIs(path: string)
    requires |Components(path)| > 0
    ensures var cs, dir := Components(path), DirPath(path);
            && Components(dir) == (if |cs| == 1 && !StartsSlash(path) then [[DOT]] else cs[..|cs| - 1])
            && StartsSlash(dir) == StartsSlash(path)
            && 0 < |dir| <= |path| && (EndsSlash(dir) ==> dir == [SLASH])
  {
    var cs, trimmed := Components(path), TrimEnd(path);
    TrimEndKeeps(path);
    LastName(trimmed);
    var k := AfterSlashIn(trimmed, |trimmed|);
    DotComponents();
    RootComponents();
    if k > 0 {
      var before := trimmed[..k - 1];
      TrimEndKeeps(before);
      ComponentsUpTo(trimmed, k - 1);
      assert cs[..|cs| - 1] == Components(before);
      assert |before| > 0 ==> before[0] == trimmed[0];
      assert |before| == 0 ==> trimmed[0] == SLASH;
      assert StartsSlash(path) || |Components(before)| > 0;
    } else {
      assert trimmed[0] != SLASH;
    }
  }

  lemma NoComponents(s: string)
    requires |Components(s)| == 0
    ensures DirPath(s) == [SLASH] && BaseName(s) == [DOT] && (|s| > 0 ==> StartsSlash(s))
  {
    TrimEndKeeps(s);
    LastPiece(s, 0, |s|);
  }
}
