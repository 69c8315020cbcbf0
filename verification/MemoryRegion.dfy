/** Boot memory regions: usable regions truncated by the unusable ones they overlap, and the page
frames the frame allocator is given.
 */
module MemoryRegion {

  import opened AlignExt

  datatype RegionType = BadMemory | Unknown | NonVolatileSleep | Reserved | Kernel | Module | Framebuffer | Reclaimable | Usable

  datatype Region = Region(base: nat, len: nat, typ: RegionType)

  predicate Has(r: Region, x: nat) { r.base <= x < r.base + r.len }

  predicate Frameable(t: RegionType) { t == Usable || t == Reclaimable }

  /** How many regions of type `t` the address `x` is in. */
  function Cover(rs: seq<Region>, t: RegionType, x: nat): nat {
    if rs == [] then 0 else (if rs[0].typ == t && Has(rs[0], x) then 1 else 0) + Cover(rs[1..], t, x)
  }

  /** The address is in some region that is neither usable nor reclaimable. */
  predicate Blocked(rs: seq<Region>, x: nat) {
    exists i :: 0 <= i < |rs| && rs[i].typ != Usable && rs[i].typ != Reclaimable && Has(rs[i], x)
  }

  lemma {:induction false} CoverAppend(a: seq<Region>, b: seq<Region>, t: RegionType, x: nat)
    ensures Cover(a + b, t, x) == Cover(a, t, x) + Cover(b, t, x)
    decreases |a|
  {
    if a == [] {
      assert a + b == b;
    } else {
      assert (a + b)[1..] == a[1..] + b;
      CoverAppend(a[1..], b, t, x);
    }
  }

  lemma {:induction false} CoverOne(r: Region, t: RegionType, x: nat)
    ensures Cover([r], t, x) == if r.typ == t && Has(r, x) then 1 else 0
  {
    assert [r][1..] == [];
  }

  /** `r` without the range of `t`. */
  function Truncate(r: Region, t: Region): seq<Region> {
    if r.base < t.base then
      if r.base + r.len > t.base then
        if r.base + r.len > t.base + t.len then
          [Region(r.base, t.base - r.base, r.typ),
           Region(t.base + t.len, r.base + r.len - (t.base + t.len), r.typ)]
        else [Region(r.base, t.base - r.base, r.typ)]
      else [r]
    else if r.base < t.base + t.len then
      if r.base + r.len > t.base + t.len then
        [Region(t.base + t.len, r.base + r.len - (t.base + t.len), r.typ)]
      else []
    else [r]
  }

  /** The pieces hold each address of `r` outside `t` once, and no other address. */
  lemma {:induction false} TruncateCover(r: Region, t: Region, ty: RegionType, x: nat)
    ensures Cover(Truncate(r, t), ty, x) == if Has(t, x) then 0 else Cover([r], ty, x)
  {
    var ps := Truncate(r, t);
    CoverOne(r, ty, x);
    if |ps| == 2 {
      assert ps == [ps[0]] + [ps[1]];
      CoverAppend([ps[0]], [ps[1]], ty, x);
      CoverOne(ps[0], ty, x);
      CoverOne(ps[1], ty, x);
    } else if |ps| == 1 {
      assert ps == [ps[0]];
      CoverOne(ps[0], ty, x);
    }
  }

  lemma {:induction false} CoverNext(rs: seq<Region>, i: nat, t: RegionType, x: nat)
    requires i < |rs|
    ensures Cover(rs[..i + 1], t, x) == Cover(rs[..i], t, x) + Cover([rs[i]], t, x)
  {
    assert rs[..i + 1] == rs[..i] + [rs[i]];
    CoverAppend(rs[..i], [rs[i]], t, x);
  }

  predicate AllFrameable(rs: seq<Region>) { forall i :: 0 <= i < |rs| ==> Frameable(rs[i].typ) }

  predicate AllBlocking(rs: seq<Region>) { forall i :: 0 <= i < |rs| ==> !Frameable(rs[i].typ) }

  /** `dst` covers what `src` does outside `t`. */
  ghost predicate Cuts(src: seq<Region>, dst: seq<Region>, t: Region) {
    forall ty, x: nat :: Cover(dst, ty, x) == if Has(t, x) then 0 else Cover(src, ty, x)
  }

  lemma CutNext(src: seq<Region>, i: nat, dst: seq<Region>, t: Region)
    requires i < |src| && Cuts(src[..i], dst, t)
    ensures Cuts(src[..i + 1], dst + Truncate(src[i], t), t)
  {
    var dst', src' := dst + Truncate(src[i], t), src[..i + 1];
    forall ty, x: nat ensures Cover(dst', ty, x) == if Has(t, x) then 0 else Cover(src', ty, x) {
      CoverAppend(dst, Truncate(src[i], t), ty, x);
      TruncateCover(src[i], t, ty, x);
      CoverNext(src, i, ty, x);
    }
  }

  /** One round of the loop: every usable region is truncated by `t`. */
  method TruncateAll(src: seq<Region>, t: Region) returns (dst: seq<Region>)
    requires AllFrameable(src)
    ensures Cuts(src, dst, t) && AllFrameable(dst)
  {
    dst := [];
    for i := 0 to |src|
      invariant Cuts(src[..i], dst, t) && AllFrameable(dst)
    {
      CutNext(src, i, dst, t);
      dst := dst + Truncate(src[i], t);
    }
    assert src[..|src|] == src;
  }

  /** `pieces` covers what `usable` does outside the regions of `blocking`. */
  ghost predicate CutsAll(usable: seq<Region>, pieces: seq<Region>, blocking: seq<Region>) {
    forall ty, x: nat :: Cover(pieces, ty, x) == if Blocked(blocking, x) then 0 else Cover(usable, ty, x)
  }

  lemma CutByNext(usable: seq<Region>, src: seq<Region>, dst: seq<Region>, blocking: seq<Region>, i: nat)
    requires i < |blocking| && AllBlocking(blocking) && CutsAll(usable, src, blocking[..i]) && Cuts(src, dst, blocking[i])
    ensures CutsAll(usable, dst, blocking[..i + 1])
  {
    var more := blocking[..i + 1];
    forall ty, x: nat ensures Cover(dst, ty, x) == if Blocked(more, x) then 0 else Cover(usable, ty, x) {
      assert Blocked(more, x) <==> Blocked(blocking[..i], x) || Has(blocking[i], x) by {
        if Has(blocking[i], x) { assert more[i] == blocking[i]; }
        if Blocked(blocking[..i], x) {
          var k :| 0 <= k < i && !Frameable(blocking[..i][k].typ) && Has(blocking[..i][k], x);
          assert more[k] == blocking[..i][k];
        }
      }
      assert Cover(dst, ty, x) == if Has(blocking[i], x) then 0 else Cover(src, ty, x);
    }
  }

  lemma {:induction false} OtherTypeCover(rs: seq<Region>, t: RegionType, x: nat)
    requires forall i :: 0 <= i < |rs| ==> rs[i].typ != t
    ensures Cover(rs, t, x) == 0
    decreases |rs|
  {
    if rs != [] { OtherTypeCover(rs[1..], t, x); }
  }

  /** `usable` and `blocking` are the two kinds of regions of `rs`. */
  ghost predicate SplitByKind(rs: seq<Region>, usable: seq<Region>, blocking: seq<Region>) {
    && AllFrameable(usable) && AllBlocking(blocking)
    && (forall ty, x: nat :: Cover(rs, ty, x) == Cover(usable, ty, x) + Cover(blocking, ty, x))
    && (forall x: nat :: Blocked(rs, x) <==> Blocked(blocking, x))
  }

  lemma BlockedNext(rs: seq<Region>, i: nat, x: nat)
    requires i < |rs|
    ensures Blocked(rs[..i + 1], x) <==> Blocked(rs[..i], x) || (!Frameable(rs[i].typ) && Has(rs[i], x))
  {
    var more, less := rs[..i + 1], rs[..i];
    if Blocked(less, x) {
      var k :| 0 <= k < |less| && !Frameable(less[k].typ) && Has(less[k], x);
      assert more[k] == less[k];
    }
    assert more[i] == rs[i];
  }

  lemma SplitNext(rs: seq<Region>, i: nat, usable: seq<Region>, blocking: seq<Region>)
    requires i < |rs| && SplitByKind(rs[..i], usable, blocking)
    ensures Frameable(rs[i].typ) ==> SplitByKind(rs[..i + 1], usable + [rs[i]], blocking)
    ensures !Frameable(rs[i].typ) ==> SplitByKind(rs[..i + 1], usable, blocking + [rs[i]])
  {
    var more, u, b := rs[..i + 1], usable + [rs[i]], blocking + [rs[i]];
    forall ty, x: nat
      ensures Cover(more, ty, x) == Cover(u, ty, x) + Cover(blocking, ty, x)
      ensures Cover(more, ty, x) == Cover(usable, ty, x) + Cover(b, ty, x)
    {
      CoverNext(rs, i, ty, x);
      CoverAppend(usable, [rs[i]], ty, x);
      CoverAppend(blocking, [rs[i]], ty, x);
    }
    forall x: nat ensures Blocked(more, x) <==> Blocked(if Frameable(rs[i].typ) then blocking else b, x) {
      BlockedNext(rs, i, x);
      BlockedNext(b, |blocking|, x);
      assert b[..|blocking|] == blocking && b[..|b|] == b;
    }
  }

  /** Usable and reclaimable memory loses exactly the addresses in other regions, and keeps the
      others as many times as they were listed; the other regions stay. */
  method NonOverlappingRegionsFrom(regions: seq<Region>) returns (all: seq<Region>)
    ensures forall ty, x: nat ::
              Cover(all, ty, x) ==
              if (ty == Usable || ty == Reclaimable) && Blocked(regions, x) then 0 else Cover(regions, ty, x)
  {
    var usable, blocking := [], [];
    for i := 0 to |regions|
      invariant SplitByKind(regions[..i], usable, blocking)
    {
      SplitNext(regions, i, usable, blocking);
      if Frameable(regions[i].typ) { usable := usable + [regions[i]]; } else { blocking := blocking + [regions[i]]; }
    }
    assert regions[..|regions|] == regions;
    var src := usable;
    for i := 0 to |blocking|
      invariant CutsAll(usable, src, blocking[..i]) && AllFrameable(src)
    {
      var dst := TruncateAll(src, blocking[i]);
      CutByNext(usable, src, dst, blocking, i);
      src := dst;
    }
    assert blocking[..|blocking|] == blocking;
    all := blocking + src;
    forall ty, x: nat
      ensures Cover(all, ty, x) == if Frameable(ty) && Blocked(regions, x) then 0 else Cover(regions, ty, x)
    {
      CoverAppend(blocking, src, ty, x);
      if Frameable(ty) { OtherTypeCover(blocking, ty, x); } else { OtherTypeCover(usable, ty, x); OtherTypeCover(src, ty, x); }
    }
  }

  // The frames given to the allocator.

  predicate WholeFrame(r: Region, f: nat) { r.base <= f * 4096 && (f + 1) * 4096 <= r.base + r.len }

  /** How many usable regions hold all of frame `f`. */
  function WholeCover(rs: seq<Region>, f: nat): nat {
    if rs == [] then 0 else (if rs[0].typ == Usable && WholeFrame(rs[0], f) then 1 else 0) + WholeCover(rs[1..], f)
  }

  /** How many of the ranges hold frame `f`. */
  function Given(ranges: seq<(nat, nat)>, f: nat): nat {
    if ranges == [] then 0 else (if ranges[0].0 <= f < ranges[0].1 then 1 else 0) + Given(ranges[1..], f)
  }

  lemma {:induction false} GivenAppend(a: seq<(nat, nat)>, r: (nat, nat), f: nat)
    ensures Given(a + [r], f) == Given(a, f) + if r.0 <= f < r.1 then 1 else 0
    decreases |a|
  {
    if a == [] {
      assert (a + [r])[1..] == [];
    } else {
      assert (a + [r])[1..] == a[1..] + [r];
      GivenAppend(a[1..], r, f);
    }
  }

  lemma {:induction false} WholeAppend(a: seq<Region>, r: Region, f: nat)
    ensures WholeCover(a + [r], f) == WholeCover(a, f) + if r.typ == Usable && WholeFrame(r, f) then 1 else 0
    decreases |a|
  {
    if a == [] {
      assert (a + [r])[1..] == [];
    } else {
      assert (a + [r])[1..] == a[1..] + [r];
      WholeAppend(a[1..], r, f);
    }
  }

  /** The region's start can be rounded up, and its end is a machine integer. */
  predicate Roundable(r: Region) { r.base + 4095 < USIZE && r.base + r.len < USIZE }

  /** The rounded range holds exactly the frames that lie wholly in the region. */
  lemma RoundedRange(r: Region, f: nat)
    requires Roundable(r)
    ensures AlignUp(r.base, 4096).Some? && AlignDown(r.base + r.len, 4096).Some?
    ensures AlignUp(r.base, 4096).value / 4096 <= f < AlignDown(r.base + r.len, 4096).value / 4096 <==> WholeFrame(r, f)
  {
    hide AlignUp, AlignDown;
    PageAlign(r.base);
    PageAlign(r.base + r.len);
  }

  /** The ranges give each frame as often as the regions hold it. */
  ghost predicate GivesWhole(ranges: seq<(nat, nat)>, regions: seq<Region>) {
    forall f: nat :: Given(ranges, f) == WholeCover(regions, f)
  }

  predicate Agrees(range: (nat, nat), r: Region, f: nat) {
    range.0 <= f < range.1 <==> r.typ == Usable && WholeFrame(r, f)
  }

  lemma GiveNext(ranges: seq<(nat, nat)>, regions: seq<Region>, i: nat, range: (nat, nat))
    requires i < |regions| && GivesWhole(ranges, regions[..i])
    requires forall f: nat :: Agrees(range, regions[i], f)
    ensures GivesWhole(ranges + [range], regions[..i + 1])
    ensures range.1 <= range.0 ==> GivesWhole(ranges, regions[..i + 1])
  {
    var more := regions[..i + 1];
    assert more == regions[..i] + [regions[i]];
    forall f: nat
      ensures Given(ranges + [range], f) == WholeCover(more, f)
      ensures range.1 <= range.0 ==> Given(ranges, f) == WholeCover(more, f)
    {
      WholeAppend(regions[..i], regions[i], f);
      GivenAppend(ranges, range, f);
      assert Given(ranges, f) == WholeCover(regions[..i], f);
      assert Agrees(range, regions[i], f);
    }
  }

  lemma NoneGiven(regions: seq<Region>)
    ensures GivesWhole([], regions[..0])
  {
  }

  /** Every frame is given to the allocator once for each usable region that holds all of it. `ok` is
      false where the source panics: a usable region reaches the end of the machine integers. */
  method FrameAllocatorInit(regions: seq<Region>) returns (ok: bool, ranges: seq<(nat, nat)>)
    ensures ok <==> forall i :: 0 <= i < |regions| && regions[i].typ == Usable ==> Roundable(regions[i])
    ensures ok ==> GivesWhole(ranges, regions)
  {
    hide AlignUp, AlignDown, GivesWhole, WholeFrame;
    ok, ranges := true, [];
    NoneGiven(regions);
    for i := 0 to |regions|
      invariant GivesWhole(ranges, regions[..i]) && ok
      invariant forall j :: 0 <= j < i && regions[j].typ == Usable ==> Roundable(regions[j])
    {
      var r := regions[i];
      if r.typ == Usable {
        if !Roundable(r) { return false, ranges; }
        PageAlign(r.base);
        PageAlign(r.base + r.len);
        var start, end := AlignUp(r.base, 4096).value / 4096, AlignDown(r.base + r.len, 4096).value / 4096;
        forall f: nat ensures Agrees((start, end), r, f) { RoundedRange(r, f); }
        GiveNext(ranges, regions, i, (start, end));
        if end > start { ranges := ranges + [(start, end)]; }
      } else {
        GiveNext(ranges, regions, i, (0, 0));
      }
    }
    assert regions[..|regions|] == regions;
  }

  lemma {:induction false} WholeWithinCover(rs: seq<Region>, f: nat, x: nat)
    requires f * 4096 <= x < (f + 1) * 4096
    ensures WholeCover(rs, f) <= Cover(rs, Usable, x)
    decreases |rs|
  {
    if rs != [] { WholeWithinCover(rs[1..], f, x); }
  }

  /** Boot's two steps together: a frame that reaches the allocator lies wholly in usable memory
      and outside every other region, and is given no more often than its bytes were listed. */
  method InitFrames(regions: seq<Region>) returns (ok: bool, ranges: seq<(nat, nat)>)
    ensures ok ==> forall f: nat, x: nat :: f * 4096 <= x < (f + 1) * 4096 ==>
              && Given(ranges, f) <= Cover(regions, Usable, x)
              && (Given(ranges, f) > 0 ==> !Blocked(regions, x))
  {
    var all := NonOverlappingRegionsFrom(regions);
    ok, ranges := FrameAllocatorInit(all);
    if !ok { return; }
    forall f: nat, x: nat | f * 4096 <= x < (f + 1) * 4096
      ensures Given(ranges, f) <= Cover(regions, Usable, x)
      ensures Given(ranges, f) > 0 ==> !Blocked(regions, x)
    {
      WholeWithinCover(all, f, x);
      assert Given(ranges, f) == WholeCover(all, f);
    }
  }
}
