/** The virtual memory space: ranges of pages mapped, unmapped and protected page by page on a
memory set all of whose areas are single pages.
 */
module VmSpace {
  import opened PageTable
  import opened MemorySet
  import opened Wrappers

  datatype VmPerm = VmPerm(r: bool, w: bool, x: bool, u: bool)

  function FlagsOf(perm: VmPerm): Flags {
    Flags(true, perm.w, true, false, false, false, false, false, false, !perm.x)
  }

  datatype VmError = InvalidArgs | Overflow | PageFault

  // Ranges of pages.

  /** How many pages from `p` on, out of `n`, are mapped before the first that is not. */
  function MappedPrefix(view: View, p: nat, n: nat): (k: nat)
    ensures k <= n && (forall i :: p <= i < p + k ==> i in view) && (k < n ==> p + k !in view)
    decreases n
  {
    if n == 0 || p !in view then 0 else 1 + MappedPrefix(view, p + 1, n - 1)
  }

  function WithoutPages(view: View, p: nat, n: nat): (r: View)
    ensures forall q :: q in r <==> q in view && !(p <= q < p + n)
    ensures forall q :: q in r ==> r[q] == view[q]
  {
    map q | q in view && !(p <= q < p + n) :: view[q]
  }

  lemma UnmapNext(view: View, p: nat, i: nat)
    ensures p + i in view ==> WithoutPages(view, p, i) - {p + i} == WithoutPages(view, p, i + 1)
    ensures p + i !in view ==> WithoutPages(view, p, i) - {p + i} == WithoutPages(view, p, i)
    ensures p + i in WithoutPages(view, p, i) <==> p + i in view
  {
  }

  lemma {:induction false} MappedPrefixIs(view: View, p: nat, n: nat, k: nat)
    requires k <= n && (forall i :: p <= i < p + k ==> i in view) && (k < n ==> p + k !in view)
    ensures MappedPrefix(view, p, n) == k
    decreases n
  {
    if k > 0 { MappedPrefixIs(view, p + 1, n - 1, k - 1); }
  }

  lemma PageAddress(start: Vaddr, i: nat)
    requires Aligned(start)
    ensures Aligned(start + i * 4096) && Vpn(start + i * 4096) == Vpn(start) + i
  {
  }

  /** `view'` is `view` with the frames entered from page `p` on. */
  predicate FramesAt(view: View, view': View, p: nat, frames: seq<Paddr>, flags: Flags, q: nat) {
    && (q in view' <==> q in view || p <= q < p + |frames|)
    && (q in view' ==> view'[q] == if p <= q < p + |frames| then Pte(frames[q - p], flags) else view[q])
  }

  ghost predicate WithFrames(view: View, view': View, p: nat, frames: seq<Paddr>, flags: Flags) {
    forall q: nat :: FramesAt(view, view', p, frames, flags, q)
  }

  function WithFlags(view: View, p: nat, n: nat, flags: Flags): (r: View)
    ensures r.Keys == view.Keys
    ensures forall q :: q in r ==> r[q] == if p <= q < p + n then Pte(view[q].addr, flags) else view[q]
  {
    map q | q in view :: if p <= q < p + n then Pte(view[q].addr, flags) else view[q]
  }

  lemma PageStart(page: nat)
    ensures Aligned(page * 4096) && Vpn(page * 4096) == page
  {
  }

  lemma NoneProtected(view: View, p: nat, flags: Flags)
    ensures WithFlags(view, p, 0, flags) == view
  {
  }

  lemma ProtectNext(view: View, p: nat, n: nat, flags: Flags)
    requires p + n in view && flags.present
    ensures ProtectedView(WithFlags(view, p, n, flags), p + n, flags) == WithFlags(view, p, n + 1, flags)
  {
  }

  predicate RangeFree(view: View, p: nat, n: nat) { forall q :: p <= q < p + n ==> UserPage(q) && q !in view }

  /** What is left to be mapped over: with overwriting, the range is unmapped first, up to its first gap. */
  function BeforeMap(view: View, p: nat, n: nat, overwrite: bool): View {
    if overwrite then WithoutPages(view, p, MappedPrefix(view, p, n)) else view
  }

  /** Overwriting clears a range exactly when no mapped page in it comes after a gap. */
  lemma OverwriteClearsIff(view: View, p: nat, n: nat)
    ensures (forall q :: p <= q < p + n ==> q !in BeforeMap(view, p, n, true))
            <==> (forall i, j :: p <= i < j < p + n && i !in view ==> j !in view)
  {
    var free := BeforeMap(view, p, n, true);
    if forall q :: p <= q < p + n ==> q !in free {
      forall i, j | p <= i < j < p + n && i !in view ensures j !in view {
        assert j in view ==> j in free;
      }
    }
  }

  /** There is room exactly when all pages of the range are user pages and none of them is mapped, or,
      with overwriting, none after a gap. */
  lemma RoomIff(view: View, p: nat, n: nat, overwrite: bool)
    ensures RangeFree(BeforeMap(view, p, n, overwrite), p, n) <==>
            && (forall q :: p <= q < p + n ==> UserPage(q))
            && if overwrite then forall i, j :: p <= i < j < p + n && i !in view ==> j !in view
               else forall q :: p <= q < p + n ==> q !in view
  {
    OverwriteClearsIff(view, p, n);
  }

  /** Outside the range nothing changes. */
  ghost predicate SameOutside(view: View, view': View, p: nat, n: int) {
    forall q :: !(p <= q < p + n) ==> (q in view' <==> q in view) && (q in view ==> view'[q] == view[q])
  }

  lemma FlagsShown(view: View, p: nat, n: nat, perm: VmPerm)
    requires forall q :: p <= q < p + n ==> q in view
    ensures var view' := WithFlags(view, p, n, FlagsOf(perm));
            && SameOutside(view, view', p, n)
            && forall q :: p <= q < p + n ==>
                 && q in view' && q in view && view'[q].addr == view[q].addr
                 && (view'[q].flags.writable <==> perm.w) && (view'[q].flags.noExecute <==> !perm.x)
                 && view'[q].flags.user && view'[q].flags.present
  {
  }

  lemma FramesElsewhere(view: View, view': View, p: nat, frames: seq<Paddr>, flags: Flags, overwrite: bool)
    requires WithFrames(BeforeMap(view, p, |frames|, overwrite), view', p, frames, flags)
    ensures SameOutside(view, view', p, |frames|)
  {
    var free := BeforeMap(view, p, |frames|, overwrite);
    forall q | !(p <= q < p + |frames|) && (q in view || q in view')
      ensures q in view && q in view' && view'[q] == view[q]
    {
      assert FramesAt(free, view', p, frames, flags, q) && (q in free <==> q in view);
    }
  }

  /** The documentation of `unmap` allows gaps in the range, but a page after a gap stays mapped. */
  lemma GapStopsUnmap(e: Pte)
    ensures var view := map[0 := e, 2 := e];
            WithoutPages(view, 0, MappedPrefix(view, 0, 3)) == map[2 := e]
  {
    MappedPrefixIs(map[0 := e, 2 := e], 0, 3, 1);
  }

  // Single-page areas.

  ghost predicate Singles(areas: Areas) { forall a :: a in areas ==> areas[a].size == 4096 }

  /** With single-page areas, a page is mapped exactly when an area starts there. */
  lemma AreaIsPage(areas: Areas, view: View, cover: map<nat, Vaddr>, va: Vaddr)
    requires Agree(areas, view, cover) && Singles(areas) && Aligned(va)
    ensures va in areas <==> Vpn(va) in view
    ensures va in areas ==> areas[va].mapper.Keys == {va} && Vpn(va) in cover && cover[Vpn(va)] == va
  {
    assert PageAgrees(areas, view, cover, Vpn(va)) && AreaAgrees(areas, va);
    PageVaOfVpn(va);
    if va in areas {
      assert OneCover(areas, cover, Vpn(va), va);
      assert va in areas[va].mapper;
    }
    if Vpn(va) in view {
      assert AreaAgrees(areas, cover[Vpn(va)]);
    }
  }

  lemma RemovedOne(view: View, view': View, va: Vaddr)
    requires Removed(view, view', {va}) && Aligned(va)
    ensures view' == view - {Vpn(va)}
  {
    PageVaOfVpn(va);
    forall q: nat ensures q in view' <==> q in view - {Vpn(va)} { assert RemovedAt(view, view', {va}, q); }
    forall q: nat | q in view' ensures view'[q] == view[q] { assert RemovedAt(view, view', {va}, q); }
  }

  lemma OnePageArea(area: MapArea, frame: Paddr, va: Vaddr)
    requires Aligned(va) && FirstPages(area.mapper, va, [frame], 1)
    ensures area.mapper == map[va := frame] && |area.mapper.Keys| == 1
  {
    assert va in area.mapper;
    assert area.mapper.Keys == {va};
  }

  lemma AddedOne(view: View, view': View, area: MapArea, va: Vaddr, frame: Paddr)
    requires Added(view, view', area, area.mapper.Keys) && area.mapper == map[va := frame] && Aligned(va)
    ensures view' == view[Vpn(va) := Pte(frame, area.flags)]
  {
    PageVaOfVpn(va);
    var w := view[Vpn(va) := Pte(frame, area.flags)];
    forall q: nat ensures q in view' <==> q in w { assert AddedAt(view, view', area, area.mapper.Keys, q); }
    forall q: nat | q in view' ensures view'[q] == w[q] { assert AddedAt(view, view', area, area.mapper.Keys, q); }
  }

  lemma FramesShown(view: View, view': View, p: nat, frames: seq<Paddr>, flags: Flags)
    requires WithFrames(view, view', p, frames, flags)
    ensures forall q :: p <= q < p + |frames| ==> q in view' && view'[q] == Pte(frames[q - p], flags)
  {
    forall q | p <= q < p + |frames| ensures q in view' && view'[q] == Pte(frames[q - p], flags) {
      assert FramesAt(view, view', p, frames, flags, q);
    }
  }

  lemma FramesNext(view: View, now: View, p: nat, frames: seq<Paddr>, i: nat, flags: Flags)
    requires i < |frames| && WithFrames(view, now, p, frames[..i], flags)
    ensures WithFrames(view, now[p + i := Pte(frames[i], flags)], p, frames[..i + 1], flags)
  {
    var next, more := now[p + i := Pte(frames[i], flags)], frames[..i + 1];
    forall q: nat ensures FramesAt(view, next, p, more, flags, q) {
      assert FramesAt(view, now, p, frames[..i], flags, q);
    }
  }

  class VmSpace {
    const ms: MemorySet

    ghost predicate Valid()
      reads this, ms, ms.pt
    {
      ms.Valid() && Singles(ms.areas)
    }

    constructor (rootFrame: Paddr, kernelEntries: seq<Word>)
      requires |kernelEntries| == 256
      ensures Valid() && fresh(ms) && fresh(ms.pt) && ms.pt.view == map[]
    {
      ms := new MemorySet(rootFrame, kernelEntries);
    }

    constructor Of(m: MemorySet)
      requires m.Valid() && Singles(m.areas)
      ensures Valid() && ms == m
    {
      ms := m;
    }

    /** Unmaps one page. */
    method UnmapPage(va: Vaddr) returns (ok: bool)
      requires Valid() && Aligned(va)
      modifies ms, ms.pt
      ensures Valid() && ms.pt.tables.Keys == old(ms.pt.tables.Keys)
      ensures ok <==> Vpn(va) in old(ms.pt.view)
      ensures ms.pt.view == old(ms.pt.view) - {Vpn(va)}
    {
      AreaIsPage(ms.areas, ms.pt.view, ms.cover, va);
      ok := ms.Unmap(va);
      if ok { RemovedOne(old(ms.pt.view), ms.pt.view, va); }
    }

    /** Unmaps a range up to its first page that is not mapped, and no further. It panics exactly
        when an end of the range is not aligned, or the range is reversed. */
    method Unmap(start: Vaddr, end: Vaddr) returns (r: Outcome<(), VmError>)
      requires Valid() && start < 0x1_0000_0000_0000_0000 && end < 0x1_0000_0000_0000_0000
      modifies ms, ms.pt
      ensures Valid() && ms.pt.tables.Keys == old(ms.pt.tables.Keys)
      ensures r.Panicked? <==> !Aligned(start) || !Aligned(end) || end < start
      ensures r.Panicked? ==> ms.pt.view == old(ms.pt.view)
      ensures !r.Panicked? ==>
                var n := (end - start) / 4096;
                var k := MappedPrefix(old(ms.pt.view), Vpn(start), n);
                && ms.pt.view == WithoutPages(old(ms.pt.view), Vpn(start), k)
                && r == if k == n then Done(()) else Failed(PageFault)
    {
      hide Tree, Shows, Agree, Singles;
      if !Aligned(start) || !Aligned(end) || end < start { return Panicked; }
      var n := (end - start) / 4096;
      ghost var view0, p := ms.pt.view, Vpn(start);
      for i := 0 to n
        invariant Valid() && ms.pt.tables.Keys == old(ms.pt.tables.Keys)
        invariant ms.pt.view == WithoutPages(view0, p, i)
        invariant forall q :: p <= q < p + i ==> q in view0
      {
        PageAddress(start, i);
        UnmapNext(view0, p, i);
        var ok := UnmapPage(start + i * 4096);
        if !ok {
          MappedPrefixIs(view0, p, n, i);
          return Failed(PageFault);
        }
      }
      MappedPrefixIs(view0, p, n, n);
      r := Done(());
    }

    /** Maps one frame as an area of its own. `ok` is false where the source panics. */
    method MapPage(va: Vaddr, frame: Paddr, flags: Flags, supply: seq<Paddr>) returns (ok: bool, rest: seq<Paddr>)
      requires Valid() && Aligned(va) && IsFrame(frame) && flags.present
      requires |supply| >= 3 && Supply(ms.pt.tables, supply)
      modifies ms, ms.pt
      ensures ms.pt.Valid() && (ok ==> Valid())
      ensures ok <==> UserPage(Vpn(va)) && Vpn(va) !in old(ms.pt.view)
      ensures ok ==> ms.pt.view == old(ms.pt.view)[Vpn(va) := Pte(frame, flags)]
      ensures Supply(ms.pt.tables, rest) && |rest| >= |supply| - 3
    {
      AreaIsPage(ms.areas, ms.pt.view, ms.cover, va);
      var area := NewMapArea(va, 4096, flags, [frame]);
      OnePageArea(area, frame, va);
      ok, rest := ms.Map(area, supply);
      if ok { AddedOne(old(ms.pt.view), ms.pt.view, area, va, frame); }
    }

    /** Maps frames to consecutive pages, one area each. */
    method MapFrames(base: Vaddr, frames: seq<Paddr>, flags: Flags, supply: seq<Paddr>) returns (ok: bool)
      requires Valid() && AllFrames(frames) && flags.present
      requires |supply| >= 3 * |frames| && Supply(ms.pt.tables, supply)
      modifies ms, ms.pt
      ensures ok ==> Valid()
      ensures ok <==> (Aligned(base) || frames == []) && RangeFree(old(ms.pt.view), Vpn(base), |frames|)
      ensures ok ==> WithFrames(old(ms.pt.view), ms.pt.view, Vpn(base), frames, flags)
    {
      ghost var free, p := ms.pt.view, Vpn(base);
      if |frames| > 0 && !Aligned(base) { return false; }
      var rest := supply;
      for i := 0 to |frames|
        invariant Valid() && |rest| >= 3 * (|frames| - i) && Supply(ms.pt.tables, rest)
        invariant WithFrames(free, ms.pt.view, p, frames[..i], flags) && RangeFree(free, p, i)
      {
        PageAddress(base, i);
        assert FramesAt(free, ms.pt.view, p, frames[..i], flags, p + i);
        FramesNext(free, ms.pt.view, p, frames, i, flags);
        ok, rest := MapPage(base + i * 4096, frames[i], flags, rest);
        if !ok { return; }
      }
      assert frames[..|frames|] == frames;
      ok := true;
    }

    /** Unmaps what the frames are to overwrite, ignoring whether that failed. */
    method MakeRoom(base: Vaddr, n: nat)
      requires Valid() && Aligned(base) && base + n * 4096 < 0x1_0000_0000_0000_0000
      modifies ms, ms.pt
      ensures Valid() && ms.pt.tables.Keys == old(ms.pt.tables.Keys)
      ensures ms.pt.view == BeforeMap(old(ms.pt.view), Vpn(base), n, true)
    {
      assert Aligned(base + n * 4096) && (base + n * 4096 - base) / 4096 == n;
      var _ := Unmap(base, base + n * 4096);
    }

    /** Maps frames to consecutive pages. It panics exactly when the address is unaligned, the
        end of a range to be unmapped overflows, or a page is no user page or still mapped. */
    method Map(frames: seq<Paddr>, addr: Option<Vaddr>, perm: VmPerm, overwrite: bool, supply: seq<Paddr>)
      returns (r: Outcome<Vaddr, VmError>)
      requires Valid() && AllFrames(frames) && |supply| >= 3 * |frames| && Supply(ms.pt.tables, supply)
      modifies ms, ms.pt
      ensures !r.Panicked? ==> Valid()
      ensures addr.None? <==> r == Failed(InvalidArgs)
      ensures r == Failed(Overflow) <==>
                addr.Some? && !overwrite && addr.value + |frames| * 4096 >= 0x1_0000_0000_0000_0000
      ensures addr.Some? && overwrite && addr.value + |frames| * 4096 >= 0x1_0000_0000_0000_0000 ==> r.Panicked?
      ensures r.Failed? ==> ms.pt.view == old(ms.pt.view) && (r.error == InvalidArgs || r.error == Overflow)
      ensures addr.Some? && addr.value + |frames| * 4096 < 0x1_0000_0000_0000_0000 ==>
                var p := Vpn(addr.value);
                var free := BeforeMap(old(ms.pt.view), p, |frames|, overwrite);
                && (r.Done? <==>
                      && (Aligned(addr.value) || (frames == [] && !overwrite))
                      && RangeFree(free, p, |frames|))
                && (r.Done? ==> r.value == addr.value && WithFrames(free, ms.pt.view, p, frames, FlagsOf(perm)))
      ensures addr.Some? && addr.value + |frames| * 4096 < 0x1_0000_0000_0000_0000 ==>
                var p, n := Vpn(addr.value), |frames|;
                (r.Done? <==>
                   && (Aligned(addr.value) || (frames == [] && !overwrite))
                   && (forall q :: p <= q < p + n ==> UserPage(q))
                   && if overwrite then forall i, j :: p <= i < j < p + n && i !in old(ms.pt.view) ==> j !in old(ms.pt.view)
                      else forall q :: p <= q < p + n ==> q !in old(ms.pt.view))
      ensures r.Done? ==> SameOutside(old(ms.pt.view), ms.pt.view, Vpn(addr.value), |frames|)
      ensures r.Done? ==>
                forall q :: Vpn(addr.value) <= q < Vpn(addr.value) + |frames| ==>
                  && q in ms.pt.view && ms.pt.view[q].addr == frames[q - Vpn(addr.value)]
                  && (ms.pt.view[q].flags.writable <==> perm.w) && (ms.pt.view[q].flags.noExecute <==> !perm.x)
                  && ms.pt.view[q].flags.user && ms.pt.view[q].flags.present
    {
      hide Tree, Shows, Agree, Singles, WithFrames, RangeFree, SameOutside;
      if addr.None? { return Failed(InvalidArgs); }
      var base := addr.value;
      if overwrite {
        if base + |frames| * 4096 >= 0x1_0000_0000_0000_0000 || !Aligned(base) { return Panicked; }
        MakeRoom(base, |frames|);
      }
      if base + |frames| * 4096 >= 0x1_0000_0000_0000_0000 { return Failed(Overflow); }
      ghost var free := ms.pt.view;
      RoomIff(old(ms.pt.view), Vpn(base), |frames|, overwrite);
      var ok := MapFrames(base, frames, FlagsOf(perm), supply);
      if ok {
        FramesShown(free, ms.pt.view, Vpn(base), frames, FlagsOf(perm));
        FramesElsewhere(old(ms.pt.view), ms.pt.view, Vpn(base), frames, FlagsOf(perm), overwrite);
      }
      r := if ok then Done(base) else Panicked;
    }

    method ProtectPage(va: Vaddr, flags: Flags) returns (ok: bool)
      requires Valid() && Aligned(va) && flags.present
      modifies ms, ms.pt
      ensures ok ==> Valid()
      ensures ok <==> Vpn(va) in old(ms.pt.view)
      ensures ok ==> ms.pt.view == ProtectedView(old(ms.pt.view), Vpn(va), flags)
    {
      AreaIsPage(ms.areas, ms.pt.view, ms.cover, va);
      ok := ms.Protect(va, flags);
    }

    /** Changes the permissions of a range: panics exactly when an end of it is not aligned, or some
        page of it is not mapped. */
    method Protect(start: Vaddr, end: Vaddr, perm: VmPerm) returns (r: Outcome<(), VmError>)
      requires Valid()
      modifies ms, ms.pt
      ensures r.Done? || r.Panicked?
      ensures r.Done? <==>
                Aligned(start) && Aligned(end) && forall q :: Vpn(start) <= q < Vpn(end) ==> q in old(ms.pt.view)
      ensures r.Done? ==>
                && Valid()
                && (start <= end ==>
                      ms.pt.view == WithFlags(old(ms.pt.view), Vpn(start), Vpn(end) - Vpn(start), FlagsOf(perm)))
                && (start > end ==> ms.pt.view == old(ms.pt.view))
      ensures r.Done? ==> SameOutside(old(ms.pt.view), ms.pt.view, Vpn(start), Vpn(end) - Vpn(start))
      ensures r.Done? ==>
                forall q :: Vpn(start) <= q < Vpn(end) ==>
                  && q in ms.pt.view && q in old(ms.pt.view) && ms.pt.view[q].addr == old(ms.pt.view)[q].addr
                  && (ms.pt.view[q].flags.writable <==> perm.w) && (ms.pt.view[q].flags.noExecute <==> !perm.x)
                  && ms.pt.view[q].flags.user && ms.pt.view[q].flags.present
    {
      hide Tree, Shows, Agree, Singles, ProtectedView, Aligned, WithFlags;
      if !Aligned(start) || !Aligned(end) { return Panicked; }
      ghost var view0, p, flags := ms.pt.view, Vpn(start), FlagsOf(perm);
      var page, endPage := Vpn(start), Vpn(end);
      NoneProtected(view0, p, flags);
      while page < endPage
        invariant p <= page && (page > p ==> page <= endPage) && Valid()
        invariant forall q :: p <= q < page ==> q in view0
        invariant ms.pt.view == WithFlags(view0, p, page - p, flags)
      {
        PageStart(page);
        var ok := ProtectPage(page * 4096, FlagsOf(perm));
        if !ok { return Panicked; }
        ProtectNext(view0, p, page - p, flags);
        page := page + 1;
      }
      FlagsShown(view0, p, page - p, perm);
      r := Done(());
    }

    method Clear()
      requires Valid()
      modifies ms, ms.pt
      ensures Valid() && ms.pt.view == map[]
    {
      ms.Clear();
    }

    /** The copy translates every user page as the original does, through page tables of its own. */
    method DeepCopy(rootFrame: Paddr, kernelEntries: seq<Word>, supply: seq<Paddr>) returns (c: VmSpace)
      requires Valid() && |kernelEntries| == 256 && rootFrame !in supply && Supply(map[], supply)
      requires |supply| >= FramesFor(1, |ms.areas.Keys|)
      ensures c.Valid() && fresh(c) && fresh(c.ms) && fresh(c.ms.pt) && c.ms.pt.view == ms.pt.view
    {
      forall a | a in ms.areas ensures |ms.areas[a].mapper.Keys| <= 1 {
        assert AreaAgrees(ms.areas, a);
        AreaIsPage(ms.areas, ms.pt.view, ms.cover, a);
      }
      var m := ms.Clone(rootFrame, kernelEntries, supply, 1);
      c := new VmSpace.Of(m);
    }
  }
}
