/** A process's address space: the index of mapped areas kept beside the page table. */
module MemorySet {
  import opened PageTable
  import opened Wrappers

  datatype MapArea = MapArea(flags: Flags, startVa: Vaddr, size: nat, mapper: map<Vaddr, Paddr>)

  predicate Aligned(x: nat) { x % 4096 == 0 }

  function PageVa(vpn: nat): Vaddr { vpn * 4096 }

  lemma PageVaOfVpn(va: Vaddr)
    requires Aligned(va)
    ensures PageVa(Vpn(va)) == va
  {
  }

  predicate AllFrames(frames: seq<Paddr>) { forall i :: 0 <= i < |frames| ==> IsFrame(frames[i]) }

  /** Areas as `MapArea::new` makes them: one frame for every page of the range. */
  ghost predicate AreaOk(a: MapArea) {
    && Aligned(a.startVa) && Aligned(a.size)
    && (forall va: Vaddr :: va in a.mapper <==> Aligned(va) && a.startVa <= va < a.startVa + a.size)
    && (forall va :: va in a.mapper ==> IsFrame(a.mapper[va]))
  }

  /** `mapper` holds the first `n` frames, page by page from `startVa` on. */
  ghost predicate FirstPages(mapper: map<Vaddr, Paddr>, startVa: Vaddr, frames: seq<Paddr>, n: nat) {
    && n <= |frames|
    && (forall va: Vaddr :: va in mapper <==> Aligned(va) && startVa <= va < startVa + n * 4096)
    && (forall va :: va in mapper ==> (va - startVa) / 4096 < n && mapper[va] == frames[(va - startVa) / 4096])
  }

  lemma NextPage(startVa: Vaddr, n: nat, va: Vaddr)
    requires Aligned(startVa)
    ensures Aligned(va) && startVa <= va < startVa + (n + 1) * 4096 <==>
            (Aligned(va) && startVa <= va < startVa + n * 4096) || va == startVa + n * 4096
    ensures va == startVa + n * 4096 ==> (va - startVa) / 4096 == n
  {
  }

  lemma MorePages(mapper: map<Vaddr, Paddr>, startVa: Vaddr, frames: seq<Paddr>, n: nat)
    requires n < |frames| && Aligned(startVa) && FirstPages(mapper, startVa, frames, n)
    ensures FirstPages(mapper[startVa + n * 4096 := frames[n]], startVa, frames, n + 1)
  {
    hide Aligned;
    var va', mapper' := startVa + n * 4096, mapper[startVa + n * 4096 := frames[n]];
    NextPage(startVa, n, va');
    forall va: Vaddr ensures va in mapper' <==> Aligned(va) && startVa <= va < startVa + (n + 1) * 4096 {
      NextPage(startVa, n, va);
    }
  }

  lemma AreaFromPages(a: MapArea, frames: seq<Paddr>)
    requires Aligned(a.startVa) && Aligned(a.size) && |frames| == a.size / 4096 && AllFrames(frames)
    requires FirstPages(a.mapper, a.startVa, frames, |frames|)
    ensures AreaOk(a)
  {
    assert a.size == |frames| * 4096;
  }

  method NewMapArea(startVa: Vaddr, size: nat, flags: Flags, frames: seq<Paddr>) returns (a: MapArea)
    requires Aligned(startVa) && Aligned(size) && |frames| == size / 4096 && AllFrames(frames)
    ensures AreaOk(a) && a.startVa == startVa && a.size == size && a.flags == flags
    ensures FirstPages(a.mapper, startVa, frames, |frames|)
  {
    var mapper: map<Vaddr, Paddr> := map[];
    var current := startVa;
    for i := 0 to |frames|
      invariant current == startVa + i * 4096 && FirstPages(mapper, startVa, frames, i)
    {
      MorePages(mapper, startVa, frames, i);
      mapper := mapper[current := frames[i]];
      current := current + 4096;
    }
    a := MapArea(flags, startVa, size, mapper);
    AreaFromPages(a, frames);
  }

  // The agreement of the two indexes.

  type Areas = map<Vaddr, MapArea>

  predicate Covers(areas: Areas, vpn: nat, a: Vaddr) { a in areas && PageVa(vpn) in areas[a].mapper }

  /** The page table and the area index say the same about page `vpn`; `cover` names the area. */
  predicate PageAgrees(areas: Areas, view: View, cover: map<nat, Vaddr>, vpn: nat) {
    && (vpn in view <==> vpn in cover)
    && (vpn in view ==>
          && Covers(areas, vpn, cover[vpn])
          && view[vpn] == Pte(areas[cover[vpn]].mapper[PageVa(vpn)], areas[cover[vpn]].flags))
  }

  ghost predicate AreaAgrees(areas: Areas, a: Vaddr) {
    a in areas ==> areas[a].startVa == a && AreaOk(areas[a]) && areas[a].size > 0 && areas[a].flags.present
  }

  predicate OneCover(areas: Areas, cover: map<nat, Vaddr>, vpn: nat, a: Vaddr) {
    Covers(areas, vpn, a) ==> vpn in cover && cover[vpn] == a
  }

  /** Every page is in at most one area, and the page table maps exactly the pages of the areas,
      each to its area's frame with its area's flags. */
  ghost predicate Agree(areas: Areas, view: View, cover: map<nat, Vaddr>) {
    && (forall a :: AreaAgrees(areas, a))
    && (forall vpn: nat :: PageAgrees(areas, view, cover, vpn))
    && (forall vpn: nat, a: Vaddr :: OneCover(areas, cover, vpn, a))
  }

  // What the operations do to the page table and the cover.

  predicate InArea(area: MapArea, vpn: nat) { PageVa(vpn) in area.mapper }

  /** `view'` is `view` with the pages `done` of the area added. */
  predicate AddedAt(view: View, view': View, area: MapArea, done: set<Vaddr>, vpn: nat) {
    && (vpn in view' <==> vpn in view || PageVa(vpn) in done)
    && (vpn in view' ==>
          if PageVa(vpn) in done then PageVa(vpn) in area.mapper && view'[vpn] == Pte(area.mapper[PageVa(vpn)], area.flags)
          else view'[vpn] == view[vpn])
  }

  ghost predicate Added(view: View, view': View, area: MapArea, done: set<Vaddr>) {
    forall vpn: nat :: AddedAt(view, view', area, done, vpn)
  }

  /** `view'` is `view` without the pages `gone`. */
  predicate RemovedAt(view: View, view': View, gone: set<Vaddr>, vpn: nat) {
    && (vpn in view' <==> vpn in view && PageVa(vpn) !in gone)
    && (vpn in view' ==> view'[vpn] == view[vpn])
  }

  ghost predicate Removed(view: View, view': View, gone: set<Vaddr>) {
    forall vpn: nat :: RemovedAt(view, view', gone, vpn)
  }

  function Vpns(vas: set<Vaddr>): set<nat> { set va | va in vas :: Vpn(va) }

  function CoverWith(cover: map<nat, Vaddr>, area: MapArea): map<nat, Vaddr> {
    cover + map vpn | vpn in Vpns(area.mapper.Keys) :: area.startVa
  }

  function CoverWithout(cover: map<nat, Vaddr>, area: MapArea): map<nat, Vaddr> {
    cover - Vpns(area.mapper.Keys)
  }

  lemma VpnsOf(area: MapArea, vpn: nat)
    requires AreaOk(area)
    ensures vpn in Vpns(area.mapper.Keys) <==> InArea(area, vpn)
  {
    if vpn in Vpns(area.mapper.Keys) {
      var va :| va in area.mapper && Vpn(va) == vpn;
      PageVaOfVpn(va);
    }
    if InArea(area, vpn) { assert Vpn(PageVa(vpn)) == vpn; }
  }

  lemma AddKeepsAgreement(areas: Areas, view: View, cover: map<nat, Vaddr>, area: MapArea, view': View)
    requires Agree(areas, view, cover)
    requires AreaOk(area) && area.size > 0 && area.flags.present && area.startVa !in areas
    requires Added(view, view', area, area.mapper.Keys)
    requires forall va :: va in area.mapper ==> Vpn(va) !in view
    ensures Agree(areas[area.startVa := area], view', CoverWith(cover, area))
  {
    var areas', cover' := areas[area.startVa := area], CoverWith(cover, area);
    forall a ensures AreaAgrees(areas', a) { assert AreaAgrees(areas, a); }
    forall vpn: nat ensures PageAgrees(areas', view', cover', vpn) {
      assert PageAgrees(areas, view, cover, vpn) && AddedAt(view, view', area, area.mapper.Keys, vpn);
      VpnsOf(area, vpn);
    }
    forall vpn: nat, a: Vaddr ensures OneCover(areas', cover', vpn, a) {
      assert OneCover(areas, cover, vpn, a) && PageAgrees(areas, view, cover, vpn);
      VpnsOf(area, vpn);
      if InArea(area, vpn) { assert Vpn(PageVa(vpn)) == vpn; }
    }
  }

  lemma RemoveKeepsAgreement(areas: Areas, view: View, cover: map<nat, Vaddr>, a: Vaddr, view': View)
    requires Agree(areas, view, cover) && a in areas
    requires Removed(view, view', areas[a].mapper.Keys)
    ensures Agree(areas - {a}, view', CoverWithout(cover, areas[a]))
  {
    var areas', cover', area := areas - {a}, CoverWithout(cover, areas[a]), areas[a];
    assert AreaAgrees(areas, a);
    forall b ensures AreaAgrees(areas', b) { assert AreaAgrees(areas, b); }
    forall vpn: nat ensures PageAgrees(areas', view', cover', vpn) {
      assert PageAgrees(areas, view, cover, vpn) && RemovedAt(view, view', area.mapper.Keys, vpn);
      VpnsOf(area, vpn);
    }
    forall vpn: nat, b: Vaddr ensures OneCover(areas', cover', vpn, b) {
      assert OneCover(areas, cover, vpn, b) && OneCover(areas, cover, vpn, a);
      VpnsOf(area, vpn);
    }
  }

  /** Every page of the area is a user page that is not mapped. */
  ghost predicate AllFree(area: MapArea, view: View) {
    forall va :: va in area.mapper ==> UserPage(Vpn(va)) && Vpn(va) !in view
  }

  lemma AddPage(view: View, now: View, area: MapArea, done: set<Vaddr>, va: Vaddr)
    requires Added(view, now, area, done) && AreaOk(area) && va in area.mapper && area.flags.present
    ensures Added(view, Updated(now, Vpn(va), Pte(area.mapper[va], area.flags)), area, done + {va})
  {
    var now' := Updated(now, Vpn(va), Pte(area.mapper[va], area.flags));
    PageVaOfVpn(va);
    forall vpn: nat ensures AddedAt(view, now', area, done + {va}, vpn) {
      assert AddedAt(view, now, area, done, vpn);
      assert PageVa(vpn) == va ==> vpn == Vpn(va);
    }
  }

  /** The pages `done` of the area were free in `view`, and `now` is `view` with them added; without
      PRESENT nothing is added. */
  ghost predicate Entered(view: View, now: View, area: MapArea, done: set<Vaddr>) {
    && (forall va :: va in done ==> UserPage(Vpn(va)) && Vpn(va) !in view)
    && Added(view, now, area, if area.flags.present then done else {})
  }

  lemma NoneEntered(view: View, area: MapArea)
    ensures Entered(view, view, area, {})
  {
    forall vpn: nat ensures AddedAt(view, view, area, {}, vpn) {}
  }

  lemma EnterPage(view: View, now: View, area: MapArea, done: set<Vaddr>, va: Vaddr)
    requires AreaOk(area) && va in area.mapper && va !in done && Entered(view, now, area, done)
    ensures if UserPage(Vpn(va)) && Vpn(va) !in now
            then Entered(view, Updated(now, Vpn(va), Pte(area.mapper[va], area.flags)), area, done + {va})
            else !AllFree(area, view)
  {
    PageVaOfVpn(va);
    assert AddedAt(view, now, area, if area.flags.present then done else {}, Vpn(va));
    if area.flags.present {
      AddPage(view, now, area, done, va);
    } else if Vpn(va) !in view {
      assert Updated(now, Vpn(va), Pte(area.mapper[va], area.flags)) == now;
    }
  }

  lemma AllEntered(view: View, now: View, area: MapArea)
    requires Entered(view, now, area, area.mapper.Keys)
    ensures AllFree(area, view) && Added(view, now, area, if area.flags.present then area.mapper.Keys else {})
  {
  }

  lemma NothingRemoved(view: View)
    ensures Removed(view, view, {})
  {
  }

  lemma RemovePage(view: View, now: View, gone: set<Vaddr>, va: Vaddr)
    requires Removed(view, now, gone) && Aligned(va)
    ensures Removed(view, now - {Vpn(va)}, gone + {va})
    ensures Vpn(va) in view && va !in gone ==> Vpn(va) in now
  {
    PageVaOfVpn(va);
    assert RemovedAt(view, now, gone, Vpn(va));
    forall vpn: nat ensures RemovedAt(view, now - {Vpn(va)}, gone + {va}, vpn) {
      assert RemovedAt(view, now, gone, vpn);
      assert PageVa(vpn) == va ==> vpn == Vpn(va);
    }
  }

  /** In agreement, the pages of an area are mapped. */
  lemma AreaIsMapped(areas: Areas, view: View, cover: map<nat, Vaddr>, a: Vaddr, va: Vaddr)
    requires Agree(areas, view, cover) && a in areas && va in areas[a].mapper
    ensures Aligned(va) && Vpn(va) in view
  {
    assert AreaAgrees(areas, a);
    PageVaOfVpn(va);
    assert OneCover(areas, cover, Vpn(va), a) && PageAgrees(areas, view, cover, Vpn(va));
  }

  /** The area index after `protect` has changed the flags of an area that starts at `addr`. */
  function ProtectedAreas(areas: Areas, addr: Vaddr, flags: Flags): Areas {
    if addr in areas then areas[addr := areas[addr].(flags := flags)] else areas
  }

  function ProtectedView(view: View, vpn: nat, flags: Flags): View
    requires vpn in view
  {
    Updated(view, vpn, Pte(view[vpn].addr, flags))
  }

  /** The page stays mapped, and nothing changes or the page is an area of its own. */
  predicate ProtectExact(areas: Areas, cover: map<nat, Vaddr>, addr: Vaddr, flags: Flags) {
    var vpn := Vpn(addr);
    flags.present && vpn in cover && cover[vpn] in areas &&
    (areas[cover[vpn]].flags == flags || (Aligned(addr) && areas[cover[vpn]].size == 4096))
  }

  lemma ProtectKeepsAgreement(areas: Areas, view: View, cover: map<nat, Vaddr>, addr: Vaddr, flags: Flags)
    requires Agree(areas, view, cover) && Vpn(addr) in view && ProtectExact(areas, cover, addr, flags)
    ensures Agree(ProtectedAreas(areas, addr, flags), ProtectedView(view, Vpn(addr), flags), cover)
  {
    var areas', view', a := ProtectedAreas(areas, addr, flags), ProtectedView(view, Vpn(addr), flags), cover[Vpn(addr)];
    assert PageAgrees(areas, view, cover, Vpn(addr)) && AreaAgrees(areas, a);
    OnlyPage(areas, view, cover, addr);
    forall b ensures AreaAgrees(areas', b) { assert AreaAgrees(areas, b); }
    forall vpn: nat ensures PageAgrees(areas', view', cover, vpn) {
      assert PageAgrees(areas, view, cover, vpn);
      if Covers(areas, vpn, addr) && vpn != Vpn(addr) { assert OneCover(areas, cover, vpn, addr); }
    }
    forall vpn: nat, b: Vaddr ensures OneCover(areas', cover, vpn, b) { assert OneCover(areas, cover, vpn, b); }
  }

  /** An area that starts at `addr` covers the page of `addr`; if it has one page, no other. */
  lemma OnlyPage(areas: Areas, view: View, cover: map<nat, Vaddr>, addr: Vaddr)
    requires Agree(areas, view, cover) && Vpn(addr) in view
    ensures Vpn(addr) in cover && cover[Vpn(addr)] in areas
    ensures addr in areas ==> Aligned(addr) && cover[Vpn(addr)] == addr
    ensures addr in areas && areas[addr].size == 4096 ==> forall vpn: nat :: Covers(areas, vpn, addr) ==> vpn == Vpn(addr)
    ensures Aligned(addr) && areas[cover[Vpn(addr)]].size == 4096 ==> cover[Vpn(addr)] == addr
  {
    var vpn := Vpn(addr);
    assert PageAgrees(areas, view, cover, vpn) && AreaAgrees(areas, cover[vpn]) && AreaAgrees(areas, addr);
    if addr in areas {
      PageVaOfVpn(addr);
      assert OneCover(areas, cover, vpn, addr);
    }
  }

  /** `protect` keeps the two indexes in agreement exactly when the page is an area of its own, or
      the flags were those already. */
  lemma ProtectAgreesIff(areas: Areas, view: View, cover: map<nat, Vaddr>, addr: Vaddr, flags: Flags)
    requires Agree(areas, view, cover) && Vpn(addr) in view
    ensures Agree(ProtectedAreas(areas, addr, flags), ProtectedView(view, Vpn(addr), flags), cover)
            <==> ProtectExact(areas, cover, addr, flags)
  {
    var areas', view', vpn := ProtectedAreas(areas, addr, flags), ProtectedView(view, Vpn(addr), flags), Vpn(addr);
    assert PageAgrees(areas, view, cover, vpn);
    var a := cover[vpn];
    assert AreaAgrees(areas, a) && AreaAgrees(areas, addr);
    OnlyPage(areas, view, cover, addr);
    if ProtectExact(areas, cover, addr, flags) {
      ProtectKeepsAgreement(areas, view, cover, addr, flags);
    } else if !flags.present {
      assert !PageAgrees(areas', view', cover, vpn);
    } else if addr in areas {
      assert PageVa(vpn + 1) in areas[addr].mapper;
      assert OneCover(areas, cover, vpn + 1, addr) && PageAgrees(areas, view, cover, vpn + 1);
      assert !PageAgrees(areas', view', cover, vpn + 1);
    } else {
      assert !PageAgrees(areas', view', cover, vpn);
    }
  }

  /** Two page tables in agreement with the same areas translate alike. */
  lemma SameAreasSameView(areas: Areas, v: View, c: map<nat, Vaddr>, w: View, d: map<nat, Vaddr>)
    requires Agree(areas, v, c) && Agree(areas, w, d)
    ensures v == w
  {
    forall vpn: nat ensures vpn in v <==> vpn in w {
      assert PageAgrees(areas, v, c, vpn) && PageAgrees(areas, w, d, vpn);
      if vpn in v { assert OneCover(areas, d, vpn, c[vpn]); }
      if vpn in w { assert OneCover(areas, c, vpn, d[vpn]); }
    }
    forall vpn: nat | vpn in v ensures v[vpn] == w[vpn] {
      assert PageAgrees(areas, v, c, vpn) && PageAgrees(areas, w, d, vpn);
      assert OneCover(areas, d, vpn, c[vpn]);
    }
  }

  predicate IsPart(part: Areas, areas: Areas) { forall b :: b in part ==> b in areas && part[b] == areas[b] }

  lemma CopyNext(areas: Areas, todo: set<Vaddr>, a: Vaddr)
    requires a in todo && todo <= areas.Keys
    ensures IsPart(areas - todo, areas) && (areas - todo)[a := areas[a]] == areas - (todo - {a})
  {
  }

  /** An area that is not yet in a part of an agreeing index has none of its pages mapped there. */
  lemma NextAreaIsFree(areas: Areas, view: View, cover: map<nat, Vaddr>,
                       part: Areas, partView: View, partCover: map<nat, Vaddr>, a: Vaddr, va: Vaddr)
    requires Agree(areas, view, cover) && Agree(part, partView, partCover)
    requires IsPart(part, areas)
    requires a in areas && a !in part && va in areas[a].mapper
    ensures Vpn(va) !in partView
  {
    var vpn := Vpn(va);
    assert AreaAgrees(areas, a);
    PageVaOfVpn(va);
    assert PageAgrees(part, partView, partCover, vpn) && OneCover(areas, cover, vpn, a);
    assert OneCover(areas, cover, vpn, if vpn in partCover then partCover[vpn] else a);
  }

  /** Table frames that suffice for `n` areas of at most `most` pages. */
  function FramesFor(most: nat, n: nat): nat { if n == 0 then 0 else 3 * most + FramesFor(most, n - 1) }

  predicate Bounded(areas: Areas, most: nat) { forall a :: a in areas ==> |areas[a].mapper.Keys| <= most }

  class MemorySet {
    const pt: UserPageTable
    var areas: Areas
    ghost var cover: map<nat, Vaddr>

    ghost predicate Valid()
      reads this, pt
    {
      pt.Valid() && Agree(areas, pt.view, cover)
    }

    constructor (rootFrame: Paddr, kernelEntries: seq<Word>)
      requires |kernelEntries| == 256
      ensures Valid() && fresh(pt) && areas == map[] && pt.view == map[] && pt.tables.Keys == {rootFrame}
      ensures pt.kernel == kernelEntries
    {
      pt := new UserPageTable(rootFrame, kernelEntries);
      areas := map[];
      cover := map[];
    }

    /** Enters one page; any failure of the page table is a panic. */
    method MapPage(va: Vaddr, frame: Paddr, flags: Flags, supply: seq<Paddr>) returns (ok: bool, rest: seq<Paddr>)
      requires pt.Valid() && IsFrame(frame) && |supply| >= 3 && Supply(pt.tables, supply)
      modifies pt
      ensures pt.Valid()
      ensures ok <==> UserPage(Vpn(va)) && Vpn(va) !in old(pt.view)
      ensures ok ==> pt.view == Updated(old(pt.view), Vpn(va), Pte(frame, flags))
      ensures Supply(pt.tables, rest) && |rest| >= |supply| - 3
    {
      hide Decode, AddrPart, Page, IsKernelVaddr, Tree, Shows, Taken;
      PageIs(va);
      var r, n := pt.Map(va, frame, flags, supply);
      SupplyRest(old(pt.tables), pt.tables, supply, n);
      ok, rest := r.Done?, supply[n..];
    }

    /** Enters the area's pages in the page table. `supply` holds the frames the allocator would
        hand out, `rest` those left. */
    method MapPages(area: MapArea, supply: seq<Paddr>) returns (ok: bool, rest: seq<Paddr>)
      requires pt.Valid() && AreaOk(area)
      requires |supply| >= 3 * |area.mapper.Keys| && Supply(pt.tables, supply)
      modifies pt
      ensures pt.Valid()
      ensures ok <==> AllFree(area, old(pt.view))
      ensures ok ==> Added(old(pt.view), pt.view, area, if area.flags.present then area.mapper.Keys else {})
      ensures Supply(pt.tables, rest) && |rest| >= |supply| - 3 * |area.mapper.Keys|
    {
      hide Tree, Shows, Supply, Entered, Added, AllFree, Updated, UserPage, IsFrame;
      var todo := area.mapper.Keys;
      rest, ok := supply, true;
      NoneEntered(pt.view, area);
      assert area.mapper.Keys - todo == {};
      while todo != {}
        invariant pt.Valid() && todo <= area.mapper.Keys
        invariant Entered(old(pt.view), pt.view, area, area.mapper.Keys - todo)
        invariant |rest| >= |supply| - 3 * |area.mapper.Keys| + 3 * |todo| && Supply(pt.tables, rest)
        decreases |todo|
      {
        var va :| va in todo;
        EnterPage(old(pt.view), pt.view, area, area.mapper.Keys - todo, va);
        ok, rest := MapPage(va, area.mapper[va], area.flags, rest);
        if !ok { return; }
        assert area.mapper.Keys - todo + {va} == area.mapper.Keys - (todo - {va});
        todo := todo - {va};
      }
      assert area.mapper.Keys - todo == area.mapper.Keys;
      AllEntered(old(pt.view), pt.view, area);
    }

    /** Removes pages that are mapped; the unwrapped results are never errors. */
    method UnmapPages(area: MapArea)
      requires pt.Valid() && forall va :: va in area.mapper ==> Aligned(va) && Vpn(va) in pt.view
      modifies pt
      ensures pt.Valid() && Removed(old(pt.view), pt.view, area.mapper.Keys)
      ensures pt.tables.Keys == old(pt.tables.Keys)
    {
      hide Tree, Shows, Removed, IsKernelVaddr, UserPage, Page;
      NothingRemoved(pt.view);
      var todo := area.mapper.Keys;
      ghost var gone: set<Vaddr> := {};
      while todo != {}
        invariant pt.Valid() && gone !! todo && gone + todo == area.mapper.Keys
        invariant Removed(old(pt.view), pt.view, gone) && pt.tables.Keys == old(pt.tables.Keys)
        decreases |todo|
      {
        var va :| va in todo;
        RemovePage(old(pt.view), pt.view, gone, va);
        MappedIsUser(pt.tables, pt.shape, pt.view, Vpn(va));
        PageIs(va);
        var r := pt.Unmap(va);
        assert r.Done?;
        todo, gone := todo - {va}, gone + {va};
      }
      assert gone == area.mapper.Keys;
    }

    /** Adds an area. `ok` is false where the source panics: an area starts at the same address, or
        a page is already mapped or is no user page. Flags without PRESENT leave the pages
        unmapped, and the two indexes in disagreement. */
    method Map(area: MapArea, supply: seq<Paddr>) returns (ok: bool, rest: seq<Paddr>)
      requires Valid() && AreaOk(area)
      requires |supply| >= 3 * |area.mapper.Keys| && Supply(pt.tables, supply)
      modifies this, pt
      ensures pt.Valid() && (ok ==> (Valid() <==> area.size == 0 || area.flags.present))
      ensures ok <==> area.size == 0 || (area.startVa !in old(areas) && AllFree(area, old(pt.view)))
      ensures ok ==> areas == if area.size == 0 then old(areas) else old(areas)[area.startVa := area]
      ensures ok ==> Added(old(pt.view), pt.view, area, if area.flags.present then area.mapper.Keys else {})
      ensures Supply(pt.tables, rest) && |rest| >= |supply| - 3 * |area.mapper.Keys|
    {
      if area.size == 0 { return true, supply; }
      if area.startVa in areas { return false, supply; }
      areas := areas[area.startVa := area];
      ok, rest := MapPages(area, supply);
      if ok && area.flags.present {
        AddKeepsAgreement(old(areas), old(pt.view), cover, area, pt.view);
        cover := CoverWith(cover, area);
      } else {
        assert AreaAgrees(areas, area.startVa) ==> area.flags.present;
      }
    }

    /** Removes the area that starts at `va`, if there is one. */
    method Unmap(va: Vaddr) returns (ok: bool)
      requires Valid()
      modifies this, pt
      ensures Valid() && pt.tables.Keys == old(pt.tables.Keys)
      ensures ok <==> va in old(areas)
      ensures ok ==> areas == old(areas) - {va} && Removed(old(pt.view), pt.view, old(areas)[va].mapper.Keys)
      ensures !ok ==> areas == old(areas) && pt.view == old(pt.view)
    {
      if va !in areas { return false; }
      var area := areas[va];
      forall p | p in area.mapper ensures Aligned(p) && Vpn(p) in pt.view {
        AreaIsMapped(areas, pt.view, cover, va, p);
      }
      areas := areas - {va};
      UnmapPages(area);
      RemoveKeepsAgreement(old(areas), old(pt.view), cover, va, pt.view);
      cover := CoverWithout(cover, area);
      ok := true;
    }

    /** Changes a page's flags in both indexes. `ok` is false where the source panics. */
    method Protect(addr: Vaddr, flags: Flags) returns (ok: bool)
      requires Valid()
      modifies this, pt
      ensures pt.Valid() && pt.tables.Keys == old(pt.tables.Keys)
      ensures ok <==> Vpn(addr) in old(pt.view)
      ensures ok ==> pt.view == ProtectedView(old(pt.view), Vpn(addr), flags)
      ensures ok ==> areas == ProtectedAreas(old(areas), addr, flags) && cover == old(cover)
      ensures ok ==> (Valid() <==> ProtectExact(old(areas), cover, addr, flags))
    {
      ghost var areas0, view0 := areas, pt.view;
      assert Shown(pt.tables, pt.shape, pt.view, Vpn(addr));
      if addr in areas { areas := areas[addr := areas[addr].(flags := flags)]; }
      PageIs(addr);
      var r := pt.Protect(addr, flags);
      ok := r.Done?;
      if ok { ProtectAgreesIff(areas0, view0, cover, addr, flags); }
    }

    /** Removes every area and every translation. */
    method Clear()
      requires Valid()
      modifies this, pt
      ensures Valid() && areas == map[] && pt.view == map[] && pt.tables.Keys == old(pt.tables.Keys)
    {
      var todo := areas.Keys;
      ghost var left, leftCover := areas, cover;
      while todo != {}
        invariant pt.Valid() && areas == old(areas) && left.Keys == todo && pt.tables.Keys == old(pt.tables.Keys)
        invariant forall a :: a in left ==> a in areas && left[a] == areas[a]
        invariant Agree(left, pt.view, leftCover)
        decreases |todo|
      {
        var a :| a in todo;
        forall p | p in areas[a].mapper ensures Aligned(p) && Vpn(p) in pt.view {
          AreaIsMapped(left, pt.view, leftCover, a, p);
        }
        ghost var view := pt.view;
        UnmapPages(areas[a]);
        RemoveKeepsAgreement(left, view, leftCover, a, pt.view);
        left, leftCover, todo := left - {a}, CoverWithout(leftCover, areas[a]), todo - {a};
      }
      areas, cover := map[], leftCover;
      assert left == map[];
      forall vpn: nat ensures vpn !in pt.view { assert PageAgrees(left, pt.view, leftCover, vpn); }
    }

    /** Copies one more area into a partial copy; nothing can be in its way there. */
    method CopyArea(c: MemorySet, a: Vaddr, supply: seq<Paddr>) returns (rest: seq<Paddr>)
      requires Valid() && c.Valid() && c != this && c.pt != pt && IsPart(c.areas, areas)
      requires a in areas && a !in c.areas
      requires |supply| >= 3 * |areas[a].mapper.Keys| && Supply(c.pt.tables, supply)
      modifies c, c.pt
      ensures Valid() && c.Valid() && c.areas == old(c.areas)[a := areas[a]]
      ensures Supply(c.pt.tables, rest) && |rest| >= |supply| - 3 * |areas[a].mapper.Keys|
    {
      var area := areas[a];
      assert AreaAgrees(areas, a);
      forall va | va in area.mapper ensures UserPage(Vpn(va)) && Vpn(va) !in c.pt.view {
        AreaIsMapped(areas, pt.view, cover, a, va);
        assert Shown(pt.tables, pt.shape, pt.view, Vpn(va));
        NextAreaIsFree(areas, pt.view, cover, c.areas, c.pt.view, c.cover, a, va);
      }
      var ok;
      ok, rest := c.Map(area, supply);
      assert ok;
    }

    method CopyAreas(c: MemorySet, supply: seq<Paddr>, ghost most: nat)
      requires Valid() && c.Valid() && c != this && c.pt != pt && c.areas == map[]
      requires Bounded(areas, most)
      requires |supply| >= FramesFor(most, |areas.Keys|) && Supply(c.pt.tables, supply)
      modifies c, c.pt
      ensures Valid() && c.Valid() && c.areas == areas
    {
      hide Tree, Shows, Agree, Supply, IsPart;
      var todo, rest := areas.Keys, supply;
      while todo != {}
        invariant Valid() && c.Valid() && c.areas == areas - todo
        invariant todo <= areas.Keys && |rest| >= FramesFor(most, |todo|) && Supply(c.pt.tables, rest)
        decreases |todo|
      {
        var a :| a in todo;
        ghost var n := |todo|;
        CopyNext(areas, todo, a);
        rest := CopyArea(c, a, rest);
        todo := todo - {a};
        assert |todo| == n - 1;
      }
      assert areas - todo == areas;
    }

    /** A copy on a page table of its own, with the same areas and the same translation. `most`
        bounds the pages of one area. */
    method Clone(rootFrame: Paddr, kernelEntries: seq<Word>, supply: seq<Paddr>, ghost most: nat) returns (c: MemorySet)
      requires Valid() && |kernelEntries| == 256 && rootFrame !in supply && Supply(map[], supply)
      requires Bounded(areas, most)
      requires |supply| >= FramesFor(most, |areas.Keys|)
      ensures c.Valid() && fresh(c) && fresh(c.pt) && c.areas == areas && c.pt.view == pt.view
      ensures c.pt.kernel == kernelEntries
    {
      c := new MemorySet(rootFrame, kernelEntries);
      CopyAreas(c, supply, most);
      SameAreasSameView(areas, pt.view, cover, c.pt.view, c.cover);
    }
  }
}
