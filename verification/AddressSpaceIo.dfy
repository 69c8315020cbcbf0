/** Byte access through an address space, area by area and page by page, against a flat array of
bytes.
 */
module AddressSpaceIo {
  import opened PageTable
  import opened MemorySet

  type Byte = bv8

  type Mem = map<Paddr, seq<Byte>>

  /** Physical memory, a page of bytes per frame. */
  class Ram {
    var bytes: Mem

    constructor (mem: Mem)
      ensures bytes == mem
    {
      bytes := mem;
    }
  }

  /** Every frame in the translation is a page of memory. */
  predicate Backed(mem: Mem, view: View) {
    forall vpn :: vpn in view ==> view[vpn].addr in mem && |mem[view[vpn].addr]| == 4096
  }

  // The flat array.

  function Put(mem: Mem, view: View, a: Vaddr, b: Byte): (mem': Mem)
    requires Backed(mem, view)
    ensures Backed(mem', view)
  {
    if Vpn(a) in view then
      var f := view[Vpn(a)].addr;
      mem[f := mem[f][a % 4096 := b]]
    else mem
  }

  function Get(mem: Mem, view: View, a: Vaddr): Byte
    requires Backed(mem, view)
  {
    if Vpn(a) in view then mem[view[Vpn(a)].addr][a % 4096] else 0
  }

  /** Writes `data` byte by byte from address `a` on. */
  function WriteFlat(mem: Mem, view: View, a: Vaddr, data: seq<Byte>): (mem': Mem)
    requires Backed(mem, view)
    ensures Backed(mem', view)
    decreases |data|
  {
    if |data| == 0 then mem else WriteFlat(Put(mem, view, a, data[0]), view, a + 1, data[1..])
  }

  function ReadFlat(mem: Mem, view: View, a: Vaddr, n: nat): (data: seq<Byte>)
    requires Backed(mem, view)
    ensures |data| == n
  {
    if n == 0 then [] else ReadFlat(mem, view, a, n - 1) + [Get(mem, view, a + n - 1)]
  }

  lemma {:induction false} ReadFlatAt(mem: Mem, view: View, a: Vaddr, n: nat, i: nat)
    requires Backed(mem, view) && i < n
    ensures ReadFlat(mem, view, a, n)[i] == Get(mem, view, a + i)
    decreases n
  {
    if i < n - 1 { ReadFlatAt(mem, view, a, n - 1, i); }
  }

  predicate CanRead(view: View, a: Vaddr) { Vpn(a) in view }

  predicate CanWrite(view: View, a: Vaddr) { Vpn(a) in view && view[Vpn(a)].flags.writable }

  /** How many of the `n` bytes from `a` on come before the first that cannot be accessed. */
  function Reach(view: View, a: Vaddr, n: nat, write: bool): (k: nat)
    ensures k <= n
    decreases n
  {
    if n == 0 || !Accessible(view, a, write) then 0 else 1 + Reach(view, a + 1, n - 1, write)
  }

  predicate Accessible(view: View, a: Vaddr, write: bool) { if write then CanWrite(view, a) else CanRead(view, a) }

  lemma {:induction false} ReachIs(view: View, a: Vaddr, n: nat, write: bool, k: nat)
    requires k <= n && (forall x :: a <= x < a + k ==> Accessible(view, x, write))
    requires k < n ==> !Accessible(view, a + k, write)
    ensures Reach(view, a, n, write) == k
    decreases n
  {
    if k > 0 { ReachIs(view, a + 1, n - 1, write, k - 1); }
  }

  lemma {:induction false} WriteFlatAppend(mem: Mem, view: View, a: Vaddr, x: seq<Byte>, y: seq<Byte>)
    requires Backed(mem, view)
    ensures WriteFlat(mem, view, a, x + y) == WriteFlat(WriteFlat(mem, view, a, x), view, a + |x|, y)
    decreases |x|
  {
    if |x| == 0 {
      assert x + y == y;
    } else {
      assert (x + y)[1..] == x[1..] + y;
      WriteFlatAppend(Put(mem, view, a, x[0]), view, a + 1, x[1..], y);
    }
  }

  /** A chunk that stays inside one page replaces that part of the page's frame. */
  lemma {:induction false} WriteInPage(mem: Mem, view: View, a: Vaddr, chunk: seq<Byte>)
    requires Backed(mem, view) && Vpn(a) in view && a % 4096 + |chunk| <= 4096
    ensures var f, off := view[Vpn(a)].addr, a % 4096;
            WriteFlat(mem, view, a, chunk) == mem[f := mem[f][..off] + chunk + mem[f][off + |chunk|..]]
    decreases |chunk|
  {
    var f, off := view[Vpn(a)].addr, a % 4096;
    if |chunk| == 0 {
      assert mem[f][..off] + chunk + mem[f][off..] == mem[f];
    } else {
      var mem1 := Put(mem, view, a, chunk[0]);
      if |chunk| == 1 {
        assert mem[f][..off] + chunk + mem[f][off + 1..] == mem[f][off := chunk[0]];
      } else {
        assert Vpn(a + 1) == Vpn(a) && (a + 1) % 4096 == off + 1;
        WriteInPage(mem1, view, a + 1, chunk[1..]);
        assert mem1[f][..off + 1] + chunk[1..] + mem1[f][off + |chunk|..]
            == mem[f][..off] + chunk + mem[f][off + |chunk|..];
      }
    }
  }

  // Reading back.

  /** Bytes on different pages among the `n` from `a` on are in different frames. */
  predicate DistinctFrames(view: View, a: Vaddr, n: nat) {
    forall x: Vaddr, y: Vaddr :: a <= x < y < a + n && Vpn(x) != Vpn(y) && Vpn(x) in view && Vpn(y) in view ==>
                                   view[Vpn(x)].addr != view[Vpn(y)].addr
  }

  predicate AllMapped(view: View, a: Vaddr, n: nat) { forall y: Vaddr :: a <= y < a + n ==> Vpn(y) in view }

  lemma {:induction false} WriteLeavesByte(mem: Mem, view: View, a: Vaddr, data: seq<Byte>, x: Vaddr)
    requires Backed(mem, view) && x < a && DistinctFrames(view, x, a + |data| - x)
    requires AllMapped(view, a, |data|)
    requires Vpn(x) in view
    ensures Get(WriteFlat(mem, view, a, data), view, x) == Get(mem, view, x)
    decreases |data|
  {
    if |data| > 0 {
      var mem1 := Put(mem, view, a, data[0]);
      assert Get(mem1, view, x) == Get(mem, view, x) by {
        assert Vpn(x) == Vpn(a) ==> x % 4096 != a % 4096;
      }
      WriteLeavesByte(mem1, view, a + 1, data[1..], x);
    }
  }

  /** Data written to distinct frames is read back. */
  lemma {:induction false} ReadAfterWrite(mem: Mem, view: View, a: Vaddr, data: seq<Byte>, i: nat)
    requires Backed(mem, view) && i < |data| && DistinctFrames(view, a, |data|)
    requires AllMapped(view, a, |data|)
    ensures Get(WriteFlat(mem, view, a, data), view, a + i) == data[i]
    decreases |data|
  {
    var mem1 := Put(mem, view, a, data[0]);
    if i == 0 {
      assert Get(mem1, view, a) == data[0];
      WriteLeavesByte(mem1, view, a + 1, data[1..], a);
    } else {
      ReadAfterWrite(mem1, view, a + 1, data[1..], i - 1);
    }
  }

  lemma {:induction false} ReadBack(mem: Mem, view: View, a: Vaddr, data: seq<Byte>)
    requires Backed(mem, view) && DistinctFrames(view, a, |data|)
    requires AllMapped(view, a, |data|)
    ensures ReadFlat(WriteFlat(mem, view, a, data), view, a, |data|) == data
  {
    forall i | 0 <= i < |data| ensures ReadFlat(WriteFlat(mem, view, a, data), view, a, |data|)[i] == data[i] {
      ReadAfterWrite(mem, view, a, data, i);
      ReadFlatAt(WriteFlat(mem, view, a, data), view, a, |data|, i);
    }
  }

  // The bytes of the frames.

  /** The byte at address `x` is byte `x % 4096` of the frame its page is mapped to. */
  predicate ByteAt(mem: Mem, view: View, x: Vaddr, b: Byte) {
    Vpn(x) in view && view[Vpn(x)].addr in mem && x % 4096 < |mem[view[Vpn(x)].addr]|
    && mem[view[Vpn(x)].addr][x % 4096] == b
  }

  lemma {:induction false} WrittenByte(mem: Mem, view: View, a: Vaddr, data: seq<Byte>, i: nat)
    requires Backed(mem, view) && i < |data| && DistinctFrames(view, a, |data|) && AllMapped(view, a, |data|)
    ensures ByteAt(WriteFlat(mem, view, a, data), view, a + i, data[i])
  {
    ReadAfterWrite(mem, view, a, data, i);
  }

  /** Byte `o` of frame `f` is none of the `n` bytes from `a` on. */
  predicate Untouched(view: View, a: Vaddr, n: nat, f: Paddr, o: nat) {
    forall x: Vaddr :: a <= x < a + n && Vpn(x) in view ==> view[Vpn(x)].addr != f || x % 4096 != o
  }

  /** A write changes no byte of memory but those its addresses are mapped to. */
  lemma {:induction false} WriteLeavesRest(mem: Mem, view: View, a: Vaddr, data: seq<Byte>, f: Paddr, o: nat)
    requires Backed(mem, view) && f in mem && o < |mem[f]| && Untouched(view, a, |data|, f, o)
    ensures var mem' := WriteFlat(mem, view, a, data);
            f in mem' && |mem'[f]| == |mem[f]| && mem'[f][o] == mem[f][o]
    decreases |data|
  {
    if |data| > 0 {
      assert Vpn(a) in view ==> view[Vpn(a)].addr != f || a % 4096 != o;
      WriteLeavesRest(Put(mem, view, a, data[0]), view, a + 1, data[1..], f, o);
    }
  }

  // Access through the areas.

  predicate Least(x: nat, s: set<nat>) { x in s && forall y :: y in s ==> x <= y }

  lemma {:induction false} LeastExists(s: set<nat>)
    requires s != {}
    ensures exists x: nat :: Least(x, s)
    decreases |s|
  {
    var x :| x in s;
    var others := s - {x};
    forall z | z in s && z != x ensures z in others {}
    if others == {} {
      assert Least(x, s);
    } else {
      LeastExists(others);
      var y: nat :| Least(y, others);
      assert Least(if x < y then x else y, s);
    }
  }

  /** The area's frames are the ones the translation has. */
  predicate FramesAgree(area: MapArea, view: View) {
    forall p :: p in area.mapper ==> Vpn(p) in view && view[Vpn(p)].addr == area.mapper[p]
  }

  lemma PageOf(area: MapArea, x: Vaddr)
    requires AreaOk(area) && area.startVa <= x < area.startVa + area.size
    ensures PageVa(Vpn(x)) in area.mapper && PageVa(Vpn(x)) <= x < PageVa(Vpn(x)) + 4096
  {
  }

  /** Bytes `data[done..done + n]`, when they stay in one page, go to that page's frame. */
  lemma {:induction false} NextChunk(mem0: Mem, mem: Mem, view: View, addr: Vaddr, data: seq<Byte>, done: nat, n: nat)
    requires Backed(mem0, view) && done + n <= |data| && mem == WriteFlat(mem0, view, addr, data[..done])
    requires Vpn(addr + done) in view && (addr + done) % 4096 + n <= 4096
    ensures var f, off := view[Vpn(addr + done)].addr, (addr + done) % 4096;
            && f in mem && |mem[f]| == 4096
            && WriteFlat(mem0, view, addr, data[..done + n]) == mem[f := Spliced(mem[f], off, data[done..done + n])]
  {
    WriteInPage(mem, view, addr + done, data[done..done + n]);
    WriteFlatAppend(mem0, view, addr, data[..done], data[done..done + n]);
    assert data[..done] + data[done..done + n] == data[..done + n];
  }

  /** `page` with `chunk` written at `offset`. */
  function Spliced(page: seq<Byte>, offset: nat, chunk: seq<Byte>): seq<Byte>
    requires offset + |chunk| <= |page|
  {
    page[..offset] + chunk + page[offset + |chunk|..]
  }

  function Min(a: nat, b: nat): nat { if a < b then a else b }

  lemma InPage(startVa: Vaddr, i: nat, x: Vaddr)
    requires Aligned(startVa)
    ensures var p := startVa + 4096 * i;
            Aligned(p) && (p <= x < p + 4096 ==> x % 4096 == x - p && Vpn(x) == Vpn(p))
  {
    var v := Vpn(startVa) + i;
    assert startVa + 4096 * i == 4096 * v;
    if 4096 * v <= x < 4096 * v + 4096 { assert x / 4096 == v; }
  }

  /** Page `i` of an area, in the order in which its mapper is walked. */
  lemma PageAt(area: MapArea, view: View, i: nat, x: Vaddr)
    requires AreaOk(area) && FramesAgree(area, view) && 4096 * i < area.size
    ensures var p := area.startVa + 4096 * i;
            && p in area.mapper
            && (p <= x < p + 4096 ==>
                  x % 4096 == x - p && Vpn(x) in view && view[Vpn(x)].addr == area.mapper[p])
  {
    hide Aligned, Vpn;
    InPage(area.startVa, i, x);
  }

  lemma AreaPages(area: MapArea)
    requires AreaOk(area)
    ensures 4096 * (area.size / 4096) == area.size
  {
  }

  /** How many of `len` bytes from `addr` on lie in the area. */
  function Room(area: MapArea, addr: Vaddr, len: nat): (n: nat)
    ensures n <= len
  {
    if area.startVa <= addr < area.startVa + area.size then Min(len, area.startVa + area.size - addr) else 0
  }

  /** `MapArea::write_data`: writes what lies in the area. */
  method WriteData(ram: Ram, area: MapArea, addr: Vaddr, data: seq<Byte>, ghost view: View)
    requires AreaOk(area) && FramesAgree(area, view) && Backed(ram.bytes, view)
    modifies ram
    ensures ram.bytes == WriteFlat(old(ram.bytes), view, addr, data[..Room(area, addr, |data|)])
  {
    hide AreaOk, FramesAgree, Backed, WriteFlat, Vpn;
    var current: nat, done: nat := addr, 0;
    var pages := area.size / 4096;
    AreaPages(area);
    NothingWritten(ram.bytes, view, addr, data);
    for i := 0 to pages
      invariant done <= |data| && current == addr + done && (done == 0 || done < |data|)
      invariant if area.startVa <= addr < area.startVa + area.size
                then area.startVa + 4096 * i <= current <= area.startVa + area.size else done == 0
      invariant ram.bytes == WriteFlat(old(ram.bytes), view, addr, data[..done])
    {
      var p := area.startVa + 4096 * i;
      PageAt(area, view, i, current);
      if p <= current < p + 4096 {
        var offset := current - p;
        var n := Min(|data| - done, 4096 - offset);
        NextChunk(old(ram.bytes), ram.bytes, view, addr, data, done, n);
        var f := area.mapper[p];
        ram.bytes := ram.bytes[f := Spliced(ram.bytes[f], offset, data[done..done + n])];
        done := done + n;
        if done == |data| { return; }
        current := p + 4096;
      }
    }
  }

  lemma {:induction false} NothingWritten(mem: Mem, view: View, addr: Vaddr, data: seq<Byte>)
    requires Backed(mem, view)
    ensures WriteFlat(mem, view, addr, data[..0]) == mem
  {
  }

  lemma {:induction false} ReadAppend(mem: Mem, view: View, a: Vaddr, m: nat, n: nat)
    requires Backed(mem, view)
    ensures ReadFlat(mem, view, a, m + n) == ReadFlat(mem, view, a, m) + ReadFlat(mem, view, a + m, n)
    decreases n
  {
    if n > 0 { ReadAppend(mem, view, a, m, n - 1); }
  }

  /** Bytes that stay in one page come from that page's frame. */
  lemma {:induction false} ReadInPage(mem: Mem, view: View, x: Vaddr, n: nat)
    requires Backed(mem, view) && Vpn(x) in view && x % 4096 + n <= 4096
    ensures ReadFlat(mem, view, x, n) == mem[view[Vpn(x)].addr][x % 4096..x % 4096 + n]
    decreases n
  {
    if n > 0 {
      ReadInPage(mem, view, x, n - 1);
      var last := x + n - 1;
      assert Vpn(last) == Vpn(x) && last % 4096 == x % 4096 + n - 1;
    }
  }

  lemma NextRead(mem: Mem, view: View, addr: Vaddr, done: nat, n: nat)
    requires Backed(mem, view) && Vpn(addr + done) in view && (addr + done) % 4096 + n <= 4096
    ensures var f, off := view[Vpn(addr + done)].addr, (addr + done) % 4096;
            && f in mem && |mem[f]| == 4096
            && ReadFlat(mem, view, addr, done + n) == ReadFlat(mem, view, addr, done) + mem[f][off..off + n]
  {
    ReadInPage(mem, view, addr + done, n);
    ReadAppend(mem, view, addr, done, n);
  }

  /** `MapArea::read_data`: reads what lies in the area; the rest of the buffer stays as it was. */
  method ReadData(ram: Ram, area: MapArea, addr: Vaddr, len: nat, ghost view: View) returns (data: seq<Byte>)
    requires AreaOk(area) && FramesAgree(area, view) && Backed(ram.bytes, view)
    ensures data == ReadFlat(ram.bytes, view, addr, Room(area, addr, len))
  {
    hide AreaOk, FramesAgree, Backed, ReadFlat, Vpn;
    var current: nat := addr;
    data := [];
    NothingRead(ram.bytes, view, addr);
    var pages := area.size / 4096;
    AreaPages(area);
    for i := 0 to pages
      invariant |data| <= len && current == addr + |data| && (|data| == 0 || |data| < len)
      invariant if area.startVa <= addr < area.startVa + area.size
                then area.startVa + 4096 * i <= current <= area.startVa + area.size else |data| == 0
      invariant data == ReadFlat(ram.bytes, view, addr, |data|)
    {
      var p := area.startVa + 4096 * i;
      PageAt(area, view, i, current);
      if p <= current < p + 4096 {
        var offset, f := current - p, area.mapper[p];
        var n := Min(len - |data|, 4096 - offset);
        NextRead(ram.bytes, view, addr, |data|, n);
        data := data + ram.bytes[f][offset..offset + n];
        if |data| == len { return; }
        current := p + 4096;
      }
    }
  }

  lemma {:induction false} NothingRead(mem: Mem, view: View, addr: Vaddr)
    requires Backed(mem, view)
    ensures |ReadFlat(mem, view, addr, 0)| == 0
  {
  }

  // All areas, in ascending order.

  predicate Inside(areas: Areas, a: Vaddr, x: Vaddr) { a in areas && a <= x < a + areas[a].size }

  lemma InsideIsMapped(areas: Areas, view: View, cover: map<nat, Vaddr>, a: Vaddr, x: Vaddr)
    requires Agree(areas, view, cover) && Inside(areas, a, x)
    ensures Vpn(x) in view && Vpn(x) in cover && cover[Vpn(x)] == a && view[Vpn(x)].flags == areas[a].flags
  {
    assert AreaAgrees(areas, a);
    PageOf(areas[a], x);
    assert OneCover(areas, cover, Vpn(x), a) && PageAgrees(areas, view, cover, Vpn(x));
  }

  lemma MappedIsInside(areas: Areas, view: View, cover: map<nat, Vaddr>, x: Vaddr)
    requires Agree(areas, view, cover) && Vpn(x) in view
    ensures exists a: Vaddr :: Inside(areas, a, x)
  {
    assert PageAgrees(areas, view, cover, Vpn(x));
    var a := cover[Vpn(x)];
    assert AreaAgrees(areas, a);
    assert PageVa(Vpn(x)) in areas[a].mapper;
    assert Inside(areas, a, x);
  }

  lemma AreasApart(areas: Areas, view: View, cover: map<nat, Vaddr>, b: Vaddr, a: Vaddr)
    requires Agree(areas, view, cover) && b in areas && a in areas && b < a
    ensures b + areas[b].size <= a
  {
    assert AreaAgrees(areas, a);
    InsideIsMapped(areas, view, cover, a, a);
    if a < b + areas[b].size { InsideIsMapped(areas, view, cover, b, a); }
  }

  lemma AreaFrames(areas: Areas, view: View, cover: map<nat, Vaddr>, a: Vaddr)
    requires Agree(areas, view, cover) && a in areas
    ensures AreaOk(areas[a]) && FramesAgree(areas[a], view) && areas[a].startVa == a
  {
    assert AreaAgrees(areas, a);
    forall p | p in areas[a].mapper ensures Vpn(p) in view && view[Vpn(p)].addr == areas[a].mapper[p] {
      PageVaOfVpn(p);
      assert OneCover(areas, cover, Vpn(p), a) && PageAgrees(areas, view, cover, Vpn(p));
    }
  }

  /** The areas not in `todo` come before those in it, and none of them holds `x`. */
  predicate Passed(areas: Areas, todo: set<Vaddr>, x: Vaddr) {
    && todo <= areas.Keys
    && (forall a, b :: a in todo && b in areas && b !in todo ==> b < a)
    && (forall b :: b in areas && b !in todo ==> !(b <= x < b + areas[b].size))
  }

  lemma NonePassed(areas: Areas, x: Vaddr)
    ensures Passed(areas, areas.Keys, x)
  {
  }

  lemma PassOn(areas: Areas, view: View, cover: map<nat, Vaddr>, todo: set<Vaddr>, x: Vaddr, a: Vaddr)
    requires Agree(areas, view, cover) && Passed(areas, todo, x) && Least(a, todo)
    ensures !Inside(areas, a, x) ==> Passed(areas, todo - {a}, x)
    ensures Inside(areas, a, x) ==> Passed(areas, todo - {a}, a + areas[a].size)
  {
    forall b | b in areas && b !in todo ensures b + areas[b].size <= a { AreasApart(areas, view, cover, b, a); }
  }

  lemma PassedAll(areas: Areas, view: View, cover: map<nat, Vaddr>, x: Vaddr)
    requires Agree(areas, view, cover) && Passed(areas, {}, x)
    ensures Vpn(x) !in view
  {
    if Vpn(x) in view {
      MappedIsInside(areas, view, cover, x);
      assert false;
    }
  }

  ghost predicate AllAccessible(view: View, a: Vaddr, end: Vaddr, write: bool) {
    forall x: Vaddr :: a <= x < end ==> Accessible(view, x, write)
  }

  lemma AccessArea(areas: Areas, view: View, cover: map<nat, Vaddr>, a: Vaddr, from: Vaddr, n: nat, write: bool)
    requires Agree(areas, view, cover) && a in areas && a <= from && from + n <= a + areas[a].size
    requires write ==> areas[a].flags.writable
    ensures AllAccessible(view, from, from + n, write)
  {
    forall x: Vaddr | from <= x < from + n ensures Accessible(view, x, write) {
      InsideIsMapped(areas, view, cover, a, x);
    }
  }

  lemma AccessNone(view: View, a: Vaddr, write: bool)
    ensures AllAccessible(view, a, a, write)
  {
  }

  /** The access reaches its end exactly when every page of it is mapped, and writable for a write. */
  lemma ReachesEndIff(view: View, a: Vaddr, n: nat, k: nat, write: bool)
    requires k <= n && AllAccessible(view, a, a + k, write) && (k < n ==> !Accessible(view, a + k, write))
    ensures AllMapped(view, a, k)
    ensures write ==> (k == n <==> forall x: Vaddr :: a <= x < a + n ==> Vpn(x) in view && view[Vpn(x)].flags.writable)
    ensures !write ==> (k == n <==> forall x: Vaddr :: a <= x < a + n ==> Vpn(x) in view)
  {
    forall x: Vaddr | a <= x < a + k
      ensures Vpn(x) in view && (write ==> view[Vpn(x)].flags.writable)
    {
      assert Accessible(view, x, write);
    }
    if k < n { assert a <= a + k < a + n; }
  }

  lemma AccessMore(view: View, a: Vaddr, mid: Vaddr, end: Vaddr, write: bool)
    requires AllAccessible(view, a, mid, write) && AllAccessible(view, mid, end, write)
    ensures AllAccessible(view, a, end, write)
  {
  }

  /** The part of `data` from `done` on that lies in the area at `va`. */
  method WriteToArea(areas: Areas, ram: Ram, va: Vaddr, addr: Vaddr, data: seq<Byte>, done: nat,
                     ghost view: View, ghost cover: map<nat, Vaddr>, ghost mem: Mem) returns (n: nat)
    requires Agree(areas, view, cover) && Inside(areas, va, addr + done) && areas[va].flags.writable
    requires done <= |data| && Backed(mem, view) && ram.bytes == WriteFlat(mem, view, addr, data[..done])
    modifies ram
    ensures n == Min(|data| - done, areas[va].size + va - (addr + done))
    ensures ram.bytes == WriteFlat(mem, view, addr, data[..done + n])
    ensures AllAccessible(view, addr + done, addr + done + n, true)
  {
    hide WriteFlat, Agree, Backed, AllAccessible, AreaOk, FramesAgree;
    n := Min(|data| - done, areas[va].size + va - (addr + done));
    AreaFrames(areas, view, cover, va);
    AccessArea(areas, view, cover, va, addr + done, n, true);
    WriteFlatAppend(mem, view, addr, data[..done], data[done..done + n]);
    assert data[..done] + data[done..done + n] == data[..done + n];
    assert data[done..done + n][..n] == data[done..done + n];
    WriteData(ram, areas[va], addr + done, data[done..done + n], view);
  }

  /** The loop of `write_bytes` over the areas. */
  method WriteAreas(areas: Areas, ram: Ram, addr: Vaddr, data: seq<Byte>, ghost view: View, ghost cover: map<nat, Vaddr>)
    returns (ok: bool, ghost k: nat)
    requires Agree(areas, view, cover) && Backed(ram.bytes, view)
    modifies ram
    ensures k <= |data| && AllAccessible(view, addr, addr + k, true)
    ensures k < |data| ==> !CanWrite(view, addr + k)
    ensures ram.bytes == WriteFlat(old(ram.bytes), view, addr, data[..k])
    ensures ok <==> k == |data| && (|data| == 0 ==> CanWrite(view, addr))
  {
    hide WriteFlat, Agree, Backed, AllAccessible, Passed;
    var current: nat, done: nat := addr, 0;
    var todo := areas.Keys;
    NonePassed(areas, addr);
    NothingWritten(ram.bytes, view, addr, data);
    AccessNone(view, addr, true);
    while todo != {}
      invariant todo <= areas.Keys && Passed(areas, todo, current)
      invariant done <= |data| && current == addr + done && (done == 0 || done < |data|)
      invariant ram.bytes == WriteFlat(old(ram.bytes), view, addr, data[..done])
      invariant AllAccessible(view, addr, current, true)
      decreases |todo|
    {
      LeastExists(todo);
      var va: nat :| Least(va, todo);
      PassOn(areas, view, cover, todo, current, va);
      if va <= current < areas[va].size + va {
        InsideIsMapped(areas, view, cover, va, current);
        if !areas[va].flags.writable { return false, done; }
        var n := WriteToArea(areas, ram, va, addr, data, done, view, cover, old(ram.bytes));
        AccessMore(view, addr, current, current + n, true);
        done := done + n;
        if done == |data| { return true, done; }
        current := va + areas[va].size;
      }
      todo := todo - {va};
    }
    PassedAll(areas, view, cover, current);
    ok, k := false, done;
  }

  /** A write through the address space. It writes exactly the bytes up to the first page that is
      not mapped writable, as to a flat array, and succeeds exactly when that is all of them (for
      no bytes at all, when the address itself is writable). */
  method WriteBytes(ms: MemorySet, ram: Ram, addr: Vaddr, data: seq<Byte>) returns (ok: bool)
    requires ms.Valid() && Backed(ram.bytes, ms.pt.view)
    modifies ram
    ensures var k := Reach(ms.pt.view, addr, |data|, true);
            && ram.bytes == WriteFlat(old(ram.bytes), ms.pt.view, addr, data[..k])
            && (ok <==> k == |data| && (|data| == 0 ==> CanWrite(ms.pt.view, addr)))
    ensures |data| > 0 ==>
              (ok <==> forall x: Vaddr :: addr <= x < addr + |data| ==>
                         Vpn(x) in ms.pt.view && ms.pt.view[Vpn(x)].flags.writable)
    ensures Backed(ram.bytes, ms.pt.view)
    ensures ok && DistinctFrames(ms.pt.view, addr, |data|) ==>
              forall i :: 0 <= i < |data| ==> ByteAt(ram.bytes, ms.pt.view, addr + i, data[i])
    ensures forall f, o: nat :: f in old(ram.bytes) && o < |old(ram.bytes)[f]| && Untouched(ms.pt.view, addr, |data|, f, o) ==>
              f in ram.bytes && o < |ram.bytes[f]| && ram.bytes[f][o] == old(ram.bytes)[f][o]
  {
    ghost var k, mem, view := 0, ram.bytes, ms.pt.view;
    ok, k := WriteAreas(ms.areas, ram, addr, data, view, ms.cover);
    ReachIs(view, addr, |data|, true, k);
    ReachesEndIff(view, addr, |data|, k, true);
    assert ok ==> data[..k] == data;
    if ok && DistinctFrames(view, addr, |data|) {
      forall i | 0 <= i < |data| ensures ByteAt(ram.bytes, view, addr + i, data[i]) {
        WrittenByte(mem, view, addr, data, i);
      }
    }
    forall f, o: nat | f in mem && o < |mem[f]| && Untouched(view, addr, |data|, f, o)
      ensures f in ram.bytes && o < |ram.bytes[f]| && ram.bytes[f][o] == mem[f][o]
    {
      WriteLeavesRest(mem, view, addr, data[..k], f, o);
    }
  }

  /** The part of the buffer from `done` on that lies in the area at `va`. */
  method ReadFromArea(areas: Areas, ram: Ram, va: Vaddr, addr: Vaddr, len: nat, done: nat,
                      ghost view: View, ghost cover: map<nat, Vaddr>) returns (chunk: seq<Byte>)
    requires Agree(areas, view, cover) && Inside(areas, va, addr + done) && done <= len && Backed(ram.bytes, view)
    ensures |chunk| == Min(len - done, areas[va].size + va - (addr + done))
    ensures ReadFlat(ram.bytes, view, addr, done + |chunk|) == ReadFlat(ram.bytes, view, addr, done) + chunk
    ensures AllAccessible(view, addr + done, addr + done + |chunk|, false)
  {
    hide ReadFlat, Agree, Backed, AllAccessible, AreaOk, FramesAgree;
    var n := Min(len - done, areas[va].size + va - (addr + done));
    AreaFrames(areas, view, cover, va);
    AccessArea(areas, view, cover, va, addr + done, n, false);
    chunk := ReadData(ram, areas[va], addr + done, n, view);
    ReadAppend(ram.bytes, view, addr, done, n);
  }

  method ReadAreas(areas: Areas, ram: Ram, addr: Vaddr, len: nat, ghost view: View, ghost cover: map<nat, Vaddr>)
    returns (ok: bool, data: seq<Byte>)
    requires Agree(areas, view, cover) && Backed(ram.bytes, view)
    ensures |data| <= len && AllAccessible(view, addr, addr + |data|, false)
    ensures |data| < len ==> !CanRead(view, addr + |data|)
    ensures data == ReadFlat(ram.bytes, view, addr, |data|)
    ensures ok <==> |data| == len && (len == 0 ==> CanRead(view, addr))
  {
    hide ReadFlat, Agree, Backed, AllAccessible, Passed;
    var current: nat := addr;
    data := [];
    var todo := areas.Keys;
    NonePassed(areas, addr);
    NothingRead(ram.bytes, view, addr);
    AccessNone(view, addr, false);
    while todo != {}
      invariant todo <= areas.Keys && Passed(areas, todo, current)
      invariant |data| <= len && current == addr + |data| && (|data| == 0 || |data| < len)
      invariant data == ReadFlat(ram.bytes, view, addr, |data|)
      invariant AllAccessible(view, addr, current, false)
      decreases |todo|
    {
      LeastExists(todo);
      var va: nat :| Least(va, todo);
      PassOn(areas, view, cover, todo, current, va);
      if va <= current < areas[va].size + va {
        InsideIsMapped(areas, view, cover, va, current);
        var chunk := ReadFromArea(areas, ram, va, addr, len, |data|, view, cover);
        AccessMore(view, addr, current, current + |chunk|, false);
        data := data + chunk;
        if |data| == len { return true, data; }
        current := va + areas[va].size;
      }
      todo := todo - {va};
    }
    PassedAll(areas, view, cover, current);
    ok := false;
  }

  /** A read through the address space: the bytes up to the first page that is not mapped. */
  method ReadBytes(ms: MemorySet, ram: Ram, addr: Vaddr, len: nat) returns (ok: bool, data: seq<Byte>)
    requires ms.Valid() && Backed(ram.bytes, ms.pt.view)
    ensures var k := Reach(ms.pt.view, addr, len, false);
            && data == ReadFlat(ram.bytes, ms.pt.view, addr, k)
            && (ok <==> k == len && (len == 0 ==> CanRead(ms.pt.view, addr)))
    ensures len > 0 ==> (ok <==> forall x: Vaddr :: addr <= x < addr + len ==> Vpn(x) in ms.pt.view)
    ensures (ok ==> |data| == len) && forall i :: 0 <= i < |data| ==> ByteAt(ram.bytes, ms.pt.view, addr + i, data[i])
  {
    ghost var view := ms.pt.view;
    ok, data := ReadAreas(ms.areas, ram, addr, len, view, ms.cover);
    ReachIs(view, addr, len, false, |data|);
    ReachesEndIff(view, addr, len, |data|, false);
    forall i | 0 <= i < |data| ensures ByteAt(ram.bytes, view, addr + i, data[i]) {
      ReadFlatAt(ram.bytes, view, addr, |data|, i);
      assert Accessible(view, addr + i, false);
    }
  }
}
