/** The four-level page table of a user address space (section 4.5, "4-Level Paging", of the Intel
SDM, Volume 3A): a radix tree of 512-entry tables, walked and grown in place, that behaves as a
plain map from page numbers to entries.
 */
module PageTable {

  import opened Wrappers

  type Vaddr = nat

  datatype Paddr = Paddr(bits: bv64)

  /** The flags of an entry. */
  datatype Flags = Flags(
    present: bool,
    writable: bool,
    user: bool,
    writeThrough: bool,
    noCache: bool,
    accessed: bool,
    dirty: bool,
    huge: bool,
    global: bool,
    noExecute: bool)

  /** What an entry says. */
  datatype Pte = Pte(addr: Paddr, flags: Flags)

  /** A translation of page numbers. */
  type View = map<nat, Pte>

  datatype Error = InvalidModification | InvalidVaddr

  const NO_FLAGS: Flags := Flags(false, false, false, false, false, false, false, false, false, false)

  /** The flags a walk gives to an entry that points to a new table. */
  const TABLE_FLAGS: Flags := Flags(true, true, true, false, false, false, false, false, false, false)

  /** What the all-zero entry says. */
  const UNUSED: Pte := Pte(Paddr(0), NO_FLAGS)

  // The entry as a machine word: bits 51..12 are the frame's address, the rest hold the flags.

  datatype Word = Word(bits: bv64)

  const ZERO: Word := Word(0)

  const PHYS_ADDR_MASK: bv64 := 0xF_FFFF_FFFF_F000

  function AddrPart(bits: bv64): bv64 { bits & PHYS_ADDR_MASK }

  function LowPart(bits: bv64): bv64 { bits & 0x1F }

  function HighPart(bits: bv64): bv64 { bits & 0x8000_0000_0000_01E0 }

  function Masked(p: Paddr): Paddr { Paddr(AddrPart(p.bits)) }

  /** The address of a frame: aligned, and below 2^52. */
  predicate IsFrame(p: Paddr) { Masked(p) == p }

  function Bit(b: bool, mask: bv64): bv64 { if b then mask else 0 }

  function LowBits(f: Flags): (bits: bv64)
    ensures LowPart(bits) == bits
  {
    Bit(f.present, 0x1) | Bit(f.writable, 0x2) | Bit(f.user, 0x4) | Bit(f.writeThrough, 0x8) | Bit(f.noCache, 0x10)
  }

  function HighBits(f: Flags): (bits: bv64)
    ensures HighPart(bits) == bits
  {
    Bit(f.accessed, 0x20) | Bit(f.dirty, 0x40) | Bit(f.huge, 0x80) | Bit(f.global, 0x100)
    | Bit(f.noExecute, 0x8000_0000_0000_0000)
  }

  predicate Has(bits: bv64, mask: bv64) { bits & mask != 0 }

  function FlagsFrom(bits: bv64): Flags {
    Flags(Has(bits, 0x1), Has(bits, 0x2), Has(bits, 0x4), Has(bits, 0x8), Has(bits, 0x10), Has(bits, 0x20),
          Has(bits, 0x40), Has(bits, 0x80), Has(bits, 0x100), Has(bits, 0x8000_0000_0000_0000))
  }

  predicate SameLow(f: Flags, g: Flags) {
    && g.present == f.present && g.writable == f.writable && g.user == f.user
    && g.writeThrough == f.writeThrough && g.noCache == f.noCache
  }

  predicate SameHigh(f: Flags, g: Flags) {
    && g.accessed == f.accessed && g.dirty == f.dirty && g.huge == f.huge && g.global == f.global
    && g.noExecute == f.noExecute
  }

  lemma LowFlags(bits: bv64, f: Flags)
    requires LowPart(bits) == LowBits(f)
    ensures SameLow(f, FlagsFrom(bits))
  {
  }

  lemma HighFlags(bits: bv64, f: Flags)
    requires HighPart(bits) == HighBits(f)
    ensures SameHigh(f, FlagsFrom(bits))
  {
  }

  function Join(a: bv64, low: bv64, high: bv64): bv64 { (a & PHYS_ADDR_MASK) | (low | high) }

  /** The address and the two groups of flags do not overlap. */
  lemma Parts(a: bv64, low: bv64, high: bv64)
    requires LowPart(low) == low && HighPart(high) == high
    ensures var bits := Join(a, low, high);
            AddrPart(bits) == AddrPart(a) && LowPart(bits) == low && HighPart(bits) == high
  {
  }

  /** `paddr` and `flags` of an entry. */
  function Decode(w: Word): (e: Pte)
    ensures IsFrame(e.addr) && (e.flags.present ==> w != ZERO) && (w == ZERO ==> e == UNUSED)
  {
    Pte(Paddr(AddrPart(w.bits)), FlagsFrom(w.bits))
  }

  function Encode(p: Paddr, f: Flags): Word { Word(Join(p.bits, LowBits(f), HighBits(f))) }

  /** Writing an address and flags into a word and reading them back gives the same flags and the
      masked address, which for a frame is the same address. */
  lemma WordRoundTrip(p: Paddr, f: Flags)
    ensures Decode(Encode(p, f)) == Pte(Masked(p), f)
  {
    hide LowBits, HighBits, LowPart, HighPart, AddrPart, Join, FlagsFrom;
    var bits := Join(p.bits, LowBits(f), HighBits(f));
    Parts(p.bits, LowBits(f), HighBits(f));
    LowFlags(bits, f);
    HighFlags(bits, f);
  }

  predicate IsUsed(w: Word) { w != ZERO }

  type Tables = map<Paddr, seq<Word>>

  function ZeroTable(): (s: seq<Word>)
    ensures |s| == 512 && forall i :: 0 <= i < 512 ==> s[i] == ZERO
  {
    seq(512, _ => ZERO)
  }

  // Addresses.

  predicate IsKernelVaddr(va: Vaddr) { va / 0x8000_0000_0000 % 2 == 1 }

  /** Page numbers of the lower half: addresses below 2^47. */
  predicate UserPage(vpn: nat) { vpn < 0x8_0000_0000 }

  function Vpn(va: Vaddr): nat { va / 4096 }

  /** The page a walk for `va` leads to: it looks at bits 47..12 only. */
  function Page(va: Vaddr): nat { Vpn(va) % 0x10_0000_0000 }

  lemma LowHalf(v: nat)
    ensures v % 0x10_0000_0000 < 0x8_0000_0000 <==> v / 0x8_0000_0000 % 2 == 0
  {
    var q, w := v / 0x10_0000_0000, v % 0x10_0000_0000;
    assert v / 0x8_0000_0000 == 2 * q + w / 0x8_0000_0000;
  }

  lemma Bit47(va: Vaddr)
    ensures va / 0x8000_0000_0000 == Vpn(va) / 0x8_0000_0000
  {
    var v := Vpn(va);
    assert va == v * 4096 + va % 4096 && v == v / 0x8_0000_0000 * 0x8_0000_0000 + v % 0x8_0000_0000;
    assert va == v / 0x8_0000_0000 * 0x8000_0000_0000 + (v % 0x8_0000_0000 * 4096 + va % 4096);
  }

  lemma PageIs(va: Vaddr)
    ensures UserPage(Page(va)) <==> !IsKernelVaddr(va)
    ensures UserPage(Vpn(va)) ==> Page(va) == Vpn(va) && !IsKernelVaddr(va)
  {
    Bit47(va);
    LowHalf(Vpn(va));
  }

  function Shifted(vpn: nat, k: nat): nat { if k == 0 then vpn else Shifted(vpn, k - 1) / 512 }

  /** `va >> (12 + 9 * (level - 1)) & 511`. */
  function PageIndex(vpn: nat, level: nat): (i: nat)
    requires level >= 1
    ensures i < 512
  {
    Shifted(vpn, level - 1) % 512
  }

  // The tree.

  /** A place for a table: the root, or below slot `idx` of the table at `parent`. */
  datatype Node = Root | Child(parent: Node, idx: nat)

  function Depth(n: Node): nat { if n.Root? then 0 else Depth(n.parent) + 1 }

  /** Slots that user addresses can select: in the root, the lower half. */
  predicate UserSlot(n: Node, i: nat) { i < 512 && (n.Root? ==> i < 256) }

  /** The place of the table a walk for `vpn` is in at `level`. */
  function NodeFor(vpn: nat, level: nat): (n: Node)
    requires 1 <= level <= 4
    ensures Depth(n) == 4 - level
    decreases 4 - level
  {
    if level == 4 then Root else Child(NodeFor(vpn, level + 1), PageIndex(vpn, level + 1))
  }

  function Leaf(vpn: nat): Node { NodeFor(vpn, 1) }

  lemma Indices(vpn: nat)
    ensures PageIndex(vpn, 1) == vpn % 512 && PageIndex(vpn, 2) == vpn / 512 % 512
    ensures PageIndex(vpn, 3) == vpn / 512 / 512 % 512 && PageIndex(vpn, 4) == vpn / 512 / 512 / 512 % 512
  {
    assert Shifted(vpn, 1) == Shifted(vpn, 0) / 512;
    assert Shifted(vpn, 2) == Shifted(vpn, 1) / 512;
    assert Shifted(vpn, 3) == Shifted(vpn, 2) / 512;
  }

  lemma Digit(v: nat, w: nat, x: nat)
    requires v == x * 512 + w
    ensures v % 512 == w % 512 && v / 512 == x + w / 512
  {
  }

  /** The upper 16 bits of an address select no slot. */
  lemma SameIndices(va: Vaddr, level: nat)
    requires 1 <= level <= 4
    ensures PageIndex(Vpn(va), level) == PageIndex(Page(va), level)
  {
    hide PageIndex;
    var v, w, q := Vpn(va), Page(va), Vpn(va) / 0x10_0000_0000;
    Indices(v);
    Indices(w);
    Digit(v, w, q * 0x800_0000);
    Digit(v / 512, w / 512, q * 0x4_0000);
    Digit(v / 512 / 512, w / 512 / 512, q * 0x200);
    Digit(v / 512 / 512 / 512, w / 512 / 512 / 512, q);
  }

  lemma {:induction false} UserWalk(vpn: nat, level: nat)
    requires UserPage(vpn) && 1 <= level <= 4
    ensures UserSlot(NodeFor(vpn, level), PageIndex(vpn, level))
  {
    if level == 4 { Indices(vpn); }
  }

  /** A user page is determined by the slots a walk for it goes through. */
  lemma LeafInjective(v: nat, w: nat)
    requires UserPage(v) && UserPage(w) && Leaf(v) == Leaf(w) && v % 512 == w % 512
    ensures v == w
  {
    Indices(v);
    Indices(w);
    assert NodeFor(v, 2) == NodeFor(w, 2) && NodeFor(v, 3) == NodeFor(w, 3);
    assert v / 512 / 512 / 512 == w / 512 / 512 / 512;
    assert v / 512 / 512 == w / 512 / 512;
    assert v / 512 == w / 512;
  }

  /** Which frame holds the table at each place, and which place each frame holds. */
  datatype Shape = Shape(at: map<Node, Paddr>, owner: map<Paddr, Node>)

  /** The place `n` has a frame of its own, and the place above it exists. */
  predicate NodeOk(t: Tables, s: Shape, n: Node) {
    n in s.at ==>
      && Depth(n) <= 3 && s.at[n] in t && |t[s.at[n]]| == 512
      && s.at[n] in s.owner && s.owner[s.at[n]] == n
      && (n.Child? ==> n.parent in s.at && UserSlot(n.parent, n.idx))
  }

  predicate FrameOk(t: Tables, s: Shape, f: Paddr) {
    f in t ==> f in s.owner && s.owner[f] in s.at && s.at[s.owner[f]] == f
  }

  function Entry(t: Tables, s: Shape, n: Node, i: nat): Pte {
    if n in s.at && s.at[n] in t && i < |t[s.at[n]]| then Decode(t[s.at[n]][i]) else UNUSED
  }

  /** Above the last level, slot `i` of the table at `n` is present exactly when there is a table
      below it, and points to it with every access allowed, so that the last level decides. */
  predicate LinkOk(t: Tables, s: Shape, n: Node, i: nat) {
    n in s.at && Depth(n) < 3 && UserSlot(n, i) ==>
      var e := Entry(t, s, n, i);
      && (e.flags.present <==> Child(n, i) in s.at)
      && (e.flags.present ==>
            && e.addr == s.at[Child(n, i)] && !e.flags.huge
            && e.flags.writable && e.flags.user && !e.flags.noExecute)
  }

  ghost predicate Placed(t: Tables, root: Paddr, s: Shape) {
    && Root in s.at && s.at[Root] == root
    && (forall n :: NodeOk(t, s, n)) && (forall f :: FrameOk(t, s, f))
  }

  /** The tables are a tree of distinct frames, and nothing but that tree. */
  ghost predicate Tree(t: Tables, root: Paddr, s: Shape) {
    Placed(t, root, s) && forall n, i: nat :: LinkOk(t, s, n, i)
  }

  /** The last-level entry for a page; the zero entry where there is no last-level table. */
  function Slot(t: Tables, s: Shape, vpn: nat): Pte { Entry(t, s, Leaf(vpn), vpn % 512) }

  predicate Shown(t: Tables, s: Shape, view: View, vpn: nat) {
    && (vpn in view <==> UserPage(vpn) && Slot(t, s, vpn).flags.present)
    && (vpn in view ==> view[vpn] == Slot(t, s, vpn))
  }

  /** `view` is the translation of the user half. */
  ghost predicate Shows(t: Tables, s: Shape, view: View) { forall vpn: nat :: Shown(t, s, view, vpn) }

  lemma MappedIsUser(t: Tables, s: Shape, view: View, vpn: nat)
    requires Shows(t, s, view) && vpn in view
    ensures UserPage(vpn)
  {
    assert Shown(t, s, view, vpn);
  }

  // Growing the tree.

  /** Slot `i` of the table at `n` is free for a new table in frame `f`. */
  ghost predicate CanGrow(t: Tables, root: Paddr, s: Shape, n: Node, i: nat, f: Paddr) {
    Placed(t, root, s) && n in s.at && Depth(n) < 3 && UserSlot(n, i) && Child(n, i) !in s.at && f !in t && IsFrame(f)
  }

  function Grown(t: Tables, frame: Paddr, i: nat, f: Paddr): Tables
    requires frame in t && i < |t[frame]|
  {
    t[frame := t[frame][i := Encode(f, TABLE_FLAGS)]][f := ZeroTable()]
  }

  function GrownShape(s: Shape, c: Node, f: Paddr): Shape { Shape(s.at[c := f], s.owner[f := c]) }

  lemma GrowTable(t: Tables, root: Paddr, s: Shape, n: Node, i: nat, f: Paddr)
    requires CanGrow(t, root, s, n, i, f)
    ensures s.at[n] in t && |t[s.at[n]]| == 512 && s.at[n] != f
  {
    assert NodeOk(t, s, n);
  }

  lemma GrowKeepsNode(t: Tables, root: Paddr, s: Shape, n: Node, i: nat, f: Paddr, m: Node)
    requires CanGrow(t, root, s, n, i, f)
    ensures s.at[n] in t && |t[s.at[n]]| == 512 && NodeOk(Grown(t, s.at[n], i, f), GrownShape(s, Child(n, i), f), m)
  {
    hide Decode, Encode, AddrPart;
    GrowTable(t, root, s, n, i, f);
    assert NodeOk(t, s, m);
  }

  /** A new table changes no entry but the one that points to it. */
  lemma GrowKeepsEntry(t: Tables, root: Paddr, s: Shape, n: Node, i: nat, f: Paddr, m: Node, j: nat)
    requires CanGrow(t, root, s, n, i, f) && j < 512
    ensures s.at[n] in t && |t[s.at[n]]| == 512
    ensures Entry(Grown(t, s.at[n], i, f), GrownShape(s, Child(n, i), f), m, j)
         == if m == n && j == i then Pte(f, TABLE_FLAGS) else Entry(t, s, m, j)
  {
    hide Decode, Encode, AddrPart;
    WordRoundTrip(f, TABLE_FLAGS);
    assert NodeOk(t, s, n) && NodeOk(t, s, m);
  }

  lemma GrowKeepsTree(t: Tables, root: Paddr, s: Shape, n: Node, i: nat, f: Paddr)
    requires Tree(t, root, s) && CanGrow(t, root, s, n, i, f)
    ensures s.at[n] in t && |t[s.at[n]]| == 512 && Tree(Grown(t, s.at[n], i, f), root, GrownShape(s, Child(n, i), f))
  {
    hide Decode, Encode, AddrPart;
    GrowTable(t, root, s, n, i, f);
    var t', s' := Grown(t, s.at[n], i, f), GrownShape(s, Child(n, i), f);
    forall m ensures NodeOk(t', s', m) { GrowKeepsNode(t, root, s, n, i, f, m); }
    forall g ensures FrameOk(t', s', g) { assert FrameOk(t, s, g); }
    forall m, j: nat ensures LinkOk(t', s', m, j) {
      if j < 512 {
        GrowKeepsEntry(t, root, s, n, i, f, m, j);
        assert LinkOk(t, s, m, j) && NodeOk(t, s, Child(m, j));
      }
    }
  }

  lemma GrowKeepsView(t: Tables, root: Paddr, s: Shape, n: Node, i: nat, f: Paddr, view: View)
    requires CanGrow(t, root, s, n, i, f) && Shows(t, s, view)
    ensures s.at[n] in t && |t[s.at[n]]| == 512
    ensures Shows(Grown(t, s.at[n], i, f), GrownShape(s, Child(n, i), f), view)
  {
    hide Decode, Encode, AddrPart;
    GrowTable(t, root, s, n, i, f);
    var t', s' := Grown(t, s.at[n], i, f), GrownShape(s, Child(n, i), f);
    forall vpn: nat ensures Shown(t', s', view, vpn) {
      assert Shown(t, s, view, vpn) && Leaf(vpn) != n;
      GrowKeepsEntry(t, root, s, n, i, f, Leaf(vpn), vpn % 512);
    }
  }

  // Writing a last-level entry.

  function Written(t: Tables, frame: Paddr, i: nat, w: Word): Tables
    requires frame in t && i < |t[frame]|
  {
    t[frame := t[frame][i := w]]
  }

  lemma WriteKeepsEntry(t: Tables, root: Paddr, s: Shape, n: Node, i: nat, w: Word, m: Node, j: nat)
    requires Placed(t, root, s) && n in s.at && i < 512 && j < 512
    ensures s.at[n] in t && |t[s.at[n]]| == 512
    ensures Entry(Written(t, s.at[n], i, w), s, m, j) == if m == n && j == i then Decode(w) else Entry(t, s, m, j)
  {
    hide Decode, Encode, AddrPart;
    assert NodeOk(t, s, n) && NodeOk(t, s, m);
  }

  lemma {:induction false} WriteKeepsTree(t: Tables, root: Paddr, s: Shape, n: Node, i: nat, w: Word)
    requires Tree(t, root, s) && n in s.at && Depth(n) == 3 && i < 512
    ensures s.at[n] in t && |t[s.at[n]]| == 512 && Tree(Written(t, s.at[n], i, w), root, s)
  {
    hide Decode, Encode, AddrPart;
    assert NodeOk(t, s, n);
    var t' := Written(t, s.at[n], i, w);
    forall m ensures NodeOk(t', s, m) { assert NodeOk(t, s, m); }
    forall g ensures FrameOk(t', s, g) { assert FrameOk(t, s, g); }
    forall m, j: nat ensures LinkOk(t', s, m, j) {
      assert LinkOk(t, s, m, j);
      if j < 512 { WriteKeepsEntry(t, root, s, n, i, w, m, j); }
    }
  }

  /** What writing entry `e` for `vpn` does to the translation. */
  function Updated(view: View, vpn: nat, e: Pte): View {
    if e.flags.present then view[vpn := e] else view - {vpn}
  }

  lemma WriteUpdatesView(t: Tables, root: Paddr, s: Shape, vpn: nat, w: Word, view: View)
    requires Placed(t, root, s) && UserPage(vpn) && Leaf(vpn) in s.at && Shows(t, s, view)
    ensures s.at[Leaf(vpn)] in t && |t[s.at[Leaf(vpn)]]| == 512
    ensures Shows(Written(t, s.at[Leaf(vpn)], vpn % 512, w), s, Updated(view, vpn, Decode(w)))
  {
    hide Leaf, Decode;
    assert NodeOk(t, s, Leaf(vpn));
    var t' := Written(t, s.at[Leaf(vpn)], vpn % 512, w);
    forall other: nat ensures Shown(t', s, Updated(view, vpn, Decode(w)), other) {
      assert Shown(t, s, view, other);
      if UserPage(other) {
        WriteKeepsEntry(t, root, s, Leaf(vpn), vpn % 512, w, Leaf(other), other % 512);
        if Leaf(other) == Leaf(vpn) && other % 512 == vpn % 512 { LeafInjective(other, vpn); }
      }
    }
  }

  /** Frames the allocator hands out: distinct, and not in use as tables. */
  predicate Supply(t: Tables, frames: seq<Paddr>) {
    && (forall i :: 0 <= i < |frames| ==> frames[i] !in t && IsFrame(frames[i]))
    && (forall i, j :: 0 <= i < j < |frames| ==> frames[i] != frames[j])
  }

  function Taken(frames: seq<Paddr>, n: nat): set<Paddr>
    requires n <= |frames|
  {
    set f | f in frames[..n]
  }

  lemma NextFree(t: Tables, frames: seq<Paddr>, n: nat)
    requires Supply(t, frames) && n < |frames|
    ensures frames[n] !in t.Keys + Taken(frames, n) && IsFrame(frames[n])
    ensures Taken(frames, n + 1) == Taken(frames, n) + {frames[n]}
  {
    assert frames[..n + 1] == frames[..n] + [frames[n]];
  }

  lemma SupplyRest(t: Tables, t': Tables, frames: seq<Paddr>, n: nat)
    requires Supply(t, frames) && n <= |frames| && t'.Keys == t.Keys + Taken(frames, n)
    ensures Supply(t', frames[n..])
  {
  }

  /** Without the table of one level there is none further down. */
  lemma {:induction false} MissingBelow(t: Tables, root: Paddr, s: Shape, vpn: nat, level: nat)
    requires Placed(t, root, s) && 2 <= level <= 4 && NodeFor(vpn, level - 1) !in s.at
    ensures Leaf(vpn) !in s.at
    decreases level
  {
    if level > 2 {
      assert NodeOk(t, s, NodeFor(vpn, level - 2));
      MissingBelow(t, root, s, vpn, level - 1);
    }
  }

  /** What a walk finds in the table of one level. */
  lemma WalkStep(t: Tables, root: Paddr, s: Shape, vpn: nat, level: nat)
    requires Tree(t, root, s) && UserPage(vpn) && 2 <= level <= 4 && NodeFor(vpn, level) in s.at
    ensures var n, i := NodeFor(vpn, level), PageIndex(vpn, level);
            && s.at[n] in t && |t[s.at[n]]| == 512 && UserSlot(n, i)
            && var e := Decode(t[s.at[n]][i]);
               && (e.flags.present <==> NodeFor(vpn, level - 1) in s.at)
               && (e.flags.present ==> e.addr == s.at[NodeFor(vpn, level - 1)] && !e.flags.huge)
               && (e.flags.present ==> e.flags.writable && e.flags.user && !e.flags.noExecute)
               && (!e.flags.present ==> Leaf(vpn) !in s.at)
  {
    hide Decode, Encode, AddrPart;
    var n, i := NodeFor(vpn, level), PageIndex(vpn, level);
    UserWalk(vpn, level);
    assert NodeOk(t, s, n) && LinkOk(t, s, n, i);
    if NodeFor(vpn, level - 1) !in s.at { MissingBelow(t, root, s, vpn, level); }
  }

  lemma {:induction false} WalkStart(t: Tables, root: Paddr, s: Shape, vpn: nat)
    requires Tree(t, root, s)
    ensures NodeFor(vpn, 4) in s.at && s.at[NodeFor(vpn, 4)] == root
  {
  }

  /** Where a walk finds no table, one can be created. */
  lemma WalkCanGrow(t: Tables, root: Paddr, s: Shape, vpn: nat, level: nat, f: Paddr)
    requires Tree(t, root, s) && UserPage(vpn) && 2 <= level <= 4 && NodeFor(vpn, level) in s.at
    requires NodeFor(vpn, level - 1) !in s.at && f !in t && IsFrame(f)
    ensures Child(NodeFor(vpn, level), PageIndex(vpn, level)) == NodeFor(vpn, level - 1)
    ensures CanGrow(t, root, s, NodeFor(vpn, level), PageIndex(vpn, level), f)
  {
    hide IsFrame;
    UserWalk(vpn, level);
  }

  /** User walks and user writes never touch the kernel's root entries. */
  lemma OutsideKernel(t: Tables, root: Paddr, s: Shape, n: Node, i: nat)
    requires Placed(t, root, s) && n in s.at && UserSlot(n, i)
    ensures s.at[n] == root ==> i < 256
  {
    assert NodeOk(t, s, n) && NodeOk(t, s, Root);
  }

  class UserPageTable {
    const root: Paddr
    var tables: Tables
    ghost var shape: Shape
    ghost var view: View
    ghost const kernel: seq<Word>    // the root entries of the upper half

    ghost predicate Valid()
      reads this
    {
      && Tree(tables, root, shape) && Shows(tables, shape, view)
      && root in tables && |tables[root]| == 512 && tables[root][256..] == kernel
    }

    /** A new table with the kernel's root entries copied in. */
    constructor (frame: Paddr, kernelEntries: seq<Word>)
      requires |kernelEntries| == 256
      ensures Valid() && view == map[] && root == frame && kernel == kernelEntries && tables.Keys == {frame}
    {
      root := frame;
      kernel := kernelEntries;
      var entries := ZeroTable()[..256] + kernelEntries;
      tables := map[frame := entries];
      shape := Shape(map[Root := frame], map[frame := Root]);
      view := map[];
      new;
      forall vpn: nat ensures Shown(tables, shape, view, vpn) { assert Depth(Leaf(vpn)) == 3; }
      assert entries[256..] == kernelEntries;
    }

    /** The read-only walk to the last-level entry: found exactly when the last-level table exists. */
    method Walk(va: Vaddr) returns (r: Option<(Paddr, nat)>)
      requires Valid() && !IsKernelVaddr(va)
      ensures r.Some? <==> Leaf(Page(va)) in shape.at
      ensures r.Some? ==> r.value == (shape.at[Leaf(Page(va))], Page(va) % 512)
    {
      hide Decode, Encode, AddrPart, PageIndex, Page, IsKernelVaddr;
      ghost var vpn := Page(va);
      PageIs(va);
      Indices(vpn);
      SameIndices(va, 4);
      var level, table, idx := 4, root, PageIndex(Vpn(va), 4);
      while level > 1
        invariant 1 <= level <= 4
        invariant NodeFor(vpn, level) in shape.at
        invariant table == shape.at[NodeFor(vpn, level)] && idx == PageIndex(vpn, level)
      {
        WalkStep(tables, root, shape, vpn, level);
        var current := Decode(tables[table][idx]);
        if !current.flags.present { return None; }
        if current.flags.huge { break; }
        level := level - 1;
        SameIndices(va, level);
        table, idx := current.addr, PageIndex(Vpn(va), level);
      }
      r := Some((table, idx));
    }

    /** A missing table is created in the frame `f` and linked from slot `idx` of the table at `n`. */
    method CreateTable(table: Paddr, idx: nat, f: Paddr, ghost n: Node)
      requires Valid() && CanGrow(tables, root, shape, n, idx, f) && table == shape.at[n]
      modifies `tables, `shape
      ensures Valid()
      ensures shape == GrownShape(old(shape), Child(n, idx), f) && tables.Keys == old(tables.Keys) + {f}
      ensures table in tables && idx < |tables[table]| && Decode(tables[table][idx]) == Pte(f, TABLE_FLAGS)
    {
      hide Decode, Encode, AddrPart;
      WordRoundTrip(f, TABLE_FLAGS);
      GrowKeepsTree(tables, root, shape, n, idx, f);
      GrowKeepsView(tables, root, shape, n, idx, f, view);
      OutsideKernel(tables, root, shape, n, idx);
      assert f != root by { assert NodeOk(tables, shape, Root); }
      tables := tables[table := tables[table][idx := Encode(f, TABLE_FLAGS)]];
      tables := tables[f := ZeroTable()];
      shape := GrownShape(shape, Child(n, idx), f);
    }

    /** One level of the walk: the entry that points to the next table, which is created in the frame
        `f` if it is missing and `f` is given. */
    method NextEntry(level: nat, table: Paddr, idx: nat, f: Option<Paddr>, ghost vpn: nat)
      returns (current: Pte, grew: bool)
      requires Valid() && UserPage(vpn) && 2 <= level <= 4 && NodeFor(vpn, level) in shape.at
      requires table == shape.at[NodeFor(vpn, level)] && idx == PageIndex(vpn, level)
      requires f.Some? ==> f.value !in tables && IsFrame(f.value)
      modifies `tables, `shape
      ensures Valid()
      ensures grew <==> f.Some? && NodeFor(vpn, level - 1) !in old(shape.at)
      ensures grew ==> Leaf(vpn) !in old(shape.at) && tables.Keys == old(tables.Keys) + {f.value}
      ensures !grew ==> tables == old(tables) && shape == old(shape)
      ensures f.Some? ==> current.flags.present
      ensures current.flags.present <==> NodeFor(vpn, level - 1) in shape.at
      ensures current.flags.present ==> current.addr == shape.at[NodeFor(vpn, level - 1)] && !current.flags.huge
      ensures !current.flags.present ==> Leaf(vpn) !in shape.at
    {
      hide Decode, Encode, AddrPart, PageIndex, IsFrame, Tree, Shows, CanGrow, NodeFor;
      WalkStep(tables, root, shape, vpn, level);
      grew := false;
      if !Decode(tables[table][idx]).flags.present && f.Some? {
        WalkCanGrow(tables, root, shape, vpn, level, f.value);
        CreateTable(table, idx, f.value, NodeFor(vpn, level));
        grew := true;
      }
      current := Decode(tables[table][idx]);
    }

    /** The walk that creates the tables it misses. It changes no translation. */
    method WalkMut(va: Vaddr, create: bool, frames: seq<Paddr>)
      returns (r: Option<(Paddr, nat)>, used: nat)
      requires Valid() && !IsKernelVaddr(va)
      requires create ==> |frames| >= 3 && Supply(tables, frames)
      modifies `tables, `shape
      ensures Valid()
      ensures r.Some? <==> Leaf(Page(va)) in shape.at
      ensures r.Some? ==> r.value == (shape.at[Leaf(Page(va))], Page(va) % 512)
      ensures create ==> r.Some?
      ensures !create || Leaf(Page(va)) in old(shape.at) ==> tables == old(tables) && shape == old(shape)
      ensures used <= 3 && used <= |frames| && tables.Keys == old(tables.Keys) + Taken(frames, used)
    {
      hide PageIndex, Page, IsKernelVaddr, IsFrame, Supply, Tree, Shows, NodeFor;
      ghost var vpn := Page(va);
      PageIs(va);
      Indices(vpn);
      SameIndices(va, 4);
      WalkStart(tables, root, shape, vpn);
      var level, table, idx := 4, root, PageIndex(Vpn(va), 4);
      used := 0;
      while level > 1
        invariant 1 <= level <= 4 && used <= 4 - level
        invariant Valid()
        invariant NodeFor(vpn, level) in shape.at
        invariant table == shape.at[NodeFor(vpn, level)] && idx == PageIndex(vpn, level)
        invariant !create ==> used == 0
        invariant used == 0 ==> tables == old(tables) && shape == old(shape)
        invariant used > 0 ==> Leaf(vpn) !in old(shape.at)
        invariant used <= |frames| && tables.Keys == old(tables.Keys) + Taken(frames, used)
      {
        if create { NextFree(old(tables), frames, used); }
        var current, grew := NextEntry(level, table, idx, if create then Some(frames[used]) else None, vpn);
        if grew { used := used + 1; }
        if !current.flags.present { return None, used; }
        if current.flags.huge { break; }
        level := level - 1;
        SameIndices(va, level);
        table, idx := current.addr, PageIndex(Vpn(va), level);
      }
      r := Some((table, idx));
    }

    /** Writes the last-level entry of a page. */
    method WriteEntry(vpn: nat, table: Paddr, idx: nat, w: Word)
      requires Valid() && UserPage(vpn)
      requires Leaf(vpn) in shape.at && table == shape.at[Leaf(vpn)] && idx == vpn % 512
      modifies `tables, `view
      ensures Valid() && view == Updated(old(view), vpn, Decode(w)) && tables.Keys == old(tables.Keys)
    {
      hide Decode, Encode, AddrPart;
      WriteKeepsTree(tables, root, shape, Leaf(vpn), idx, w);
      WriteUpdatesView(tables, root, shape, vpn, w, view);
      assert UserSlot(Leaf(vpn), idx);
      OutsideKernel(tables, root, shape, Leaf(vpn), idx);
      tables := tables[table := tables[table][idx := w]];
      view := Updated(view, vpn, Decode(w));
    }

    /** Maps a page: fails exactly when it is mapped, and otherwise sets its own translation and
        no other. */
    method Map(va: Vaddr, paddr: Paddr, flags: Flags, frames: seq<Paddr>)
      returns (r: Outcome<(), Error>, used: nat)
      requires Valid() && |frames| >= 3 && Supply(tables, frames)
      modifies this
      ensures Valid()
      ensures r == if IsKernelVaddr(va) then Failed(InvalidVaddr)
                   else if Page(va) in old(view) then Failed(InvalidModification)
                   else if UserPage(Vpn(va)) then Done(()) else Panicked
      ensures view == if r.Failed? then old(view) else Updated(old(view), Page(va), Pte(Masked(paddr), flags))
      ensures r.Failed? ==> tables == old(tables)
      ensures used <= 3 && used <= |frames| && tables.Keys == old(tables.Keys) + Taken(frames, used)
    {
      hide Decode, Encode, AddrPart, Page, IsKernelVaddr, Leaf;
      if IsKernelVaddr(va) { return Failed(InvalidVaddr), 0; }
      PageIs(va);
      var walked;
      assert Shown(tables, shape, view, Page(va));
      walked, used := WalkMut(va, true, frames);
      assert Shown(tables, shape, view, Page(va)) && NodeOk(tables, shape, Leaf(Page(va)));
      var (table, idx) := walked.value;
      var last := tables[table][idx];
      if IsUsed(last) && Decode(last).flags.present { return Failed(InvalidModification), used; }
      WordRoundTrip(paddr, flags);
      WriteEntry(Page(va), table, idx, Encode(paddr, flags));
      r := if UserPage(Vpn(va)) then Done(()) else Panicked; // the TLB flush takes canonical addresses only
    }

    /** Unmaps a page: fails exactly when it is not mapped. */
    method Unmap(va: Vaddr) returns (r: Outcome<(), Error>)
      requires Valid()
      modifies this
      ensures Valid() && tables.Keys == old(tables.Keys)
      ensures r == if IsKernelVaddr(va) then Failed(InvalidVaddr)
                   else if Page(va) !in old(view) then Failed(InvalidModification)
                   else if UserPage(Vpn(va)) then Done(()) else Panicked
      ensures view == if r.Failed? then old(view) else old(view) - {Page(va)}
      ensures r.Failed? ==> tables == old(tables)
    {
      hide Decode, Encode, AddrPart, Page, IsKernelVaddr, Leaf;
      if IsKernelVaddr(va) { return Failed(InvalidVaddr); }
      PageIs(va);
      var walked, _ := WalkMut(va, false, []);
      assert Shown(tables, shape, view, Page(va)) && NodeOk(tables, shape, Leaf(Page(va)));
      if walked.None? { return Failed(InvalidModification); }
      var (table, idx) := walked.value;
      var last := tables[table][idx];
      if !IsUsed(last) || !Decode(last).flags.present { return Failed(InvalidModification); }
      WriteEntry(Page(va), table, idx, ZERO);
      r := if UserPage(Vpn(va)) then Done(()) else Panicked; // the TLB flush takes canonical addresses only
    }

    /** Changes a page's flags, keeping its frame, and returns the old ones: fails exactly when the
        page is not mapped. */
    method Protect(va: Vaddr, flags: Flags) returns (r: Outcome<Flags, Error>)
      requires Valid()
      modifies this
      ensures Valid() && tables.Keys == old(tables.Keys)
      ensures r == if IsKernelVaddr(va) then Failed(InvalidVaddr)
                   else if Page(va) !in old(view) then Failed(InvalidModification)
                   else if UserPage(Vpn(va)) then Done(old(view)[Page(va)].flags) else Panicked
      ensures !r.Failed? ==>
                Page(va) in old(view) && view == Updated(old(view), Page(va), Pte(old(view)[Page(va)].addr, flags))
      ensures r.Failed? ==> view == old(view) && tables == old(tables)
    {
      hide Decode, Encode, AddrPart, Page, IsKernelVaddr, Leaf;
      if IsKernelVaddr(va) { return Failed(InvalidVaddr); }
      PageIs(va);
      var walked, _ := WalkMut(va, false, []);
      assert Shown(tables, shape, view, Page(va)) && NodeOk(tables, shape, Leaf(Page(va)));
      if walked.None? { return Failed(InvalidModification); }
      var (table, idx) := walked.value;
      var last := tables[table][idx];
      var oldFlags := Decode(last).flags;
      if !IsUsed(last) || !oldFlags.present { return Failed(InvalidModification); }
      WordRoundTrip(Decode(last).addr, flags);
      WriteEntry(Page(va), table, idx, Encode(Decode(last).addr, flags));
      r := if UserPage(Vpn(va)) then Done(oldFlags) else Panicked;
    }

    /** The flags of the last-level entry, if there is one. */
    method FlagsAt(va: Vaddr) returns (r: Option<Flags>)
      requires Valid() && !IsKernelVaddr(va)
      ensures Page(va) in view ==> r == Some(view[Page(va)].flags)
      ensures Page(va) !in view ==> r.None? || !r.value.present
    {
      hide Decode, Encode, AddrPart, Page, IsKernelVaddr, Leaf;
      PageIs(va);
      var walked := Walk(va);
      assert Shown(tables, shape, view, Page(va)) && NodeOk(tables, shape, Leaf(Page(va)));
      if walked.None? { return None; }
      var (table, idx) := walked.value;
      r := Some(Decode(tables[table][idx]).flags);
    }

    method IsMapped(va: Vaddr) returns (b: bool)
      requires Valid() && !IsKernelVaddr(va)
      ensures b <==> Page(va) in view
    {
      hide Decode, Encode, AddrPart, Page, IsKernelVaddr, Leaf;
      PageIs(va);
      var walked := Walk(va);
      assert Shown(tables, shape, view, Page(va)) && NodeOk(tables, shape, Leaf(Page(va)));
      if walked.None? { return false; }
      var (table, idx) := walked.value;
      b := IsUsed(tables[table][idx]) && Decode(tables[table][idx]).flags.present;
    }
  }
}
