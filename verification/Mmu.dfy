/** The processor's side of the page table: translation of a linear address by walking the four
tables in memory word by word (section 4.5, "4-Level Paging", and section 4.6, "Access Rights", of
the Intel SDM, Volume 3A), and that it agrees with the translation the kernel keeps.
 */
module Mmu {
  import opened PageTable
  import opened Wrappers

  /** Where a page lies and what may be done there. */
  datatype Rights = Rights(frame: Paddr, writable: bool, user: bool, noExecute: bool)

  /** Bit `i` of an entry. */
  predicate BitAt(w: Word, i: bv7)
    requires i < 64
  {
    (w.bits >> i) & 1 == 1
  }

  /** Bits 51..12 of an entry. */
  function FrameOf(w: Word): Paddr { Paddr(((w.bits >> 12) & 0xFF_FFFF_FFFF) << 12) }

  /** Bits 47..39, 38..30, 29..21 and 20..12 of the address. */
  function TableIndex(vpn: nat, level: nat): (i: nat)
    ensures i < 512
  {
    if level == 4 then vpn / 0x800_0000 % 512
    else if level == 3 then vpn / 0x4_0000 % 512
    else if level == 2 then vpn / 0x200 % 512
    else vpn % 512
  }

  /** The walk from the table at `table` down: a page is present when every entry on the way is, and
      a right holds when every entry grants it. Large pages are not walked. */
  function Walk(t: Tables, table: Paddr, vpn: nat, level: nat): Option<Rights>
    decreases level, vpn
  {
    if table !in t || |t[table]| != 512 then None
    else
      var w := t[table][TableIndex(vpn, level)];
      if !BitAt(w, 0) || (level > 1 && BitAt(w, 7)) then None
      else if level <= 1 then Some(Rights(FrameOf(w), BitAt(w, 1), BitAt(w, 2), BitAt(w, 63)))
      else match Walk(t, FrameOf(w), vpn, level - 1)
        case None => None
        case Some(r) =>
          Some(Rights(r.frame, BitAt(w, 1) && r.writable, BitAt(w, 2) && r.user, BitAt(w, 63) || r.noExecute))
  }

  /** The kernel writes and reads entries in the processor's format. */
  lemma EntryFormat(w: Word)
    ensures var e := Decode(w);
            && e.addr == FrameOf(w) && (e.flags.present <==> BitAt(w, 0)) && (e.flags.writable <==> BitAt(w, 1))
            && (e.flags.user <==> BitAt(w, 2)) && (e.flags.huge <==> BitAt(w, 7)) && (e.flags.noExecute <==> BitAt(w, 63))
  {
  }

  lemma DivTwice(v: nat)
    ensures v / 512 / 512 == v / 0x4_0000
  {
  }

  lemma DivThrice(v: nat)
    ensures v / 512 / 512 / 512 == v / 0x800_0000
  {
  }

  lemma IndexIs(vpn: nat, level: nat)
    requires 1 <= level <= 4
    ensures TableIndex(vpn, level) == PageIndex(vpn, level)
  {
    Indices(vpn);
    DivTwice(vpn);
    DivThrice(vpn);
  }

  /** What the view says of a page, in the processor's terms. */
  function RightsIn(view: View, vpn: nat): Option<Rights> {
    if vpn in view then
      var e := view[vpn];
      Some(Rights(e.addr, e.flags.writable, e.flags.user, e.flags.noExecute))
    else None
  }

  lemma {:induction false} LastLevel(t: Tables, root: Paddr, s: Shape, view: View, vpn: nat)
    requires Tree(t, root, s) && Shows(t, s, view) && UserPage(vpn) && Leaf(vpn) in s.at
    ensures Walk(t, s.at[Leaf(vpn)], vpn, 1) == RightsIn(view, vpn)
  {
    hide Decode, BitAt, FrameOf, Leaf;
    assert NodeOk(t, s, Leaf(vpn)) && Shown(t, s, view, vpn);
    EntryFormat(t[s.at[Leaf(vpn)]][vpn % 512]);
  }

  lemma {:induction false} WalkFrom(t: Tables, root: Paddr, s: Shape, view: View, vpn: nat, level: nat)
    requires Tree(t, root, s) && Shows(t, s, view) && UserPage(vpn) && 1 <= level <= 4 && NodeFor(vpn, level) in s.at
    ensures Walk(t, s.at[NodeFor(vpn, level)], vpn, level) == RightsIn(view, vpn)
    decreases level
  {
    hide Decode, BitAt, FrameOf, PageIndex, NodeFor, TableIndex, Tree, Shows;
    if level == 1 {
      LastLevel(t, root, s, view, vpn);
    } else {
      IndexIs(vpn, level);
      WalkStep(t, root, s, vpn, level);
      var w := t[s.at[NodeFor(vpn, level)]][PageIndex(vpn, level)];
      EntryFormat(w);
      if Decode(w).flags.present {
        WalkFrom(t, root, s, view, vpn, level - 1);
      } else {
        Unmapped(t, s, view, vpn);
      }
    }
  }

  lemma Unmapped(t: Tables, s: Shape, view: View, vpn: nat)
    requires Shows(t, s, view) && Leaf(vpn) !in s.at
    ensures vpn !in view
  {
    assert Shown(t, s, view, vpn);
  }

  /** What the processor finds for a user page is what the kernel's translation says: the same pages,
      the same frames, and exactly the rights of the page's own entry. */
  lemma {:induction false} MmuSeesView(pt: UserPageTable, vpn: nat)
    requires pt.Valid() && UserPage(vpn)
    ensures Walk(pt.tables, pt.root, vpn, 4) == RightsIn(pt.view, vpn)
  {
    WalkStart(pt.tables, pt.root, pt.shape, vpn);
    WalkFrom(pt.tables, pt.root, pt.shape, pt.view, vpn, 4);
  }
}
