/** Rounding machine integers to a power of two with masks. */
module AlignExt {
  import opened Bits
  import opened Wrappers

  /** One more than the largest `usize`. */
  const USIZE: nat := 0x1_0000_0000_0000_0000

  predicate IsPowerOfTwo(x: nat) { x != 0 && And(x, x - 1) == 0 }

  /** `!y`. */
  function Not(y: nat): nat
    requires y < USIZE
  {
    USIZE - 1 - y
  }

  /** `None` where the source panics. */
  function AlignUp(x: nat, align: nat): Option<nat>
    requires x < USIZE && align < USIZE
  {
    if !IsPowerOfTwo(align) || align < 2 || x + (align - 1) >= USIZE then None
    else Some(And(x + (align - 1), Not(align - 1)))
  }

  function AlignDown(x: nat, align: nat): Option<nat>
    requires x < USIZE && align < USIZE
  {
    if !IsPowerOfTwo(align) || align < 2 then None else Some(And(x, Not(align - 1)))
  }

  lemma {:induction false} Pow2IsPower(k: nat)
    ensures IsPowerOfTwo(Pow2(k))
    decreases k
  {
    hide And;
    if k > 0 {
      Pow2IsPower(k - 1);
      AndHalves(Pow2(k), Pow2(k) - 1);
      assert (Pow2(k) - 1) / 2 == Pow2(k - 1) - 1;
    }
  }

  lemma {:induction false} PowerIsPow2(x: nat) returns (k: nat)
    requires IsPowerOfTwo(x)
    ensures x == Pow2(k)
    decreases x
  {
    AndHalves(x, x - 1);
    if x % 2 == 0 {
      assert (x - 1) / 2 == x / 2 - 1;
      k := PowerIsPow2(x / 2);
      k := k + 1;
    } else {
      assert (x - 1) / 2 == x / 2;
      AndSelf(x / 2);
      k := 0;
    }
  }

  /** The test by `x & (x - 1)` finds exactly the powers of two. */
  lemma IsPowerOfTwoIff(x: nat)
    ensures IsPowerOfTwo(x) <==> exists k: nat :: x == Pow2(k)
  {
    if IsPowerOfTwo(x) { var k := PowerIsPow2(x); }
    if k: nat :| x == Pow2(k) { Pow2IsPower(k); }
  }

  lemma UsizeIsPow2()
    ensures Pow2(64) == USIZE
  {
    hide Pow2;
    SmallPowers();
    Pow2Sum(16, 16);
    Pow2Sum(32, 32);
  }

  lemma MaskedMultiple(x: nat, align: nat)
    requires x < USIZE && align < USIZE && IsPowerOfTwo(align)
    ensures var y := And(x, Not(align - 1));
            y <= x < y + align && y % align == 0
  {
    hide And, Rem, Pow2;
    var k := PowerIsPow2(align);
    UsizeIsPow2();
    if k > 64 { Pow2Monotone(64, k); }
    HighMask(x, k, 64);
    RemOfMultiple(x, align);
    RemIsMod(x - Rem(x, align), align);
  }

  /** The greatest multiple of the power of two that is not above `x`. */
  lemma AlignDownIs(x: nat, align: nat)
    requires x < USIZE && align < USIZE
    ensures AlignDown(x, align).Some? <==> align >= 2 && exists k: nat :: align == Pow2(k)
    ensures AlignDown(x, align).Some? ==>
              var y := AlignDown(x, align).value; y <= x < y + align && y % align == 0
  {
    IsPowerOfTwoIff(align);
    if IsPowerOfTwo(align) { MaskedMultiple(x, align); }
  }

  /** The least multiple of the power of two that is not below `x`, if the addition does not overflow. */
  lemma AlignUpIs(x: nat, align: nat)
    requires x < USIZE && align < USIZE
    ensures AlignUp(x, align).Some? <==>
              align >= 2 && (exists k: nat :: align == Pow2(k)) && x + (align - 1) < USIZE
    ensures AlignUp(x, align).Some? ==>
              var y := AlignUp(x, align).value; x <= y < x + align && y % align == 0
  {
    IsPowerOfTwoIff(align);
    if IsPowerOfTwo(align) && x + (align - 1) < USIZE { MaskedMultiple(x + (align - 1), align); }
  }

  lemma PageMultiple(x: nat, y: nat)
    requires y <= x < y + 4096 && y % 4096 == 0
    ensures y == x / 4096 * 4096
  {
  }

  /** For pages, in arithmetic. */
  lemma PageAlign(x: nat)
    requires x < USIZE
    ensures AlignDown(x, 4096) == Some(x / 4096 * 4096)
    ensures AlignUp(x, 4096) == if x + 4095 < USIZE then Some((x + 4095) / 4096 * 4096) else None
  {
    hide AlignDown, AlignUp, Pow2;
    SmallPowers();
    assert 4096 == Pow2(12);
    AlignDownIs(x, 4096);
    PageMultiple(x, AlignDown(x, 4096).value);
    AlignUpIs(x, 4096);
    if x + 4095 < USIZE { PageMultiple(x + 4095, AlignUp(x, 4096).value); }
  }
}
