/** Machine words as natural numbers: bitwise operations by halving, and the masks the kernel uses. */
module Bits {

  function Pow2(k: nat): (r: nat)
    ensures r > 0
  {
    if k == 0 then 1 else 2 * Pow2(k - 1)
  }

  lemma {:induction false} Pow2Monotone(k: nat, n: nat)
    requires k <= n
    ensures Pow2(k) <= Pow2(n)
    decreases n
  {
    if k < n { Pow2Monotone(k, n - 1); }
  }

  lemma {:induction false} Pow2Sum(a: nat, b: nat)
    ensures Pow2(a + b) == Pow2(a) * Pow2(b)
    decreases b
  {
    if b > 0 {
      Pow2Sum(a, b - 1);
      assert Pow2(a) * (2 * Pow2(b - 1)) == 2 * (Pow2(a) * Pow2(b - 1));
    }
  }

  lemma SmallPowers()
    ensures Pow2(8) == 0x100 && Pow2(12) == 0x1000 && Pow2(16) == 0x1_0000
  {
    assert Pow2(4) == 0x10 && Pow2(8) == 0x100 && Pow2(12) == 0x1000;
  }

  /** `x & y`. */
  function And(x: nat, y: nat): (r: nat)
    ensures r <= x && r <= y
    decreases x, y
  {
    if x == 0 || y == 0 then 0
    else 2 * And(x / 2, y / 2) + if x % 2 == 1 && y % 2 == 1 then 1 else 0
  }

  /** The remainder of `x` by `m`, by repeated subtraction. */
  function Rem(x: nat, m: nat): (r: nat)
    requires m > 0
    ensures r < m
    decreases x, m
  {
    if x < m then x else Rem(x - m, m)
  }

  lemma SmallMultiple(m: int, x: int)
    requires -m < m * x < m
    ensures x == 0
  {
  }

  lemma ModIs(a: nat, m: nat, k: int, r: nat)
    requires a == m * k + r && r < m
    ensures a % m == r
  {
    var d, e := a / m, a % m;
    assert a == m * d + e;
    assert m * (d - k) == r - e by { assert m * (d - k) == m * d - m * k; }
    SmallMultiple(m, d - k);
  }

  lemma {:induction false} RemIsMod(x: nat, m: nat)
    requires m > 0
    ensures Rem(x, m) == x % m
    decreases x
  {
    if x < m {
      ModIs(x, m, 0, x);
    } else {
      RemIsMod(x - m, m);
      var q, r := (x - m) / m, (x - m) % m;
      assert x - m == m * q + r && m * (q + 1) == m * q + m;
      ModIs(x, m, q + 1, r);
    }
  }

  lemma {:induction false} RemPeriodic(x: nat, period: nat, m: nat)
    requires m > 0 && Rem(period, m) == 0
    ensures Rem(x + period, m) == Rem(x, m)
    decreases period
  {
    if period > 0 { RemPeriodic(x, period - m, m); }
  }

  lemma {:induction false} RemOfRem(x: nat, w: nat, m: nat)
    requires w > 0 && m > 0 && Rem(w, m) == 0
    ensures Rem(Rem(x, w), m) == Rem(x, m)
    decreases x
  {
    if x >= w {
      RemOfRem(x - w, w, m);
      RemPeriodic(x - w, w, m);
    }
  }

  lemma {:induction false} RemDouble(x: nat, m: nat)
    requires m > 0
    ensures Rem(x, 2 * m) == 2 * Rem(x / 2, m) + x % 2
    decreases x
  {
    if x >= 2 * m {
      RemDouble(x - 2 * m, m);
      assert (x - 2 * m) / 2 == x / 2 - m;
    }
  }

  lemma {:induction false} MaskStep(x: nat, m: nat)
    requires m > 0 && And(x / 2, m - 1) == Rem(x / 2, m)
    ensures And(x, 2 * m - 1) == Rem(x, 2 * m)
  {
    RemDouble(x, m);
    AndHalves(x, 2 * m - 1);
    assert (2 * m - 1) / 2 == m - 1;
  }

  /** Masking with `2^k - 1` is the remainder by `2^k`. */
  lemma {:induction false} MaskIsRem(x: nat, k: nat)
    ensures And(x, Pow2(k) - 1) == Rem(x, Pow2(k))
    decreases k
  {
    if k > 0 {
      MaskIsRem(x / 2, k - 1);
      MaskStep(x, Pow2(k - 1));
    }
  }

  lemma {:induction false} AndHalves(x: nat, y: nat)
    ensures And(x, y) == 2 * And(x / 2, y / 2) + if x % 2 == 1 && y % 2 == 1 then 1 else 0
  {
  }

  lemma {:induction false} Pow2Divides(k: nat, n: nat)
    requires k <= n
    ensures Rem(Pow2(n), Pow2(k)) == 0
    decreases n
  {
    if k < n {
      Pow2Divides(k, n - 1);
      RemPeriodic(Pow2(n - 1), Pow2(n - 1), Pow2(k));
    }
  }

  lemma {:induction false} AndSelf(x: nat)
    ensures And(x, x) == x
    decreases x
  {
    if x > 0 {
      AndSelf(x / 2);
      AndHalves(x, x);
    }
  }

  /** `x` less its remainder is a multiple. */
  lemma {:induction false} RemOfMultiple(x: nat, m: nat)
    requires m > 0
    ensures Rem(x, m) <= x && Rem(x - Rem(x, m), m) == 0
    decreases x
  {
    if x >= m { RemOfMultiple(x - m, m); }
  }

  lemma {:induction false} RemSmall(x: nat, m: nat)
    requires x < m
    ensures Rem(x, m) == x
  {
  }

  lemma HighMaskStep(x: nat, a: nat, b: nat)
    requires 0 < b <= a && Rem(x / 2, b) <= x / 2 && And(x / 2, a - b) == x / 2 - Rem(x / 2, b)
    ensures Rem(x, 2 * b) <= x && And(x, 2 * a - 2 * b) == x - Rem(x, 2 * b)
  {
    hide And, Rem;
    RemDouble(x, b);
    AndHalves(x, 2 * a - 2 * b);
  }

  /** Masking with the `w - k` high bits of a `w`-bit word takes the remainder by `2^k` off. */
  lemma {:induction false} HighMask(x: nat, k: nat, w: nat)
    requires k <= w && x < Pow2(w)
    ensures Pow2(k) <= Pow2(w) && Rem(x, Pow2(k)) <= x && And(x, Pow2(w) - Pow2(k)) == x - Rem(x, Pow2(k))
    decreases k
  {
    hide And, Rem;
    Pow2Monotone(k, w);
    if k == 0 {
      MaskIsRem(x, w);
      RemSmall(x, Pow2(w));
    } else {
      HighMask(x / 2, k - 1, w - 1);
      HighMaskStep(x, Pow2(w - 1), Pow2(k - 1));
    }
  }
}
