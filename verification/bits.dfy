/** Bitwise operators on natural numbers, and the powers of two. */
module Bits {
  import opened Base

  function Pow2(n: nat): (p: nat)
    ensures p > 0
  {
    if n == 0 then 1 else 2 * Pow2(n - 1)
  }

  /** `x >>> n` */
  function Quot(x: nat, n: nat): nat {
    if n == 0 then x else Quot(x / 2, n - 1)
  }

  /** `x << n`, without a limit. */
  function Shl(x: nat, n: nat): nat {
    x * Pow2(n)
  }

  /** The bits that `x >>> n` drops. */
  function Rem(x: nat, n: nat): (r: nat)
    ensures r < Pow2(n)
  {
    if n == 0 then 0 else x % 2 + 2 * Rem(x / 2, n - 1)
  }

  function And(x: nat, y: nat): nat {
    if x == 0 || y == 0 then 0 else (if x % 2 == 1 && y % 2 == 1 then 1 else 0) + 2 * And(x / 2, y / 2)
  }

  function Or(x: nat, y: nat): nat {
    if x == 0 then y else if y == 0 then x else (if x % 2 == 1 || y % 2 == 1 then 1 else 0) + 2 * Or(x / 2, y / 2)
  }

  function Xor(x: nat, y: nat): nat {
    if x == 0 then y else if y == 0 then x else (if x % 2 != y % 2 then 1 else 0) + 2 * Xor(x / 2, y / 2)
  }

  lemma Pow2Values()
    ensures Pow2(1) == 2 && Pow2(2) == 4 && Pow2(3) == 8 && Pow2(4) == 16
    ensures Pow2(8) == 0x100 && Pow2(16) == 0x1_0000 && Pow2(32) == 0x1_0000_0000
  {
    assert Pow2(8) == 0x100;
    assert Pow2(12) == 0x1000;
    assert Pow2(16) == 0x1_0000;
    assert Pow2(20) == 0x10_0000;
    assert Pow2(24) == 0x100_0000;
    assert Pow2(28) == 0x1000_0000;
  }

  lemma {:induction false} Pow2Add(m: nat, n: nat)
    ensures Pow2(m + n) == Pow2(m) * Pow2(n)
  {
    if m > 0 {
      Pow2Add(m - 1, n);
      assert Pow2(m + n) == 2 * Pow2((m - 1) + n);
      MulAssociates(2, Pow2(m - 1), Pow2(n));
    }
  }

  lemma {:induction false} PowerAdd(a: nat, m: nat, n: nat)
    ensures Power(a, m + n) == Power(a, m) * Power(a, n)
  {
    if m > 0 {
      PowerAdd(a, m - 1, n);
      MulAssociates(a, Power(a, m - 1), Power(a, n));
    }
  }

  lemma MulAssociates(x: int, y: int, z: int)
    ensures x * (y * z) == (x * y) * z && x * (y * z) == y * (x * z)
  {
  }

  lemma Distributes(x: int, y: int, z: int)
    ensures x * (y + z) == x * y + x * z && (y + z) * x == x * y + x * z
    ensures x * (y - z) == x * y - x * z && (y - z) * x == x * y - x * z
  {
  }

  /** Division and remainder by a product, for a positive divisor. */
  lemma DivModIs(x: int, d: int, q: int, r: int)
    requires d > 0 && x == q * d + r && 0 <= r < d
    ensures x / d == q && x % d == r
  {
    var q', r' := x / d, x % d;
    assert q * d + r == q' * d + r';
    assert (q - q') * d == r' - r;
    MultipleIsLarge(q - q', d);
  }

  lemma MultiplesCompare(x: int, y: int, d: int)
    requires d > 0
    ensures x * d >= y * d <==> x >= y
    ensures x * d == 0 <==> x == 0
  {
    Distributes(d, x, y);
    MultipleIsLarge(x - y, d);
    MultipleIsLarge(x, d);
  }

  lemma MultipleIsLarge(k: int, d: int)
    requires d > 0
    ensures k >= 1 ==> k * d >= d
    ensures k <= -1 ==> k * d <= -d
  {
    if k >= 1 {
      assert (k - 1) * d >= 0;
    } else if k <= -1 {
      assert (-k - 1) * d >= 0;
    }
  }

  /** A shift splits the number. */
  lemma {:induction false} ShiftSplits(x: nat, n: nat)
    ensures x == Quot(x, n) * Pow2(n) + Rem(x, n)
  {
    if n > 0 {
      ShiftSplits(x / 2, n - 1);
      MulAssociates(2, Quot(x, n), Pow2(n - 1));
    }
  }

  /** Shifting is division. */
  lemma ShiftDivides(x: nat, n: nat)
    ensures Quot(x, n) == x / Pow2(n) && Rem(x, n) == x % Pow2(n)
  {
    ShiftSplits(x, n);
    DivModIs(x, Pow2(n), Quot(x, n), Rem(x, n));
  }

  lemma QuotIs(x: nat, n: nat, q: nat, r: nat)
    requires x == q * Pow2(n) + r && r < Pow2(n)
    ensures Quot(x, n) == q && Rem(x, n) == r
  {
    ShiftDivides(x, n);
    DivModIs(x, Pow2(n), q, r);
  }

  lemma {:induction false} ShiftTwice(x: nat, m: nat, n: nat)
    ensures Quot(Quot(x, m), n) == Quot(x, m + n)
  {
    if m > 0 { ShiftTwice(x / 2, m - 1, n); }
  }

  /** Masking the low bits takes the remainder. */
  lemma {:induction false} AndLow(x: nat, n: nat)
    ensures And(x, Pow2(n) - 1) == Rem(x, n)
  {
    if n > 0 {
      var m := Pow2(n) - 1;
      assert m / 2 == Pow2(n - 1) - 1 && m % 2 == 1;
      AndLow(x / 2, n - 1);
      if x == 0 { ZeroRem(n); }
    }
  }

  lemma {:induction false} ZeroRem(n: nat)
    ensures Rem(0, n) == 0 && Quot(0, n) == 0
  {
    if n > 0 { ZeroRem(n - 1); }
  }

  /** Disjoint parts are added. */
  lemma {:induction false} OrDisjoint(lo: nat, hi: nat, n: nat)
    requires lo < Pow2(n)
    ensures Or(lo, hi * Pow2(n)) == lo + hi * Pow2(n)
  {
    if n > 0 && lo != 0 && hi * Pow2(n) != 0 {
      var y := hi * Pow2(n);
      assert y == 2 * (hi * Pow2(n - 1)) by { assert hi * (2 * Pow2(n - 1)) == 2 * (hi * Pow2(n - 1)); }
      OrDisjoint(lo / 2, hi, n - 1);
    }
  }

  lemma {:induction false} XorBound(x: nat, y: nat, n: nat)
    requires x < Pow2(n) && y < Pow2(n)
    ensures Xor(x, y) < Pow2(n)
  {
    if n > 0 && x != 0 && y != 0 { XorBound(x / 2, y / 2, n - 1); }
  }

  lemma {:induction false} AndBound(x: nat, y: nat)
    ensures And(x, y) <= x && And(x, y) <= y
  {
    if x != 0 && y != 0 { AndBound(x / 2, y / 2); }
  }

  /** Masking with shifted bits. */
  lemma {:induction false} AndShifted(x: nat, m: nat, n: nat)
    ensures And(x, m * Pow2(n)) == And(Quot(x, n), m) * Pow2(n)
  {
    if n > 0 {
      var y := m * Pow2(n - 1);
      MulAssociates(m, 2, Pow2(n - 1));
      assert m * Pow2(n) == 2 * y;
      AndEven(x, y);
      AndShifted(x / 2, m, n - 1);
      MulAssociates(And(Quot(x, n), m), 2, Pow2(n - 1));
    }
  }

  lemma AndEven(x: nat, y: nat)
    ensures And(x, 2 * y) == 2 * And(x / 2, y)
  {
  }

  /** Setting the low bits. */
  lemma {:induction false} OrLow(x: nat, n: nat)
    ensures Or(x, Pow2(n) - 1) == Quot(x, n) * Pow2(n) + (Pow2(n) - 1)
  {
    if n > 0 {
      var m := Pow2(n - 1) - 1;
      OrOdd(x, m);
      OrLow(x / 2, n - 1);
      MulAssociates(2, Quot(x, n), Pow2(n - 1));
    }
  }

  lemma OrOdd(x: nat, m: nat)
    ensures Or(x, 2 * m + 1) == 2 * Or(x / 2, m) + 1
  {
  }
}
