/** Exclusive or, digit by digit: what it gives for two numbers that are written out. */
module BitDigits {
  import opened Bits

  lemma XorHalf(x: nat, y: nat)
    ensures Xor(x, y) == (if x % 2 != y % 2 then 1 else 0) + 2 * Xor(x / 2, y / 2)
  {
  }

  lemma XorHalves(x: nat, y: nat, c: nat, d: nat)
    ensures Xor(2 * x + c, 2 * y + d) == (if c % 2 != d % 2 then 1 else 0) + 2 * Xor(x + c / 2, y + d / 2)
  {
    XorHalf(2 * x + c, 2 * y + d);
    Halves(x, c);
    Halves(y, d);
  }

  lemma Halves(x: nat, c: nat)
    ensures (2 * x + c) / 2 == x + c / 2 && (2 * x + c) % 2 == c % 2
  {
  }

  /** The low bits and the others do not meet. */
  lemma {:induction false} XorJoins(x: nat, y: nat, c: nat, d: nat, n: nat)
    requires c < Pow2(n) && d < Pow2(n)
    ensures Xor(x * Pow2(n) + c, y * Pow2(n) + d) == Xor(x, y) * Pow2(n) + Xor(c, d)
  {
    if n > 0 {
      var p := Pow2(n - 1);
      MulAssociates(2, x, p);
      MulAssociates(2, y, p);
      MulAssociates(2, Xor(x, y), p);
      XorHalves(x * p, y * p, c, d);
      XorJoins(x, y, c / 2, d / 2, n - 1);
      XorHalf(c, d);
    }
  }

  lemma DigitHalves(x: bv4)
    ensures (x >> 1) as nat == x as nat / 2 && (x & 1) as nat == x as nat % 2
    ensures x != 0 ==> (x >> 1) as nat < x as nat
  {
  }

  lemma XorOfHalves(x: bv4, y: bv4)
    ensures (x ^ y) >> 1 == (x >> 1) ^ (y >> 1)
    ensures (x ^ y) & 1 == if x & 1 == y & 1 then 0 else 1
  {
  }

  /** On one hex digit it is the operator of the machine. */
  lemma {:induction false} XorOfDigits(x: bv4, y: bv4)
    ensures Xor(x as nat, y as nat) == (x ^ y) as nat
    decreases x as nat
  {
    if x == 0 {
      assert x ^ y == y;
    } else {
      DigitHalves(x);
      DigitHalves(y);
      DigitHalves(x ^ y);
      XorOfHalves(x, y);
      XorOfDigits(x >> 1, y >> 1);
      HalvesGive(x as nat, y as nat, ((x >> 1) ^ (y >> 1)) as nat, (x ^ y) as nat);
    }
  }

  lemma HalvesGive(x: nat, y: nat, half: nat, z: nat)
    requires Xor(x / 2, y / 2) == half && z == (if x % 2 != y % 2 then 1 else 0) + 2 * half
    ensures Xor(x, y) == z
  {
    XorHalf(x, y);
  }

  /** The exclusive or of two hex digits, as the machine computes it. */
  function DigitXor(c: nat, d: nat): nat
    requires c < 16 && d < 16
  {
    ((c as bv4) ^ (d as bv4)) as nat
  }

  lemma DigitIs(c: nat)
    requires c < 16
    ensures (c as bv4) as nat == c
  {
  }

  lemma XorDigit(x: nat, y: nat, c: nat, d: nat)
    requires c < 16 && d < 16
    ensures Xor(x * 16 + c, y * 16 + d) == Xor(x, y) * 16 + DigitXor(c, d)
  {
    Pow2Values();
    DigitIs(c);
    DigitIs(d);
    XorOfDigits(c as bv4, d as bv4);
    var n := 4;
    XorJoins(x, y, c, d, n);
  }

  /** The number of some hex digits. */
  function OfDigits(digits: seq<nat>): nat {
    if digits == [] then 0 else OfDigits(digits[..|digits| - 1]) * 16 + digits[|digits| - 1]
  }

  /** On numbers of any length it goes digit by digit. */
  lemma {:induction false} XorOfNumbers(x: seq<nat>, y: seq<nat>, z: seq<nat>)
    requires |x| == |y| == |z| && forall i :: 0 <= i < |x| ==> x[i] < 16 && y[i] < 16 && z[i] == DigitXor(x[i], y[i])
    ensures Xor(OfDigits(x), OfDigits(y)) == OfDigits(z)
  {
    if x != [] {
      var n := |x| - 1;
      var x', y' := x[..n], y[..n];
      XorOfNumbers(x', y', z[..n]);
      XorDigit(OfDigits(x'), OfDigits(y'), x[n], y[n]);
    }
  }

  lemma FourDigits(w: seq<nat>, n: nat)
    requires |w| == n + 4
    ensures OfDigits(w) == OfDigits(w[..n]) * 0x1_0000 + w[n] * 0x1000 + w[n + 1] * 0x100 + w[n + 2] * 0x10 + w[n + 3]
  {
    var front := w[..n + 2];
    TwoDigits(w, n + 2);
    TwoDigits(front, n);
    assert front[..n] == w[..n];
  }

  lemma TwoDigits(w: seq<nat>, n: nat)
    requires |w| == n + 2
    ensures OfDigits(w) == OfDigits(w[..n]) * 0x100 + w[n] * 0x10 + w[n + 1]
  {
    var front := w[..n + 1];
    assert front[..n] == w[..n];
    assert OfDigits(front) == OfDigits(w[..n]) * 16 + w[n];
  }

  lemma EightDigits(w: seq<nat>)
    requires |w| == 8
    ensures OfDigits(w) == (w[0] * 0x1000 + w[1] * 0x100 + w[2] * 0x10 + w[3]) * 0x1_0000 +
      w[4] * 0x1000 + w[5] * 0x100 + w[6] * 0x10 + w[7]
  {
    var front := w[..4];
    FourDigits(w, 4);
    FourDigits(front, 0);
    assert front[..0] == [];
  }
}
