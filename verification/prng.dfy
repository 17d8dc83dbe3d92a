/** The random generator of `prng.js`: its period, its ranges and its colours. */
module Prng {
  import opened Base
  import opened Bits
  import opened Limbs
  import Text
  import Hash
  import HashKnown

  /** The multiplier, limb by limb. */
  const C: seq<nat> := [0x7f2d, 0x4c95, 0xf42d, 0x5851]
  const A: nat := 0x5851_f42d_4c95_7f2d

  /** The state after one draw. */
  function Next(s: nat): (t: nat)
    ensures t < M
  {
    (s * A + 1) % M
  }

  /** The state after `n` draws. */
  function Iter(s: nat, n: nat): nat {
    if n == 0 then s else Next(Iter(s, n - 1))
  }

  /** The number drawn in a state. */
  function Draw(s: nat): nat {
    Quot(Next(s), 33)
  }

  // ---------------------------------------------------------------- divisibility by powers of two

  /** `x` can be halved `k` times. */
  predicate Even(x: int, k: nat)
    decreases k
  {
    k == 0 || (x % 2 == 0 && Even(x / 2, k - 1))
  }

  lemma {:induction false} EvenIsDivisible(x: int, k: nat)
    ensures Even(x, k) <==> x % Pow2(k) == 0
    decreases k
  {
    if k > 0 {
      EvenIsDivisible(x / 2, k - 1);
      HalfDivides(x, Pow2(k - 1));
    }
  }

  lemma HalfDivides(x: int, p: nat)
    requires p > 0
    ensures x % (2 * p) == 0 <==> x % 2 == 0 && (x / 2) % p == 0
  {
    var q, r := (x / 2) / p, (x / 2) % p;
    assert x / 2 == q * p + r;
    assert x == 2 * (x / 2) + x % 2;
    MulAssociates(2, q, p);
    DivModIs(x, 2 * p, q, 2 * r + x % 2);
  }

  /** An odd factor does not help with halving. */
  lemma {:induction false} OddFactor(x: int, y: int, k: nat)
    requires y % 2 == 1
    ensures Even(x * y, k) <==> Even(x, k)
    decreases k
  {
    if k > 0 {
      ProductParity(x, y);
      if x % 2 == 0 {
        HalfProduct(x, y);
        OddFactor(x / 2, y, k - 1);
      }
    }
  }

  lemma ProductParity(x: int, y: int)
    requires y % 2 == 1
    ensures (x * y) % 2 == x % 2
  {
    var h := y / 2;
    assert y == 2 * h + 1;
    Distributes(x, 2 * h, 1);
    MulAssociates(x, 2, h);
  }

  lemma HalfProduct(x: int, y: int)
    requires x % 2 == 0
    ensures (x * y) / 2 == (x / 2) * y
  {
    MulAssociates(2, x / 2, y);
  }

  // ---------------------------------------------------------------- the period

  /** 1 + a + ... + a^(n-1) */
  function Sum(a: nat, n: nat): int {
    if n == 0 then 0 else a * Sum(a, n - 1) + 1
  }

  lemma {:induction false} PowerIsSum(a: nat, n: nat)
    ensures Power(a, n) - 1 == (a - 1) * Sum(a, n)
  {
    if n > 0 {
      PowerIsSum(a, n - 1);
      SumStep(a, Power(a, n - 1), Sum(a, n - 1));
    }
  }

  lemma SumStep(a: int, p: int, g: int)
    requires p - 1 == (a - 1) * g
    ensures a * p - 1 == (a - 1) * (a * g + 1)
  {
    Distributes(a, p, 1);
    MulAssociates(a, a - 1, g);
    Distributes(a - 1, a * g, 1);
  }

  lemma {:induction false} SumAdd(a: nat, m: nat, n: nat)
    ensures Sum(a, m + n) == Power(a, m) * Sum(a, n) + Sum(a, m)
  {
    if m > 0 {
      SumAdd(a, m - 1, n);
      SumAddStep(a, Power(a, m - 1), Sum(a, n), Sum(a, m - 1));
    }
  }

  lemma SumAddStep(a: int, p: int, g: int, h: int)
    ensures a * (p * g + h) == (a * p) * g + a * h
  {
    Distributes(a, p * g, h);
    MulAssociates(a, p, g);
  }

  lemma {:induction false} PowerIsOneModFour(a: nat, n: nat)
    requires a % 4 == 1
    ensures Power(a, n) % 4 == 1
  {
    if n > 0 {
      PowerIsOneModFour(a, n - 1);
      OneModFour(a, Power(a, n - 1));
    }
  }

  lemma OneModFour(x: int, y: int)
    requires x % 4 == 1 && y % 4 == 1
    ensures (x * y) % 4 == 1
  {
    var h := x / 4;
    assert x == 4 * h + 1;
    Distributes(y, 4 * h, 1);
    MulAssociates(4, h, y);
    FourTimes(x * y, h * y, y);
  }

  lemma FourTimes(z: int, w: int, y: int)
    requires z == 4 * w + y
    ensures z % 4 == y % 4
  {
  }

  lemma OddStep(a: int, g: int, n: int)
    requires a % 2 == 1 && g % 2 == (n - 1) % 2
    ensures (a * g + 1) % 2 == n % 2
  {
    ProductParity(g, a);
    MulAssociates(1, a, g);
    assert a * g == g * a;
  }

  lemma {:induction false} SumParity(a: nat, n: nat)
    requires a % 2 == 1
    ensures Sum(a, n) % 2 == n % 2
  {
    if n > 0 {
      SumParity(a, n - 1);
      OddStep(a, Sum(a, n - 1), n);
    }
  }

  lemma TwiceFactor(g: int, p: int, odd: int)
    requires p + 1 == 2 * odd
    ensures p * g + g == 2 * (g * odd)
  {
    Distributes(g, p, 1);
    MulAssociates(g, 2, odd);
  }

  lemma HalfOfTwice(x: int, y: int)
    requires x == 2 * y
    ensures x % 2 == 0 && x / 2 == y
  {
  }

  lemma OddHalf(p: int)
    requires p % 4 == 1
    ensures p + 1 == 2 * ((p + 1) / 2) && ((p + 1) / 2) % 2 == 1
  {
  }

  /** Half of a sum over twice as many terms is the sum times an odd number. */
  lemma HalfOfDouble(big: int, g: int, p: int)
    requires big == p * g + g && p % 4 == 1
    ensures ((p + 1) / 2) % 2 == 1 && big % 2 == 0 && big / 2 == g * ((p + 1) / 2)
  {
    OddHalf(p);
    var odd := (p + 1) / 2;
    TwiceFactor(g, p, odd);
    HalfOfTwice(big, g * odd);
  }

  lemma HalvesAlike(big: int, g: int, odd: int, n: int, m: int, k: nat)
    requires k > 0 && big % 2 == 0 && big / 2 == g * odd && odd % 2 == 1 && n == 2 * m
    requires Even(g, k - 1) <==> Even(m, k - 1)
    ensures Even(big, k) <==> Even(n, k)
  {
    OddFactor(g, odd, k - 1);
  }

  /** When the multiplier is one more than a multiple of four, the sum can be halved as often as `n` can. */
  lemma {:induction false} SumHalvesLikeIndex(a: nat, n: nat, k: nat)
    requires a % 4 == 1
    ensures Even(Sum(a, n), k) <==> Even(n, k)
    decreases k
  {
    if k > 0 {
      SumParity(a, n);
      if n % 2 == 0 {
        var m := n / 2;
        SumAdd(a, m, m);
        PowerIsOneModFour(a, m);
        HalfOfDouble(Sum(a, n), Sum(a, m), Power(a, m));
        SumHalvesLikeIndex(a, m, k - 1);
        HalvesAlike(Sum(a, n), Sum(a, m), (Power(a, m) + 1) / 2, n, m, k);
      }
    }
  }

  lemma ModEqual(x: int, y: int, q: int)
    requires x - y == q * M
    ensures x % M == y % M
  {
    DivModIs(x, M, y / M + q, y % M);
  }

  /** The closed form of the state. */
  lemma {:induction false} IterIs(s: nat, n: nat)
    requires s < M
    ensures Iter(s, n) == (Power(A, n) * s + Sum(A, n)) % M
  {
    if n == 0 {
      DivModIs(s, M, 0, s);
    } else {
      IterIs(s, n - 1);
      var x := Power(A, n - 1) * s + Sum(A, n - 1);
      var q := x / M;
      assert x == q * M + x % M;
      var y := (x % M) * A + 1;
      assert A * x + 1 == y + (q * A) * M by { assert A * (q * M + x % M) == (q * A) * M + A * (x % M); }
      ModEqual(A * x + 1, y, q * A);
      assert A * x == Power(A, n) * s + A * Sum(A, n - 1) by {
        assert A * (Power(A, n - 1) * s) == Power(A, n) * s by { MulAssociates(A, Power(A, n - 1), s); }
      }
    }
  }

  lemma MIsPow2()
    ensures Pow2(64) == M
  {
    Pow2Values();
    Pow2Add(32, 32);
  }

  /** The generator returns to a state exactly after multiples of 2^64 draws: its period is the whole state space. */
  lemma FullPeriod(s: nat, n: nat)
    requires s < M
    ensures Iter(s, n) == s <==> n % M == 0
  {
    MIsPow2();
    FullPeriodOf(s, n, 64);
  }

  lemma FullPeriodOf(s: nat, n: nat, k: nat)
    requires s < M && Pow2(k) == M
    ensures Iter(s, n) == s <==> n % M == 0
  {
    IterIs(s, n);
    var p, g := Power(A, n), Sum(A, n);
    PowerIsSum(A, n);
    Displacement(A, p, g, s);
    SameRemainder(p * s + g, s);
    OddIncrement(s);
    OddFactor(g, (A - 1) * s + 1, k);
    SumHalvesLikeIndex(A, n, k);
    EvenIsDivisible(g * ((A - 1) * s + 1), k);
    EvenIsDivisible(n, k);
  }

  /** How far the state has come: the sum, times the increment that one draw makes. */
  lemma Displacement(a: int, p: int, g: int, s: int)
    requires p - 1 == (a - 1) * g
    ensures (p * s + g) - s == g * ((a - 1) * s + 1)
  {
    assert (p - 1) * s == p * s - s;
    MulAssociates(g, a - 1, s);
    assert g * ((a - 1) * s + 1) == g * ((a - 1) * s) + g;
  }

  lemma OddIncrement(s: nat)
    ensures ((A - 1) * s + 1) % 2 == 1
  {
    TwiceAndOne((A - 1) / 2, s);
  }

  lemma TwiceAndOne(k: nat, s: nat)
    ensures ((2 * k) * s + 1) % 2 == 1
  {
    MulAssociates(2, k, s);
  }

  lemma SameRemainder(x: int, s: nat)
    requires s < M
    ensures x % M == s <==> (x - s) % M == 0
  {
    var q, r := x / M, x % M;
    if r == s {
      DivModIs(x - s, M, q, 0);
    } else if (x - s) % M == 0 {
      DivModIs(x, M, (x - s) / M, s);
    }
  }

  // ---------------------------------------------------------------- one cycle

  lemma {:induction false} IterAdd(s: nat, m: nat, n: nat)
    ensures Iter(Iter(s, m), n) == Iter(s, m + n)
  {
    if n > 0 { IterAdd(s, m, n - 1); }
  }

  /** No state comes up twice within one period. */
  lemma NoRepetition(s: nat, i: nat, j: nat)
    requires s < M && i < j < i + M
    ensures Iter(s, i) != Iter(s, j)
  {
    IterAdd(s, i, j - i);
    FullPeriod(Iter(s, i), j - i);
    assert Iter(s, i) < M;
    DivModIs(j - i, M, 0, j - i);
  }

  /** A draw can be undone: different states have different successors. */
  lemma NextIsInjective(s: nat, t: nat)
    requires s < M && t < M && Next(s) == Next(t)
    ensures s == t
  {
    IterAdd(s, 1, M - 1);
    IterAdd(t, 1, M - 1);
    assert Iter(s, 1) == Next(Iter(s, 0)) && Iter(t, 1) == Next(Iter(t, 0));
    FullPeriod(s, M);
    FullPeriod(t, M);
    DivModIs(M, M, 1, 0);
  }

  function Orbit(s: nat, n: nat): set<nat> {
    if n == 0 then {} else Orbit(s, n - 1) + {Iter(s, n - 1)}
  }

  lemma {:induction false} OrbitIndex(s: nat, n: nat, t: nat) returns (i: nat)
    requires t in Orbit(s, n)
    ensures i < n && Iter(s, i) == t
  {
    if t == Iter(s, n - 1) { i := n - 1; } else { i := OrbitIndex(s, n - 1, t); }
  }

  lemma {:induction false} OrbitSize(s: nat, n: nat)
    requires s < M && n <= M
    ensures |Orbit(s, n)| == n
  {
    if n > 0 {
      OrbitSize(s, n - 1);
      if Iter(s, n - 1) in Orbit(s, n - 1) {
        var i := OrbitIndex(s, n - 1, Iter(s, n - 1));
        NoRepetition(s, i, n - 1);
      }
    }
  }

  lemma {:induction false} OrbitBelow(s: nat, n: nat)
    requires s < M
    ensures forall x :: x in Orbit(s, n) ==> x < M
  {
    if n > 0 { OrbitBelow(s, n - 1); }
  }

  function Below(n: nat): set<nat> {
    if n == 0 then {} else Below(n - 1) + {n - 1}
  }

  lemma {:induction false} BelowSize(n: nat)
    ensures |Below(n)| == n && forall x: nat :: x in Below(n) <==> x < n
  {
    if n > 0 { BelowSize(n - 1); }
  }

  lemma SameSize(a: set<nat>, b: set<nat>)
    requires a <= b && |a| == |b|
    ensures a == b
  {
    if x :| x in b && x !in a {
      assert |a + {x}| == |a| + 1;
      SubsetSize(a + {x}, b);
    }
  }

  lemma {:induction false} SubsetSize(a: set<nat>, b: set<nat>)
    requires a <= b
    ensures |a| <= |b|
  {
    if a != {} {
      var x :| x in a;
      SubsetSize(a - {x}, b - {x});
    }
  }

  /** From every state every other one is drawn within one period: all states form a single cycle. */
  lemma EveryStateIsReached(s: nat, t: nat)
    requires s < M && t < M
    ensures exists n: nat :: n < M && Iter(s, n) == t
  {
    var n: nat := M;
    OrbitSize(s, n);
    BelowSize(n);
    OrbitBelow(s, n);
    SameSize(Orbit(s, n), Below(n));
    var i := OrbitIndex(s, n, t);
  }

  // ---------------------------------------------------------------- the module's state

  /** The state `seed` puts in: `(n - 1) | 0`, as two limbs. None is `NaN`. */
  function Seeded(n: Option<int>): nat {
    if n.Some? then (n.value - 1) % 0x1_0000_0000 else 0
  }

  /** `get(l, u)` for the number drawn, with exact fractions. */
  function Scaled(x: nat, l: int, u: int): int {
    (x % 0x7fff_ffff) * (u - l + 1) / 0x7fff_ffff + l
  }

  lemma ScaledInRange(x: nat, l: int, u: int)
    requires l <= u
    ensures l <= Scaled(x, l, u) <= u
  {
    ScaledBelow(x % 0x7fff_ffff, u - l + 1);
  }

  /** A fraction of `w` below one. */
  lemma ScaledBelow(r: nat, w: nat)
    requires r < 0x7fff_ffff && w > 0
    ensures 0 <= r * w / 0x7fff_ffff < w
  {
    ProductGrows(w, r, 0x7fff_fffe);
    assert w * r == r * w;
  }

  /** Numbers that are 2^31 - 1 apart give the same, and multiples of it the lower bound. */
  lemma ScaledRepeats(x: nat, k: nat, l: int, u: int)
    ensures Scaled(x + 0x7fff_ffff, l, u) == Scaled(x, l, u)
    ensures Scaled(0x7fff_ffff * k, l, u) == l
  {
    var m: nat := 0x7fff_ffff;
    MultipleIsZero(m, k);
    assert 0 * (u - l + 1) == 0;
  }

  lemma MultipleIsZero(m: nat, k: nat)
    requires m > 0
    ensures m * k % m == 0
  {
    assert m * k == k * m + 0;
    DivModIs(m * k, m, k, 0);
  }

  /** The third channel of `derive_color`, from the first two and the third number drawn. */
  function Blue(r: int, g: int, x: nat): int {
    var low := if r + g < 128 then 128 - r - g else 0;
    var high := if r + g < 128 then 128 else 255 - r - g;
    low + (x % 0x7fff_ffff) * (high - low) / 0x7fff_ffff
  }

  /**
   Where the third channel lies: under 128 where it has to bring the sum up to 128, and
   where the other two reach that alone, low enough to keep the sum at 254 at most.
   */
  lemma BlueRange(r: int, g: int, x: nat)
    requires 1 <= r <= 128 && 1 <= g <= 128 && r + g <= 254
    ensures r + g < 128 ==> 128 - r - g <= Blue(r, g, x) < 128
    ensures r + g >= 128 ==> 0 <= Blue(r, g, x) < 255 - r - g
  {
    ScaledBelow(x % 0x7fff_ffff, if r + g < 128 then r + g else 255 - r - g);
  }

  predicate Byte(x: int) {
    0 <= x <= 255
  }

  /** The numbers that give a first or second channel of 128. */
  predicate Brightest(x: nat) {
    x % 0x7fff_ffff >= 2130706432
  }

  lemma BrightestIs(x: nat)
    ensures Brightest(x) <==> Scaled(x, 1, 128) == 128
  {
    var y := x % 0x7fff_ffff;
    assert Scaled(x, 1, 128) == y * 128 / 0x7fff_ffff + 1;
  }

  /**
   The channels of a colour. The first two are between 1 and 128. Unless both numbers
   drawn for them are the brightest, all three are bytes and the sum is between 128 and
   255. When both are, the sum of the two is 256, and the third channel is a byte only if
   the number drawn for it is a multiple of 2^31 - 1: otherwise it is -1.
   */
  lemma Channels(x1: nat, x2: nat, x3: nat)
    ensures var r, g := Scaled(x1, 1, 128), Scaled(x2, 1, 128);
      var b := Blue(r, g, x3);
      && 1 <= r <= 128 && 1 <= g <= 128 && (r + g == 256 <==> Brightest(x1) && Brightest(x2))
      && (128 <= r + g + b <= 255 && Byte(255 - r) && Byte(255 - g) && Byte(255 - b) <==>
          !(Brightest(x1) && Brightest(x2)))
      && (Byte(255 - b) <==> !(Brightest(x1) && Brightest(x2)) || x3 % 0x7fff_ffff == 0)
      && (r + g == 256 ==> b == if x3 % 0x7fff_ffff == 0 then 0 else -1)
  {
    ScaledInRange(x1, 1, 128);
    ScaledInRange(x2, 1, 128);
    BrightestIs(x1);
    BrightestIs(x2);
    var r, g, y := Scaled(x1, 1, 128), Scaled(x2, 1, 128), x3 % 0x7fff_ffff;
    if r + g <= 254 {
      ScaledBelow(y, if r + g < 128 then r + g else 255 - r - g);
    } else {
      BlueEdges(r, g, x3);
    }
  }

  lemma BlueEdges(r: int, g: int, x: nat)
    requires 255 <= r + g <= 256
    ensures Blue(r, g, x) == if r + g == 255 || x % 0x7fff_ffff == 0 then 0 else -1
  {
    var y: int, w := x % 0x7fff_ffff, 255 - r - g;
    if w == 0 {
      assert y * w == 0;
    } else {
      assert y * w == -y;
    }
  }

  // ---------------------------------------------------------------- colours of strings

  /** `parseInt(sfh(text), 16)` */
  function TextNumber(text: seq<nat>): Option<int>
    requires Hash.Units(text)
  {
    if text == [] then None else Some(Hash.Hash32(Hash.Bytes(text)))
  }

  /** `%02x`, of a number that is not negative. */
  function TwoHex(x: nat): string {
    Text.Pad(Text.Show(x, 16), 2)
  }

  /** The text of a colour; `0xff - b` is not negative for the channels that are drawn. */
  function ColorText(r: int, g: int, b: int): string
    requires r <= 255 && g <= 255 && b <= 255
  {
    "#" + TwoHex(255 - r) + TwoHex(255 - g) + TwoHex(255 - b)
  }

  /** What `derive_color` gives for a text. */
  function ColorOf(text: seq<nat>): string
    requires Hash.Units(text)
  {
    var s := Seeded(TextNumber(text));
    var x1, x2, x3 := Draw(s), Draw(Next(s)), Draw(Next(Next(s)));
    ChannelsFit(x1, x2, x3);
    var r, g := Scaled(x1, 1, 128), Scaled(x2, 1, 128);
    ColorText(r, g, Blue(r, g, x3))
  }

  lemma ChannelsFit(x1: nat, x2: nat, x3: nat)
    ensures var r, g := Scaled(x1, 1, 128), Scaled(x2, 1, 128); r <= 255 && g <= 255 && -1 <= Blue(r, g, x3) <= 255
  {
    Channels(x1, x2, x3);
  }

  lemma ColorIs(text: seq<nat>, s: nat, r: int, g: int, b: int)
    requires Hash.Units(text) && s == Seeded(TextNumber(text))
    requires r == Scaled(Draw(s), 1, 128) && g == Scaled(Draw(Next(s)), 1, 128)
    requires b == Blue(r, g, Draw(Next(Next(s))))
    ensures r <= 255 && g <= 255 && b <= 255 && ColorText(r, g, b) == ColorOf(text)
  {
    ChannelsFit(Draw(s), Draw(Next(s)), Draw(Next(Next(s))));
  }

  lemma TwoHexWidth(x: nat)
    requires x <= 255
    ensures |TwoHex(x)| == 2
  {
    if x >= 16 {
      assert Text.Show(x, 16) == Text.Show(x / 16, 16) + [Text.DigitChar(x % 16)];
    }
  }

  /** The draws that spoil a colour. */
  predicate Spoils(x1: nat, x2: nat, x3: nat) {
    Brightest(x1) && Brightest(x2) && x3 % 0x7fff_ffff != 0
  }

  /**
   A colour has six digits unless the first two numbers drawn from the hash of the text
   are both the brightest and the third one is not a multiple of 2^31 - 1; then it has
   seven, and is always the same.
   */
  lemma ColorDigits(text: seq<nat>)
    requires Hash.Units(text)
    ensures var s := Seeded(TextNumber(text));
      |ColorOf(text)| == 7 <==> !Spoils(Draw(s), Draw(Next(s)), Draw(Next(Next(s))))
    ensures |ColorOf(text)| != 7 <==> ColorOf(text) == "#7f7f100"
  {
    var s := Seeded(TextNumber(text));
    var x1, x2, x3 := Draw(s), Draw(Next(s)), Draw(Next(Next(s)));
    Channels(x1, x2, x3);
    BrightestIs(x1);
    BrightestIs(x2);
    var r, g := Scaled(x1, 1, 128), Scaled(x2, 1, 128);
    if Spoils(x1, x2, x3) {
      BrightText(r, g, Blue(r, g, x3));
    } else {
      ThreeBytes(r, g, Blue(r, g, x3));
    }
  }

  lemma ThreeBytes(r: int, g: int, b: int)
    requires Byte(255 - r) && Byte(255 - g) && Byte(255 - b)
    ensures |ColorText(r, g, b)| == 7
  {
    TwoHexWidth(255 - r);
    TwoHexWidth(255 - g);
    TwoHexWidth(255 - b);
  }

  lemma BrightDraw(s: nat, q: nat, next: nat, x: nat)
    requires s * A + 1 == q * M + next && next < M && x * 0x2_0000_0000 <= next < (x + 1) * 0x2_0000_0000
    requires 2130706432 <= x < 0x7fff_ffff
    ensures Next(s) == next && Brightest(Draw(s))
  {
    DrawIs(s, q, next, x);
  }

  lemma GvDraws(s0: nat)
    requires s0 == 4157996842
    ensures Spoils(Draw(s0), Draw(Next(s0)), Draw(Next(Next(s0))))
  {
    BrightDraw(s0, 1434511055, 18320683754372575331, 2132808295);
    var s1 := Next(s0);
    BrightDraw(s1, 6320645348629114903, 18399257984053026408, 2141955539);
    var s2 := Next(s1);
    DrawIs(s2, 6347753498412734547, 8651882131571798089, 1007211642);
  }

  lemma SeedOfGv(text: seq<nat>)
    requires text == [71, 118]
    ensures Seeded(TextNumber(text)) == 4157996842
  {
    Hash.HashOfGv(text);
  }

  lemma SpoiledColor(text: seq<nat>, s: nat)
    requires Hash.Units(text) && s == Seeded(TextNumber(text)) && Spoils(Draw(s), Draw(Next(s)), Draw(Next(Next(s))))
    ensures ColorOf(text) == "#7f7f100"
  {
    ColorDigits(text);
  }

  /** A zone that is called `Gv` gets the colour `#7f7f100`. */
  lemma MalformedColor(text: seq<nat>)
    requires text == [71, 118]
    ensures ColorOf(text) == "#7f7f100"
  {
    var s := Seeded(TextNumber(text));
    SeedOfGv(text);
    GvDraws(s);
    SpoiledColor(text, s);
  }

  lemma BrightText(r: int, g: int, b: int)
    requires r == g == 128 && b == -1
    ensures ColorText(r, g, b) == "#7f7f100"
  {
    SevenF(255 - r);
    assert Text.Show(256 / 16, 16) == "10";
    assert Text.Show(255 - b, 16) == "100";
    assert TwoHex(255 - b) == "100";
  }

  lemma SevenF(x: nat)
    requires x == 127
    ensures TwoHex(x) == "7f"
  {
    assert Text.Show(x, 16) == [Text.DigitChar(7)] + [Text.DigitChar(15)];
  }

  lemma DrawIs(s: nat, q: nat, next: nat, x: nat)
    requires s * A + 1 == q * M + next && next < M && x * 0x2_0000_0000 <= next < (x + 1) * 0x2_0000_0000
    ensures Next(s) == next && Draw(s) == x
  {
    DivModIs(s * A + 1, M, q, next);
    ThirtyThree();
    QuotIs(next, 33, x, next - x * 0x2_0000_0000);
  }

  lemma ThirtyThree()
    ensures Pow2(33) == 0x2_0000_0000
  {
    Pow2Values();
  }

  lemma CafeDraws(s: nat)
    requires s == 3372856343
    ensures Draw(s) == 1524821507 && Draw(Next(s)) == 1083390134 && Draw(Next(Next(s))) == 2026253467
  {
    DrawIs(s, 1163637178, 13098117013034701068, 1524821507);
    var s1 := Next(s);
    DrawIs(s1, 4518857128052254932, 9306250395203859229, 1083390134);
    var s2 := Next(s1);
    DrawIs(s2, 3210661188318600677, 17405384756897849114, 2026253467);
  }

  lemma NumberOfCafe(text: seq<nat>)
    requires text == [0x63, 0x61, 0x66, 0xe9]
    ensures Hash.Units(text) && TextNumber(text) == Some(0xc909_b418)
  {
    HashKnown.HashOfCafe(text);
  }

  lemma SeededIs(n: nat)
    requires 0 < n < 0x1_0000_0000
    ensures Seeded(Some(n)) == n - 1
  {
  }

  lemma CafeChannels(x1: nat, x2: nat, x3: nat)
    requires x1 == 1524821507 && x2 == 1083390134 && x3 == 2026253467
    ensures Scaled(x1, 1, 128) == 91 && Scaled(x2, 1, 128) == 65 && Blue(91, 65, x3) == 93
  {
  }

  lemma CafeText(r: int, g: int, b: int)
    requires r == 91 && g == 65 && b == 93
    ensures ColorText(r, g, b) == "#a4bea2"
  {
    TwoDigits(255 - r, 10, 4);
    TwoDigits(255 - g, 11, 14);
    TwoDigits(255 - b, 10, 2);
  }

  lemma TwoDigits(x: nat, hi: nat, lo: nat)
    requires 0 < hi < 16 && lo < 16 && x == hi * 16 + lo
    ensures TwoHex(x) == [Text.DigitChar(hi)] + [Text.DigitChar(lo)]
  {
    assert x / 16 == hi && x % 16 == lo;
    assert Text.Show(hi, 16) == [Text.DigitChar(hi)];
  }

  /** The colour of `café`: three different channels. */
  lemma KnownColor(text: seq<nat>)
    requires text == [0x63, 0x61, 0x66, 0xe9]
    ensures Hash.Units(text) && ColorOf(text) == "#a4bea2"
  {
    NumberOfCafe(text);
    SeededIs(0xc909_b418);
    var s := Seeded(TextNumber(text));
    CafeDraws(s);
    var x1, x2, x3 := Draw(s), Draw(Next(s)), Draw(Next(Next(s)));
    CafeChannels(x1, x2, x3);
    var r, g, b := Scaled(x1, 1, 128), Scaled(x2, 1, 128), Blue(91, 65, x3);
    ColorIs(text, s, r, g, b);
    CafeText(r, g, b);
  }

  lemma EmptyDraws(s: nat)
    requires s == 0
    ensures Draw(s) == 0 && Draw(Next(s)) == 740882966 && Draw(Next(Next(s))) == 1616430695
  {
    DrawIs(s, 0, 1, 0);
    var s1 := Next(s);
    DrawIs(s1, 0, 6364136223846793006, 740882966);
    var s2 := Next(s1);
    DrawIs(s2, 2195630281085919242, 13885033948157127959, 1616430695);
  }

  lemma EmptyChannels(x1: nat, x2: nat, x3: nat)
    requires x1 == 0 && x2 == 740882966 && x3 == 1616430695
    ensures Scaled(x1, 1, 128) == 1 && Scaled(x2, 1, 128) == 45 && Blue(1, 45, x3) == 116
  {
  }

  lemma EmptyText(r: int, g: int, b: int)
    requires r == 1 && g == 45 && b == 116
    ensures ColorText(r, g, b) == "#fed28b"
  {
    TwoDigits(255 - r, 15, 14);
    TwoDigits(255 - g, 13, 2);
    TwoDigits(255 - b, 8, 11);
  }

  /** The empty text has no hash: its colour is drawn from the state zero. */
  lemma EmptyColor(text: seq<nat>)
    requires text == []
    ensures Hash.Units(text) && ColorOf(text) == "#fed28b"
  {
    var s := Seeded(TextNumber(text));
    EmptyDraws(s);
    var x1, x2, x3 := Draw(s), Draw(Next(s)), Draw(Next(Next(s)));
    EmptyChannels(x1, x2, x3);
    var r, g, b := Scaled(x1, 1, 128), Scaled(x2, 1, 128), Blue(1, 45, x3);
    ColorIs(text, s, r, g, b);
    EmptyText(r, g, b);
  }

  class Random {
    var s: seq<nat>

    ghost predicate Valid()
      reads this
    {
      |s| == 4 && AreLimbs(s)
    }

    /** The 64-bit state. */
    ghost function State(): nat
      reads this
    {
      Val(s)
    }

    constructor ()
      ensures Valid() && State() == 0
    {
      s := [0, 0, 0, 0];
    }

    /** `n = (n - 1) | 0` and its two halves. */
    method Seed(n: Option<int>)
      modifies this
      ensures Valid() && State() == Seeded(n)
    {
      var m := Seeded(n);
      s := [m % B, m / B, 0, 0];
      FourLimbs(m % B, m / B, 0, 0);
    }

    method Int() returns (x: nat)
      requires Valid()
      modifies this
      ensures Valid() && State() == Next(old(State())) && x == Draw(old(State())) && x < 0x8000_0000
    {
      ghost var s0 := State();
      MultiplierValue();
      s := Mul(s, C);
      s := Limbs.Add(s, 1);
      CarryOne(s0 * A);
      x := HighBits();
    }

    /** The upper 31 bits of the state. */
    method HighBits() returns (x: nat)
      requires Valid()
      ensures x == Quot(State(), 33) && x < 0x8000_0000
    {
      var r := Shr(s, 33);
      ThirtyThree();
      ShiftSplits(State(), 33);
      ValBound(s);
      PFour();
      TwoLimbs(r);
      JoinLimbs(r[0], r[1]);
      x := Or(r[0], Shl(r[1], 16));
    }

    /** `get(l, u)`; the bounds are within 32 bits, so that `| 0` keeps them. */
    method Get(l: int, u: int) returns (x: int)
      requires Valid() && -0x8000_0000 <= l <= u < 0x8000_0000
      modifies this
      ensures Valid() && State() == Next(old(State()))
      ensures x == Scaled(Draw(old(State())), l, u) && l <= x <= u
    {
      var d := Int();
      ScaledInRange(d, l, u);
      x := (d % 0x7fff_ffff) * (u - l + 1) / 0x7fff_ffff + l;
    }

    /** The third channel, from the two others and the number drawn for it. */
    static method ThirdChannel(r: int, g: int, d: nat) returns (b: int)
      ensures b == Blue(r, g, d)
    {
      var low, high := 0, 128;
      if r + g < 128 {
        low := 128 - r - g;
      } else {
        high := 255 - r - g;
      }
      b := low + (d % 0x7fff_ffff) * (high - low) / 0x7fff_ffff;
    }

    /** `derive_color`, of UTF-16 code units. */
    method DeriveColor(text: seq<nat>) returns (color: string)
      requires Valid() && Hash.Units(text)
      modifies this
      ensures Valid() && State() == Next(Next(Next(Seeded(TextNumber(text)))))
      ensures color == ColorOf(text)
    {
      var hash := Hash.Sfh(text);
      if hash.Some? {
        Hash.DigestIsHash(Hash.Bytes(text));
        Seed(Some(Text.Value(hash.value, 16)));
      } else {
        Seed(None);
      }
      ghost var s0 := State();
      var r := Get(1, 128);
      var g := Get(1, 128);
      var d := Int();
      var b := ThirdChannel(r, g, d);
      ColorIs(text, s0, r, g, b);
      color := ColorText(r, g, b);
    }
  }

  lemma FourLimbs(a: nat, b: nat, c: nat, d: nat)
    ensures Val([a, b, c, d]) == a + B * (b + B * (c + B * d))
  {
    assert [a, b, c, d][1..] == [b, c, d] && [b, c, d][1..] == [c, d] && [c, d][1..] == [d];
    assert Val([d]) == d;
    assert Val([c, d]) == c + B * d;
    assert Val([b, c, d]) == b + B * (c + B * d);
  }

  lemma JoinLimbs(lo: nat, hi: nat)
    requires lo < B
    ensures Or(lo, Shl(hi, 16)) == lo + B * hi
  {
    Pow2Values();
    OrDisjoint(lo, hi, 16);
  }

  lemma TwoLimbs(r: seq<nat>)
    requires |r| == 4 && Val(r) < 0x8000_0000
    ensures Val(r) == r[0] + B * r[1]
  {
    assert r == [r[0], r[1], r[2], r[3]];
    FourLimbs(r[0], r[1], r[2], r[3]);
  }

  lemma MultiplierValue()
    ensures |C| == 4 && AreLimbs(C) && Val(C) == A
  {
    FourLimbs(0x7f2d, 0x4c95, 0xf42d, 0x5851);
  }

  lemma CarryOne(x: nat)
    ensures (x % M + 1) % M == (x + 1) % M
  {
    ModEqual(x + 1, x % M + 1, x / M);
  }
}
