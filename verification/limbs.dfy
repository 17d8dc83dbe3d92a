/** 64-bit arithmetic on four 16-bit limbs, lowest first (`mul`, `add` and `shr` of `prng.js`). */
module Limbs {
  import opened Bits

  const B: nat := 0x1_0000
  const M: nat := 0x1_0000_0000_0000_0000

  /** The number a row of limbs stands for. */
  function Val(r: seq<nat>): nat {
    if r == [] then 0 else r[0] + B * Val(r[1..])
  }

  ghost predicate AreLimbs(r: seq<nat>) {
    forall i :: 0 <= i < |r| ==> r[i] < B
  }

  /** `B` to the power of `n`. */
  function P(n: nat): (p: nat)
    ensures p > 0
  {
    if n == 0 then 1 else B * P(n - 1)
  }

  /** JavaScript's `t & 0xffff` and `t >>> 16`, which see the number modulo 2^32. */
  function Low(t: nat): nat {
    (t % 0x1_0000_0000) % B
  }

  function High(t: nat): nat {
    (t % 0x1_0000_0000) / B
  }

  lemma SplitsExactly(t: nat)
    requires t < 0x1_0000_0000
    ensures t == Low(t) + B * High(t) && Low(t) < B && High(t) < B
  {
  }

  // ---------------------------------------------------------------- facts about rows of limbs

  lemma {:induction false} PAdd(m: nat, n: nat)
    ensures P(m + n) == P(m) * P(n)
  {
    if m > 0 {
      PAdd(m - 1, n);
      assert P(m + n) == B * P((m - 1) + n);
      MulAssociates(B, P(m - 1), P(n));
    }
  }

  lemma {:induction false} ValUpdate(r: seq<nat>, i: nat, x: nat)
    requires i < |r|
    ensures Val(r[i := x]) == Val(r) + (x - r[i]) * P(i)
  {
    if i == 0 {
      assert r[0 := x][1..] == r[1..];
    } else {
      ValUpdate(r[1..], i - 1, x);
      assert r[i := x][1..] == r[1..][i - 1 := x];
      MulAssociates(B, x - r[i], P(i - 1));
    }
  }

  lemma {:induction false} ValSplit(r: seq<nat>, i: nat)
    requires i <= |r|
    ensures Val(r) == Val(r[..i]) + P(i) * Val(r[i..])
  {
    if i == 0 {
      assert r[0..] == r;
    } else {
      ValSplit(r[1..], i - 1);
      assert r[..i][1..] == r[1..][..i - 1] && r[i..] == r[1..][i - 1..];
      MulAssociates(B, P(i - 1), Val(r[i..]));
    }
  }

  lemma {:induction false} ValBound(r: seq<nat>)
    requires AreLimbs(r)
    ensures Val(r) < P(|r|)
  {
    if r != [] { ValBound(r[1..]); }
  }

  lemma {:induction false} ValZeros(r: seq<nat>)
    requires forall i :: 0 <= i < |r| ==> r[i] == 0
    ensures Val(r) == 0
  {
    if r != [] { ValZeros(r[1..]); }
  }

  lemma PFour()
    ensures P(4) == M
  {
    assert P(1) == B && P(2) == 0x1_0000_0000;
    assert P(3) == B * P(2);
  }

  /** Dropping what does not fit takes the remainder. */
  lemma LowFour(r: seq<nat>)
    requires AreLimbs(r) && |r| >= 4
    ensures Val(r[..4]) == Val(r) % M
  {
    ValSplit(r, 4);
    ValBound(r[..4]);
    PFour();
    DivModIs(Val(r), M, Val(r[4..]), Val(r[..4]));
  }

  // ---------------------------------------------------------------- multiplication

  /** One column: the limb product, the limb already there and the carry fit in 32 bits. */
  lemma ColumnFits(x: nat, y: nat, limb: nat, k: nat)
    requires x < B && y < B && limb < B && k < B
    ensures x * y + limb + k < 0x1_0000_0000
  {
    ProductGrows(x, y, B - 1);
  }

  lemma ProductGrows(x: nat, y: nat, m: nat)
    requires y <= m
    ensures x * y <= x * m
  {
    assert x * (m - y) >= 0;
  }

  lemma Spread(v: int, p: int, x: int, y: int, q: int)
    ensures (v + p * x) * y * q == v * y * q + x * y * (p * q)
  {
    assert (v + p * x) * y == v * y + p * x * y;
    assert (v * y + p * x * y) * q == v * y * q + p * x * y * q;
    assert p * x * y * q == x * y * (p * q);
  }

  /** The effect of one column on the value of the row with its carry. */
  lemma ColumnAdds(v0: int, v1: int, x: nat, y: nat, limb: nat, k: nat, low: nat, high: nat, p: nat)
    requires x * y + limb + k == low + B * high
    requires v1 == v0 + (low - limb) * p
    ensures v1 + high * (B * p) == v0 + k * p + x * y * p
  {
    assert (low - limb) * p + high * (B * p) == (low - limb + B * high) * p;
    assert (low - limb + B * high) == x * y + k;
    assert (x * y + k) * p == x * y * p + k * p;
  }

  lemma RowGrows(a: seq<nat>, i: nat, y: nat, j: nat)
    requires i < |a|
    ensures Val(a[..i + 1]) * y * P(j) == Val(a[..i]) * y * P(j) + a[i] * y * P(i + j)
  {
    assert a[..i + 1] == a[..i] + [a[i]];
    ValSnoc(a[..i], a[i]);
    PAdd(i, j);
    Spread(Val(a[..i]), P(i), a[i], y, P(j));
  }

  lemma NextRow(v: nat, b: seq<nat>, j: nat)
    requires j < |b|
    ensures v * Val(b[..j + 1]) == v * Val(b[..j]) + v * b[j] * P(j)
  {
    assert b[..j + 1] == b[..j] + [b[j]];
    ValSnoc(b[..j], b[j]);
    var x, y, p := Val(b[..j]), b[j], P(j);
    assert v * (x + p * y) == v * x + v * (p * y);
    assert v * (p * y) == v * y * p;
  }

  method Mul(a: seq<nat>, b: seq<nat>) returns (p: seq<nat>)
    requires |a| == 4 && |b| == 4 && AreLimbs(a) && AreLimbs(b)
    ensures |p| == 4 && AreLimbs(p) && Val(p) == Val(a) * Val(b) % M
  {
    var r := new nat[8](_ => 0);
    ValZeros(r[..]);
    for j := 0 to 4
      invariant AreLimbs(r[..])
      invariant forall i :: j + 4 <= i < 8 ==> r[i] == 0
      invariant Val(r[..]) == Val(a) * Val(b[..j])
    {
      ghost var v := Val(r[..]);
      MulRow(a, b[j], r, j);
      NextRow(Val(a), b, j);
    }
    assert b[..4] == b;
    LowFour(r[..]);
    p := r[..4];
    assert p == r[..][..4];
  }

  /** The inner loop: adds `a * y`, shifted by `j` limbs. */
  method MulRow(a: seq<nat>, y: nat, r: array<nat>, j: nat)
    requires |a| == 4 && AreLimbs(a) && y < B && r.Length == 8 && j < 4 && AreLimbs(r[..])
    requires forall i :: j + 4 <= i < 8 ==> r[i] == 0
    modifies r
    ensures AreLimbs(r[..]) && forall i :: j + 5 <= i < 8 ==> r[i] == 0
    ensures Val(r[..]) == old(Val(r[..])) + Val(a) * y * P(j)
  {
    var k: nat := 0;
    ghost var v := Val(r[..]);
    assert a[..0] == [];
    for i := 0 to 4
      invariant k < B && AreLimbs(r[..])
      invariant forall n :: j + 4 <= n < 8 ==> r[n] == 0
      invariant Val(r[..]) + k * P(i + j) == v + Val(a[..i]) * y * P(j)
    {
      ghost var before, k0, limb := r[..], k, r[i + j];
      ColumnFits(a[i], y, r[i + j], k);
      var t := a[i] * y + r[i + j] + k;
      SplitsExactly(t);
      r[i + j] := Low(t);
      k := High(t);
      assert r[..] == before[i + j := Low(t)];
      ValUpdate(before, i + j, Low(t));
      ColumnAdds(Val(before), Val(r[..]), a[i], y, limb, k0, Low(t), High(t), P(i + j));
      RowGrows(a, i, y, j);
    }
    assert a[..4] == a;
    ghost var before := r[..];
    r[j + 4] := k;
    assert r[..] == before[j + 4 := k];
    ValUpdate(before, j + 4, k);
  }

  // ---------------------------------------------------------------- addition

  method Add(a: seq<nat>, n: nat) returns (r: seq<nat>)
    requires |a| == 4 && AreLimbs(a) && n <= 0xffff_0000
    ensures |r| == 4 && AreLimbs(r) && Val(r) == (Val(a) + n) % M
  {
    var row := new nat[4](_ => 0);
    var k: nat := n;
    assert a[..0] == [];
    for i := 0 to 4
      invariant k <= 0xffff_0000 && (i > 0 ==> k < B)
      invariant AreLimbs(row[..i])
      invariant Val(row[..i]) + k * P(i) == Val(a[..i]) + n
    {
      var t := a[i] + k;
      SplitsExactly(t);
      ghost var before := row[..i];
      row[i] := Low(t);
      assert row[..i] == before && row[..i + 1] == before + [Low(t)];
      ValSnoc(before, Low(t));
      ValSnoc(a[..i], a[i]);
      assert a[..i + 1] == a[..i] + [a[i]];
      CarryMoves(Low(t), High(t), a[i], k, P(i));
      k := High(t);
    }
    assert a[..4] == a && row[..4] == row[..];
    r := row[..];
    ValBound(r);
    PFour();
    DivModIs(Val(a) + n, M, k, Val(r));
  }

  lemma CarryMoves(low: nat, high: nat, x: nat, k: nat, p: nat)
    requires x + k == low + B * high
    ensures p * low + high * (B * p) == p * x + k * p
  {
    assert p * low + high * (B * p) == p * (low + B * high);
    assert p * (x + k) == p * x + k * p;
  }

  lemma {:induction false} ValSnoc(r: seq<nat>, x: nat)
    ensures Val(r + [x]) == Val(r) + P(|r|) * x
  {
    if r == [] {
      assert [x][1..] == [];
      assert r + [x] == [x];
    } else {
      ValSnoc(r[1..], x);
      assert (r + [x])[1..] == r[1..] + [x];
      MulAssociates(B, P(|r| - 1), x);
    }
  }

  // ---------------------------------------------------------------- right shift

  lemma LongDivisionSum(x: nat, r: nat, y: nat, u: nat, p: nat, q: nat)
    requires p * q == B
    ensures y * p + u + B * (x * p + r) == (B * x + r * q + y) * p + u
  {
    Distributes(p, B * x + r * q, y);
    Distributes(p, B * x, r * q);
    MulAssociates(B, x, p);
    MulAssociates(r, p, q);
  }

  lemma LongDivisionFits(r: nat, y: nat, u: nat, p: nat, q: nat)
    requires p * q == B && r < p && y * p + u < B
    ensures 0 <= r * q && r * q + y < B && y < q
  {
    MultipleIsLarge(y - q, p);
    assert (y - q) * p == y * p - p * q;
    ProductGrows(q, r, p - 1);
    assert q * (p - 1) == p * q - q && r * q == q * r;
  }

  method Shr(a: seq<nat>, n0: nat) returns (res: seq<nat>)
    requires |a| == 4 && AreLimbs(a)
    ensures |res| == 4 && AreLimbs(res) && Val(res) == Quot(Val(a), n0)
  {
    var r := new nat[5](j => 0);
    r[0], r[1], r[2], r[3] := a[0], a[1], a[2], a[3];
    var n, i := ShiftLimbs(r, n0, a);
    ghost var start := r[..4];
    if i <= 0 {
      ValZeros(start);
      ZeroRem(n);
    } else {
      ShiftBits(r, n, i);
    }
    ShiftTwice(Val(a), n0 - n, n);
    res := r[..4];
  }

  /** The low bits of `t`, at the top of the next limb. */
  function Carry(t: nat, n: nat): nat
    requires n <= 16
  {
    Shl(Rem(t, n), 16 - n)
  }

  lemma SixteenBits(n: nat)
    requires n <= 16
    ensures Pow2(n) * Pow2(16 - n) == B
  {
    Pow2Add(n, 16 - n);
    Pow2Values();
  }

  /** One step of a long division from the top: `t` is what is above, `s` the next limb. */
  lemma LimbStep(t: nat, s: nat, n: nat)
    requires s < B && n <= 16
    ensures Or(Quot(s, n), Carry(t, n)) < B
    ensures Or(Quot(s, n), Carry(t, n)) + B * Quot(t, n) == Quot(s + B * t, n)
    ensures And(s, Pow2(n) - 1) == Rem(s + B * t, n)
  {
    SixteenBits(n);
    ShiftSplits(t, n);
    ShiftSplits(s, n);
    LongDivision(Quot(t, n), Rem(t, n), Quot(s, n), Rem(s, n), Pow2(n), Pow2(16 - n));
    QuotIs(s + B * t, n, B * Quot(t, n) + Carry(t, n) + Quot(s, n), Rem(s, n));
    OrDisjoint(Quot(s, n), Rem(t, n), 16 - n);
    AndLow(s, n);
  }

  /** Dividing `s + B * t` by `p`, from the quotients and remainders of `t` and `s`. */
  lemma LongDivision(x: nat, r: nat, y: nat, u: nat, p: nat, q: nat)
    requires p * q == B && r < p && y * p + u < B
    ensures (y * p + u) + B * (x * p + r) == (B * x + r * q + y) * p + u
    ensures r * q + y < B && y < q
  {
    LongDivisionFits(r, y, u, p, q);
    LongDivisionSum(x, r, y, u, p, q);
  }

  /** The step on the row: `row` is shifted from `i` on, `start` not at all. */
  lemma RowStep(start: seq<nat>, row: seq<nat>, i: nat, limb: nat)
    requires 0 < i <= |start| == |row| && AreLimbs(row) && limb < B && row[..i] == start[..i]
    ensures var next := row[i - 1 := limb];
      && AreLimbs(next) && next[..i - 1] == start[..i - 1]
      && Val(next[i - 1..]) == limb + B * Val(row[i..])
      && Val(start[i - 1..]) == row[i - 1] + B * Val(start[i..])
  {
    var next := row[i - 1 := limb];
    assert row[..i][i - 1] == start[..i][i - 1];
    assert next[..i - 1] == row[..i][..i - 1] && start[..i - 1] == start[..i][..i - 1];
    ValTail(next, i - 1);
    ValTail(start, i - 1);
    assert next[i..] == row[i..];
  }

  lemma ValTail(r: seq<nat>, i: nat)
    requires i < |r|
    ensures Val(r[i..]) == r[i] + B * Val(r[i + 1..])
  {
    assert r[i..][1..] == r[i + 1..];
  }

  method ShiftLimb(s: nat, k0: nat, n: nat, ghost t: nat) returns (limb: nat, k: nat)
    requires s < B && n <= 16 && k0 == Carry(t, n)
    ensures limb < B && limb + B * Quot(t, n) == Quot(s + B * t, n) && k == Carry(s + B * t, n)
  {
    LimbStep(t, s, n);
    limb := Or(Quot(s, n), k0);
    k := Shl(And(s, Pow2(n) - 1), 16 - n);
  }

  /** The second loop, from the highest limb that can be non-zero down. */
  method ShiftBits(r: array<nat>, n: nat, top: nat)
    requires r.Length == 5 && n <= 16 && 0 < top <= 4 && AreLimbs(r[..])
    requires forall j :: top <= j < 4 ==> r[j] == 0
    modifies r
    ensures AreLimbs(r[..4]) && Val(r[..4]) == Quot(old(Val(r[..4])), n)
  {
    ghost var start, row := r[..4], r[..4];
    TopIsZero(start, top);
    ZeroRem(n);
    var i: nat, k: nat := top, 0;
    while i > 0
      invariant i <= top && r[..4] == row && AreLimbs(row) && row[..i] == start[..i]
      invariant Val(row[i..]) == Quot(Val(start[i..]), n)
      invariant k == Carry(Val(start[i..]), n)
    {
      var s := r[i - 1];
      assert s == row[i - 1];
      var limb;
      limb, k := ShiftLimb(s, k, n, Val(start[i..]));
      RowStep(start, row, i, limb);
      r[i - 1] := limb;
      row := row[i - 1 := limb];
      i := i - 1;
    }
    assert row[0..] == row && start[0..] == start;
  }

  lemma TopIsZero(r: seq<nat>, lo: nat)
    requires lo <= |r| && forall j :: lo <= j < |r| ==> r[j] == 0
    ensures Val(r[lo..]) == 0
  {
    ValZeros(r[lo..]);
  }

  /** The first loop: whole limbs are shifted out while more than 16 bits remain. */
  method ShiftLimbs(r: array<nat>, n0: nat, ghost a: seq<nat>) returns (n: nat, i: int)
    requires r.Length == 5 && AreLimbs(r[..]) && r[4] == 0 && r[..4] == a && |a| == 4
    modifies r
    ensures n <= 16 && n <= n0 && i <= 4 && AreLimbs(r[..]) && r[4] == 0
    ensures forall j :: 0 <= j < 4 && j >= i ==> r[j] == 0
    ensures Val(r[..4]) == Quot(Val(a), n0 - n)
  {
    n, i := n0, 4;
    while n > 16
      invariant n <= n0 && i <= 4 && AreLimbs(r[..]) && r[4] == 0
      invariant forall j :: 0 <= j < 4 && j >= i ==> r[j] == 0
      invariant Val(r[..4]) == Quot(Val(a), n0 - n)
    {
      ghost var before := r[..];
      r[0] := r[1];
      r[1] := r[2];
      r[2] := r[3];
      r[3] := r[4];
      ShiftedByOne(before, r[..]);
      ShiftTwice(Val(a), n0 - n, 16);
      n, i := n - 16, i - 1;
    }
  }

  lemma ShiftedByOne(before: seq<nat>, after: seq<nat>)
    requires |before| == 5 && |after| == 5 && AreLimbs(before) && before[4] == 0
    requires after == before[1..] + [0]
    ensures Val(after[..4]) == Quot(Val(before[..4]), 16)
  {
    Pow2Values();
    ShiftDivides(Val(before[..4]), 16);
    ValSnoc(before[..4], 0);
    assert before == before[..4] + [0];
    assert after[..4] == before[1..];
    DivModIs(Val(before), B, Val(before[1..]), before[0]);
  }
}
