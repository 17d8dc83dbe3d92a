/** Known values of the hash, for strings with each number of bytes left over. */
module HashKnown {
  import opened Base
  import opened Bits
  import opened BitDigits
  import opened Hash

  predicate AreDigits(x: seq<nat>) {
    |x| == 8 && forall i :: 0 <= i < 8 ==> x[i] < 16
  }

  /** Exclusive or of two numbers that are given by their digits. */
  lemma XorDigits(x: seq<nat>, y: seq<nat>, z: seq<nat>, a: nat, b: nat)
    requires AreDigits(x) && AreDigits(y) && a == Eight(x) && b == Eight(y) && |z| == 8
    requires z[0] == DigitXor(x[0], y[0]) && z[1] == DigitXor(x[1], y[1])
    requires z[2] == DigitXor(x[2], y[2]) && z[3] == DigitXor(x[3], y[3])
    requires z[4] == DigitXor(x[4], y[4]) && z[5] == DigitXor(x[5], y[5])
    requires z[6] == DigitXor(x[6], y[6]) && z[7] == DigitXor(x[7], y[7])
    ensures Xor(a, b) == Eight(z)
  {
    XorOfNumbers(x, y, z);
    EightDigits(x);
    EightDigits(y);
    EightDigits(z);
  }

  function Eight(w: seq<nat>): nat
    requires |w| == 8
  {
    (w[0] * 0x1000 + w[1] * 0x100 + w[2] * 0x10 + w[3]) * 0x1_0000 + w[4] * 0x1000 + w[5] * 0x100 + w[6] * 0x10 + w[7]
  }

  lemma MoreShifts()
    ensures Pow2(1) == 2 && Pow2(10) == 0x400 && Pow2(16) == 0x1_0000 && Pow2(18) == 0x4_0000
  {
    Pow2Values();
    Pow2Add(8, 2);
    Pow2Add(16, 2);
  }

  /** The end of a stirring: `s` is `x` shifted to the right. */
  lemma SumTo(x: nat, m: nat, d: nat, s: nat, rest: nat, r: nat)
    requires x < M && Pow2(m) == d && x == s * d + rest && rest < d && r == (x + s) % M
    ensures Add(x, Shr32(x, m)) == r
  {
    QuotIs(x, m, s, rest);
    assert U(x) == x;
  }

  lemma StirTo(h: nat, n: nat, m: nat, p: nat, d: nat, q: nat, l: nat, x: nat, s: nat, rest: nat, r: nat)
    requires h < M && Pow2(n) == p && Pow2(m) == d && h * p == q * M + l && l < M && Xor(h, l) == x
    requires x < M && x == s * d + rest && rest < d && r == (x + s) % M
    ensures Stir(h, n, m) == r
  {
    ShiftedIs(h, n, p, q, l);
    Xor32Is(h, l, x);
    SumTo(x, m, d, s, rest, r);
  }

  lemma MixTo(h: nat, a: nat, b: nat, x: nat, q: nat, l: nat, kq: nat, k: nat, z: nat, y: nat, s: nat, rest: nat,
              r: nat)
    requires h < M && x == (h + a) % M && x * 0x1_0000 == q * M + l && l < M
    requires b < M && b * 0x800 == kq * M + k && k < M && Xor(k, x) == z && Xor(l, z) == y && y < M
    requires y == s * 0x800 + rest && rest < 0x800 && r == (y + s) % M
    ensures Mix(h, a, b) == r
  {
    Shifts();
    MoreShifts();
    ShiftedIs(x, 16, 0x1_0000, q, l);
    ShiftedIs(b, 11, 0x800, kq, k);
    Xor32Is(k, x, z);
    Xor32Is(l, z, y);
    SumTo(y, 11, 0x800, s, rest, r);
  }

  lemma ThreeTo(h: nat, a: nat, c: nat, x: nat, q: nat, l: nat, z: nat, kq: nat, k: nat, y: nat, s: nat, rest: nat,
                r: nat)
    requires h < M && x == (h + a) % M && x * 0x1_0000 == q * M + l && l < M && Xor(x, l) == z
    requires c < M && c * 0x4_0000 == kq * M + k && k < M && Xor(z, k) == y && y < M
    requires y == s * 0x800 + rest && rest < 0x800 && r == (y + s) % M
    ensures Three(h, a, c) == r
  {
    Shifts();
    MoreShifts();
    ShiftedIs(x, 16, 0x1_0000, q, l);
    ShiftedIs(c, 18, 0x4_0000, kq, k);
    Xor32Is(x, l, z);
    Xor32Is(z, k, y);
    SumTo(y, 11, 0x800, s, rest, r);
  }

  lemma RoundOf(bytes: seq<nat>, h: nat, off: nat, a: nat, b: nat, r: nat)
    requires off + 4 <= |bytes| && a == U16(bytes, off) && b == U16(bytes, off + 2) && Mix(h, a, b) == r
    ensures Rounds(bytes, h, off) == Rounds(bytes, r, off + 4)
  {
  }

  lemma OneLeftOver(bytes: seq<nat>, h: nat, c: nat, x: nat, r: nat)
    requires AllBytes(bytes) && |bytes| % 4 == 1 && c == S8(bytes, |bytes| - 1) && x == Add(h, c) && Stir(x, 10, 1) == r
    ensures Rest(bytes, h) == r
  {
  }

  lemma ThreeLeftOver(bytes: seq<nat>, h: nat, a: nat, c: nat, r: nat)
    requires AllBytes(bytes) && |bytes| % 4 == 3
    requires a == U16(bytes, |bytes| - 3) && c == S8(bytes, |bytes| - 1) && Three(h, a, c) == r
    ensures Rest(bytes, h) == r
  {
  }

  lemma NoneLeftOver(bytes: seq<nat>, h: nat)
    requires AllBytes(bytes) && |bytes| % 4 == 0
    ensures Rest(bytes, h) == h
  {
  }

  lemma HashIs(bytes: seq<nat>, n: nat, h: nat, r: nat)
    requires AllBytes(bytes) && n == |bytes| < M && Rounds(bytes, n, 0) == h && Rest(bytes, h) == r
    ensures Reduced(bytes) == r
  {
    SameLength(n);
    assert Rounds(bytes, U(|bytes|), 0) == h;
  }

  lemma SameLength(n: nat)
    requires n < M
    ensures U(n) == n
  {
  }

  lemma NoRound(bytes: seq<nat>, h: nat, off: nat)
    requires off + 4 > |bytes|
    ensures Rounds(bytes, h, off) == h
  {
  }

  lemma Xor1(a: nat, b: nat)
    requires a == 0x61b3000 && b == 0x6168
    ensures Xor(a, b) == 0x61b5168
  {
    XorDigits([0, 6, 1, 0xb, 3, 0, 0, 0], [0, 0, 0, 0, 6, 1, 6, 8], [0, 6, 1, 0xb, 5, 1, 6, 8], a, b);
  }

  lemma Xor2(a: nat, b: nat)
    requires a == 0x61680000 && b == 0x61b5168
    ensures Xor(a, b) == 0x67735168
  {
    XorDigits([6, 1, 6, 8, 0, 0, 0, 0], [0, 6, 1, 0xb, 5, 1, 6, 8], [6, 7, 7, 3, 5, 1, 6, 8], a, b);
  }

  lemma CafeMix1(h: nat, a: nat, b: nat)
    requires h == 5 && a == 0x6163 && b == 0xc366
    ensures Mix(h, a, b) == 0x67803fd2
  {
    Shifts();
    MoreShifts();
    Xor1(0x61b3000, 0x6168);
    Xor2(0x61680000, 0x61b5168);
    MixTo(h, a, b, 0x6168, 0, 0x61680000, 0, 0x61b3000, 0x61b5168, 0x67735168, 0xcee6a, 0x168, 0x67803fd2);
  }

  lemma Xor3(a: nat, b: nat)
    requires a == 0x67803f7b && b == 0xfdec00
    ensures Xor(a, b) == 0x677dd37b
  {
    XorDigits([6, 7, 8, 0, 3, 0xf, 7, 0xb], [0, 0, 0xf, 0xd, 0xe, 0xc, 0, 0], [6, 7, 7, 0xd, 0xd, 3, 7, 0xb], a, b);
  }

  lemma CafeRest(h: nat)
    requires h == 0x67803f7b
    ensures Stir(h, 10, 1) == 0x9b3cbd38
  {
    Shifts();
    MoreShifts();
    Xor3(h, 0xfdec00);
    StirTo(h, 10, 1, 0x400, 2, 0x19e, 0xfdec00, 0x677dd37b, 0x33bee9bd, 1, 0x9b3cbd38);
  }

  lemma Xor4(a: nat, b: nat)
    requires a == 0x9b3cbd38 && b == 0xd9e5e9c0
    ensures Xor(a, b) == 0x42d954f8
  {
    XorDigits([9, 0xb, 3, 0xc, 0xb, 0xd, 3, 8], [0xd, 9, 0xe, 5, 0xe, 9, 0xc, 0], [4, 2, 0xd, 9, 5, 4, 0xf, 8], a, b);
  }

  lemma CafeFinish1(h: nat)
    requires h == 0x9b3cbd38
    ensures Stir(h, 3, 5) == 0x44f01f9f
  {
    Shifts();
    MoreShifts();
    Xor4(h, 0xd9e5e9c0);
    StirTo(h, 3, 5, 8, 0x20, 4, 0xd9e5e9c0, 0x42d954f8, 0x216caa7, 0x18, 0x44f01f9f);
  }

  lemma Xor5(a: nat, b: nat)
    requires a == 0x44f01f9f && b == 0x4f01f9f0
    ensures Xor(a, b) == 0xbf1e66f
  {
    XorDigits([4, 4, 0xf, 0, 1, 0xf, 9, 0xf], [4, 0xf, 0, 1, 0xf, 9, 0xf, 0], [0, 0xb, 0xf, 1, 0xe, 6, 6, 0xf], a, b);
  }

  lemma CafeFinish2(h: nat)
    requires h == 0x44f01f9f
    ensures Stir(h, 4, 17) == 0xbf1ec67
  {
    Shifts();
    MoreShifts();
    Xor5(h, 0x4f01f9f0);
    StirTo(h, 4, 17, 0x10, 0x20000, 4, 0x4f01f9f0, 0xbf1e66f, 0x5f8, 0x1e66f, 0xbf1ec67);
  }

  lemma Xor6(a: nat, b: nat)
    requires a == 0xbf1ec67 && b == 0xce000000
    ensures Xor(a, b) == 0xc5f1ec67
  {
    XorDigits([0, 0xb, 0xf, 1, 0xe, 0xc, 6, 7], [0xc, 0xe, 0, 0, 0, 0, 0, 0], [0xc, 5, 0xf, 1, 0xe, 0xc, 6, 7], a, b);
  }

  lemma CafeFinish3(h: nat)
    requires h == 0xbf1ec67
    ensures Stir(h, 25, 6) == 0xc909b418
  {
    Shifts();
    MoreShifts();
    Xor6(h, 0xce000000);
    StirTo(h, 25, 6, 0x2000000, 0x40, 0x17e3d8, 0xce000000, 0xc5f1ec67, 0x317c7b1, 0x27, 0xc909b418);
  }

  lemma CafeFinish(h: nat)
    requires h == 0x9b3cbd38
    ensures Finish(h) == 0xc909b418
  {
    CafeFinish1(h);
    CafeFinish2(0x44f01f9f);
    CafeFinish3(0xbf1ec67);
  }

  lemma CafeWords(bytes: seq<nat>)
    requires bytes == [0x63, 0x61, 0x66, 0xc3, 0xa9]
    ensures |bytes| == 5 && AllBytes(bytes)
    ensures U16(bytes, 0) == 0x6163 && U16(bytes, 2) == 0xc366
    ensures S8(bytes, 4) == 0xffffffa9
  {
  }

  lemma CafeDigest(bytes: seq<nat>)
    requires |bytes| == 5 && AllBytes(bytes)
    requires U16(bytes, 0) == 0x6163 && U16(bytes, 2) == 0xc366
    requires S8(bytes, 4) == 0xffffffa9
    ensures Hash32(bytes) == 0xc909b418
  {
    var h := |bytes|;
    var r1 := 0x67803fd2;
    CafeMix1(h, 0x6163, 0xc366);
    RoundOf(bytes, h, 0, 0x6163, 0xc366, r1);
    NoRound(bytes, r1, 4);
    var e := 0x9b3cbd38;
    CafeRest(0x67803f7b);
    OneLeftOver(bytes, r1, 0xffffffa9, 0x67803f7b, e);
    CafeFinish(e);
    HashIs(bytes, h, r1, e);
  }

  /** The hash of `café`: a round, and one byte left that is negative. */
  lemma HashOfCafe(s: seq<nat>)
    requires s == [0x63, 0x61, 0x66, 0xe9]
    ensures Hash32(Bytes(s)) == 0xc909b418
  {
    BytesOfCafe(s);
    CafeWords(Bytes(s));
    CafeDigest(Bytes(s));
  }

  lemma BytesOfCafe(s: seq<nat>)
    requires s == [0x63, 0x61, 0x66, 0xe9]
    ensures Bytes(s) == [0x63, 0x61, 0x66, 0xc3, 0xa9]
  {
    var front := s[..3];
    AsciiIsKept(front);
    assert front == [0x63, 0x61, 0x66];
    assert Bytes(s) == Bytes(front) + UnitBytes(s[3]);
  }

  lemma Xor7(a: nat, b: nat)
    requires a == 0x82e5 && b == 0x82e50000
    ensures Xor(a, b) == 0x82e582e5
  {
    XorDigits([0, 0, 0, 0, 8, 2, 0xe, 5], [8, 2, 0xe, 5, 0, 0, 0, 0], [8, 2, 0xe, 5, 8, 2, 0xe, 5], a, b);
  }

  lemma Xor8(a: nat, b: nat)
    requires a == 0x82e582e5 && b == 0xfeb00000
    ensures Xor(a, b) == 0x7c5582e5
  {
    XorDigits([8, 2, 0xe, 5, 8, 2, 0xe, 5], [0xf, 0xe, 0xb, 0, 0, 0, 0, 0], [7, 0xc, 5, 5, 8, 2, 0xe, 5], a, b);
  }

  lemma EuroRest(h: nat, a: nat, c: nat)
    requires h == 3 && a == 0x82e2 && c == 0xffffffac
    ensures Three(h, a, c) == 0x7c650d95
  {
    Shifts();
    MoreShifts();
    Xor7(0x82e5, 0x82e50000);
    Xor8(0x82e582e5, 0xfeb00000);
    ThreeTo(h, a, c, 0x82e5, 0, 0x82e50000, 0x82e582e5, 0x3ffff, 0xfeb00000, 0x7c5582e5, 0xf8ab0, 0x2e5, 0x7c650d95);
  }

  lemma Xor9(a: nat, b: nat)
    requires a == 0x7c650d95 && b == 0xe3286ca8
    ensures Xor(a, b) == 0x9f4d613d
  {
    XorDigits([7, 0xc, 6, 5, 0, 0xd, 9, 5], [0xe, 3, 2, 8, 6, 0xc, 0xa, 8], [9, 0xf, 4, 0xd, 6, 1, 3, 0xd], a, b);
  }

  lemma EuroFinish1(h: nat)
    requires h == 0x7c650d95
    ensures Stir(h, 3, 5) == 0xa447cc46
  {
    Shifts();
    MoreShifts();
    Xor9(h, 0xe3286ca8);
    StirTo(h, 3, 5, 8, 0x20, 3, 0xe3286ca8, 0x9f4d613d, 0x4fa6b09, 0x1d, 0xa447cc46);
  }

  lemma Xor10(a: nat, b: nat)
    requires a == 0xa447cc46 && b == 0x447cc460
    ensures Xor(a, b) == 0xe03b0826
  {
    XorDigits([0xa, 4, 4, 7, 0xc, 0xc, 4, 6], [4, 4, 7, 0xc, 0xc, 4, 6, 0], [0xe, 0, 3, 0xb, 0, 8, 2, 6], a, b);
  }

  lemma EuroFinish2(h: nat)
    requires h == 0xa447cc46
    ensures Stir(h, 4, 17) == 0xe03b7843
  {
    Shifts();
    MoreShifts();
    Xor10(h, 0x447cc460);
    StirTo(h, 4, 17, 0x10, 0x20000, 0xa, 0x447cc460, 0xe03b0826, 0x701d, 0x10826, 0xe03b7843);
  }

  lemma Xor11(a: nat, b: nat)
    requires a == 0xe03b7843 && b == 0x86000000
    ensures Xor(a, b) == 0x663b7843
  {
    XorDigits([0xe, 0, 3, 0xb, 7, 8, 4, 3], [8, 6, 0, 0, 0, 0, 0, 0], [6, 6, 3, 0xb, 7, 8, 4, 3], a, b);
  }

  lemma EuroFinish3(h: nat)
    requires h == 0xe03b7843
    ensures Stir(h, 25, 6) == 0x67d46624
  {
    Shifts();
    MoreShifts();
    Xor11(h, 0x86000000);
    StirTo(h, 25, 6, 0x2000000, 0x40, 0x1c076f0, 0x86000000, 0x663b7843, 0x198ede1, 3, 0x67d46624);
  }

  lemma EuroFinish(h: nat)
    requires h == 0x7c650d95
    ensures Finish(h) == 0x67d46624
  {
    EuroFinish1(h);
    EuroFinish2(0xa447cc46);
    EuroFinish3(0xe03b7843);
  }

  lemma EuroWords(bytes: seq<nat>)
    requires bytes == [0xe2, 0x82, 0xac]
    ensures |bytes| == 3 && AllBytes(bytes)
    ensures U16(bytes, 0) == 0x82e2 && S8(bytes, 2) == 0xffffffac
  {
  }

  lemma EuroDigest(bytes: seq<nat>)
    requires |bytes| == 3 && AllBytes(bytes)
    requires U16(bytes, 0) == 0x82e2 && S8(bytes, 2) == 0xffffffac
    ensures Hash32(bytes) == 0x67d46624
  {
    var h := |bytes|;
    NoRound(bytes, h, 0);
    var a, c, e := 0x82e2, 0xffffffac, 0x7c650d95;
    EuroRest(h, a, c);
    ThreeLeftOver(bytes, h, a, c, e);
    EuroFinish(e);
    HashIs(bytes, h, h, e);
  }

  /** The hash of the euro sign: three bytes left, the last one negative. */
  lemma HashOfEuro(s: seq<nat>)
    requires s == [0x20ac]
    ensures Hash32(Bytes(s)) == 0x67d46624
  {
    BytesOfEuro(s);
    EuroWords(Bytes(s));
    EuroDigest(Bytes(s));
  }

  lemma BytesOfEuro(s: seq<nat>)
    requires s == [0x20ac]
    ensures Bytes(s) == [0xe2, 0x82, 0xac]
  {
    var front := s[..0];
    AsciiIsKept(front);
    assert front == [];
    assert Bytes(s) == Bytes(front) + UnitBytes(s[0]);
  }

  lemma Xor12(a: nat, b: nat)
    requires a == 0x32ba000 && b == 0x6e71
    ensures Xor(a, b) == 0x32bce71
  {
    XorDigits([0, 3, 2, 0xb, 0xa, 0, 0, 0], [0, 0, 0, 0, 6, 0xe, 7, 1], [0, 3, 2, 0xb, 0xc, 0xe, 7, 1], a, b);
  }

  lemma Xor13(a: nat, b: nat)
    requires a == 0x6e710000 && b == 0x32bce71
    ensures Xor(a, b) == 0x6d5ace71
  {
    XorDigits([6, 0xe, 7, 1, 0, 0, 0, 0], [0, 3, 2, 0xb, 0xc, 0xe, 7, 1], [6, 0xd, 5, 0xa, 0xc, 0xe, 7, 1], a, b);
  }

  lemma InternetMix1(h: nat, a: nat, b: nat)
    requires h == 8 && a == 0x6e69 && b == 0x6574
    ensures Mix(h, a, b) == 0x6d6879ca
  {
    Shifts();
    MoreShifts();
    Xor12(0x32ba000, 0x6e71);
    Xor13(0x6e710000, 0x32bce71);
    MixTo(h, a, b, 0x6e71, 0, 0x6e710000, 0, 0x32ba000, 0x32bce71, 0x6d5ace71, 0xdab59, 0x671, 0x6d6879ca);
  }

  lemma Xor14(a: nat, b: nat)
    requires a == 0x3a32800 && b == 0x6d68e83c
    ensures Xor(a, b) == 0x6ecbc03c
  {
    XorDigits([0, 3, 0xa, 3, 2, 8, 0, 0], [6, 0xd, 6, 8, 0xe, 8, 3, 0xc], [6, 0xe, 0xc, 0xb, 0xc, 0, 3, 0xc], a, b);
  }

  lemma Xor15(a: nat, b: nat)
    requires a == 0xe83c0000 && b == 0x6ecbc03c
    ensures Xor(a, b) == 0x86f7c03c
  {
    XorDigits([0xe, 8, 3, 0xc, 0, 0, 0, 0], [6, 0xe, 0xc, 0xb, 0xc, 0, 3, 0xc], [8, 6, 0xf, 7, 0xc, 0, 3, 0xc], a, b);
  }

  lemma InternetMix2(h: nat, a: nat, b: nat)
    requires h == 0x6d6879ca && a == 0x6e72 && b == 0x7465
    ensures Mix(h, a, b) == 0x87089f34
  {
    Shifts();
    MoreShifts();
    Xor14(0x3a32800, 0x6d68e83c);
    Xor15(0xe83c0000, 0x6ecbc03c);
    MixTo(h, a, b, 0x6d68e83c, 0x6d68, 0xe83c0000, 0, 0x3a32800, 0x6ecbc03c, 0x86f7c03c, 0x10def8, 0x3c, 0x87089f34);
  }

  lemma Xor16(a: nat, b: nat)
    requires a == 0x87089f34 && b == 0x3844f9a0
    ensures Xor(a, b) == 0xbf4c6694
  {
    XorDigits([8, 7, 0, 8, 9, 0xf, 3, 4], [3, 8, 4, 4, 0xf, 9, 0xa, 0], [0xb, 0xf, 4, 0xc, 6, 6, 9, 4], a, b);
  }

  lemma InternetFinish1(h: nat)
    requires h == 0x87089f34
    ensures Stir(h, 3, 5) == 0xc546c9c8
  {
    Shifts();
    MoreShifts();
    Xor16(h, 0x3844f9a0);
    StirTo(h, 3, 5, 8, 0x20, 4, 0x3844f9a0, 0xbf4c6694, 0x5fa6334, 0x14, 0xc546c9c8);
  }

  lemma Xor17(a: nat, b: nat)
    requires a == 0xc546c9c8 && b == 0x546c9c80
    ensures Xor(a, b) == 0x912a5548
  {
    XorDigits([0xc, 5, 4, 6, 0xc, 9, 0xc, 8], [5, 4, 6, 0xc, 9, 0xc, 8, 0], [9, 1, 2, 0xa, 5, 5, 4, 8], a, b);
  }

  lemma InternetFinish2(h: nat)
    requires h == 0xc546c9c8
    ensures Stir(h, 4, 17) == 0x912a9ddd
  {
    Shifts();
    MoreShifts();
    Xor17(h, 0x546c9c80);
    StirTo(h, 4, 17, 0x10, 0x20000, 0xc, 0x546c9c80, 0x912a5548, 0x4895, 0x5548, 0x912a9ddd);
  }

  lemma Xor18(a: nat, b: nat)
    requires a == 0x912a9ddd && b == 0xba000000
    ensures Xor(a, b) == 0x2b2a9ddd
  {
    XorDigits([9, 1, 2, 0xa, 9, 0xd, 0xd, 0xd], [0xb, 0xa, 0, 0, 0, 0, 0, 0], [2, 0xb, 2, 0xa, 9, 0xd, 0xd, 0xd], a, b);
  }

  lemma InternetFinish3(h: nat)
    requires h == 0x912a9ddd
    ensures Stir(h, 25, 6) == 0x2bd74854
  {
    Shifts();
    MoreShifts();
    Xor18(h, 0xba000000);
    StirTo(h, 25, 6, 0x2000000, 0x40, 0x122553b, 0xba000000, 0x2b2a9ddd, 0xacaa77, 0x1d, 0x2bd74854);
  }

  lemma InternetFinish(h: nat)
    requires h == 0x87089f34
    ensures Finish(h) == 0x2bd74854
  {
    InternetFinish1(h);
    InternetFinish2(0xc546c9c8);
    InternetFinish3(0x912a9ddd);
  }

  lemma InternetWords(bytes: seq<nat>)
    requires bytes == [0x69, 0x6e, 0x74, 0x65, 0x72, 0x6e, 0x65, 0x74]
    ensures |bytes| == 8 && AllBytes(bytes)
    ensures U16(bytes, 0) == 0x6e69 && U16(bytes, 2) == 0x6574
    ensures U16(bytes, 4) == 0x6e72 && U16(bytes, 6) == 0x7465
  {
  }

  lemma InternetDigest(bytes: seq<nat>)
    requires |bytes| == 8 && AllBytes(bytes)
    requires U16(bytes, 0) == 0x6e69 && U16(bytes, 2) == 0x6574
    requires U16(bytes, 4) == 0x6e72 && U16(bytes, 6) == 0x7465
    ensures Hash32(bytes) == 0x2bd74854
  {
    var h := |bytes|;
    var r1 := 0x6d6879ca;
    InternetMix1(h, 0x6e69, 0x6574);
    RoundOf(bytes, h, 0, 0x6e69, 0x6574, r1);
    var r2 := 0x87089f34;
    InternetMix2(r1, 0x6e72, 0x7465);
    RoundOf(bytes, r1, 4, 0x6e72, 0x7465, r2);
    NoRound(bytes, r2, 8);
    var e := r2;
    NoneLeftOver(bytes, e);
    InternetFinish(e);
    HashIs(bytes, h, r2, e);
  }

  /** The hash of `internet`: two rounds. */
  lemma HashOfInternet(s: seq<nat>)
    requires s == [0x69, 0x6e, 0x74, 0x65, 0x72, 0x6e, 0x65, 0x74]
    ensures Hash32(Bytes(s)) == 0x2bd74854
  {
    BytesOfInternet(s);
    InternetWords(Bytes(s));
    InternetDigest(Bytes(s));
  }

  lemma BytesOfInternet(s: seq<nat>)
    requires s == [0x69, 0x6e, 0x74, 0x65, 0x72, 0x6e, 0x65, 0x74]
    ensures Bytes(s) == [0x69, 0x6e, 0x74, 0x65, 0x72, 0x6e, 0x65, 0x74]
  {
    AsciiIsKept(s);
  }
}
