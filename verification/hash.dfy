/** The hash of translatable strings: `sfh` of `cbi.js`. */
module Hash {
  import opened Base
  import opened Bits
  import opened BitDigits
  import opened Text

  const M: nat := 0x1_0000_0000

  // ---------------------------------------------------------------- the bytes of a string

  /** UTF-16 code units, as `charCodeAt` gives them. */
  predicate Units(s: seq<nat>) {
    forall i :: 0 <= i < |s| ==> s[i] <= 0xFFFF
  }

  /** The bytes of one unit. The fourth branch of the source is for codes that `charCodeAt` does not give. */
  function UnitBytes(ch: nat): seq<nat>
    requires ch <= 0xFFFF
  {
    if ch <= 0x7F then [ch]
    else if ch <= 0x7FF then [ch / 64 % 32 + 0xC0, ch % 64 + 0x80]
    else [ch / 4096 % 16 + 0xE0, ch / 64 % 64 + 0x80, ch % 64 + 0x80]
  }

  function Bytes(s: seq<nat>): (bytes: seq<nat>)
    requires Units(s)
    ensures AllBytes(bytes) && |bytes| >= |s|
  {
    if s == [] then []
    else
      Bytes(s[..|s| - 1]) + UnitBytes(s[|s| - 1])
  }

  predicate AllBytes(bytes: seq<nat>) {
    forall i :: 0 <= i < |bytes| ==> bytes[i] < 256
  }

  // ---------------------------------------------------------------- numbers as JavaScript has them

  /** `x>>>0` */
  function U(x: nat): (u: nat)
    ensures u < M
  {
    x % M
  }

  /** `x<<n`, as an unsigned number. */
  function Shl32(x: nat, n: nat): (u: nat)
    ensures u < M
  {
    Shl(U(x), n) % M
  }

  /** `x>>>n` */
  function Shr32(x: nat, n: nat): nat {
    Quot(U(x), n)
  }

  /** `(x^y)>>>0` */
  function Xor32(x: nat, y: nat): nat {
    Xor(U(x), U(y))
  }

  function U16(bytes: seq<nat>, off: nat): nat
    requires off + 1 < |bytes|
  {
    bytes[off + 1] * 256 + bytes[off]
  }

  lemma U16IsSmall(bytes: seq<nat>, off: nat)
    requires AllBytes(bytes) && off + 1 < |bytes|
    ensures U16(bytes, off) <= 0xFFFF
  {
  }

  /** A signed byte as an unsigned number of 32 bits. */
  function S8(bytes: seq<nat>, off: nat): (u: nat)
    requires off < |bytes| && bytes[off] < 256
    ensures u % 256 == bytes[off] && (u < 128 || M - 128 <= u < M)
  {
    if bytes[off] > 0x7F then M - 256 + bytes[off] else bytes[off]
  }

  // ---------------------------------------------------------------- the hash on 32 bits

  /** Addition modulo 2^32. */
  function Add(x: nat, y: nat): (u: nat)
    ensures u < M
  {
    (x + y) % M
  }

  /** `hash ^ (hash << n)`, then `hash + (hash >> m)`. */
  function Stir(h: nat, n: nat, m: nat): (u: nat)
    ensures u < M
  {
    var x := Xor32(h, Shl32(h, n));
    Add(x, Shr32(x, m))
  }

  /** One round over four bytes. */
  function Mix(h: nat, a: nat, b: nat): (u: nat)
    ensures u < M
  {
    var x := Add(h, a);
    var y := Xor32(Shl32(x, 16), Xor32(Shl32(b, 11), x));
    Add(y, Shr32(y, 11))
  }

  function Rounds(bytes: seq<nat>, h: nat, off: nat): nat
    decreases |bytes| - off
  {
    if off + 4 > |bytes| then h else Rounds(bytes, Mix(h, U16(bytes, off), U16(bytes, off + 2)), off + 4)
  }

  /** Three bytes, two of them as one number. */
  function Three(h: nat, a: nat, c: nat): nat {
    var x := Add(h, a);
    var y := Xor32(Xor32(x, Shl32(x, 16)), Shl32(c, 18));
    Add(y, Shr32(y, 11))
  }

  /** The bytes after the last round. */
  function Rest(bytes: seq<nat>, h: nat): nat
    requires AllBytes(bytes)
  {
    var n := |bytes|;
    if n % 4 == 3 then Three(h, U16(bytes, n - 3), S8(bytes, n - 1))
    else if n % 4 == 2 then Stir(Add(h, U16(bytes, n - 2)), 11, 17)
    else if n % 4 == 1 then Stir(Add(h, S8(bytes, n - 1)), 10, 1)
    else h
  }

  function Finish(h: nat): (u: nat)
    ensures u < M
  {
    Stir(Stir(Stir(h, 3, 5), 4, 17), 25, 6)
  }

  /** What the rounds and the bytes left over make of the length. */
  function Reduced(bytes: seq<nat>): nat
    requires AllBytes(bytes)
  {
    Rest(bytes, Rounds(bytes, U(|bytes|), 0))
  }

  /** The hash, in arithmetic modulo 2^32. */
  function Hash32(bytes: seq<nat>): (u: nat)
    requires AllBytes(bytes)
    ensures u < M
  {
    Finish(Reduced(bytes))
  }

  // ---------------------------------------------------------------- the hash as it is computed

  lemma USame(x: nat)
    requires x < M
    ensures U(x) == x
  {
  }

  lemma AddSame(x: nat, y: nat)
    ensures U(x + y) == Add(U(x), y) && U(U(x)) == U(x)
  {
  }

  lemma Xor32Bound(x: nat, y: nat)
    ensures Xor32(x, y) < M
  {
    Pow2Values();
    XorBound(U(x), U(y), 32);
  }

  lemma {:induction false} QuotBound(x: nat, n: nat)
    ensures Quot(x, n) <= x
  {
    if n > 0 { QuotBound(x / 2, n - 1); }
  }

  /** The addition that may leave the 32 bits. */
  method Stirred(h: nat, n: nat, m: nat) returns (hash: nat)
    ensures U(hash) == Stir(U(h), n, m) && hash < 2 * M
  {
    hash := Xor32(h, Shl32(h, n));
    Xor32Bound(h, Shl32(h, n));
    AddSame(h, 0);
    QuotBound(U(hash), m);
    AddSame(hash, Shr32(hash, m));
    hash := hash + Shr32(hash, m);
  }

  /** The loop over groups of four bytes. */
  method RoundLoop(bytes: seq<nat>) returns (hash: nat)
    requires AllBytes(bytes)
    ensures U(hash) == Rounds(bytes, U(|bytes|), 0) && hash < 2 * M
  {
    hash := U(|bytes|);
    USame(hash);
    var len: nat, off: nat, start: nat := |bytes| / 4, 0, 0;
    while len != 0
      invariant off + 4 * len <= |bytes| < off + 4 * len + 4
      invariant Rounds(bytes, U(hash), off) == Rounds(bytes, U(|bytes|), start)
      invariant hash < 2 * M
    {
      len := len - 1;
      U16IsSmall(bytes, off);
      U16IsSmall(bytes, off + 2);
      hash := MixLoop(hash, U16(bytes, off), U16(bytes, off + 2));
      off := off + 4;
    }
    assert Rounds(bytes, U(hash), off) == U(hash);
  }

  /** The body of the loop: sums that are not cut off, of numbers that are, wherever bits are combined. */
  method MixLoop(h: nat, a: nat, b: nat) returns (hash: nat)
    requires h < 2 * M && a < M && b < M
    ensures U(hash) == Mix(U(h), a, b) && hash < 2 * M
  {
    hash := h + a;
    assert hash < 4 * M;
    AddSame(h, a);
    AddSame(hash, 0);
    var tmp := Xor32(Shl32(b, 11), hash);
    var x := Add(U(h), a);
    USame(x);
    Xor32Bound(Shl32(hash, 16), tmp);
    hash := Xor32(Shl32(hash, 16), tmp);
    QuotBound(U(hash), 11);
    AddSame(hash, Shr32(hash, 11));
    USame(hash);
    hash := hash + Shr32(hash, 11);
  }

  /** What is left starts at the last multiple of four. */
  lemma RestAt(bytes: seq<nat>, h: nat, off: nat)
    requires AllBytes(bytes) && off == |bytes| / 4 * 4
    ensures |bytes| % 4 == 3 ==> Rest(bytes, h) == Three(h, U16(bytes, off), S8(bytes, off + 2))
    ensures |bytes| % 4 == 2 ==> Rest(bytes, h) == Stir(Add(h, U16(bytes, off)), 11, 17)
    ensures |bytes| % 4 == 1 ==> Rest(bytes, h) == Stir(Add(h, S8(bytes, off)), 10, 1)
  {
  }

  /** The `switch` over the bytes that are left. */
  method RestBytes(bytes: seq<nat>, h: nat) returns (hash: nat)
    requires AllBytes(bytes) && h < 2 * M
    ensures U(hash) == Rest(bytes, U(h)) && hash < 2 * M
  {
    hash := h;
    var off := |bytes| / 4 * 4;
    RestAt(bytes, U(h), off);
    if |bytes| % 4 == 3 {
      AddSame(hash, U16(bytes, off));
      hash := hash + U16(bytes, off);
      assert hash < 4 * M;
      hash := ThreeLeft(hash, S8(bytes, off + 2));
    } else if |bytes| % 4 == 2 {
      AddSame(hash, U16(bytes, off));
      hash := hash + U16(bytes, off);
      assert hash < 4 * M;
      hash := Stirred(hash, 11, 17);
    } else if |bytes| % 4 == 1 {
      AddSame(hash, S8(bytes, off));
      hash := hash + S8(bytes, off);
      assert hash < 4 * M;
      hash := Stirred(hash, 10, 1);
    }
  }

  method ThreeLeft(h: nat, s: nat) returns (hash: nat)
    ensures var y := Xor32(Xor32(U(h), Shl32(U(h), 16)), Shl32(s, 18)); U(hash) == Add(y, Shr32(y, 11))
    ensures hash < 2 * M
  {
    AddSame(h, 0);
    Xor32Bound(h, Shl32(h, 16));
    hash := Xor32(h, Shl32(h, 16));
    Xor32Bound(hash, Shl32(s, 18));
    hash := Xor32(hash, Shl32(s, 18));
    USame(hash);
    QuotBound(U(hash), 11);
    AddSame(hash, Shr32(hash, 11));
    hash := hash + Shr32(hash, 11);
  }

  // ---------------------------------------------------------------- eight digits

  /** The last `n` hex digits of a number. */
  function HexDigits(v: nat, n: nat): (s: string)
    ensures |s| == n && AllHex(s)
  {
    if n == 0 then "" else HexDigits(v / 16, n - 1) + [DigitChar(v % 16)]
  }

  lemma {:induction false} ValueOfDigits(v: nat, n: nat)
    requires v < Power(16, n)
    ensures Text.Value(HexDigits(v, n), 16) == v
  {
    if n > 0 {
      QuotientIsSmaller(v, 16, Power(16, n - 1));
      ValueOfDigits(v / 16, n - 1);
      assert HexDigits(v, n)[..n - 1] == HexDigits(v / 16, n - 1);
    }
  }

  /** A digit in front of `n` others. */
  lemma {:induction false} ShowInFront(k: nat, v: nat, n: nat)
    requires 0 < k < 16 && v < Power(16, n)
    ensures Show(k * Power(16, n) + v, 16) == [DigitChar(k)] + HexDigits(v, n)
  {
    if n > 0 {
      var p := Power(16, n - 1);
      QuotientIsSmaller(v, 16, p);
      MulAssociates(k, 16, p);
      assert k * Power(16, n) == 16 * (k * p);
      assert (16 * (k * p) + v) / 16 == k * p + v / 16 && (16 * (k * p) + v) % 16 == v % 16;
      MultipleIsLarge(k, p + 0);
      ShowInFront(k, v / 16, n - 1);
      assert Power(16, n - 1) > 0;
    }
  }

  lemma DigitOne(h: nat, n: nat)
    requires n == 8 && h < 2 * M
    ensures Show(M + h, 16)[1..] == HexDigits(U(h), n)
  {
    var k := 1 + h / M;
    PowersOfSixteen();
    Pow8(n);
    assert M + h == k * M + U(h);
    ShowInFront(k, U(h), n);
  }

  lemma Pow8(n: nat)
    requires n == 8
    ensures Power(16, n) == M
  {
    PowersOfSixteen();
    assert Power(16, n - 4) == 0x1_0000;
    assert Power(16, n - 3) == 0x10_0000 && Power(16, n - 2) == 0x100_0000;
    assert Power(16, n - 1) == 0x1000_0000;
  }

  /** `sfh`, of UTF-16 code units. */
  method Sfh(s: seq<nat>) returns (r: Option<string>)
    requires Units(s)
    ensures r == if s == [] then None else Some(Digest(Bytes(s)))
  {
    if s == [] {
      return None;
    }
    var bytes := ByteLoop(s);
    if bytes == [] {
      return None;
    }
    var hash := RoundLoop(bytes);
    hash := RestBytes(bytes, hash);
    hash := Stirred(hash, 3, 5);
    hash := Stirred(hash, 4, 17);
    hash := Stirred(hash, 25, 6);
    DigitOne(hash, 8);
    r := Some(Show(M + hash, 16)[1..]);
  }

  /** The hash as text: eight hex digits. */
  function Digest(bytes: seq<nat>): (text: string)
    requires AllBytes(bytes)
  {
    HexDigits(Hash32(bytes), 8)
  }

  method ByteLoop(s: seq<nat>) returns (bytes: seq<nat>)
    requires Units(s)
    ensures bytes == Bytes(s)
  {
    bytes := [];
    var i := 0;
    assert s[..0] == [];
    while i < |s|
      invariant 0 <= i <= |s| && bytes == Bytes(s[..i])
    {
      assert s[..i + 1][..i] == s[..i];
      bytes := bytes + UnitBytes(s[i]);
      i := i + 1;
    }
    assert s[..i] == s;
  }

  /** The text has eight digits, and they are those of the hash on 32 bits. */
  lemma DigestIsHash(bytes: seq<nat>)
    requires AllBytes(bytes)
    ensures var text := Digest(bytes); |text| == 8 && AllHex(text) && Text.Value(text, 16) == Hash32(bytes)
  {
    var n := 8;
    Pow8(n);
    ValueOfDigits(Hash32(bytes), n);
  }

  // ---------------------------------------------------------------- the bytes determine the string

  /** The first unit of some bytes, and how many bytes it takes. */
  function FirstUnit(bytes: seq<nat>): (nat, nat)
    requires bytes != []
  {
    if bytes[0] < 0x80 || |bytes| < 2 then (bytes[0], 1)
    else if bytes[0] < 0xE0 || |bytes| < 3 then ((bytes[0] - 0x80) % 64 * 64 + bytes[1] % 64, 2)
    else ((bytes[0] - 0xE0) % 64 * 4096 + bytes[1] % 64 * 64 + bytes[2] % 64, 3)
  }

  lemma UnitIsRead(ch: nat, rest: seq<nat>)
    requires ch <= 0xFFFF
    ensures FirstUnit(UnitBytes(ch) + rest) == (ch, |UnitBytes(ch)|)
  {
    var unit := UnitBytes(ch);
    var bytes := unit + rest;
    assert bytes[0] == unit[0];
    if ch > 0x7F {
      assert bytes[1] == unit[1];
      SixBits(ch);
      if ch > 0x7FF {
        assert bytes[2] == unit[2];
      }
    }
  }

  lemma SixBits(ch: nat)
    requires ch <= 0xFFFF
    ensures (ch % 64 + 0x80) % 64 == ch % 64 && (ch / 64 % 64 + 0x80) % 64 == ch / 64 % 64
    ensures ch / 4096 % 16 == ch / 4096 && ch == ch / 4096 * 4096 + ch / 64 % 64 * 64 + ch % 64
    ensures ch <= 0x7FF ==> ch / 64 % 32 == ch / 64 && (ch / 64 + 0xC0 - 0x80) % 64 == ch / 64
  {
    assert ch / 64 / 64 == ch / 4096;
  }

  lemma FirstAgree(s: nat, more: seq<nat>, t: nat, others: seq<nat>)
    requires s <= 0xFFFF && t <= 0xFFFF && UnitBytes(s) + more == UnitBytes(t) + others
    ensures s == t && more == others
  {
    UnitIsRead(s, more);
    UnitIsRead(t, others);
    var all, n := UnitBytes(s) + more, |UnitBytes(s)|;
    assert all[n..] == more && (UnitBytes(t) + others)[n..] == others;
  }

  /** Different strings have different bytes. */
  lemma {:induction false} BytesAreInjective(s: seq<nat>, t: seq<nat>)
    requires Units(s) && Units(t) && Bytes(s) == Bytes(t)
    ensures s == t
    decreases |s|
  {
    if s != [] && t != [] {
      BytesFront(s);
      BytesFront(t);
      FirstAgree(s[0], Bytes(s[1..]), t[0], Bytes(t[1..]));
      BytesAreInjective(s[1..], t[1..]);
      assert s == [s[0]] + s[1..] && t == [t[0]] + t[1..];
    }
  }

  lemma {:induction false} BytesFront(s: seq<nat>)
    requires Units(s) && s != []
    ensures Bytes(s) == UnitBytes(s[0]) + Bytes(s[1..])
  {
    var front, last := s[..|s| - 1], s[|s| - 1];
    if |s| > 1 {
      BytesFront(front);
      assert s[1..][..|s| - 2] == front[1..];
      Associative(UnitBytes(s[0]), Bytes(front[1..]), UnitBytes(last));
    } else {
      EmptyIsUnit(UnitBytes(last));
    }
  }

  // ---------------------------------------------------------------- one string

  /** One stirring, step by step: `p` and `d` are the powers of two, `l` the shifted number, `x` the mixed one. */
  lemma StirIs(h: nat, n: nat, m: nat, p: nat, d: nat, q: nat, l: nat, x: nat, s: nat, rest: nat)
    requires h < M && Pow2(n) == p && Pow2(m) == d
    requires h * p == q * M + l && l < M && Xor(h, l) == x && x == s * d + rest && rest < d && x + s < M
    ensures Stir(h, n, m) == x + s
  {
    ShiftedIs(h, n, p, q, l);
    Xor32Is(h, l, x);
    QuotIs(x, m, s, rest);
    StirFrom(h, n, m, x, s);
  }

  lemma Xor32Is(h: nat, l: nat, x: nat)
    requires h < M && l < M && Xor(h, l) == x
    ensures Xor32(h, l) == x && x < M
  {
    Xor32Bound(h, l);
  }

  lemma SumIs(x: nat, s: nat)
    requires x + s < M
    ensures U(x) == x && Add(x, s) == x + s
  {
  }

  lemma StirFrom(h: nat, n: nat, m: nat, x: nat, s: nat)
    requires Xor32(h, Shl32(h, n)) == x && x + s < M && Quot(x, m) == s
    ensures Stir(h, n, m) == x + s
  {
    SumIs(x, s);
    assert Shr32(x, m) == Quot(U(x), m);
  }

  lemma ShiftedIs(h: nat, n: nat, p: nat, q: nat, l: nat)
    requires h < M && Pow2(n) == p && h * p == q * M + l && l < M
    ensures Shl32(h, n) == l
  {
    DivModIs(h * p, M, q, l);
  }

  lemma Shifts()
    ensures Pow2(3) == 8 && Pow2(4) == 16 && Pow2(5) == 32 && Pow2(6) == 64
    ensures Pow2(11) == 0x800 && Pow2(17) == 0x2_0000 && Pow2(25) == 0x200_0000
  {
    Pow2Values();
    Pow2Add(8, 3);
    Pow2Add(16, 1);
    Pow2Add(17, 8);
  }

  lemma Mixed(x: seq<nat>, y: seq<nat>, z: seq<nat>, a: nat, b: nat, c: nat)
    requires |x| == |y| == |z| == 8
    requires forall i :: 0 <= i < |x| ==> x[i] < 16 && y[i] < 16 && z[i] == DigitXor(x[i], y[i])
    requires a == OfDigits(x) && b == OfDigits(y) && c == OfDigits(z)
    ensures Xor(a, b) == c
  {
    XorOfNumbers(x, y, z);
  }

  lemma Stir1(h: nat)
    requires h == 0x7649
    ensures Stir(h, 11, 17) == 0x3b24022
  {
    var x, y, z := [0, 0, 0, 0, 7, 6, 4, 9], [0, 3, 0xb, 2, 4, 8, 0, 0], [0, 3, 0xb, 2, 3, 0xe, 4, 9];
    EightDigits(x);
    EightDigits(y);
    EightDigits(z);
    Mixed(x, y, z, h, 0x3b24800, 0x3b23e49);
    Shifts();
    StirIs(h, 11, 17, 0x800, 0x20000, 0, 0x3b24800, 0x3b23e49, 0x1d9, 0x3e49);
  }

  lemma Stir2(h: nat)
    requires h == 0x3b24022
    ensures Stir(h, 3, 5) == 0x1f11433b
  {
    var x, y, z := [0, 3, 0xb, 2, 4, 0, 2, 2], [1, 0xd, 9, 2, 0, 1, 1, 0], [1, 0xe, 2, 0, 4, 1, 3, 2];
    EightDigits(x);
    EightDigits(y);
    EightDigits(z);
    Mixed(x, y, z, h, 0x1d920110, 0x1e204132);
    Shifts();
    StirIs(h, 3, 5, 8, 32, 0, 0x1d920110, 0x1e204132, 0xf10209, 18);
  }

  lemma Stir3(h: nat)
    requires h == 0x1f11433b
    ensures Stir(h, 4, 17) == 0xee05e78d
  {
    var x, y, z := [1, 0xf, 1, 1, 4, 3, 3, 0xb], [0xf, 1, 1, 4, 3, 3, 0xb, 0], [0xe, 0xe, 0, 5, 7, 0, 8, 0xb];
    EightDigits(x);
    EightDigits(y);
    EightDigits(z);
    Mixed(x, y, z, h, 0xf11433b0, 0xee05708b);
    Shifts();
    StirIs(h, 4, 17, 16, 0x20000, 1, 0xf11433b0, 0xee05708b, 0x7702, 0x1708b);
  }

  lemma Stir4(h: nat)
    requires h == 0xee05e78d
    ensures Stir(h, 25, 6) == 0xf7d5ff2b
  {
    var x, y, z := [0xe, 0xe, 0, 5, 0xe, 7, 8, 0xd], [1, 0xa, 0, 0, 0, 0, 0, 0], [0xf, 4, 0, 5, 0xe, 7, 8, 0xd];
    EightDigits(x);
    EightDigits(y);
    EightDigits(z);
    Mixed(x, y, z, h, 0x1a000000, 0xf405e78d);
    Shifts();
    StirIs(h, 25, 6, 0x2000000, 64, 0x1dc0bcf, 0x1a000000, 0xf405e78d, 0x3d0179e, 13);
  }

  /** The hash of the string `Gv`. */
  lemma HashOfGv(s: seq<nat>)
    requires s == [71, 118]
    ensures Hash32(Bytes(s)) == 0xf7d5ff2b
  {
    AsciiIsKept(s);
    var h := 0x7649;
    Stir1(h);
    RestOfTwo(s, h);
    FinishIs(0x3b24022);
  }

  lemma {:induction false} AsciiIsKept(s: seq<nat>)
    requires forall i :: 0 <= i < |s| ==> s[i] <= 0x7F
    ensures Bytes(s) == s
  {
    if s != [] {
      var n := |s| - 1;
      AsciiIsKept(s[..n]);
      assert s == s[..n] + [s[n]];
    }
  }

  lemma RestOfTwo(bytes: seq<nat>, h: nat)
    requires AllBytes(bytes) && |bytes| == 2 && h == 2 + U16(bytes, 0)
    ensures Hash32(bytes) == Finish(Stir(h, 11, 17))
  {
    U16IsSmall(bytes, 0);
    assert Rounds(bytes, 2, 0) == 2;
    assert Add(2, U16(bytes, 0)) == h;
  }

  lemma FinishIs(h: nat)
    requires h == 0x3b24022
    ensures Finish(h) == 0xf7d5ff2b
  {
    Stir2(h);
    Stir3(0x1f11433b);
    Stir4(0xee05e78d);
  }
}
