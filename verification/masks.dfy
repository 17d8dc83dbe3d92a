/** Prefixes and netmasks: `prefixToMask` and `maskToPrefix` of `network.js`. */
module Masks {
  import opened Base
  import opened Bits
  import opened Text
  import opened Ip
  import opened Ipv6Text

  /** The number of `width` bits whose first `k` are ones and whose others are zeros. */
  function Top(width: nat, k: nat): (w: nat)
    requires k <= width
    ensures w < Pow2(width)
  {
    TopBound(width, k);
    Pow2(width) - Pow2(width - k)
  }

  lemma {:induction false} TopBound(width: nat, k: nat)
    requires k <= width
    ensures 0 < Pow2(width - k) <= Pow2(width)
  {
    if k > 0 {
      TopBound(width - 1, k - 1);
    }
  }

  function Min(x: int, y: int): int {
    if x < y then x else y
  }

  /** The words of the mask with `bits` ones: `count` words of `width` bits. */
  function MaskWords(width: nat, count: nat, bits: nat): (ws: seq<nat>)
    ensures |ws| == count
  {
    if count == 0 then []
    else
      var b := Min(width, bits);
      [Top(width, b)] + MaskWords(width, count - 1, bits - b)
  }

  // ---------------------------------------------------------------- prefix to mask

  /** `(0xffff<<(16-b))&0xffff`, with the shift count modulo 32. */
  function MaskWord(b: int): nat {
    And(Shl(0xFFFF, (16 - b) % 32), 0xFFFF)
  }

  /** The words: `bits` may be negative. */
  function PrefixWords(count: nat, bits: int): (ws: seq<nat>)
    ensures |ws| == count
  {
    if count == 0 then []
    else
      var b := Min(16, bits);
      [MaskWord(b)] + PrefixWords(count - 1, bits - b)
  }

  /** How often `:0` stands at the end of a text. */
  function ZeroTail(s: string): (k: nat)
    ensures 2 * k <= |s|
  {
    if |s| >= 2 && s[|s| - 2] == ':' && s[|s| - 1] == '0' then 1 + ZeroTail(s[..|s| - 2]) else 0
  }

  /** `s.replace(/:0(?::0)+$/, '::')` */
  function ShortenTail(s: string): string {
    var k := ZeroTail(s);
    if k >= 2 then s[..|s| - 2 * k] + "::" else s
  }

  function FourOctets(m: seq<nat>): seq<nat>
    requires |m| == 2
  {
    [m[0] / 256, m[0] % 256, m[1] / 256, m[1] % 256]
  }

  /** How many words of sixteen bits an address has. */
  function WordCount(v6: bool): (n: nat)
    ensures n == if v6 then 8 else 2
  {
    if v6 then 8 else 2
  }

  function MaskText(m: seq<nat>, v6: bool): string
    requires |m| == WordCount(v6)
  {
    if v6 then ShortenTail(Colons(Texts(m))) else ShowIPv4(FourOctets(m))
  }

  /** `prefixToMask` */
  function PrefixToMask(bits: int, v6: bool): Option<string> {
    if bits > 16 * WordCount(v6) then None else Some(MaskText(PrefixWords(WordCount(v6), bits), v6))
  }

  method PrefixToMaskLoop(bits: int, v6: bool) returns (mask: Option<string>)
    ensures mask == PrefixToMask(bits, v6)
  {
    var count := WordCount(v6);
    if bits > 16 * count {
      return None;
    }
    var m := WordLoop(count, bits);
    mask := Some(MaskText(m, v6));
  }

  lemma PrefixStep(m: seq<nat>, count: nat, bits: int)
    requires count > 0
    ensures var b := Min(16, bits);
      m + PrefixWords(count, bits) == (m + [MaskWord(b)]) + PrefixWords(count - 1, bits - b)
  {
  }

  method WordLoop(count: nat, bits0: int) returns (m: seq<nat>)
    ensures m == PrefixWords(count, bits0)
  {
    var bits, i := bits0, 0;
    m := [];
    while i < count
      invariant 0 <= i <= count
      invariant m + PrefixWords(count - i, bits) == PrefixWords(count, bits0)
    {
      var b := Min(16, bits);
      PrefixStep(m, count - i, bits);
      m := m + [MaskWord(b)];
      bits := bits - b;
      i := i + 1;
    }
    EmptyIsUnit(m);
  }

  // ---------------------------------------------------------------- mask to prefix

  /** The leading ones of a number of `n` bits. */
  function Ones(w: nat, n: nat): (k: nat)
    ensures k <= n
  {
    if n == 0 || w < Pow2(n - 1) then 0 else 1 + Ones(w - Pow2(n - 1), n - 1)
  }

  predicate FitWords(ws: seq<nat>, width: nat) {
    forall i :: 0 <= i < |ws| ==> ws[i] < Pow2(width)
  }

  /** What the loop counts: None when a word has ones after its zeros, or follows a zero word and is not zero. */
  function Count(ws: seq<nat>, width: nat, zero: bool): Option<nat> {
    if ws == [] then Some(0)
    else
      var w, k, z := ws[0], Ones(ws[0], width), zero || ws[0] == 0;
      var more := Count(ws[1..], width, z);
      if (if z then w != 0 else w != Top(width, k)) || more.None? then None
      else Some((if z then 0 else k) + more.value)
  }

  /** The width of the words of an address. */
  function Width(v6: bool): (n: nat)
    ensures n == if v6 then 16 else 8
  {
    if v6 then 16 else 8
  }

  /** The words of an address. */
  function Address(addr: string, v6: bool): Option<seq<nat>> {
    if v6 then ReadIPv6(addr) else ParseIPv4(addr)
  }

  /** `maskToPrefix` */
  function MaskToPrefix(mask: string, v6: bool): Option<nat> {
    var m := Address(mask, v6);
    if m.None? then None else Count(m.value, Width(v6), false)
  }

  /** Shifting `v` once more: one bit leaves the word. */
  lemma ShiftSum(half: nat, next: nat, v: nat, p: nat, all: nat)
    requires all == half * (2 * p) && next < half && v == half + next && p > 0
    ensures 2 * (v * p) == all + next * (2 * p) && next * (2 * p) < all
  {
    Distributes(p, half, next);
    MulAssociates(2, half, p);
    MulAssociates(2, next, p);
    MultiplesCompare(next, half, 2 * p);
  }

  /** The word after `j` shifts, when these have dropped ones only: `v` is what is left of it. */
  lemma ShiftOne(w0: nat, v: nat, width: nat, j: nat)
    requires j < width && Pow2(width - j - 1) <= v < Pow2(width - j) && w0 == Top(width, j) + v
    ensures var next := v - Pow2(width - j - 1);
      And(2 * (v * Pow2(j)), Pow2(width) - 1) == next * Pow2(j + 1)
      && w0 == Top(width, j + 1) + next && next < Pow2(width - j - 1) && next * Pow2(j + 1) < Pow2(width)
  {
    var half := Pow2(width - j - 1);
    assert Pow2(width - j) == 2 * half;
    ShiftDrops(v, width, j, half, Pow2(j));
  }

  lemma ShiftDrops(v: nat, width: nat, j: nat, half: nat, p: nat)
    requires j < width && half == Pow2(width - j - 1) && p == Pow2(j) && half <= v < 2 * half
    ensures And(2 * (v * p), Pow2(width) - 1) == (v - half) * (2 * p) < Pow2(width)
  {
    SplitPower(width, j, half, p);
    ShiftSum(half, v - half, v, p, Pow2(width));
    KeepLow(2 * (v * p), width, (v - half) * (2 * p));
  }

  lemma SplitPower(width: nat, j: nat, half: nat, p: nat)
    requires j < width && half == Pow2(width - j - 1) && p == Pow2(j)
    ensures Pow2(width) == half * (2 * p)
  {
    Pow2Add(width - j - 1, j + 1);
  }

  lemma KeepLow(x: nat, n: nat, r: nat)
    requires x == Pow2(n) + r && r < Pow2(n)
    ensures And(x, Pow2(n) - 1) == r
  {
    AndLow(x, n);
    QuotIs(x, n, 1, r);
  }

  /** The highest bit. */
  lemma TopBit(w: nat, n: nat)
    requires w < Pow2(n + 1)
    ensures And(w, Pow2(n)) == if w >= Pow2(n) then Pow2(n) else 0
  {
    var one: nat := 1;
    AndShifted(w, one, n);
    ShiftSplits(w, n);
    var q := Quot(w, n);
    assert q <= 1 by {
      MultiplesCompare(2, q, Pow2(n));
      assert q >= 2 ==> q * Pow2(n) >= 2 * Pow2(n);
    }
    assert And(q, one) == q;
  }

  /** The highest bit of the shifted word is that of what is left. */
  lemma HighBit(v: nat, width: nat, j: nat)
    requires 0 < width && j <= width && v < Pow2(width - j) && v * Pow2(j) < Pow2(width)
    ensures And(v * Pow2(j), Pow2(width - 1)) != 0 <==> j < width && v >= Pow2(width - j - 1)
    ensures v * Pow2(j) == 0 <==> v == 0
  {
    TopBit(v * Pow2(j), width - 1);
    MultiplesCompare(v, 0, Pow2(j));
    if j < width {
      Pow2Add(width - j - 1, j);
      MultiplesCompare(v, Pow2(width - j - 1), Pow2(j));
    }
  }

  /** After `j` shifts of `w` the word is `cur`: it has lost ones only, and `v` is left of it. */
  ghost predicate Left(w: nat, width: nat, j: nat, v: nat, cur: nat) {
    && j <= width && v < Pow2(width - j) && cur == v * Pow2(j) && cur < Pow2(width)
    && w == Top(width, j) + v && Ones(w, width) == j + Ones(v, width - j)
  }

  lemma ShiftKeeps(w: nat, width: nat, j: nat, v: nat, cur: nat)
    requires 0 < width && Left(w, width, j, v, cur) && And(cur, Pow2(width - 1)) != 0
    ensures j < width && v >= Pow2(width - j - 1)
    ensures Left(w, width, j + 1, v - Pow2(width - j - 1), And(2 * cur, Pow2(width) - 1))
  {
    HighBit(v, width, j);
    ShiftOne(w, v, width, j);
  }

  lemma ShiftEnds(w: nat, width: nat, j: nat, v: nat, cur: nat)
    requires 0 < width && Left(w, width, j, v, cur) && And(cur, Pow2(width - 1)) == 0
    ensures Ones(w, width) == j && (cur == 0 <==> w == Top(width, j))
  {
    HighBit(v, width, j);
  }

  /** The inner loop: shifts the leading ones out of a word. */
  method ShiftOut(m: array<nat>, i: nat, width: nat, bits0: nat) returns (bits: nat)
    requires i < m.Length && width > 0 && m[i] < Pow2(width)
    modifies m
    ensures forall k :: 0 <= k < m.Length && k != i ==> m[k] == old(m[k])
    ensures bits == bits0 + Ones(old(m[i]), width)
    ensures m[i] == 0 <==> old(m[i]) == Top(width, Ones(old(m[i]), width))
  {
    bits := bits0;
    ghost var w, j: nat, v: nat := m[i], 0, m[i];
    while And(m[i], Pow2(width - 1)) != 0
      invariant Left(w, width, j, v, m[i]) && bits == bits0 + j
      invariant forall k :: 0 <= k < m.Length && k != i ==> m[k] == old(m[k])
      decreases width - j
    {
      ShiftKeeps(w, width, j, v, m[i]);
      m[i] := And(2 * m[i], Pow2(width) - 1);
      bits := bits + 1;
      v := v - Pow2(width - j - 1);
      j := j + 1;
    }
    ShiftEnds(w, width, j, v, m[i]);
  }

  /** The loops, over the words in place. */
  method CountPrefix(m: array<nat>, width: nat) returns (bits: Option<nat>)
    requires width > 0 && FitWords(m[..], width)
    modifies m
    ensures bits == Count(old(m[..]), width, false)
  {
    ghost var ws := m[..];
    var n, z, i := 0, false, 0;
    assert ws[0..] == ws;
    while i < m.Length
      invariant 0 <= i <= m.Length && forall k :: i <= k < m.Length ==> m[k] == ws[k]
      invariant Count(ws, width, false) == Add(n, Count(ws[i..], width, z))
    {
      assert ws[i..][0] == ws[i] && ws[i..][1..] == ws[i + 1..];
      z := z || m[i] == 0;
      if !z {
        n := ShiftOut(m, i, width, n);
      }
      if m[i] != 0 {
        return None;
      }
      i := i + 1;
    }
    bits := Some(n);
  }

  function Add(n: nat, r: Option<nat>): Option<nat> {
    if r.None? then None else Some(n + r.value)
  }

  // ---------------------------------------------------------------- which masks are counted

  /** Each word is ones and then zeros, `ks[i]` of them ones, and a zero word is followed by zero words only. */
  ghost predicate Shape(ws: seq<nat>, width: nat, ks: seq<nat>) {
    && |ks| == |ws|
    && (forall i :: 0 <= i < |ws| ==> ks[i] <= width && ws[i] == Top(width, ks[i]))
    && (forall i, j :: 0 <= i < j < |ws| && ks[i] == 0 ==> ks[j] == 0)
  }

  function Sum(ks: seq<nat>): nat {
    if ks == [] then 0 else ks[0] + Sum(ks[1..])
  }

  lemma {:induction false} OnesOfTop(width: nat, k: nat)
    requires k <= width
    ensures Ones(Top(width, k), width) == k && (Top(width, k) == 0 <==> k == 0)
  {
    if k > 0 {
      OnesOfTop(width - 1, k - 1);
      TopBound(width - 1, k - 1);
      assert Top(width, k) == Pow2(width - 1) + Top(width - 1, k - 1);
    } else if width > 0 {
      assert Top(width, k) == 0;
    }
  }

  lemma {:induction false} ZeroSum(ks: seq<nat>)
    ensures Sum(ks) == 0 <==> forall i :: 0 <= i < |ks| ==> ks[i] == 0
  {
    if ks != [] {
      ZeroSum(ks[1..]);
      assert forall i :: 0 <= i < |ks| ==> ks[i] == if i == 0 then ks[0] else ks[1..][i - 1];
      assert forall i :: 0 <= i < |ks| - 1 ==> ks[1..][i] == ks[i + 1];
    }
  }

  lemma {:induction false} ShapeIsCounted(ws: seq<nat>, width: nat, ks: seq<nat>, zero: bool)
    requires Shape(ws, width, ks) && (zero ==> forall i :: 0 <= i < |ks| ==> ks[i] == 0)
    ensures Count(ws, width, zero) == Some(Sum(ks))
    decreases |ws|
  {
    if ws != [] {
      OnesOfTop(width, ks[0]);
      assert forall i :: 0 <= i < |ks| - 1 ==> ks[1..][i] == ks[i + 1];
      assert Shape(ws[1..], width, ks[1..]);
      ShapeIsCounted(ws[1..], width, ks[1..], zero || ws[0] == 0);
    }
  }

  /** The ones of each word. */
  function OnesOf(ws: seq<nat>, width: nat): (ks: seq<nat>)
    ensures |ks| == |ws| && forall i :: 0 <= i < |ws| ==> ks[i] == Ones(ws[i], width)
  {
    seq(|ws|, i requires 0 <= i < |ws| => Ones(ws[i], width))
  }

  lemma OnesOfZero(width: nat)
    ensures Ones(0, width) == 0
  {
  }

  lemma {:induction false} CountedHasShape(ws: seq<nat>, width: nat, zero: bool)
    requires Count(ws, width, zero).Some?
    ensures Shape(ws, width, OnesOf(ws, width)) && Count(ws, width, zero) == Some(Sum(OnesOf(ws, width)))
    ensures zero ==> forall i :: 0 <= i < |ws| ==> Ones(ws[i], width) == 0
  {
    if ws != [] {
      var ks := OnesOf(ws, width);
      var z := zero || ws[0] == 0;
      CountedHasShape(ws[1..], width, z);
      OnesOfZero(width);
      OnesOfTop(width, Ones(ws[0], width));
      var more := OnesOf(ws[1..], width);
      assert ks[1..] == more;
      assert forall i :: 1 <= i < |ws| ==> ks[i] == more[i - 1] && ws[i] == ws[1..][i - 1];
    }
  }

  /** Exactly the masks of that shape are counted, and what is counted is their ones. */
  lemma MaskIsCounted(ws: seq<nat>, width: nat, n: nat)
    ensures Count(ws, width, false) == Some(n) <==> exists ks :: Shape(ws, width, ks) && Sum(ks) == n
  {
    if Count(ws, width, false) == Some(n) {
      CountedHasShape(ws, width, false);
    }
    forall ks | Shape(ws, width, ks) ensures Count(ws, width, false) == Some(Sum(ks)) {
      ShapeIsCounted(ws, width, ks, false);
    }
  }

  // ---------------------------------------------------------------- contiguous masks

  /** The ones of each word of a mask. */
  function MaskShape(width: nat, count: nat, bits: nat): (ks: seq<nat>)
    ensures |ks| == count
  {
    if count == 0 then []
    else
      var b := Min(width, bits);
      [b] + MaskShape(width, count - 1, bits - b)
  }

  lemma Remaining(width: nat, count: nat, bits: nat)
    requires count > 0 && bits <= count * width
    ensures bits - Min(width, bits) <= (count - 1) * width
  {
    Distributes(width, count, 1);
    assert (count - 1) * width >= 0;
  }

  lemma {:induction false} MaskSum(width: nat, count: nat, bits: nat)
    requires bits <= count * width
    ensures Sum(MaskShape(width, count, bits)) == bits
  {
    if count > 0 {
      var b := Min(width, bits);
      Remaining(width, count, bits);
      MaskSum(width, count - 1, bits - b);
      assert MaskShape(width, count, bits)[1..] == MaskShape(width, count - 1, bits - b);
    }
  }

  lemma {:induction false} MaskHasShape(width: nat, count: nat, bits: nat)
    requires width > 0
    ensures Shape(MaskWords(width, count, bits), width, MaskShape(width, count, bits))
    ensures forall i :: 0 <= i < count && bits == 0 ==> MaskShape(width, count, bits)[i] == 0
  {
    if count > 0 {
      var b := Min(width, bits);
      MaskHasShape(width, count - 1, bits - b);
      ShapeFirst(width, b, MaskWords(width, count - 1, bits - b), MaskShape(width, count - 1, bits - b));
    }
  }

  lemma ShapeFirst(width: nat, k: nat, ws: seq<nat>, ks: seq<nat>)
    requires k <= width && Shape(ws, width, ks) && (k == 0 ==> forall i :: 0 <= i < |ks| ==> ks[i] == 0)
    ensures Shape([Top(width, k)] + ws, width, [k] + ks)
  {
  }

  /** The mask of a prefix is counted as that prefix. */
  lemma MaskOfPrefixIsCounted(width: nat, count: nat, bits: nat)
    requires width > 0 && bits <= count * width
    ensures Count(MaskWords(width, count, bits), width, false) == Some(bits)
  {
    MaskHasShape(width, count, bits);
    MaskSum(width, count, bits);
    ShapeIsCounted(MaskWords(width, count, bits), width, MaskShape(width, count, bits), false);
  }

  /** After a word with a zero in it there are zero words only. */
  predicate OnePartial(ws: seq<nat>, width: nat) {
    forall i :: 0 <= i < |ws| - 1 && ws[i] != Top(width, width) ==> ws[i + 1] == 0
  }

  lemma {:induction false} ContiguousWords(ws: seq<nat>, width: nat, ks: seq<nat>)
    requires width > 0 && Shape(ws, width, ks)
    ensures ws == MaskWords(width, |ws|, Sum(ks)) <==> OnePartial(ws, width)
    decreases |ws|
  {
    if ws != [] {
      var more, rest := ws[1..], ks[1..];
      assert forall i :: 0 <= i < |more| ==> more[i] == ws[i + 1] && rest[i] == ks[i + 1];
      assert Shape(more, width, rest);
      ContiguousWords(more, width, rest);
      PartialFirst(ws, width);
      if ks[0] == width {
        FirstIsFull(ws, width, ks);
      } else {
        FirstIsPartial(ws, width, ks);
      }
    }
  }

  lemma MaskFirst(ws: seq<nat>, width: nat, n: nat)
    requires ws != []
    ensures ws == MaskWords(width, |ws|, n) <==>
      ws[0] == Top(width, Min(width, n)) && ws[1..] == MaskWords(width, |ws| - 1, n - Min(width, n))
  {
    var mask := MaskWords(width, |ws|, n);
    assert ws == [ws[0]] + ws[1..] && mask == [mask[0]] + mask[1..];
  }

  lemma FirstIsFull(ws: seq<nat>, width: nat, ks: seq<nat>)
    requires ws != [] && ks != [] && ks[0] == width && ws[0] == Top(width, width)
    ensures ws == MaskWords(width, |ws|, Sum(ks)) <==> ws[1..] == MaskWords(width, |ws| - 1, Sum(ks[1..]))
  {
    MaskFirst(ws, width, Sum(ks));
  }

  lemma FirstIsPartial(ws: seq<nat>, width: nat, ks: seq<nat>)
    requires width > 0 && ws != [] && Shape(ws, width, ks) && ks[0] < width && Shape(ws[1..], width, ks[1..])
    requires ws[1..] == MaskWords(width, |ws| - 1, Sum(ks[1..])) <==> OnePartial(ws[1..], width)
    ensures ws[0] != Top(width, width)
    ensures ws == MaskWords(width, |ws|, Sum(ks)) <==> OnePartial(ws[1..], width) && (|ws| > 1 ==> ws[1] == 0)
  {
    var more, rest, n := ws[1..], ks[1..], Sum(ks);
    MaskFirst(ws, width, n);
    OnesOfTop(width, ks[0]);
    OnesOfTop(width, width);
    OnesOfTop(width, Min(width, n));
    ZeroSum(rest);
    if more != [] {
      assert ws[1] == more[0] && ks[1] == rest[0];
      OnesOfTop(width, rest[0]);
      if rest[0] == 0 {
        AllZero(more, width, rest);
      }
    }
  }

  /** After a zero word everything is zero. */
  lemma AllZero(ws: seq<nat>, width: nat, ks: seq<nat>)
    requires Shape(ws, width, ks) && ws != [] && ks[0] == 0
    ensures Sum(ks) == 0 && OnePartial(ws, width)
  {
    ZeroSum(ks);
    OnesOfTop(width, 0);
    assert forall i :: 0 <= i < |ws| ==> ks[i] == 0 && ws[i] == 0;
  }

  lemma PartialFirst(ws: seq<nat>, width: nat)
    requires ws != []
    ensures OnePartial(ws, width) <==>
      OnePartial(ws[1..], width) && (|ws| > 1 && ws[0] != Top(width, width) ==> ws[1] == 0)
  {
    var more := ws[1..];
    assert forall i :: 0 <= i < |more| ==> more[i] == ws[i + 1];
    if OnePartial(more, width) && (|ws| > 1 && ws[0] != Top(width, width) ==> ws[1] == 0) {
      forall i | 0 <= i < |ws| - 1 && ws[i] != Top(width, width) ensures ws[i + 1] == 0 {
        if i > 0 {
          assert more[i - 1] == ws[i] && more[i] == ws[i + 1];
        }
      }
    } else if OnePartial(ws, width) {
      forall i | 0 <= i < |more| - 1 && more[i] != Top(width, width) ensures more[i + 1] == 0 {
        assert ws[i + 1] != Top(width, width) && ws[i + 2] == more[i + 1];
      }
    }
  }

  /** A counted mask is the mask of its prefix exactly when a word with a zero in it is followed by zero words. */
  lemma ContiguousMask(ws: seq<nat>, width: nat, n: nat)
    requires width > 0 && Count(ws, width, false) == Some(n)
    ensures ws == MaskWords(width, |ws|, n) <==> OnePartial(ws, width)
  {
    CountedHasShape(ws, width, false);
    ContiguousWords(ws, width, OnesOf(ws, width));
  }

  // ---------------------------------------------------------------- as text

  lemma Borrow(m: nat, p: nat)
    ensures (m - 1) * p == (p - 1) * m + (m - p)
  {
  }

  lemma LowBits(n: nat, x: nat, p: nat, all: nat)
    requires 0 < p <= Pow2(n) && all == Pow2(n) - 1 && x == (p - 1) * Pow2(n) + (Pow2(n) - p)
    ensures And(x, all) == Pow2(n) - p
  {
    AndLow(x, n);
    QuotIs(x, n, p - 1, Pow2(n) - p);
  }

  /** All ones, shifted and cut to the width. */
  lemma ShiftedOnes(n: nat, b: nat)
    requires b <= n
    ensures And(Shl(Pow2(n) - 1, n - b), Pow2(n) - 1) == Top(n, b)
  {
    var p := Pow2(n - b);
    TopBound(n, b);
    Borrow(Pow2(n), p);
    LowBits(n, Shl(Pow2(n) - 1, n - b), p, Pow2(n) - 1);
  }

  lemma MaskWordIsTop(b: nat)
    requires b <= 16
    ensures MaskWord(b) == Top(16, b)
  {
    var n: nat := 16;
    Pow2Values();
    ShiftedOnes(n, b);
    assert (16 - b) % 32 == n - b;
  }

  lemma {:induction false} PrefixWordsAre(count: nat, bits: nat)
    ensures PrefixWords(count, bits) == MaskWords(16, count, bits)
  {
    if count > 0 {
      var b := Min(16, bits);
      MaskWordIsTop(b);
      PrefixWordsAre(count - 1, bits - b);
    }
  }

  lemma {:induction false} MaskWordsFit(width: nat, count: nat, bits: nat)
    ensures FitWords(MaskWords(width, count, bits), width)
  {
    if count > 0 {
      MaskWordsFit(width, count - 1, bits - Min(width, bits));
    }
  }

  /** Two octets of a word of the mask. */
  lemma TopOctets(b: nat)
    requires b <= 16
    ensures Top(16, b) / 256 == Top(8, Min(8, b)) && Top(16, b) % 256 == Top(8, b - Min(8, b))
  {
    Pow2Values();
    TopBound(8, Min(8, b));
    TopBound(8, b - Min(8, b));
    if b <= 8 {
      Pow2Add(8 - b, 8);
      DivModIs(Top(16, b), 256, Top(8, b), 0);
    } else {
      DivModIs(Top(16, b), 256, 255, Top(8, b - 8));
    }
  }

  lemma NextWord(width: nat, count: nat, bits: nat)
    requires count > 0
    ensures var b := Min(width, bits);
      MaskWords(width, count, bits) == [Top(width, b)] + MaskWords(width, count - 1, bits - b)
  {
  }

  lemma TwoWords(width: nat, two: nat, bits: nat)
    requires two == 2
    ensures var b := Min(width, bits);
      MaskWords(width, two, bits) == [Top(width, b), Top(width, Min(width, bits - b))]
  {
    var b := Min(width, bits);
    NextWord(width, two, bits);
    NextWord(width, two - 1, bits - b);
  }

  lemma FourWords(bits: nat, four: nat)
    requires bits <= 32 && four == 4
    ensures var b := Min(16, bits); var c := bits - b;
      MaskWords(8, four, bits) ==
        [Top(8, Min(8, b)), Top(8, b - Min(8, b)), Top(8, Min(8, c)), Top(8, c - Min(8, c))]
  {
    var b := Min(16, bits);
    var c := bits - b;
    NextWord(8, four, bits);
    NextWord(8, four - 1, bits - Min(8, b));
    TwoWords(8, four - 2, c);
    if bits < 8 {
      assert c == 0;
    }
  }

  lemma OctetsOfMask(bits: nat, two: nat, four: nat)
    requires bits <= 32 && two == 2 && four == 4
    ensures FourOctets(MaskWords(16, two, bits)) == MaskWords(8, four, bits) && Octets(MaskWords(8, four, bits))
  {
    TwoWords(16, two, bits);
    TopOctets(Min(16, bits));
    TopOctets(bits - Min(16, bits));
    FourWords(bits, four);
    MaskWordsFit(8, four, bits);
    Pow2Values();
  }

  /** Of every IPv4 prefix the mask is read back as that prefix. */
  lemma Ipv4PrefixRoundTrip(bits: nat)
    requires bits <= 32
    ensures var mask := PrefixToMask(bits, false); mask.Some? && MaskToPrefix(mask.value, false) == Some(bits)
  {
    var four: nat := 4;
    Ipv4MaskText(bits, four);
    MaskOfPrefixIsCounted(8, four, bits);
  }

  lemma Ipv4MaskText(bits: nat, four: nat)
    requires bits <= 32 && four == 4
    ensures Octets(MaskWords(8, four, bits)) && PrefixToMask(bits, false) == Some(ShowIPv4(MaskWords(8, four, bits)))
    ensures ParseIPv4(ShowIPv4(MaskWords(8, four, bits))) == Some(MaskWords(8, four, bits))
  {
    PrefixWordsAre(WordCount(false), bits);
    OctetsOfMask(bits, WordCount(false), four);
    IPv4RoundTrip(MaskWords(8, four, bits));
  }

  /** The words without the zeros at the end; the first word stays. */
  function Kept(ws: seq<nat>): (r: seq<nat>)
    ensures |r| <= |ws| && r == ws[..|r|] && ZeroRun(ws, |r|, |ws| - |r|) && (ws != [] ==> r != [])
  {
    if |ws| <= 1 || ws[|ws| - 1] != 0 then ws else Kept(ws[..|ws| - 1])
  }

  /** The text without the groups that the shortening takes away. */
  function Cut(s: string): string {
    s[..|s| - 2 * ZeroTail(s)]
  }

  lemma {:induction false} TailOfText(ws: seq<nat>)
    requires ws != []
    ensures ZeroTail(Colons(Texts(ws))) == |ws| - |Kept(ws)| && Cut(Colons(Texts(ws))) == Colons(Texts(Kept(ws)))
    decreases |ws|
  {
    var front, last := ws[..|ws| - 1], ws[|ws| - 1];
    assert ws == front + [last];
    if |ws| == 1 {
      NoTail("", last);
      EmptyIsUnit(Show(last, 16));
      assert Colons(Texts(ws)) == Show(last, 16);
    } else {
      TextsSnoc(front, last);
      var before := Colons(Texts(front));
      if last == 0 {
        ShowZero(last, 16);
        TailOfText(front);
        ZeroTailMore(before);
      } else {
        NoTail(before + ":", last);
        Associative(before, ":", Show(last, 16));
      }
    }
  }

  lemma ZeroTailMore(before: string)
    ensures var s := before + (":" + "0"); ZeroTail(s) == ZeroTail(before) + 1 && Cut(s) == Cut(before)
  {
    var s := before + (":" + "0");
    assert s[..|s| - 2] == before && s[|s| - 2] == ':' && s[|s| - 1] == '0';
  }

  lemma TextsSnoc(front: seq<nat>, last: nat)
    requires front != []
    ensures Colons(Texts(front + [last])) == Colons(Texts(front)) + (":" + Show(last, 16))
  {
    assert Texts(front + [last]) == Texts(front) + [Show(last, 16)];
    JoinAppend(Texts(front), [Show(last, 16)], ":");
  }

  /** A number that is not zero, or stands alone, does not end in `:0`. */
  lemma NoTail(before: string, w: nat)
    requires before == "" || w != 0
    ensures ZeroTail(before + Show(w, 16)) == 0
  {
    NoLeadingZero(w, 16);
    var t := Show(w, 16);
    var s := before + t;
    assert !IsHex(':');
    if |t| >= 2 {
      assert s[|s| - 2] == t[|t| - 2] && t[|t| - 2] in t;
    } else {
      assert s[|s| - 1] == t[0];
    }
  }

  lemma NoGroups(parts: seq<string>)
    requires parts == []
    ensures "::" + Colons(parts) == "::"
  {
    EmptyIsUnit("::");
  }

  lemma ShortenedIs(ws: seq<nat>, text: string)
    requires ws != [] && text == Colons(Texts(ws))
    ensures ShortenTail(text) == Short(ws, |Kept(ws)|, |ws| - |Kept(ws)|)
  {
    TailOfText(ws);
    NoGroups(Texts(ws[|ws|..]));
    assert ShortenTail(text) == if ZeroTail(text) >= 2 then Cut(text) + "::" else text;
  }

  /** The shortened text is read as the same words. */
  lemma ShortenedIsRead(ws: seq<nat>, text: string)
    requires |ws| == 8 && Words(ws) && text == ShortenTail(Colons(Texts(ws)))
    ensures ReadIPv6(text) == Some(ws)
  {
    var k := |Kept(ws)|;
    ShortenedIs(ws, Colons(Texts(ws)));
    assert text == Short(ws, k, 8 - k);
    ShortIsRead(ws, k, 8 - k);
    NoDots(text);
  }

  lemma Ipv6MaskText(bits: nat, count: nat)
    requires bits <= 128 && count == WordCount(true)
    ensures PrefixToMask(bits, true).Some?
    ensures ReadIPv6(PrefixToMask(bits, true).value) == Some(MaskWords(16, count, bits))
  {
    var ws := MaskWords(16, count, bits);
    PrefixWordsAre(count, bits);
    MaskWordsFit(16, count, bits);
    Pow2Values();
    assert Words(ws) by { assert forall i :: 0 <= i < |ws| ==> ws[i] < Pow2(16); }
    ShortenedIsRead(ws, MaskText(ws, true));
  }

  /** Of every IPv6 prefix the mask is read back as that prefix. */
  lemma Ipv6PrefixRoundTrip(bits: nat)
    requires bits <= 128
    ensures var mask := PrefixToMask(bits, true); mask.Some? && MaskToPrefix(mask.value, true) == Some(bits)
  {
    var count := WordCount(true);
    Ipv6MaskText(bits, count);
    MaskOfPrefixIsCounted(16, count, bits);
  }

  // ---------------------------------------------------------------- from a mask to its prefix and back

  lemma OneMore(k: nat, more: nat, count: nat, width: nat)
    requires count > 0 && k <= width && more <= (count - 1) * width
    ensures k + more <= count * width
  {
    Distributes(width, count - 1, 1);
  }

  lemma {:induction false} CountBound(ws: seq<nat>, width: nat, zero: bool)
    ensures Count(ws, width, zero).Some? ==> Count(ws, width, zero).value <= |ws| * width
  {
    if ws != [] {
      var more := Count(ws[1..], width, zero || ws[0] == 0);
      CountBound(ws[1..], width, zero || ws[0] == 0);
      if more.Some? {
        OneMore(Ones(ws[0], width), more.value, |ws|, width);
      }
    }
  }

  /**
   A mask that is counted has a prefix that is written as a mask again. The two are the
   same address exactly when in the first one a word with a zero in it is followed by zero
   words.
   */
  lemma MaskReadsBack(mask: string, v6: bool, n: nat)
    requires MaskToPrefix(mask, v6) == Some(n)
    ensures Address(mask, v6).Some? && PrefixToMask(n, v6).Some?
    ensures Address(PrefixToMask(n, v6).value, v6) == Address(mask, v6) <==>
      OnePartial(Address(mask, v6).value, Width(v6))
  {
    var ws := Address(mask, v6).value;
    ReadShape(mask);
    CountBound(ws, Width(v6), false);
    ContiguousMask(ws, Width(v6), n);
    if v6 {
      Ipv6MaskText(n, |ws|);
    } else {
      Ipv4MaskText(n, |ws|);
    }
  }

  /** Shifts count modulo 32, so that a prefix below zero gives an empty mask or, at -16, a full first word. */
  lemma NegativePrefix(bits: int)
    requires -16 <= bits < 0
    ensures PrefixWords(2, bits) == if bits == -16 then [0xFFFF, 0] else [0, 0]
  {
    NegativeWord(bits);
    var two: nat, one: nat, none := 2, 1, 0;
    FirstWord(two, bits, bits);
    FirstWord(one, none, none);
    MaskWordIsTop(none);
    assert Top(16, 0) == 0 by { Pow2Values(); }
  }

  lemma FirstWord(count: nat, bits: int, b: int)
    requires count > 0 && b == bits <= 16
    ensures PrefixWords(count, bits) == [MaskWord(b)] + PrefixWords(count - 1, 0)
  {
  }

  lemma NegativeWord(bits: int)
    requires -16 <= bits < 0
    ensures MaskWord(bits) == if bits == -16 then 0xFFFF else 0
  {
    if bits == -16 {
      SameCount(bits, 16);
      MaskWordIsTop(16);
      Pow2Values();
    } else {
      assert (16 - bits) % 32 == 16 + -bits;
      ShiftedOut(0xFFFF, -bits);
    }
  }

  lemma SameCount(b: int, c: int)
    requires (16 - b) % 32 == (16 - c) % 32
    ensures MaskWord(b) == MaskWord(c)
  {
  }

  /** Nothing of sixteen bits is left when they are shifted by sixteen and more. */
  lemma ShiftedOut(x: nat, n: nat)
    ensures And(Shl(x, 16 + n), 0xFFFF) == 0
  {
    Pow2Add(16, n);
    Pow2Values();
    var y := x * Pow2(n);
    assert x * (Pow2(16) * Pow2(n)) == y * Pow2(16) by { Regroup(x, Pow2(16), Pow2(n)); }
    AndLow(Shl(x, 16 + n), 16);
    QuotIs(Shl(x, 16 + n), 16, y, 0);
  }

  lemma Regroup(x: nat, y: nat, z: nat)
    ensures x * (y * z) == (x * z) * y
  {
  }

  /** Exactly the prefixes beyond the width have no mask. */
  lemma TooLongPrefix(bits: int, v6: bool)
    ensures PrefixToMask(bits, v6) == None <==> bits > if v6 then 128 else 32
  {
  }

  lemma Shape23(ws: seq<nat>, ks: seq<nat>, width: nat)
    requires ws == [255, 254, 255, 0] && ks == [8, 7, 8, 0] && width == 8
    ensures Shape(ws, width, ks) && Sum(ks) == 23 && !OnePartial(ws, width)
  {
    Sum23(ks);
    Pow2Values();
    assert Top(width, width) == 255 && Top(width, width - 1) == 254;
    assert Top(width, ks[3]) == 0;
    assert ws[1] != Top(width, width) && ws[2] != 0;
  }

  lemma Sum23(ks: seq<nat>)
    requires ks == [8, 7, 8, 0]
    ensures Sum(ks) == 23
  {
    SumFirst(0, []);
    SumFirst(8, [0]);
    SumFirst(7, [8, 0]);
    SumFirst(8, [7, 8, 0]);
  }

  lemma SumFirst(k: nat, ks: seq<nat>)
    ensures Sum([k] + ks) == k + Sum(ks)
  {
    assert ([k] + ks)[1..] == ks;
  }

  /** Masks that are not contiguous may be counted: 255.254.255.0 counts as 23. */
  lemma NotContiguousIsCounted()
    ensures MaskToPrefix("255.254.255.0", false) == Some(23)
    ensures PrefixToMask(23, false) != Some("255.254.255.0")
  {
    var ws, ks, width := [255, 254, 255, 0], [8, 7, 8, 0], 8;
    var four: nat, n: nat := 4, 23;
    Shape23(ws, ks, width);
    ShapeIsCounted(ws, width, ks, false);
    ContiguousMask(ws, width, n);
    IPv4RoundTrip(ws);
    DottedText(ws);
    Ipv4MaskText(n, four);
  }

  lemma DottedText(ws: seq<nat>)
    requires ws == [255, 254, 255, 0]
    ensures ShowIPv4(ws) == "255.254.255.0"
  {
    ShowThree(ws[0], "255");
    ShowThree(ws[1], "254");
    assert Show(ws[3], 10) == "0";
    var parts := ["255", "254", "255", "0"];
    assert parts[1..] == ["254", "255", "0"] && parts[1..][1..] == ["255", "0"] && parts[1..][1..][1..] == ["0"];
    assert ShowIPv4(ws) == Join(parts, ".");
  }

  lemma ShowThree(n: nat, digits: string)
    requires 100 <= n < 1000
    requires digits == [DigitChar(n / 100), DigitChar(n / 10 % 10), DigitChar(n % 10)]
    ensures Show(n, 10) == digits
  {
    assert Show(n / 100, 10) == [DigitChar(n / 100)];
    assert n / 10 / 10 == n / 100;
    assert Show(n / 10, 10) == Show(n / 100, 10) + [DigitChar(n / 10 % 10)];
  }
}
