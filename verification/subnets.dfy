/** Subnets: masking of addresses for `routes.js`, and the sums of `dhcp.js` and `static.js`. */
module Subnets {
  import opened Base
  import opened Bits
  import opened Ip
  import opened Ipv6Text
  import opened Masks

  // ---------------------------------------------------------------- masking

  /** The words of an address with only the first `mask` bits left. */
  function Masked(ws: seq<nat>, width: nat, mask: nat): (r: seq<nat>)
    ensures |r| == |ws|
  {
    if ws == [] then []
    else
      var b := Min(mask, width);
      [And(ws[0], Top(width, b))] + Masked(ws[1..], width, mask - b)
  }

  /** `(bword<<(bwlen-b))&bword` */
  function WordMask(width: nat, b: nat): nat
    requires b <= width
  {
    And(Shl(Pow2(width) - 1, width - b), Pow2(width) - 1)
  }

  lemma WordMaskIsTop(width: nat, b: nat)
    requires b <= width
    ensures WordMask(width, b) == Top(width, b)
  {
    ShiftedOnes(width, b);
  }

  /** How many bits an address has. */
  function AddressBits(v6: bool): (n: nat)
    ensures n == if v6 then 128 else 32
  {
    if v6 then 128 else 32
  }

  function ShowWords(ws: seq<nat>, v6: bool): string
    requires |ws| == if v6 then 8 else 4
  {
    if v6 then Colons(Texts(ws)) else ShowIPv4(ws)
  }

  lemma ParsedWords(addr: string, v6: bool)
    ensures var ws := Address(addr, v6);
      ws.Some? ==> |ws.value| == (if v6 then 8 else 4) && FitWords(ws.value, Width(v6))
  {
    var ws := Address(addr, v6);
    Pow2Values();
    if v6 {
      ReadShape(addr);
      if ws.Some? {
        assert forall i :: 0 <= i < 8 ==> ws.value[i] in ws.value;
      }
    }
  }

  /** `applyMask` */
  function ApplyMask(addr: string, mask: int, v6: bool): Option<string> {
    var ws := Address(addr, v6);
    ParsedWords(addr, v6);
    if ws.None? || mask < 0 || mask > AddressBits(v6) then None
    else Some(ShowWords(Masked(ws.value, Width(v6), mask), v6))
  }

  /** The loop, over the words in place. */
  method MaskLoop(words: array<nat>, mask0: nat, width: nat)
    modifies words
    ensures words[..] == Masked(old(words[..]), width, mask0)
  {
    ghost var ws := words[..];
    var mask: nat, i := mask0, 0;
    assert ws[0..] == ws && words[..0] == [];
    while i < words.Length
      invariant 0 <= i <= words.Length && words[i..] == ws[i..]
      invariant words[..i] + Masked(ws[i..], width, mask) == Masked(ws, width, mask0)
    {
      var b := Min(mask, width);
      WordMaskIsTop(width, b);
      MaskStep(words[..i], ws[i..], width, mask);
      assert ws[i..][1..] == ws[i + 1..] && words[i] == ws[i..][0];
      words[i] := And(words[i], WordMask(width, b));
      mask := mask - b;
      i := i + 1;
      assert words[..i] == words[..i - 1] + [words[i - 1]];
    }
    EmptyIsUnit(words[..i]);
    assert words[..i] == words[..];
  }

  lemma MaskStep(front: seq<nat>, ws: seq<nat>, width: nat, mask: nat)
    requires ws != []
    ensures var b := Min(mask, width);
      front + Masked(ws, width, mask) == front + [And(ws[0], Top(width, b))] + Masked(ws[1..], width, mask - b)
  {
  }

  // ---------------------------------------------------------------- addresses as numbers

  /** How many bits the words have together. */
  function Total(ws: seq<nat>, width: nat): nat {
    if ws == [] then 0 else width + Total(ws[1..], width)
  }

  lemma {:induction false} TotalIs(ws: seq<nat>, width: nat)
    ensures Total(ws, width) == width * |ws|
  {
    if ws != [] {
      TotalIs(ws[1..], width);
      OneMore(width, |ws|);
    }
  }

  lemma {:induction false} TotalSame(ws: seq<nat>, vs: seq<nat>, width: nat)
    requires |ws| == |vs|
    ensures Total(ws, width) == Total(vs, width)
  {
    if ws != [] { TotalSame(ws[1..], vs[1..], width); }
  }

  /** The number that the words of an address stand for. */
  function Number(ws: seq<nat>, width: nat): nat {
    if ws == [] then 0 else ws[0] * Pow2(Total(ws[1..], width)) + Number(ws[1..], width)
  }

  /** `x` rounded down to a multiple of `d`. */
  function RoundDown(x: nat, d: nat): nat {
    if d == 0 || x < d then 0 else d + RoundDown(x - d, d)
  }

  lemma {:induction false} RoundDownAdds(q: nat, d: nat, x: nat)
    requires d > 0
    ensures RoundDown(q * d + x, d) == q * d + RoundDown(x, d)
    decreases q
  {
    if q > 0 {
      OneMore(d, q);
      RoundDownAdds(q - 1, d, x);
    }
  }

  lemma RoundDownIsDivision(x: nat, d: nat)
    requires d > 0
    ensures RoundDown(x, d) == x / d * d == x - x % d
  {
    QuotientAndRest(x, d);
    RoundDownTo(x, d, x / d, x % d);
  }

  lemma QuotientAndRest(x: nat, d: nat)
    requires d > 0
    ensures x == x / d * d + x % d && x % d < d
  {
  }

  lemma RoundDownTo(x: nat, d: nat, q: nat, r: nat)
    requires x == q * d + r && r < d
    ensures RoundDown(x, d) == q * d
  {
    RoundDownAdds(q, d, r);
  }

  lemma OneMore(width: nat, n: nat)
    requires n > 0
    ensures width * n == width * (n - 1) + width
  {
  }

  lemma {:induction false} NumberBound(ws: seq<nat>, width: nat)
    requires FitWords(ws, width)
    ensures Number(ws, width) < Pow2(Total(ws, width))
  {
    if ws != [] {
      var n := Total(ws[1..], width);
      RestFits(ws, width);
      NumberBound(ws[1..], width);
      Pow2Add(width, n);
      BelowProduct(ws[0], Pow2(width), Number(ws[1..], width), Pow2(n));
    }
  }

  lemma BelowProduct(x: nat, p: nat, y: nat, q: nat)
    requires x < p && y < q
    ensures x * q + y < p * q
  {
    Distributes(q, p, x + 1);
    assert (p - x - 1) * q >= 0;
    Distributes(q, x, 1);
  }

  /** The bits of a word that the mask keeps. */
  lemma AndTop(w: nat, width: nat, b: nat)
    requires w < Pow2(width) && b <= width
    ensures And(w, Top(width, b)) == Quot(w, width - b) * Pow2(width - b)
  {
    var n := width - b;
    Pow2Add(b, n);
    Distributes(Pow2(n), Pow2(b), 1);
    assert Top(width, b) == (Pow2(b) - 1) * Pow2(n);
    AndShifted(w, Pow2(b) - 1, n);
    AndLow(Quot(w, n), b);
    ShiftSplits(w, n);
    var q := Quot(w, n);
    assert q < Pow2(b) by { MultiplesCompare(q, Pow2(b), Pow2(n)); }
    var zero: nat := 0;
    QuotIs(q, b, zero, q);
  }

  lemma RestFits(ws: seq<nat>, width: nat)
    requires FitWords(ws, width) && ws != []
    ensures FitWords(ws[1..], width)
  {
    assert forall i :: 0 <= i < |ws| - 1 ==> ws[1..][i] == ws[i + 1];
  }

  /** A word in front of a number that is rounded down. */
  lemma FrontOfRounded(w: nat, k: nat, d: nat, p: nat, x: nat)
    requires d > 0 && p == k * d
    ensures RoundDown(w * p + x, d) == w * p + RoundDown(x, d)
  {
    MulAssociates(w, k, d);
    RoundDownAdds(w * k, d, x);
  }

  /** A word of which some bits are kept, in front of a number that is not. */
  lemma FrontIsRounded(q: nat, n: nat, r: nat, p: nat, x: nat, d: nat)
    requires r < n && x < p && d == n * p
    ensures RoundDown((q * n + r) * p + x, d) == q * n * p
  {
    BelowProduct(r, n, x, p);
    Distributes(p, q * n, r);
    MulAssociates(q, n, p);
    RoundDownAdds(q, d, r * p + x);
  }

  /** The first word, when it is kept. */
  lemma FullWordKept(w: nat, width: nat)
    requires w < Pow2(width)
    ensures And(w, Top(width, width)) == w
  {
    AndTop(w, width, width);
    assert Pow2(0) == 1 && Quot(w, 0) == w;
  }

  /** The first word is kept. */
  lemma FullWordRounds(w: nat, x: nat, low: nat, mask: nat)
    requires mask <= low
    ensures RoundDown(w * Pow2(low) + x, Pow2(low - mask)) == w * Pow2(low) + RoundDown(x, Pow2(low - mask))
  {
    Pow2Add(mask, low - mask);
    FrontOfRounded(w, Pow2(mask), Pow2(low - mask), Pow2(low), x);
  }

  /** The first word is kept in part, and nothing of what follows it. */
  lemma PartialWordRounds(w: nat, x: nat, width: nat, mask: nat, low: nat)
    requires w < Pow2(width) && mask < width && x < Pow2(low)
    ensures RoundDown(w * Pow2(low) + x, Pow2(width - mask + low)) == And(w, Top(width, mask)) * Pow2(low)
  {
    var n := width - mask;
    AndTop(w, width, mask);
    Pow2Add(n, low);
    ShiftSplits(w, n);
    FrontIsRounded(Quot(w, n), Pow2(n), Rem(w, n), Pow2(low), x, Pow2(n + low));
  }

  /** The kept bits stand for the address rounded down to a multiple of its subnet's size. */
  lemma {:induction false} MaskRoundsDown(ws: seq<nat>, width: nat, mask: nat)
    requires FitWords(ws, width) && mask <= Total(ws, width)
    ensures Number(Masked(ws, width, mask), width) == RoundDown(Number(ws, width), Pow2(Total(ws, width) - mask))
    decreases |ws|
  {
    if ws != [] {
      var b, rest := Min(mask, width), ws[1..];
      RestFits(ws, width);
      NumberOfMasked(ws, width, mask);
      MaskRoundsDown(rest, width, mask - b);
      if mask >= width {
        FullWordKept(ws[0], width);
        FullWordRounds(ws[0], Number(rest, width), Total(rest, width), mask - width);
      } else {
        NumberBound(rest, width);
        PartialWordRounds(ws[0], Number(rest, width), width, mask, Total(rest, width));
      }
    }
  }

  lemma NumberOfMasked(ws: seq<nat>, width: nat, mask: nat)
    requires ws != []
    ensures var b := Min(mask, width);
      Number(Masked(ws, width, mask), width) ==
        And(ws[0], Top(width, b)) * Pow2(Total(ws[1..], width)) + Number(Masked(ws[1..], width, mask - b), width)
  {
    var r := Masked(ws, width, mask);
    assert r[1..] == Masked(ws[1..], width, mask - Min(mask, width));
    TotalSame(r[1..], ws[1..], width);
  }

  // ---------------------------------------------------------------- the broadcast address

  /** The words with the bits after the first `mask` set. */
  function FilledUp(ws: seq<nat>, width: nat, mask: nat): (r: seq<nat>)
    ensures |r| == |ws|
  {
    if ws == [] then []
    else
      var b := Min(mask, width);
      [Or(ws[0], Pow2(width - b) - 1)] + FilledUp(ws[1..], width, mask - b)
  }

  lemma LastOfSubnet(q: nat, n: nat, p: nat)
    requires n > 0 && p > 0
    ensures (q * n + (n - 1)) * p + (p - 1) == q * n * p + (n * p - 1)
  {
    Distributes(p, q * n, n - 1);
    Distributes(p, n, 1);
  }

  lemma NumberOfFilled(ws: seq<nat>, width: nat, mask: nat)
    requires ws != []
    ensures var b := Min(mask, width);
      Number(FilledUp(ws, width, mask), width) ==
        Or(ws[0], Pow2(width - b) - 1) * Pow2(Total(ws[1..], width)) + Number(FilledUp(ws[1..], width, mask - b), width)
  {
    var r := FilledUp(ws, width, mask);
    assert r[1..] == FilledUp(ws[1..], width, mask - Min(mask, width));
    TotalSame(r[1..], ws[1..], width);
  }

  /** The first word, when it is kept in part. */
  lemma PartialWordFilled(w: nat, width: nat, mask: nat, low: nat)
    requires w < Pow2(width) && mask < width
    ensures Or(w, Pow2(width - mask) - 1) * Pow2(low) + (Pow2(low) - 1) ==
      And(w, Top(width, mask)) * Pow2(low) + (Pow2(width - mask + low) - 1)
  {
    var n := width - mask;
    AndTop(w, width, mask);
    OrLow(w, n);
    Pow2Add(n, low);
    LastOfSubnet(Quot(w, n), Pow2(n), Pow2(low));
  }

  /** The filled words stand for the last address of the subnet. */
  lemma {:induction false} FilledIsLast(ws: seq<nat>, width: nat, mask: nat)
    requires FitWords(ws, width) && mask <= Total(ws, width)
    ensures Number(FilledUp(ws, width, mask), width) ==
      Number(Masked(ws, width, mask), width) + (Pow2(Total(ws, width) - mask) - 1)
    decreases |ws|
  {
    if ws != [] {
      var b, rest := Min(mask, width), ws[1..];
      RestFits(ws, width);
      FilledIsLast(rest, width, mask - b);
      NumberOfMasked(ws, width, mask);
      NumberOfFilled(ws, width, mask);
      if mask < width {
        NothingFilled(rest, width);
        PartialWordFilled(ws[0], width, mask, Total(rest, width));
      } else {
        FullWordKept(ws[0], width);
        OrNothing(ws[0]);
      }
    }
  }

  lemma NothingFilled(ws: seq<nat>, width: nat)
    requires FitWords(ws, width)
    ensures Number(Masked(ws, width, 0), width) == 0
  {
    NumberBound(ws, width);
    MaskRoundsDown(ws, width, 0);
  }

  lemma OrNothing(w: nat)
    ensures Or(w, Pow2(0) - 1) == w
  {
    assert Pow2(0) == 1;
  }
}
