/** Package version order (`compareVersion` of `package-manager.js`). */
module Version {
  import opened Base
  import opened Text

  /** `orderOf`, on a character or, past the end, on the empty string. */
  function OrderOf(s: string): int {
    if s == "~" then -1
    else if s == "" || '0' <= s[0] <= '9' then 0
    else if ('a' <= s[0] <= 'z') || ('A' <= s[0] <= 'Z') then s[0] as int
    else s[0] as int + 256
  }

  /** `s.charAt(i)` */
  function CharAt(s: string, i: nat): string {
    if i < |s| then [s[i]] else ""
  }

  function Digits(s: string): (n: nat)
    ensures n <= |s| && (forall i :: 0 <= i < n ==> IsDigit(s[i])) && (n < |s| ==> !IsDigit(s[n]))
  {
    if s != "" && IsDigit(s[0]) then 1 + Digits(s[1..]) else 0
  }

  function Number(digits: string): int {
    if digits == "" then 0
    else 10 * Number(digits[..|digits| - 1]) + (digits[|digits| - 1] as int - '0' as int)
  }

  // ---------------------------------------------------------------- the reference order

  /**
   What a version means: the weights of its non-digit characters one by one, and each
   run of digits as a zero followed by its number. No character weighs zero.
   */
  function Key(s: string): seq<int> {
    if s == "" then []
    else if IsDigit(s[0]) then [0, Number(s[..Digits(s)])] + Key(s[Digits(s)..])
    else [OrderOf(s[..1])] + Key(s[1..])
  }

  function At(k: seq<int>, i: nat): int {
    if i < |k| then k[i] else 0
  }

  function Rest(k: seq<int>): seq<int> {
    if k == [] then [] else k[1..]
  }

  /** Lexicographic comparison of keys, a missing element counting as zero. */
  function Cmp(a: seq<int>, b: seq<int>): (r: int)
    ensures -1 <= r <= 1
    decreases |a| + |b|
  {
    if a == [] && b == [] then 0
    else if At(a, 0) < At(b, 0) then -1
    else if At(a, 0) > At(b, 0) then 1
    else Cmp(Rest(a), Rest(b))
  }

  function Sign(x: int): int {
    if x < 0 then -1 else if x > 0 then 1 else 0
  }

  function Compare(val: string, ref: string): int {
    Cmp(Key(val), Key(ref))
  }

  // ---------------------------------------------------------------- it is a total preorder

  lemma {:induction false} CmpAntisymmetric(a: seq<int>, b: seq<int>)
    ensures Cmp(a, b) == -Cmp(b, a)
    decreases |a| + |b|
  {
    if (a != [] || b != []) && At(a, 0) == At(b, 0) { CmpAntisymmetric(Rest(a), Rest(b)); }
  }

  lemma {:induction false} CmpTransitive(a: seq<int>, b: seq<int>, c: seq<int>)
    requires Cmp(a, b) <= 0 && Cmp(b, c) <= 0
    ensures Cmp(a, c) <= 0 && (Cmp(a, b) < 0 || Cmp(b, c) < 0 ==> Cmp(a, c) < 0)
    decreases |a| + |b| + |c|
  {
    if (a != [] || b != [] || c != []) && At(a, 0) == At(b, 0) == At(c, 0) {
      CmpTransitive(Rest(a), Rest(b), Rest(c));
    }
  }

  /** The same elements, a missing one counting as zero. */
  ghost predicate Padded(a: seq<int>, b: seq<int>) {
    forall i: nat :: At(a, i) == At(b, i)
  }

  lemma {:induction false} CmpZero(a: seq<int>, b: seq<int>)
    ensures Cmp(a, b) == 0 <==> Padded(a, b)
    decreases |a| + |b|
  {
    if a != [] || b != [] {
      CmpZero(Rest(a), Rest(b));
      forall i: nat ensures At(a, i + 1) == At(Rest(a), i) && At(b, i + 1) == At(Rest(b), i) {}
      if Cmp(a, b) == 0 {
        forall i: nat ensures At(a, i) == At(b, i) {
          if i > 0 { assert At(Rest(a), i - 1) == At(Rest(b), i - 1); }
        }
      }
      if Padded(a, b) {
        assert At(a, 0) == At(b, 0);
        forall i: nat ensures At(Rest(a), i) == At(Rest(b), i) { assert At(a, i + 1) == At(b, i + 1); }
      }
    }
  }

  /** The order of versions is a total preorder; versions compare equal exactly when their padded keys agree. */
  lemma VersionOrder(x: string, y: string, z: string)
    ensures Compare(x, y) == -Compare(y, x)
    ensures Compare(x, y) <= 0 && Compare(y, z) <= 0 ==> Compare(x, z) <= 0
    ensures Compare(x, y) == 0 <==> Padded(Key(x), Key(y))
  {
    CmpAntisymmetric(Key(x), Key(y));
    if Compare(x, y) <= 0 && Compare(y, z) <= 0 { CmpTransitive(Key(x), Key(y), Key(z)); }
    CmpZero(Key(x), Key(y));
  }

  // ---------------------------------------------------------------- digit runs

  lemma {:induction false} NumberBounds(s: string)
    requires AllDigits(s)
    ensures 0 <= Number(s) < Power(10, |s|)
    ensures s != "" && s[0] != '0' ==> Number(s) >= Power(10, |s| - 1)
  {
    if s != "" {
      var front := s[..|s| - 1];
      assert s[|s| - 1] in s && forall c :: c in front ==> c in s;
      NumberBounds(front);
      if front == "" { assert s[0] != '0' ==> Number(s) >= 1; }
    }
  }

  lemma {:induction false} PowerGrows(m: nat, n: nat)
    requires m <= n
    ensures Power(10, m) <= Power(10, n)
    decreases n
  {
    if m < n { PowerGrows(m, n - 1); PowerPositive(n - 1); }
  }

  lemma {:induction false} PowerPositive(n: nat)
    ensures Power(10, n) > 0
  {
    if n > 0 { PowerPositive(n - 1); }
  }

  /** A number with more digits, the first of them not a zero, is greater. */
  lemma LongerIsGreater(a: string, b: string)
    requires AllDigits(a) && AllDigits(b) && |a| > |b| && a[0] != '0'
    ensures Number(a) > Number(b)
  {
    NumberBounds(a);
    NumberBounds(b);
    PowerGrows(|b|, |a| - 1);
  }

  lemma {:induction false} LeadingZero(s: string)
    requires s != "" && s[0] == '0'
    ensures Number(s) == Number(s[1..])
    decreases |s|
  {
    if |s| > 1 {
      var front := s[..|s| - 1];
      LeadingZero(front);
      assert front[1..] == s[1..][..|s| - 2];
    }
  }

  lemma {:induction false} DigitsSplit(s: string, n: nat)
    requires n <= Digits(s)
    ensures Digits(s[n..]) == Digits(s) - n
  {
    if n > 0 {
      DigitsSplit(s[1..], n - 1);
      assert s[n..] == s[1..][n - 1..];
    }
  }

  /** The number a run of digits, possibly empty, stands for in the key. */
  function Run(s: string): string {
    s[..Digits(s)]
  }

  /** Positions where no non-digit is left to compare. */
  predicate AtNumber(s: string, i: nat) {
    i == |s| || (i < |s| && IsDigit(s[i]))
  }

  lemma KeyAtNumber(s: string)
    requires AtNumber(s, 0)
    ensures At(Key(s), 0) == 0 && At(Key(s), 1) == Number(Run(s))
    ensures Rest(Rest(Key(s))) == Key(s[Digits(s)..])
  {
    if s != "" {
      assert Key(s)[2..] == Key(s[Digits(s)..]);
    }
  }

  lemma NumbersDecide(a: string, b: string)
    requires AtNumber(a, 0) && AtNumber(b, 0)
    ensures Number(Run(a)) < Number(Run(b)) ==> Cmp(Key(a), Key(b)) == -1
    ensures Number(Run(a)) > Number(Run(b)) ==> Cmp(Key(a), Key(b)) == 1
    ensures Number(Run(a)) == Number(Run(b)) ==> Cmp(Key(a), Key(b)) == Cmp(Key(a[Digits(a)..]), Key(b[Digits(b)..]))
  {
    KeyAtNumber(a);
    KeyAtNumber(b);
    var x, y := Key(a), Key(b);
    assert At(Rest(x), 0) == At(x, 1) && At(Rest(y), 0) == At(y, 1);
    if x != [] || y != [] {
      assert Cmp(x, y) == Cmp(Rest(x), Rest(y));
    }
  }

  // ---------------------------------------------------------------- the comparator

  /** The first inner loop: characters are compared until both sides are at a digit or at their end. */
  method CompareNonDigits(val: string, ref: string, vi0: nat, ri0: nat) returns (diff: int, vi: nat, ri: nat)
    requires vi0 <= |val| && ri0 <= |ref|
    ensures vi0 <= vi <= |val| && ri0 <= ri <= |ref|
    ensures diff != 0 ==> Sign(diff) == Compare(val[vi0..], ref[ri0..])
    ensures diff == 0 ==> AtNumber(val, vi) && AtNumber(ref, ri)
    ensures diff == 0 ==> Compare(val[vi0..], ref[ri0..]) == Compare(val[vi..], ref[ri..])
  {
    vi, ri := vi0, ri0;
    ghost var order := Compare(val[vi0..], ref[ri0..]);
    while !AtNumber(val, vi) || !AtNumber(ref, ri)
      invariant vi0 <= vi <= |val| && ri0 <= ri <= |ref|
      invariant order == Compare(val[vi..], ref[ri..])
      decreases |val| - vi + |ref| - ri
    {
      var vc, rc := OrderOf(CharAt(val, vi)), OrderOf(CharAt(ref, ri));
      CharactersDecide(val, ref, vi, ri);
      if vc != rc {
        return vc - rc, vi, ri;
      }
      vi, ri := vi + 1, ri + 1;
    }
    diff := 0;
  }

  /** The key starts with the weight of the character, which is zero only for a digit and at the end. */
  lemma HeadWeight(s: string, i: nat)
    requires i <= |s|
    ensures At(Key(s[i..]), 0) == OrderOf(CharAt(s, i))
    ensures OrderOf(CharAt(s, i)) == 0 <==> AtNumber(s, i)
    ensures !AtNumber(s, i) ==> Rest(Key(s[i..])) == Key(s[i + 1..])
  {
    if i < |s| {
      assert s[i..][..1] == [s[i]];
      assert s[i..][1..] == s[i + 1..];
    }
  }

  lemma CharactersDecide(val: string, ref: string, vi: nat, ri: nat)
    requires vi <= |val| && ri <= |ref| && !(AtNumber(val, vi) && AtNumber(ref, ri))
    ensures var diff := OrderOf(CharAt(val, vi)) - OrderOf(CharAt(ref, ri));
      if diff != 0 then Compare(val[vi..], ref[ri..]) == Sign(diff)
      else vi < |val| && ri < |ref| && Compare(val[vi..], ref[ri..]) == Compare(val[vi + 1..], ref[ri + 1..])
  {
    HeadWeight(val, vi);
    HeadWeight(ref, ri);
  }

  /** Skipping zeros keeps the number and what follows it. */
  method SkipZeros(s: string, i0: nat) returns (i: nat)
    requires i0 <= |s|
    ensures i0 <= i <= |s| && (i < |s| ==> s[i] != '0')
    ensures Number(Run(s[i..])) == Number(Run(s[i0..]))
    ensures i + Digits(s[i..]) == i0 + Digits(s[i0..])
  {
    i := i0;
    while i < |s| && s[i] == '0'
      invariant i0 <= i <= |s|
      invariant Number(Run(s[i..])) == Number(Run(s[i0..]))
      invariant i + Digits(s[i..]) == i0 + Digits(s[i0..])
    {
      var t := s[i..];
      LeadingZero(Run(t));
      assert t[1..] == s[i + 1..];
      assert Run(t)[1..] == Run(t[1..]);
      i := i + 1;
    }
  }

  /** The first difference decides, however the numbers go on. */
  lemma OneMoreDigit(a: string, b: string, k: nat, firstDiff: int)
    requires AllDigits(a) && AllDigits(b) && k < |a| && k < |b|
    requires Sign(firstDiff) == Sign(Number(a[..k]) - Number(b[..k]))
    ensures var next := if firstDiff != 0 then firstDiff else a[k] as int - b[k] as int;
      Sign(next) == Sign(Number(a[..k + 1]) - Number(b[..k + 1]))
  {
    assert a[k] in a && b[k] in b;
    assert a[..k + 1][..k] == a[..k] && b[..k + 1][..k] == b[..k];
  }

  /** `isdigit[s.charAt(i)]` */
  predicate More(s: string, i: nat) {
    i < |s| && IsDigit(s[i])
  }

  lemma RunEnd(s: string, start: nat, i: nat)
    requires start <= |s| && start <= i <= start + Digits(s[start..])
    ensures More(s, i) <==> i < start + |Run(s[start..])|
    ensures More(s, i) ==> Run(s[start..])[i - start] == s[i]
    ensures start + |Run(s[start..])| <= |s| && AllDigits(Run(s[start..]))
    ensures s[start..] != "" && s[start] != '0' && Run(s[start..]) != "" ==> Run(s[start..])[0] != '0'
  {
  }

  /** The first difference in `k` digits tells how their numbers compare. */
  predicate SameSoFar(a: string, b: string, k: nat, firstDiff: int) {
    k <= |a| && k <= |b| && Sign(firstDiff) == Sign(Number(a[..k]) - Number(b[..k]))
  }

  /** One round of the digit loops. */
  lemma RunStep(val: string, ref: string, vi0: nat, ri0: nat, k: nat, firstDiff: int)
    requires vi0 <= |val| && ri0 <= |ref| && k < |Run(val[vi0..])| && k < |Run(ref[ri0..])|
    requires SameSoFar(Run(val[vi0..]), Run(ref[ri0..]), k, firstDiff)
    ensures vi0 + k < |val| && ri0 + k < |ref|
    ensures var next := if firstDiff != 0 then firstDiff else val[vi0 + k] as int - ref[ri0 + k] as int;
      SameSoFar(Run(val[vi0..]), Run(ref[ri0..]), k + 1, next)
    ensures More(val, vi0 + k + 1) <==> k + 1 < |Run(val[vi0..])|
    ensures More(ref, ri0 + k + 1) <==> k + 1 < |Run(ref[ri0..])|
  {
    RunEnd(val, vi0, vi0 + k);
    RunEnd(ref, ri0, ri0 + k);
    OneMoreDigit(Run(val[vi0..]), Run(ref[ri0..]), k, firstDiff);
    RunEnd(val, vi0, vi0 + k + 1);
    RunEnd(ref, ri0, ri0 + k + 1);
  }

  /** After the last round. */
  lemma RunsDone(val: string, ref: string, vi0: nat, ri0: nat, k: nat, firstDiff: int)
    requires vi0 <= |val| && ri0 <= |ref|
    requires (vi0 < |val| ==> val[vi0] != '0') && (ri0 < |ref| ==> ref[ri0] != '0')
    requires var m, n := |Run(val[vi0..])|, |Run(ref[ri0..])|; k <= m && k <= n && (k == m || k == n)
    requires SameSoFar(Run(val[vi0..]), Run(ref[ri0..]), k, firstDiff)
    ensures Sign(Number(Run(val[vi0..])) - Number(Run(ref[ri0..]))) ==
      if k < |Run(val[vi0..])| then 1 else if k < |Run(ref[ri0..])| then -1 else Sign(firstDiff)
  {
    RunEnd(val, vi0, vi0);
    RunEnd(ref, ri0, ri0);
    WholeRuns(Run(val[vi0..]), Run(ref[ri0..]), k, firstDiff);
  }

  /** The digit loops, on two numbers without leading zeros that stand at `vi0` and `ri0`. */
  method CompareRuns(val: string, ref: string, vi0: nat, ri0: nat) returns (diff: int, vi: nat, ri: nat)
    requires vi0 <= |val| && ri0 <= |ref|
    requires (vi0 < |val| ==> val[vi0] != '0') && (ri0 < |ref| ==> ref[ri0] != '0')
    ensures Sign(diff) == Sign(Number(Run(val[vi0..])) - Number(Run(ref[ri0..])))
    ensures diff == 0 ==> vi == vi0 + Digits(val[vi0..]) && ri == ri0 + Digits(ref[ri0..])
  {
    vi, ri := vi0, ri0;
    ghost var a, b := Run(val[vi0..]), Run(ref[ri0..]);
    var firstDiff := 0;
    RunEnd(val, vi0, vi);
    RunEnd(ref, ri0, ri);
    while More(val, vi) && More(ref, ri)
      invariant vi0 <= vi <= vi0 + |a| && ri - ri0 == vi - vi0 && ri <= ri0 + |b|
      invariant More(val, vi) <==> vi < vi0 + |a|
      invariant More(ref, ri) <==> ri < ri0 + |b|
      invariant SameSoFar(a, b, vi - vi0, firstDiff)
      decreases |val| - vi
    {
      RunStep(val, ref, vi0, ri0, vi - vi0, firstDiff);
      firstDiff := if firstDiff != 0 then firstDiff else val[vi] as int - ref[ri] as int;
      vi, ri := vi + 1, ri + 1;
    }
    RunsDone(val, ref, vi0, ri0, vi - vi0, firstDiff);
    if More(val, vi) {
      return 1, vi, ri;
    } else if More(ref, ri) {
      return -1, vi, ri;
    }
    return firstDiff, vi, ri;
  }

  /** At the end of a number: the longer one is greater, and of equally long ones the first difference decides. */
  lemma WholeRuns(a: string, b: string, k: nat, firstDiff: int)
    requires AllDigits(a) && AllDigits(b) && (a != "" ==> a[0] != '0') && (b != "" ==> b[0] != '0')
    requires SameSoFar(a, b, k, firstDiff) && (k == |a| || k == |b|)
    ensures Sign(Number(a) - Number(b)) == if k < |a| then 1 else if k < |b| then -1 else Sign(firstDiff)
  {
    if k < |a| {
      LongerIsGreater(a, b);
    } else if k < |b| {
      LongerIsGreater(b, a);
    } else {
      assert a[..k] == a && b[..k] == b;
    }
  }

  /** The second half of a pass: the numbers at the two positions are compared, and skipped when they are equal. */
  method CompareNumbers(val: string, ref: string, vi0: nat, ri0: nat) returns (diff: int, vi: nat, ri: nat)
    requires vi0 <= |val| && ri0 <= |ref| && AtNumber(val, vi0) && AtNumber(ref, ri0)
    ensures diff != 0 ==> Sign(diff) == Compare(val[vi0..], ref[ri0..])
    ensures diff == 0 ==>
      vi0 <= vi <= |val| && ri0 <= ri <= |ref| && (vi0 < |val| ==> vi0 < vi) && (ri0 < |ref| ==> ri0 < ri)
    ensures diff == 0 ==> Compare(val[vi0..], ref[ri0..]) == Compare(val[vi..], ref[ri..])
  {
    ghost var a, b := val[vi0..], ref[ri0..];
    var v1 := SkipZeros(val, vi0);
    var r1 := SkipZeros(ref, ri0);
    NumbersDecide(a, b);
    diff, vi, ri := CompareRuns(val, ref, v1, r1);
    if diff == 0 {
      assert a[Digits(a)..] == val[vi..] && b[Digits(b)..] == ref[ri..];
    }
  }

  /** The comparator has the sign of the reference order. */
  method CompareVersion(val: string, ref: string) returns (r: int)
    ensures Sign(r) == Compare(val, ref)
  {
    if val == ref {
      CmpZero(Key(val), Key(ref));
      return 0;
    }
    var vi: nat, ri: nat := 0, 0;
    assert val[0..] == val && ref[0..] == ref;
    while vi < |val| || ri < |ref|
      invariant vi <= |val| && ri <= |ref|
      invariant Compare(val, ref) == Compare(val[vi..], ref[ri..])
      decreases |val| - vi + |ref| - ri
    {
      var diff;
      diff, vi, ri := CompareNonDigits(val, ref, vi, ri);
      if diff != 0 {
        return diff;
      }
      var vn, rn;
      diff, vn, rn := CompareNumbers(val, ref, vi, ri);
      if diff != 0 {
        return diff;
      }
      vi, ri := vn, rn;
    }
    return 0;
  }
}
