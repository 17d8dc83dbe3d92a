/** The rules of the version order, as section 5.6.12 of the Debian Policy Manual has them. */
module VersionRules {
  import opened Base
  import opened Text
  import opened Version

  predicate IsLetter(c: char) {
    'a' <= c <= 'z' || 'A' <= c <= 'Z'
  }

  /** Neither a letter, nor a digit, nor a tilde. */
  predicate IsOther(c: char) {
    !IsLetter(c) && !IsDigit(c) && c != '~'
  }

  /** No run of digits goes on from `x` into `y`. */
  predicate Apart(x: string, y: string) {
    x == "" || y == "" || !IsDigit(x[|x| - 1]) || !IsDigit(y[0])
  }

  // ---------------------------------------------------------------- what two versions have in common

  lemma {:induction false} DigitsApart(x: string, y: string)
    requires Apart(x, y)
    ensures Digits(x + y) == if Digits(x) < |x| then Digits(x) else |x| + Digits(y)
    ensures x != "" ==> Digits(x + y) == Digits(x)
  {
    if x == "" {
      assert x + y == y;
    } else {
      assert (x + y)[1..] == x[1..] + y;
      if |x| > 1 || y != "" {
        DigitsApart(x[1..], y);
      }
      if x[1..] == "" {
        assert x[1..] + y == y;
      }
    }
  }

  lemma {:induction false} KeyAppend(x: string, y: string)
    requires Apart(x, y)
    ensures Key(x + y) == Key(x) + Key(y)
    decreases |x|
  {
    if x == "" {
      assert x + y == y;
      assert Key(x) + Key(y) == Key(y);
    } else if IsDigit(x[0]) {
      DigitsApart(x, y);
      var n := Digits(x);
      assert (x + y)[..n] == x[..n] && (x + y)[n..] == x[n..] + y;
      KeyAppend(x[n..], y);
      Associative([0, Number(x[..n])], Key(x[n..]), Key(y));
    } else {
      assert (x + y)[..1] == x[..1] && (x + y)[1..] == x[1..] + y;
      KeyAppend(x[1..], y);
      Associative([OrderOf(x[..1])], Key(x[1..]), Key(y));
    }
  }

  lemma {:induction false} CmpCommon(k: seq<int>, a: seq<int>, b: seq<int>)
    ensures Cmp(k + a, k + b) == Cmp(a, b)
  {
    if k == [] {
      assert k + a == a && k + b == b;
    } else {
      assert (k + a)[1..] == k[1..] + a && (k + b)[1..] == k[1..] + b;
      CmpCommon(k[1..], a, b);
    }
  }

  /** A common beginning does not count. */
  lemma CommonBeginning(x: string, y: string, z: string)
    requires Apart(x, y) && Apart(x, z)
    ensures Compare(x + y, x + z) == Compare(y, z)
  {
    KeyAppend(x, y);
    KeyAppend(x, z);
    CmpCommon(Key(x), Key(y), Key(z));
  }

  lemma StartsWith(c: char, y: string)
    requires !IsDigit(c)
    ensures Key([c] + y) == [OrderOf([c])] + Key(y)
  {
    var s := [c] + y;
    assert s[..1] == [c] && s[1..] == y;
  }

  // ---------------------------------------------------------------- characters

  /** A tilde sorts before the end, and before everything else. */
  lemma TildeComesFirst(x: string, y: string, c: char, z: string)
    ensures Compare(x + "~" + y, x) == -1
    ensures c != '~' && Apart(x, [c]) ==> Compare(x + "~" + y, x + [c] + z) == -1
  {
    CharacterAgainstEnd(x, '~', y);
    if c != '~' && Apart(x, [c]) {
      TwoCharacters(x, '~', y, c, z);
    }
  }

  /** Every other character that is no digit sorts after the end. */
  lemma LongerIsLater(x: string, c: char, y: string)
    requires IsLetter(c) || IsOther(c)
    ensures Compare(x + [c] + y, x) == 1
  {
    CharacterAgainstEnd(x, c, y);
  }

  lemma CharacterAgainstEnd(x: string, c: char, y: string)
    requires !IsDigit(c)
    ensures Compare(x + [c] + y, x) == if c == '~' then -1 else 1
  {
    var s := [c] + y;
    Associative(x, [c], y);
    EmptyIsUnit(x);
    CommonBeginning(x, s, "");
    StartsWith(c, y);
  }

  lemma TwoCharacters(x: string, c: char, y: string, d: char, z: string)
    requires !IsDigit(c) && OrderOf([c]) < OrderOf([d]) && Apart(x, [d])
    ensures Compare(x + [c] + y, x + [d] + z) == -1 && Compare(x + [d] + z, x + [c] + y) == 1
  {
    var s, t := [c] + y, [d] + z;
    Associative(x, [c], y);
    Associative(x, [d], z);
    CommonBeginning(x, s, t);
    CommonBeginning(x, t, s);
    StartsWith(c, y);
    if !IsDigit(d) {
      StartsWith(d, z);
    } else {
      assert t[0] == d;
    }
  }

  /** Letters sort before other characters; of two of a kind the one with the smaller code comes first. */
  lemma LettersComeFirst(x: string, c: char, y: string, d: char, z: string)
    requires (IsLetter(c) && IsOther(d)) || (c < d && ((IsLetter(c) && IsLetter(d)) || (IsOther(c) && IsOther(d))))
    ensures Compare(x + [c] + y, x + [d] + z) == -1
  {
    TwoCharacters(x, c, y, d, z);
  }

  /** Where one has a digit and the other a character, only a tilde comes first. */
  lemma DigitAgainstCharacter(x: string, c: char, y: string, d: char, z: string)
    requires IsDigit(d) && !IsDigit(c) && Apart(x, [d])
    ensures Compare(x + [c] + y, x + [d] + z) == if c == '~' then -1 else 1
  {
    if c == '~' {
      TwoCharacters(x, c, y, d, z);
    } else {
      var s, t := [c] + y, [d] + z;
      Associative(x, [c], y);
      Associative(x, [d], z);
      CommonBeginning(x, s, t);
      StartsWith(c, y);
      assert t[0] == d;
    }
  }

  // ---------------------------------------------------------------- numbers

  lemma {:induction false} NumberIsValue(s: string)
    requires AllDigits(s)
    ensures Number(s) == Value(s, 10)
  {
    if s != "" {
      assert s[|s| - 1] in s && forall c :: c in s[..|s| - 1] ==> c in s;
      NumberIsValue(s[..|s| - 1]);
    }
  }

  lemma {:induction false} AllAreDigits(a: string)
    requires AllDigits(a)
    ensures Digits(a) == |a|
  {
    if a != "" {
      assert a[0] in a && forall c :: c in a[1..] ==> c in a;
      AllAreDigits(a[1..]);
    }
  }

  lemma KeyOfNumber(a: string, y: string)
    requires a != "" && AllDigits(a) && Apart(a, y)
    ensures Key(a + y) == [0, Value(a, 10)] + Key(y)
  {
    AllAreDigits(a);
    NumberIsValue(a);
    KeyAppend(a, y);
    assert a[0] in a && a[..|a|] == a && a[|a|..] == "";
    assert Key(a) == [0, Value(a, 10)] + Key("");
    EmptyIsUnit([0, Value(a, 10)]);
  }

  /** Runs of digits compare as numbers, however many zeros are in front; when these are equal, what follows decides. */
  lemma NumbersCompare(x: string, a: string, y: string, b: string, z: string)
    requires a != "" && b != "" && AllDigits(a) && AllDigits(b)
    requires Apart(x, a) && Apart(x, b) && Apart(a, y) && Apart(b, z)
    ensures Compare(x + a + y, x + b + z) ==
      if Value(a, 10) < Value(b, 10) then -1 else if Value(a, 10) > Value(b, 10) then 1 else Compare(y, z)
  {
    Associative(x, a, y);
    Associative(x, b, z);
    assert (a + y)[0] == a[0] && (b + z)[0] == b[0];
    CommonBeginning(x, a + y, b + z);
    KeyOfNumber(a, y);
    KeyOfNumber(b, z);
    CmpNumbers(Value(a, 10), Key(y), Value(b, 10), Key(z));
  }

  lemma CmpNumbers(m: nat, k: seq<int>, n: nat, l: seq<int>)
    ensures Cmp([0, m] + k, [0, n] + l) == if m < n then -1 else if m > n then 1 else Cmp(k, l)
  {
    var a, b := [0, m] + k, [0, n] + l;
    assert Rest(a) == [m] + k && Rest(b) == [n] + l;
    assert Rest(Rest(a)) == k && Rest(Rest(b)) == l;
    assert Cmp(a, b) == Cmp(Rest(a), Rest(b));
  }

  /** A missing number counts as zero. */
  lemma ZerosAreNothing(x: string, a: string)
    requires a != "" && AllDigits(a) && Apart(x, a)
    ensures Compare(x + a, x) == if Value(a, 10) > 0 then 1 else 0
  {
    var none := "";
    EmptyIsUnit(x);
    EmptyIsUnit(a);
    CommonBeginning(x, a, none);
    KeyOfNumber(a, none);
    var k := Key(a);
    assert k == [0, Value(a, 10)];
    assert Rest(k) == [Value(a, 10)] && Rest(Rest(k)) == [];
    assert Cmp(k, []) == Cmp(Rest(k), []);
    assert Cmp([], []) == 0;
  }
}
