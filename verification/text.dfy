/** Numerals, splitting and joining: the string operations the codecs are written with. */
module Text {
  import opened Base
  import opened Bits

  predicate IsDigit(c: char) {
    '0' <= c <= '9'
  }

  predicate IsHex(c: char) {
    IsDigit(c) || 'a' <= c <= 'f' || 'A' <= c <= 'F'
  }

  predicate AllDigits(s: string) {
    forall c :: c in s ==> IsDigit(c)
  }

  predicate AllHex(s: string) {
    forall c :: c in s ==> IsHex(c)
  }

  function DigitValue(c: char): (v: nat)
    requires IsHex(c)
    ensures v < 16 && (IsDigit(c) ==> v < 10)
  {
    if IsDigit(c) then c as int - '0' as int
    else if 'a' <= c <= 'f' then c as int - 'a' as int + 10
    else c as int - 'A' as int + 10
  }

  function DigitChar(d: nat): (c: char)
    requires d < 16
    ensures IsHex(c) && DigitValue(c) == d && (d < 10 <==> IsDigit(c)) && !('A' <= c <= 'F')
  {
    if d < 10 then '0' + d as char else 'a' + (d - 10) as char
  }

  /** A base in which numbers are written. */
  type Base16 = b: nat | b == 10 || b == 16 witness 10

  predicate Numeral(s: string, base: Base16) {
    if base == 10 then AllDigits(s) else AllHex(s)
  }

  /** `parseInt(s, base)`, for a numeral. */
  function Value(s: string, base: Base16): nat
    requires Numeral(s, base)
  {
    if s == "" then 0 else Value(s[..|s| - 1], base) * base + DigitValue(s[|s| - 1])
  }

  /** `n.toString(base)` */
  function Show(n: nat, base: Base16): (s: string)
    ensures s != "" && Numeral(s, base)
  {
    if n < base then [DigitChar(n)] else Show(n / base, base) + [DigitChar(n % base)]
  }

  lemma {:induction false} ValueOfShow(n: nat, base: Base16)
    ensures Value(Show(n, base), base) == n
  {
    var s := Show(n, base);
    if n < base {
      assert s[..|s| - 1] == "";
    } else {
      ValueOfShow(n / base, base);
      assert s[..|s| - 1] == Show(n / base, base);
    }
  }

  /** Only zero is shown with a leading zero. */
  lemma {:induction false} NoLeadingZero(n: nat, base: Base16)
    ensures Show(n, base)[0] == '0' <==> n == 0
  {
    if n >= base {
      NoLeadingZero(n / base, base);
    }
  }

  lemma ShowZero(n: nat, base: Base16)
    ensures Show(n, base) == "0" <==> n == 0
  {
    NoLeadingZero(n, base);
  }

  lemma PowersOfSixteen()
    ensures Power(16, 1) == 0x10 && Power(16, 2) == 0x100 && Power(16, 4) == 0x1_0000
    ensures Power(10, 1) == 10 && Power(10, 3) == 1000 && Power(10, 5) == 100_000
  {
    assert Power(16, 2) == 0x100;
    assert Power(10, 3) == 1000;
  }

  lemma QuotientIsSmaller(n: nat, base: nat, p: nat)
    requires base > 0 && n < base * p
    ensures n / base < p
  {
    var q := n / base;
    Distributes(base, q, p);
    assert q >= p ==> base * (q - p) >= 0;
  }

  lemma {:induction false} ShowLength(n: nat, base: Base16, k: nat)
    requires k > 0 && n < Power(base, k)
    ensures |Show(n, base)| <= k
  {
    assert Power(base, 1) == base * Power(base, 0);
    if n >= base {
      if k > 1 {
        QuotientIsSmaller(n, base, Power(base, k - 1));
        ShowLength(n / base, base, k - 1);
      }
    }
  }

  lemma {:induction false} ValueBound(s: string, base: Base16)
    requires Numeral(s, base)
    ensures Value(s, base) < Power(base, |s|)
  {
    if s != "" {
      var front := s[..|s| - 1];
      ValueBound(front, base);
      assert (Value(front, base) + 1) * base <= Power(base, |s| - 1) * base by {
        Distributes(base, Power(base, |s| - 1), Value(front, base) + 1);
        assert (Power(base, |s| - 1) - Value(front, base) - 1) * base >= 0;
      }
    }
  }

  lemma {:induction false} ValueAppend(s: string, t: string, base: Base16)
    requires Numeral(s, base) && Numeral(t, base)
    ensures Numeral(s + t, base) && Value(s + t, base) == Value(s, base) * Power(base, |t|) + Value(t, base)
  {
    if t == "" {
      EmptyIsUnit(s);
    } else {
      var front := t[..|t| - 1];
      ValueAppend(s, front, base);
      assert (s + t)[..|s + t| - 1] == s + front;
      var p := Power(base, |t| - 1);
      Distributes(base, Value(s, base) * p, Value(front, base));
      MulAssociates(base, Value(s, base), p);
      MulAssociates(Value(s, base), base, p);
    }
  }

  /** `s.padStart(width, '0')` */
  function Pad(s: string, width: nat): (t: string)
    ensures |t| == if |s| < width then width else |s|
    ensures AllHex(s) ==> AllHex(t)
    decreases width - |s|
  {
    if |s| >= width then s else Pad("0" + s, width)
  }

  lemma {:induction false} ValueOfPad(s: string, width: nat)
    requires AllHex(s)
    ensures Value(Pad(s, width), 16) == Value(s, 16)
    decreases width - |s|
  {
    if |s| < width {
      ValueAppend("0", s, 16);
      assert "0"[..0] == "" && Value("0", 16) == 0;
      ValueOfPad("0" + s, width);
    }
  }

  // ---------------------------------------------------------------- splitting

  /** `s.split(sep)` */
  function Split(s: string, sep: char): (parts: seq<string>)
    ensures |parts| >= 1
  {
    if s == "" then [""]
    else
      var more := Split(s[1..], sep);
      if s[0] == sep then [""] + more else [[s[0]] + more[0]] + more[1..]
  }

  /** `parts.join(sep)` */
  function Join(parts: seq<string>, sep: string): string {
    if parts == [] then ""
    else if |parts| == 1 then parts[0]
    else parts[0] + (sep + Join(parts[1..], sep))
  }

  lemma {:induction false} SplitPlain(s: string, sep: char)
    requires sep !in s
    ensures Split(s, sep) == [s]
  {
    if s != "" {
      SplitPlain(s[1..], sep);
      assert s == [s[0]] + s[1..];
    }
  }

  /** Splitting at one place, and further on both sides of it. */
  lemma {:induction false} SplitAt(s: string, t: string, sep: char)
    ensures Split(s + ([sep] + t), sep) == Split(s, sep) + Split(t, sep)
  {
    var whole := s + ([sep] + t);
    if s == "" {
      assert whole == [sep] + t && whole[1..] == t;
    } else {
      assert whole[0] == s[0] && whole[1..] == s[1..] + ([sep] + t);
      SplitAt(s[1..], t, sep);
    }
  }

  lemma {:induction false} SplitOfJoin(parts: seq<string>, sep: char)
    requires parts != [] && forall p :: p in parts ==> sep !in p
    ensures Split(Join(parts, [sep]), sep) == parts
  {
    SplitPlain(parts[0], sep);
    if |parts| > 1 {
      SplitOfJoin(parts[1..], sep);
      SplitAt(parts[0], Join(parts[1..], [sep]), sep);
      assert parts == [parts[0]] + parts[1..];
    }
  }

  lemma {:induction false} JoinOfSplit(s: string, sep: char)
    ensures Join(Split(s, sep), [sep]) == s
    ensures forall p :: p in Split(s, sep) ==> sep !in p
  {
    if s != "" {
      var more := Split(s[1..], sep);
      JoinOfSplit(s[1..], sep);
      assert s == [s[0]] + s[1..];
      if s[0] == sep {
        assert ([""] + more)[1..] == more;
      } else {
        var parts := [[s[0]] + more[0]] + more[1..];
        assert sep !in more[0];
        assert forall p :: p in parts ==> p == parts[0] || p in more;
        assert parts[1..] == more[1..];
        Associative([s[0]], more[0], [sep] + Join(more[1..], [sep]));
      }
    }
  }

  lemma {:induction false} JoinAppend(a: seq<string>, b: seq<string>, sep: string)
    requires a != [] && b != []
    ensures Join(a + b, sep) == Join(a, sep) + (sep + Join(b, sep))
  {
    if |a| == 1 {
      assert (a + b)[1..] == b;
    } else {
      JoinAppend(a[1..], b, sep);
      assert (a + b)[1..] == a[1..] + b;
      Associative(sep, Join(a[1..], sep), sep + Join(b, sep));
      Associative(a[0], sep + Join(a[1..], sep), sep + Join(b, sep));
    }
  }

  lemma {:induction false} CharsOfJoin(parts: seq<string>, sep: string)
    ensures forall c :: c in Join(parts, sep) ==> c in sep || exists p :: p in parts && c in p
  {
    if |parts| > 1 {
      CharsOfJoin(parts[1..], sep);
      forall c | c in Join(parts, sep) ensures c in sep || exists p :: p in parts && c in p {
        if c in Join(parts[1..], sep) && c !in sep {
          var p :| p in parts[1..] && c in p;
          assert p in parts;
        } else if c !in sep {
          assert parts[0] in parts;
        }
      }
    } else if |parts| == 1 {
      assert parts[0] in parts;
    }
  }

  // ---------------------------------------------------------------- trimming

  /** White space and line ends, as `trim` and `\s` understand them. */
  predicate IsSpace(c: char) {
    '\t' <= c <= '\r' || c == ' ' || c == '\U{A0}' || c == '\U{1680}' || '\U{2000}' <= c <= '\U{200A}' || LineBreak(c)
    || c == '\U{202F}' || c == '\U{205F}' || c == '\U{3000}' || c == '\U{FEFF}'
  }

  predicate LineBreak(c: char) {
    c == '\n' || c == '\r' || c == '\U{2028}' || c == '\U{2029}'
  }

  function TrimLeft(s: string): (t: string)
    ensures |t| <= |s|
  {
    if s != "" && IsSpace(s[0]) then TrimLeft(s[1..]) else s
  }

  function TrimRight(s: string): (t: string)
    ensures |t| <= |s|
  {
    if s != "" && IsSpace(s[|s| - 1]) then TrimRight(s[..|s| - 1]) else s
  }

  /** `s.trim()` */
  function Trim(s: string): (t: string)
    ensures |t| <= |s|
  {
    TrimRight(TrimLeft(s))
  }

  /** No white space at the ends. */
  predicate Trimmed(s: string) {
    s != "" ==> !IsSpace(s[0]) && !IsSpace(s[|s| - 1])
  }

  lemma TrimKeeps(s: string)
    requires Trimmed(s)
    ensures Trim(s) == s
  {
  }

  /** What does not start with white space is not blank. */
  lemma TrimKeepsSome(s: string)
    requires s != "" && !IsSpace(s[0])
    ensures Trim(s) != ""
  {
    TrimRightKeepsSome(s);
  }

  lemma {:induction false} TrimRightKeepsSome(s: string)
    requires s != "" && !IsSpace(s[0])
    ensures TrimRight(s) != ""
  {
    if IsSpace(s[|s| - 1]) {
      TrimRightKeepsSome(s[..|s| - 1]);
    }
  }

  /** `s.replace(/^"(.*)"$/, '$1')` */
  function Unquote(s: string): string {
    if |s| >= 2 && s[0] == '"' && s[|s| - 1] == '"' && (forall i :: 1 <= i < |s| - 1 ==> !LineBreak(s[i]))
    then s[1..|s| - 1] else s
  }

  /** `s.replace(/\\(.)/g, '$1')` */
  function Unescape(s: string): (t: string)
    ensures |t| <= |s|
  {
    if s == "" then ""
    else if s[0] == '\\' && |s| > 1 && !LineBreak(s[1]) then [s[1]] + Unescape(s[2..])
    else [s[0]] + Unescape(s[1..])
  }
}
