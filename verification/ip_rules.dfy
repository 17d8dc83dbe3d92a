/** Which texts are addresses, and how addresses are written, in terms of their parts. */
module IpRules {
  import opened Base
  import opened Text
  import opened Ip
  import opened Ipv6Text

  // ---------------------------------------------------------------- IPv4

  /** Four numbers of one to three digits, up to 255, with dots between them. */
  predicate IsDotted(x: string, p: seq<string>, v: seq<nat>) {
    && |p| == |v| == 4 && x == Join(p, ".")
    && forall i :: 0 <= i < 4 ==> 1 <= |p[i]| <= 3 && AllDigits(p[i]) && Value(p[i], 10) == v[i] <= 255
  }

  lemma DottedSplits(x: string, p: seq<string>, v: seq<nat>)
    requires IsDotted(x, p, v)
    ensures Split(x, '.') == p && '.' in x && forall c :: c in x ==> IsDigit(c) || c == '.'
  {
    forall s | s in p ensures '.' !in s {
      assert !IsDigit('.');
    }
    SplitOfJoin(p, '.');
    CharsOfJoin(p, ".");
    assert x == p[0] + ("." + Join(p[1..], "."));
  }

  /** The IPv4 reader against the notation. */
  lemma IPv4Notation(x: string, v: seq<nat>)
    ensures ParseIPv4(x) == Some(v) <==> exists p :: IsDotted(x, p, v)
  {
    if ParseIPv4(x) == Some(v) {
      JoinOfSplit(x, '.');
      assert IsDotted(x, Split(x, '.'), v);
    }
    forall p | IsDotted(x, p, v) ensures ParseIPv4(x) == Some(v) {
      DottedSplits(x, p, v);
      assert v == [v[0], v[1], v[2], v[3]];
    }
  }

  // ---------------------------------------------------------------- IPv6 with a dotted part

  /** The two words of a dotted part. */
  function DottedWords(v: seq<nat>): seq<nat>
    requires Octets(v)
  {
    [v[0] * 256 + v[1], v[2] * 256 + v[3]]
  }

  function WordTexts(v: seq<nat>): seq<string>
    requires Octets(v)
  {
    [Show(v[0] * 256 + v[1], 16), Show(v[2] * 256 + v[3], 16)]
  }

  /** A dotted part at the end is read as the two groups that it stands for. */
  lemma DottedIsEmbedded(before: string, quad: string, v: seq<nat>)
    requires before != "" && AllGroupChars(before) && ParseIPv4(quad) == Some(v)
    ensures ReadIPv6(before + (":" + quad)) == ReadGroups(before + (":" + Colons(WordTexts(v))))
  {
    EmbeddedIs(before, quad, v);
    var texts := WordTexts(v);
    TwoJoined(texts[0], texts[1]);
    assert texts == [texts[0], texts[1]];
  }

  lemma EmbeddedIs(before: string, quad: string, v: seq<nat>)
    requires before != "" && AllGroupChars(before) && ParseIPv4(quad) == Some(v)
    ensures Embedded(before + (":" + quad)) == Some((before, quad))
  {
    IPv4Notation(quad, v);
    var p :| IsDotted(quad, p, v);
    DottedSplits(quad, p, v);
    assert !IsDigit(':');
    SplitsOff(before, quad);
  }

  /** The last part of a text with colons. */
  lemma {:induction false} SplitsOff(before: string, last: string)
    requires ':' !in last
    ensures var parts := Split(before + (":" + last), ':');
      |parts| > 1 && parts[|parts| - 1] == last && Join(parts[..|parts| - 1], ":") == before
  {
    var front := Split(before, ':');
    JoinOfSplit(before, ':');
    SplitJoined(front, last);
    assert (front + [last])[..|front|] == front;
  }

  lemma SplitJoined(front: seq<string>, last: string)
    requires front != [] && ':' !in last && forall p :: p in front ==> ':' !in p
    ensures Split(Join(front, ":") + (":" + last), ':') == front + [last]
  {
    JoinAppend(front, [last], ":");
    SplitOfJoin(front + [last], ':');
  }

  lemma ValuesOfWords(v: seq<nat>)
    requires Octets(v)
    ensures Groups(WordTexts(v)) && Values(WordTexts(v)) == DottedWords(v)
  {
    var ws := DottedWords(v);
    assert Words(ws);
    ValuesOfTexts(ws);
    assert Texts(ws) == WordTexts(v);
  }

  /** Six groups and a dotted part. */
  lemma SixAndDotted(p: seq<string>, quad: string, v: seq<nat>)
    requires Groups(p) && |p| == 6 && ParseIPv4(quad) == Some(v)
    ensures ReadIPv6(Colons(p) + (":" + quad)) == Some(Values(p) + DottedWords(v))
  {
    var texts := WordTexts(v);
    ColonsChars(p);
    DottedIsEmbedded(Colons(p), quad, v);
    ValuesOfWords(v);
    JoinAppend(p, texts, ":");
    EightAreRead(p + texts);
    ValuesAppend(p, texts);
  }

  /** Groups, `::`, more groups and a dotted part, with room for a zero. */
  lemma ElidedAndDotted(p: seq<string>, s: seq<string>, quad: string, v: seq<nat>)
    requires Groups(p) && Groups(s) && s != [] && Room(p) + |s| <= 5 && ParseIPv4(quad) == Some(v)
    ensures ReadIPv6(Colons(p) + ("::" + Colons(s)) + (":" + quad)) ==
      Some(Values(p) + Zeros(6 - |p| - |s|) + (Values(s) + DottedWords(v)))
  {
    var texts := WordTexts(v);
    ElisionSplits(p, s);
    DottedIsEmbedded(Elided(p, s), quad, v);
    ValuesOfWords(v);
    JoinAppend(s, texts, ":");
    ElidedAppends(Colons(p), Colons(s), Colons(texts));
    ElisionIsRead(p, s + texts);
    ValuesAppend(s, texts);
  }

  lemma ElidedAppends(p: string, s: string, t: string)
    ensures (p + ("::" + s)) + (":" + t) == p + ("::" + (s + (":" + t)))
  {
  }

  /** An IPv4 address as an IPv6 one. */
  lemma MappedAddress(v: seq<nat>)
    requires Octets(v)
    ensures ReadIPv6("::ffff:" + ShowIPv4(v)) == Some([0, 0, 0, 0, 0, 0xffff, v[0] * 256 + v[1], v[2] * 256 + v[3]])
  {
    var none: seq<string> := [];
    var s := ["ffff"];
    IPv4RoundTrip(v);
    FfffIsGroup(s);
    ElidedAndDotted(none, s, ShowIPv4(v), v);
    assert Colons(none) == "" && Colons(s) == "ffff";
    assert "" + ("::" + "ffff") + (":" + ShowIPv4(v)) == "::ffff:" + ShowIPv4(v);
    var n := 5;
    FiveZeros(n);
    assert Values(none) == [];
    SameWords(Zeros(n), v);
  }

  lemma SameWords(zeros: seq<nat>, v: seq<nat>)
    requires zeros == [0, 0, 0, 0, 0] && Octets(v)
    ensures [] + zeros + ([0xffff] + DottedWords(v)) == [0, 0, 0, 0, 0, 0xffff, v[0] * 256 + v[1], v[2] * 256 + v[3]]
  {
  }

  lemma FfffIsGroup(s: seq<string>)
    requires s == ["ffff"]
    ensures Groups(s) && Values(s) == [0xffff]
  {
    var t := s[0];
    assert GroupText(t);
    assert t[..3][..2][..1] == "f" && t[..3][..2] == "ff" && t[..3] == "fff";
    assert Value("f", 16) == 15;
    assert Value("ff", 16) == 255;
    assert Value("fff", 16) == 4095;
    assert s[..0] == [];
  }

  lemma FiveZeros(n: nat)
    requires n == 5
    ensures Zeros(n) == [0, 0, 0, 0, 0]
  {
    assert Zeros(n - 4) == [0] && Zeros(n - 3) == [0, 0] && Zeros(n - 2) == [0, 0, 0] && Zeros(n - 1) == [0, 0, 0, 0];
  }

  // ---------------------------------------------------------------- writing

  /** Words from `a` on, `n` of them, are zero. */
  predicate AreZero(ws: seq<nat>, a: nat, n: nat) {
    a + n <= |ws| && forall i :: a <= i < a + n ==> ws[i] == 0
  }

  /** The first of the longest runs of zeros. */
  ghost predicate FirstLongest(ws: seq<nat>, a: nat, n: nat) {
    AreZero(ws, a, n) && forall b: nat, m: nat :: AreZero(ws, b, m) ==> m < n || (m == n && a <= b)
  }

  /**
   The text of an address (section 4.2 of RFC 5952): without two zeros in a row all groups
   are written, and otherwise the first of the longest runs of zeros is left out.
   */
  lemma CompressedForm(ws: seq<nat>)
    ensures (forall i :: 0 <= i < |ws| - 1 ==> ws[i] != 0 || ws[i + 1] != 0) ==> Compressed(ws) == Colons(Texts(ws))
    ensures forall a: nat, n: nat :: n >= 2 && FirstLongest(ws, a, n) ==>
      Compressed(ws) == Colons(Texts(ws[..a])) + ("::" + Colons(Texts(ws[a + n..])))
  {
    var r := BestRun(ws, |ws|);
    if r.1 >= 2 {
      assert ws[r.0] == 0 && ws[r.0 + 1] == 0;
    }
    forall a: nat, n: nat | n >= 2 && FirstLongest(ws, a, n)
      ensures Compressed(ws) == Colons(Texts(ws[..a])) + ("::" + Colons(Texts(ws[a + n..])))
    {
      forall c: nat, m: nat | ZeroRun(ws, c, m) ensures m < n || (m == n && a <= c) {
        assert AreZero(ws, c, m);
      }
      LeftmostLongestIsElided(ws, a, n);
    }
  }

  /** An address with a run of two zeros and one single zero. */
  lemma KnownText(ws: seq<nat>)
    requires ws == [0x2001, 0xdb8, 0, 0, 1, 0, 7, 0xab]
    ensures Compressed(ws) == "2001:db8::1:0:7:ab"
  {
    assert FirstLongest(ws, 2, 2) by {
      forall b: nat, m: nat | AreZero(ws, b, m) ensures m < 2 || (m == 2 && 2 <= b) {
        OneOf(ws, b, m);
      }
    }
    CompressedForm(ws);
    assert ws[..2] == [0x2001, 0xdb8] && ws[2 + 2..] == [1, 0, 7, 0xab];
    KnownGroups([0x2001, 0xdb8], [1, 0, 7, 0xab]);
  }

  /** A run has no word that is not zero. */
  lemma OneOf(ws: seq<nat>, b: nat, m: nat)
    requires AreZero(ws, b, m) && |ws| == 8 && ws[0] != 0 && ws[1] != 0 && ws[4] != 0 && ws[6] != 0 && ws[7] != 0
    ensures m < 2 || (m == 2 && 2 <= b)
  {
    NotInRun(ws, b, m, 0);
    NotInRun(ws, b, m, 1);
    NotInRun(ws, b, m, 4);
    NotInRun(ws, b, m, 6);
    NotInRun(ws, b, m, 7);
  }

  lemma NotInRun(ws: seq<nat>, b: nat, m: nat, i: nat)
    requires AreZero(ws, b, m) && i < |ws| && ws[i] != 0
    ensures !(b <= i < b + m)
  {
  }

  lemma KnownGroups(front: seq<nat>, back: seq<nat>)
    requires front == [0x2001, 0xdb8] && back == [1, 0, 7, 0xab]
    ensures Colons(Texts(front)) == "2001:db8" && Colons(Texts(back)) == "1:0:7:ab"
  {
    TextOfDigits(0x2001, 0x200, 1);
    TextOfDigits(0x200, 0x20, 0);
    TextOfDigits(0x20, 2, 0);
    TextOfDigits(0xdb8, 0xdb, 8);
    TextOfDigits(0xdb, 13, 11);
    TextOfDigits(0xab, 10, 11);
    assert Show(2, 16) == "2" && Show(13, 16) == "d" && Show(10, 16) == "a";
    assert Show(0x20, 16) == "20" && Show(0x200, 16) == "200" && Show(0x2001, 16) == "2001";
    assert Show(0xdb, 16) == "db" && Show(0xdb8, 16) == "db8" && Show(0xab, 16) == "ab";
    assert Show(1, 16) == "1" && Show(0, 16) == "0" && Show(7, 16) == "7";
    assert Texts(front) == ["2001", "db8"] && Texts(back) == ["1", "0", "7", "ab"];
    TwoJoined("2001", "db8");
    FourJoined("1", "0", "7", "ab");
  }

  lemma TextOfDigits(n: nat, front: nat, last: nat)
    requires front > 0 && last < 16 && n == front * 16 + last
    ensures Show(n, 16) == Show(front, 16) + [DigitChar(last)]
  {
    assert n / 16 == front && n % 16 == last;
  }

  lemma TwoJoined(a: string, b: string)
    ensures Colons([a, b]) == a + (":" + b)
  {
    assert [a, b][1..] == [b];
    assert Colons([b]) == b;
  }

  lemma FourJoined(a: string, b: string, c: string, d: string)
    ensures Colons([a, b, c, d]) == a + (":" + (b + (":" + (c + (":" + d)))))
  {
    assert [a, b, c, d][1..] == [b, c, d] && [b, c, d][1..] == [c, d];
    TwoJoined(c, d);
    assert Colons([b, c, d]) == b + (":" + Colons([c, d]));
  }
}
