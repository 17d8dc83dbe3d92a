/** Addresses as text: the readers of `validation.js` and the IPv6 writer of `tools/dnsrecordhandlers.js`. */
module Ip {
  import opened Base
  import opened Text

  // ---------------------------------------------------------------- IPv4

  predicate OctetText(p: string) {
    1 <= |p| <= 3 && AllDigits(p)
  }

  /** `/^(\d{1,3})\.(\d{1,3})\.(\d{1,3})\.(\d{1,3})$/` */
  predicate QuadShaped(x: string) {
    var parts := Split(x, '.');
    |parts| == 4 && forall i :: 0 <= i < 4 ==> OctetText(parts[i])
  }

  predicate Octets(v: seq<nat>) {
    |v| == 4 && forall i :: 0 <= i < 4 ==> v[i] <= 255
  }

  function ParseIPv4(x: string): (r: Option<seq<nat>>)
    ensures r.Some? ==> Octets(r.value)
  {
    if !QuadShaped(x) then None
    else
      var p := Split(x, '.');
      var v := [Value(p[0], 10), Value(p[1], 10), Value(p[2], 10), Value(p[3], 10)];
      if v[0] > 255 || v[1] > 255 || v[2] > 255 || v[3] > 255 then None else Some(v)
  }

  function Quad(p: seq<string>): string {
    Join(p, ".")
  }

  /** `'%d.%d.%d.%d'` */
  function ShowIPv4(v: seq<nat>): string
    requires |v| == 4
  {
    Quad([Show(v[0], 10), Show(v[1], 10), Show(v[2], 10), Show(v[3], 10)])
  }

  lemma OctetShown(n: nat)
    requires n <= 255
    ensures OctetText(Show(n, 10)) && '.' !in Show(n, 10) && Value(Show(n, 10), 10) == n
  {
    PowersOfSixteen();
    ShowLength(n, 10, 3);
    ValueOfShow(n, 10);
    assert !IsDigit('.');
  }

  lemma IPv4RoundTrip(v: seq<nat>)
    requires Octets(v)
    ensures ParseIPv4(ShowIPv4(v)) == Some(v)
  {
    var p := [Show(v[0], 10), Show(v[1], 10), Show(v[2], 10), Show(v[3], 10)];
    forall i | 0 <= i < 4 ensures OctetText(p[i]) && '.' !in p[i] && Value(p[i], 10) == v[i] {
      OctetShown(v[i]);
    }
    SplitOfJoin(p, '.');
    assert v == [v[0], v[1], v[2], v[3]];
  }

  // ---------------------------------------------------------------- IPv6, read

  predicate GroupChar(c: char) {
    IsHex(c) || c == ':'
  }

  predicate AllGroupChars(x: string) {
    forall c :: c in x ==> GroupChar(c)
  }

  /** One to four hex digits. */
  predicate GroupText(p: string) {
    1 <= |p| <= 4 && AllHex(p)
  }

  predicate Groups(parts: seq<string>) {
    forall p :: p in parts ==> GroupText(p)
  }

  predicate Words(ws: seq<nat>) {
    forall w :: w in ws ==> w <= 0xFFFF
  }

  /** `x.split(/::/)` */
  function SplitPairs(x: string): (halves: seq<string>)
    ensures |halves| >= 1
  {
    if x == "" then [""]
    else if |x| >= 2 && x[0] == ':' && x[1] == ':' then [""] + SplitPairs(x[2..])
    else
      var more := SplitPairs(x[1..]);
      [[x[0]] + more[0]] + more[1..]
  }

  /** `half||'0'`, split at its colons. */
  function Sides(half: string): seq<string> {
    Split(if half == "" then "0" else half, ':')
  }

  function Values(parts: seq<string>): (ws: seq<nat>)
    requires Groups(parts)
    ensures |ws| == |parts|
  {
    if parts == [] then []
    else
      assert (forall p :: p in parts[..|parts| - 1] ==> p in parts) && parts[|parts| - 1] in parts;
      Values(parts[..|parts| - 1]) + [Value(parts[|parts| - 1], 16)]
  }

  function Zeros(n: nat): (ws: seq<nat>)
    ensures |ws| == n && Words(ws)
  {
    if n == 0 then [] else Zeros(n - 1) + [0]
  }

  /** The part before the last colon and the dotted part after it, if it is one. */
  function Embedded(x: string): Option<(string, string)> {
    var parts := Split(x, ':');
    var v6, v4 := Join(parts[..|parts| - 1], ":"), parts[|parts| - 1];
    if |parts| > 1 && v6 != "" && AllGroupChars(v6) && QuadShaped(v4) then Some((v6, v4)) else None
  }

  /** The text with its dotted part turned into two groups. */
  function Undotted(v6: string, v4: seq<nat>): string
    requires Octets(v4)
  {
    v6 + (":" + (Show(v4[0] * 256 + v4[1], 16) + (":" + Show(v4[2] * 256 + v4[3], 16))))
  }

  function ReadIPv6(x: string): Option<seq<nat>> {
    var e := Embedded(x);
    if e.None? then ReadGroups(x)
    else
      var v4 := ParseIPv4(e.value.1);
      if v4.None? then None else ReadGroups(Undotted(e.value.0, v4.value))
  }

  predicate Fits(halves: nat, prefix: nat, suffix: nat) {
    if suffix > 0 then prefix + suffix <= 7 else (halves >= 2 || prefix >= 8) && prefix <= 8
  }

  function ReadGroups(x: string): Option<seq<nat>> {
    if x == "" || !AllGroupChars(x) then None
    else
      var halves := SplitPairs(x);
      if |halves| > 2 then None
      else
        var prefix := Sides(halves[0]);
        var suffix := if |halves| > 1 then Sides(halves[1]) else [];
        Assembled(|halves|, prefix, suffix)
  }

  /** The words of the groups on both sides. */
  function Assembled(halves: nat, prefix: seq<string>, suffix: seq<string>): Option<seq<nat>> {
    if !Fits(halves, |prefix|, |suffix|) || !Groups(prefix) || !Groups(suffix) then None
    else Some(Values(prefix) + Zeros(8 - |prefix| - |suffix|) + Values(suffix))
  }

  /** `parseInt(p, 16)`, for text over the hex digits. */
  function ParseWord(p: string): Option<nat> {
    if p != "" && AllHex(p) then Some(Value(p, 16)) else None
  }

  /** The loop that reads one side. */
  method ReadSide(parts: seq<string>) returns (words: Option<seq<nat>>)
    ensures words == if Groups(parts) then Some(Values(parts)) else None
  {
    var ws: seq<nat> := [];
    var i := 0;
    assert parts[..0] == [];
    while i < |parts|
      invariant 0 <= i <= |parts|
      invariant Groups(parts[..i]) && ws == Values(parts[..i])
    {
      var word := ParseWord(parts[i]);
      if |parts[i]| <= 4 && word.Some? {
        GroupFits(parts[i]);
      }
      if |parts[i]| <= 4 && word.Some? && word.value <= 0xFFFF {
        assert parts[..i + 1][..i] == parts[..i];
        ws := ws + [word.value];
        i := i + 1;
      } else {
        assert parts[i] in parts && !GroupText(parts[i]);
        return None;
      }
    }
    assert parts[..i] == parts;
    words := Some(ws);
  }

  method ParseIPv6(x: string) returns (words: Option<seq<nat>>)
    ensures words == ReadIPv6(x)
    ensures words.Some? ==> |words.value| == 8 && Words(words.value)
  {
    ReadShape(x);
    var e := Embedded(x);
    if e.None? {
      words := ParseGroups(x);
    } else {
      var v4 := ParseIPv4(e.value.1);
      if v4.None? {
        return None;
      }
      words := ParseGroups(Undotted(e.value.0, v4.value));
    }
  }

  /** `parseIPv6`, from where there is no dotted part any more. */
  method ParseGroups(x: string) returns (words: Option<seq<nat>>)
    ensures words == ReadGroups(x)
  {
    if x == "" || !AllGroupChars(x) {
      return None;
    }
    var halves := SplitPairs(x);
    if |halves| > 2 {
      return None;
    }
    var prefix := Sides(halves[0]);
    var suffix := if |halves| > 1 then Sides(halves[1]) else [];
    if if |suffix| > 0 then |prefix| + |suffix| > 7 else (|halves| < 2 && |prefix| < 8) || |prefix| > 8 {
      return None;
    }
    assert Fits(|halves|, |prefix|, |suffix|);
    words := ReadSides(prefix, suffix);
  }

  /** The three loops. */
  method ReadSides(prefix: seq<string>, suffix: seq<string>) returns (words: Option<seq<nat>>)
    requires |prefix| + |suffix| <= 8
    ensures words == if Groups(prefix) && Groups(suffix)
      then Some(Values(prefix) + Zeros(8 - |prefix| - |suffix|) + Values(suffix)) else None
  {
    var front := ReadSide(prefix);
    if front.None? {
      return None;
    }
    var ws := front.value;
    var i := 0;
    EmptyIsUnit(ws);
    while i < 8 - |prefix| - |suffix|
      invariant 0 <= i <= 8 - |prefix| - |suffix|
      invariant ws == front.value + Zeros(i)
    {
      Associative(front.value, Zeros(i), [0]);
      ws := ws + [0];
      i := i + 1;
    }
    var back := ReadSide(suffix);
    words := if back.None? then None else Some(ws + back.value);
  }

  // ---------------------------------------------------------------- what the reader accepts

  lemma GroupFits(p: string)
    requires GroupText(p)
    ensures Value(p, 16) <= 0xFFFF
  {
    PowersOfSixteen();
    ValueBound(p, 16);
    PowerGrows(16, |p|, 4);
  }

  lemma {:induction false} PowerGrows(base: nat, k: nat, m: nat)
    requires base > 0 && k <= m
    ensures 0 < Power(base, k) <= Power(base, m)
    decreases m
  {
    if k < m {
      PowerGrows(base, k, m - 1);
      MultipleGrows(base, Power(base, m - 1));
    } else if k > 0 {
      PowerGrows(base, k - 1, m - 1);
      MultipleGrows(base, Power(base, m - 1));
    }
  }

  lemma MultipleGrows(k: nat, x: nat)
    requires k > 0 && x > 0
    ensures x <= k * x
  {
  }

  lemma {:induction false} ValuesAreWords(parts: seq<string>)
    requires Groups(parts)
    ensures Words(Values(parts))
  {
    if parts != [] {
      var front := parts[..|parts| - 1];
      assert Groups(front) by { assert forall p :: p in front ==> p in parts; }
      ValuesAreWords(front);
      assert parts[|parts| - 1] in parts;
      GroupFits(parts[|parts| - 1]);
    }
  }

  /** An address that was read has eight words of sixteen bits. */
  lemma ReadShape(x: string)
    ensures ReadIPv6(x).Some? ==> |ReadIPv6(x).value| == 8 && Words(ReadIPv6(x).value)
    ensures ReadGroups(x).Some? ==> |ReadGroups(x).value| == 8 && Words(ReadGroups(x).value)
  {
    GroupsShape(x);
    var e := Embedded(x);
    if e.Some? && ParseIPv4(e.value.1).Some? {
      GroupsShape(Undotted(e.value.0, ParseIPv4(e.value.1).value));
    }
  }

  lemma GroupsShape(x: string)
    ensures ReadGroups(x).Some? ==> |ReadGroups(x).value| == 8 && Words(ReadGroups(x).value)
  {
    if ReadGroups(x).Some? {
      var halves := SplitPairs(x);
      ValuesAreWords(Sides(halves[0]));
      if |halves| > 1 {
        ValuesAreWords(Sides(halves[1]));
      }
    }
  }

  function Colons(parts: seq<string>): string {
    Join(parts, ":")
  }

  /** Two lists of groups with `::` between them. */
  function Elided(p: seq<string>, s: seq<string>): string {
    Colons(p) + ("::" + Colons(s))
  }

  /** How many groups the reader counts on a side: an empty one counts as a zero. */
  function Room(p: seq<string>): nat {
    if p == [] then 1 else |p|
  }

  predicate Eight(x: string, p: seq<string>) {
    Groups(p) && |p| == 8 && x == Colons(p)
  }

  predicate Shortened(x: string, p: seq<string>, s: seq<string>) {
    Groups(p) && Groups(s) && Room(p) + Room(s) <= 7 && x == Elided(p, s)
  }

  /** The words of two lists of groups with zeros between them. */
  function Expansion(p: seq<string>, s: seq<string>): seq<nat>
    requires Groups(p) && Groups(s) && |p| + |s| <= 8
  {
    Values(p) + Zeros(8 - |p| - |s|) + Values(s)
  }

  lemma {:induction false} PairsPlain(p: seq<string>, rest: string)
    requires Groups(p)
    ensures SplitPairs(Colons(p)) == [Colons(p)]
    ensures SplitPairs(Elided0(p, rest)) == [Colons(p)] + SplitPairs(rest)
    decreases |p|
  {
    if p == [] {
      assert Elided0(p, rest)[2..] == rest;
    } else {
      assert p[0] in p;
      if |p| == 1 {
        PairsGroup(p[0], "");
        PairsGroup(p[0], "::" + rest);
        assert SplitPairs("::" + rest) == [""] + SplitPairs(rest) by { assert ("::" + rest)[2..] == rest; }
        assert p[0] + "" == p[0];
      } else {
        var more := p[1..];
        assert Groups(more) by { assert forall g :: g in more ==> g in p; }
        PairsPlain(more, rest);
        PairsColon(more, "");
        PairsColon(more, "::" + rest);
        EmptyIsUnit(Colons(more));
        EmptyIsUnit(":" + Colons(more));
        PairsGroup(p[0], ":" + Colons(more));
        PairsGroup(p[0], ":" + (Colons(more) + ("::" + rest)));
        Associative(":", Colons(more), "::" + rest);
        Associative(p[0], ":" + Colons(more), "::" + rest);
      }
    }
  }

  function Elided0(p: seq<string>, rest: string): string {
    Colons(p) + ("::" + rest)
  }

  /** A single colon before a group does not split. */
  lemma PairsColon(more: seq<string>, rest: string)
    requires Groups(more) && more != []
    ensures var x := Colons(more) + rest; var r := SplitPairs(x);
      SplitPairs(":" + x) == [":" + r[0]] + r[1..]
  {
    assert more[0] in more && more[0][0] in more[0];
    var x := Colons(more) + rest;
    assert x[0] == more[0][0];
    assert (":" + x)[1] == x[0] && (":" + x)[1..] == x;
  }

  /** A group does not split. */
  lemma {:induction false} PairsGroup(g: string, rest: string)
    requires AllHex(g)
    ensures var r := SplitPairs(rest); SplitPairs(g + rest) == [g + r[0]] + r[1..]
  {
    var r := SplitPairs(rest);
    if g == "" {
      assert g + rest == rest && g + r[0] == r[0];
    } else {
      assert g[0] in g && g[0] != ':';
      assert (g + rest)[1..] == g[1..] + rest;
      PairsGroup(g[1..], rest);
      Associative([g[0]], g[1..], r[0]);
      assert g == [g[0]] + g[1..];
    }
  }

  lemma NoColons(p: seq<string>)
    requires Groups(p)
    ensures forall g :: g in p ==> ':' !in g
  {
    assert !IsHex(':');
  }

  lemma ColonsChars(p: seq<string>)
    requires Groups(p)
    ensures AllGroupChars(Colons(p)) && (Colons(p) == "" <==> p == [])
  {
    CharsOfJoin(p, ":");
    if p != [] {
      assert p[0] in p;
    }
  }

  /** What is left of a side. */
  lemma SideOf(p: seq<string>)
    requires Groups(p)
    ensures Sides(Colons(p)) == if p == [] then ["0"] else p
    ensures Groups(["0"]) && Values(["0"]) == Zeros(1)
  {
    ColonsChars(p);
    if p != [] {
      NoColons(p);
      SplitOfJoin(p, ':');
    }
    SplitPlain("0", ':');
    var zero := ["0"];
    assert zero[..0] == [] && "0"[..0] == "";
    assert Value("0", 16) == 0;
    assert Zeros(1) == Zeros(0) + [0];
  }

  lemma {:induction false} ZerosAppend(m: nat, n: nat)
    ensures Zeros(m) + Zeros(n) == Zeros(m + n)
  {
    if n > 0 {
      ZerosAppend(m, n - 1);
    }
  }

  /** Eight groups are read as they are. */
  lemma EightAreRead(p: seq<string>)
    requires Groups(p) && |p| == 8
    ensures ReadGroups(Colons(p)) == Some(Values(p))
  {
    ColonsChars(p);
    PairsPlain(p, "");
    SideOf(p);
    EmptyIsUnit(Values(p));
    assert Zeros(0) == [];
    assert Values([]) == [];
  }

  /**
   Groups with `::` between them are read exactly when the reader has room for them; an
   empty side takes room for one group, so that there a `::` never stands for a single one.
   */
  lemma ElisionIsRead(p: seq<string>, s: seq<string>)
    requires Groups(p) && Groups(s) && |p| + |s| <= 7
    ensures ReadGroups(Elided(p, s)) == if Room(p) + Room(s) <= 7 then Some(Expansion(p, s)) else None
  {
    ElisionSplits(p, s);
    SideOf(p);
    SideOf(s);
    var prefix, suffix := Sides(Colons(p)), Sides(Colons(s));
    assert ReadGroups(Elided(p, s)) == Assembled(2, prefix, suffix);
    ElisionAssembles(p, s, prefix, suffix);
  }

  lemma ElisionAssembles(p: seq<string>, s: seq<string>, prefix: seq<string>, suffix: seq<string>)
    requires Groups(p) && Groups(s) && |p| + |s| <= 7
    requires prefix == (if p == [] then ["0"] else p) && suffix == (if s == [] then ["0"] else s)
    requires Groups(["0"]) && Values(["0"]) == Zeros(1)
    ensures Assembled(2, prefix, suffix) == if Room(p) + Room(s) <= 7 then Some(Expansion(p, s)) else None
  {
    if Room(p) + Room(s) <= 7 {
      RoomExpands(p, s, 8 - |prefix| - |suffix|, Values(prefix), Values(suffix));
    }
  }

  lemma ElisionSplits(p: seq<string>, s: seq<string>)
    requires Groups(p) && Groups(s)
    ensures SplitPairs(Elided(p, s)) == [Colons(p), Colons(s)] && AllGroupChars(Elided(p, s)) && Elided(p, s) != ""
  {
    ColonsChars(p);
    ColonsChars(s);
    PairsPlain(p, Colons(s));
    PairsPlain(s, "");
    assert AllGroupChars("::");
  }

  lemma RoomExpands(p: seq<string>, s: seq<string>, n: nat, front: seq<nat>, back: seq<nat>)
    requires Groups(p) && Groups(s) && Room(p) + Room(s) + n == 8
    requires front == if p == [] then Zeros(1) else Values(p)
    requires back == if s == [] then Zeros(1) else Values(s)
    ensures front + Zeros(n) + back == Expansion(p, s)
  {
    ZerosAppend(1, n);
    ZerosAppend(n, 1);
    ZerosAppend(n + 1, 1);
    assert Values([]) == [];
    EmptyIsUnit(Zeros(8 - |p| - |s|));
    if s == [] {
      EmptyIsUnit(Values(p) + Zeros(8 - |p|));
      if p != [] { Associative(Values(p), Zeros(n), Zeros(1)); }
    }
  }

  lemma {:induction false} JoinPairs(x: string)
    ensures Join(SplitPairs(x), "::") == x
  {
    if x != "" {
      if |x| >= 2 && x[0] == ':' && x[1] == ':' {
        JoinPairs(x[2..]);
        assert x == "::" + x[2..];
        assert ([""] + SplitPairs(x[2..]))[1..] == SplitPairs(x[2..]);
        assert Join([""] + SplitPairs(x[2..]), "::") == "" + ("::" + x[2..]);
      } else {
        var more := SplitPairs(x[1..]);
        JoinPairs(x[1..]);
        var parts := [[x[0]] + more[0]] + more[1..];
        assert parts[1..] == more[1..];
        assert x == [x[0]] + x[1..];
        Associative([x[0]], more[0], "::" + Join(more[1..], "::"));
      }
    }
  }

  /** The groups of a side that was read. */
  function Group(half: string): seq<string> {
    if half == "" then [] else Split(half, ':')
  }

  lemma GroupIs(half: string)
    requires Groups(Sides(half))
    ensures var p := Group(half); Groups(p) && Colons(p) == half && Room(p) == |Sides(half)|
  {
    SideOf([]);
    if half != "" {
      JoinOfSplit(half, ':');
    }
  }

  /** Nothing else is read. */
  lemma OnlyTheseAreRead(x: string)
    requires ReadGroups(x).Some?
    ensures var halves := SplitPairs(x); var p := Group(halves[0]);
      if |halves| == 1 then Eight(x, p) && ReadGroups(x) == Some(Values(p))
      else |halves| == 2 && Shortened(x, p, Group(halves[1])) && ReadGroups(x) == Some(Expansion(p, Group(halves[1])))
  {
    var halves := SplitPairs(x);
    JoinPairs(x);
    GroupIs(halves[0]);
    if |halves| == 1 {
      assert x == halves[0];
      EightAreRead(Group(x));
    } else {
      GroupIs(halves[1]);
      assert halves[1..] == [halves[1]];
      assert x == halves[0] + ("::" + halves[1]);
      ElisionIsRead(Group(halves[0]), Group(halves[1]));
    }
  }

  /** The reader against the notation: which texts are addresses, and of which words. */
  lemma ReadsTheNotation(x: string, ws: seq<nat>)
    ensures ReadGroups(x) == Some(ws) <==>
      (exists p :: Eight(x, p) && ws == Values(p)) || (exists p, s :: Shortened(x, p, s) && ws == Expansion(p, s))
  {
    if ReadGroups(x) == Some(ws) {
      OnlyTheseAreRead(x);
    }
    forall p | Eight(x, p) ensures ReadGroups(x) == Some(Values(p)) {
      EightAreRead(p);
    }
    forall p, s | Shortened(x, p, s) ensures ReadGroups(x) == Some(Expansion(p, s)) {
      ElisionIsRead(p, s);
    }
  }

  /** A text without dots has no dotted part. */
  lemma NoDots(x: string)
    requires AllGroupChars(x)
    ensures Embedded(x).None? && ReadIPv6(x) == ReadGroups(x)
  {
    LastHasNoDot(x);
    QuadHasDot(Split(x, ':')[|Split(x, ':')| - 1]);
  }

  /** A text with dots and without colons is no IPv6 address. */
  lemma DottedIsNoIPv6(x: string)
    requires '.' in x && ':' !in x
    ensures ReadIPv6(x) == None
  {
    SplitPlain(x, ':');
    assert !GroupChar('.');
  }

  lemma LastHasNoDot(x: string)
    requires AllGroupChars(x)
    ensures '.' !in Split(x, ':')[|Split(x, ':')| - 1]
  {
    var parts := Split(x, ':');
    JoinOfSplit(x, ':');
    LastIsInside(parts);
    assert !GroupChar('.') && Colons(parts) == x;
  }

  lemma QuadHasDot(x: string)
    ensures QuadShaped(x) ==> '.' in x
  {
    var q := Split(x, '.');
    JoinOfSplit(x, '.');
    assert |q| > 1 ==> Join(q, ".") == q[0] + ("." + Join(q[1..], "."));
  }

  lemma {:induction false} LastIsInside(parts: seq<string>)
    requires parts != []
    ensures forall c :: c in parts[|parts| - 1] ==> c in Colons(parts)
  {
    if |parts| > 1 {
      LastIsInside(parts[1..]);
      assert forall c :: c in Colons(parts[1..]) ==> c in Colons(parts);
    }
  }

  /** A `::` at an end that stands for one group: section 2.2 of RFC 4291 allows it, the reader does not. */
  lemma OneGroupAtEnd()
    ensures ReadIPv6("1:2:3:4:5:6:7::") == None
  {
    var p, none := ["1", "2", "3", "4", "5", "6", "7"], [];
    SevenGroups(p);
    EndIsElided(p, none, "1:2:3:4:5:6:7::");
  }

  /** Seven groups before a `::` at the end are not read. */
  lemma EndIsElided(p: seq<string>, none: seq<string>, x: string)
    requires Groups(p) && |p| == 7 && none == [] && x == Colons(p) + "::"
    ensures ReadIPv6(x) == None
  {
    ElisionIsRead(p, none);
    assert Colons(none) == "";
    assert x == Elided(p, none);
    ElisionSplits(p, none);
    NoDots(x);
  }

  lemma SevenGroups(p: seq<string>)
    requires p == ["1", "2", "3", "4", "5", "6", "7"]
    ensures Groups(p) && Colons(p) == "1:2:3:4:5:6:7"
  {
    OneMoreGroup("6", ["7"], "7");
    OneMoreGroup("5", ["6", "7"], "6:7");
    OneMoreGroup("4", ["5", "6", "7"], "5:6:7");
    OneMoreGroup("3", ["4", "5", "6", "7"], "4:5:6:7");
    OneMoreGroup("2", ["3", "4", "5", "6", "7"], "3:4:5:6:7");
    OneMoreGroup("1", ["2", "3", "4", "5", "6", "7"], "2:3:4:5:6:7");
  }

  lemma OneMoreGroup(g: string, tail: seq<string>, text: string)
    requires tail != [] && Colons(tail) == text
    ensures Colons([g] + tail) == g + (":" + text)
  {
  }
}
