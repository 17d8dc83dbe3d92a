/** When a record is built, and what a parser makes of other texts. */
module SvcbRules {
  import opened Base
  import opened Text
  import opened Sorting
  import opened SvcValues
  import opened SvcParams
  import opened Svcb
  import opened SvcbRoundTrip

  // ---------------------------------------------------------------- alias mode

  /** A record of priority 0 has its target and nothing else, whatever the lines are. */
  lemma AliasRoundTrip(b64: Base64, labels: seq<string>, target: string, lines: seq<string>)
    requires GoodLabels(labels) && labels != []
    requires target == Target(labels) || target == Join(labels, ".")
    ensures var built := Build(b64, Some(0), target, lines);
      built.Hex? && Parse(b64, built.text) == Record(0, Target(labels), [])
  {
    var none: seq<Param> := [];
    HeaderOf(0, labels, target);
    StrippedIsNoRoot(labels, target);
    PacketIsRead(b64, 0, labels, none);
    assert Map(none, EntryOf) == [] && Emit([]) == [];
    EmptyIsUnit(Header(0, target));
    assert Lines(b64, none) == [];
  }

  lemma StrippedIsNoRoot(labels: seq<string>, target: string)
    requires GoodLabels(labels) && labels != []
    requires target == Target(labels) || target == Join(labels, ".")
    ensures Stripped(target) != "."
  {
    var joined := Join(labels, ".");
    LastLabel(labels);
    assert target == joined + "." ==> target[..|target| - 1] == joined;
  }

  /** Without a target there is no alias; a single dot that is doubled counts as none too. */
  lemma AliasOfRoot(b64: Base64, target: string, lines: seq<string>)
    ensures Build(b64, Some(0), target, lines) == Null <==> target == "." || target == ".."
  {
    if target != "" && target != "." && target[|target| - 1] == '.' {
      assert target == target[..|target| - 1] + ".";
    }
  }

  /** A priority that is not a number counts as 1. */
  lemma NoPriority(b64: Base64, target: string, lines: seq<string>)
    ensures Build(b64, None, target, lines) == Build(b64, Some(1), target, lines)
  {
  }

  // ---------------------------------------------------------------- service mode

  /** The value of the last line that counts and has the number, under whichever name. */
  function LastValue(lines: seq<string>, n: nat): Option<string> {
    if lines == [] then None
    else
      var front, line := lines[..|lines| - 1], lines[|lines| - 1];
      if Counts(KeysOf(front), line) && KeyNumber(SplitLine(line).0) == Some(n) then Some(SplitLine(line).1)
      else LastValue(front, n)
  }

  /** The value has an item that is not empty and has the property. */
  predicate Lists(value: Option<string>, what: string -> bool) {
    value.Some? && exists name :: name in Split(value.value, ',') && name != "" && what(name)
  }

  function Anything(): string -> bool {
    name => true
  }

  function NotIn(names: set<string>): string -> bool {
    name => name !in names
  }

  lemma {:induction false} ScanOfLines(b64: Base64, lines: seq<string>)
    ensures var s := ScanAll(b64, lines);
      && s.mandatory == ItemsOf(LastValue(lines, 0)) && s.alpn == ItemsOf(LastValue(lines, 1))
      && (s.noAlpn <==> LastValue(lines, 2).Some?)
  {
    if lines != [] {
      var front, line := lines[..|lines| - 1], lines[|lines| - 1];
      ScanOfLines(b64, front);
      ScanIsOnLines(b64, front);
      StepOfLine(b64, ScanAll(b64, front), line);
    }
  }

  function ItemsOf(value: Option<string>): set<string> {
    if value.None? then {} else Items(value.value)
  }

  lemma StepOfLine(b64: Base64, s: Scan, line: string)
    ensures var t, value, n := Step(b64, s, line), SplitLine(line).1, KeyNumber(SplitLine(line).0);
      if Counts(s.seen, line) then
        && t.mandatory == (if n == Some(0) then Items(value) else s.mandatory)
        && t.alpn == (if n == Some(1) then Items(value) else s.alpn)
        && t.noAlpn == (s.noAlpn || n == Some(2))
      else t.mandatory == s.mandatory && t.alpn == s.alpn && t.noAlpn == s.noAlpn
  {
  }

  /**
   In service mode there is no record exactly when `no-default-alpn` comes without any
   protocol name, or the list of mandatory keys has a name that is the key of no line.
   */
  lemma WhenNull(b64: Base64, priority: Option<int>, target: string, lines: seq<string>)
    requires priority != Some(0)
    ensures Build(b64, priority, target, lines) == Null <==>
      (LastValue(lines, 2).Some? && !Lists(LastValue(lines, 1), Anything())) ||
      Lists(LastValue(lines, 0), NotIn(KeysOf(lines)))
  {
    var s := ScanAll(b64, lines);
    ScanOfLines(b64, lines);
    ScanIsOnLines(b64, lines);
    ItemsAreListed(LastValue(lines, 1), Anything());
    ItemsAreListed(LastValue(lines, 0), NotIn(KeysOf(lines)));
  }

  lemma ItemsAreListed(value: Option<string>, what: string -> bool)
    ensures Lists(value, what) <==> exists name :: name in ItemsOf(value) && what(name)
  {
  }

  // ---------------------------------------------------------------- other texts

  lemma {:induction false} StripSkips(x: string, c: char, y: string)
    requires IsSpace(c) || c == ':'
    ensures Strip(x + ([c] + y)) == Strip(x + y)
  {
    if x == "" {
      assert x + ([c] + y) == [c] + y && ([c] + y)[1..] == y && x + y == y;
    } else {
      assert (x + ([c] + y))[1..] == x[1..] + ([c] + y) && (x + y)[1..] == x[1..] + y;
      StripSkips(x[1..], c, y);
    }
  }

  /** White space and colons in a text do not count. */
  lemma SeparatorsAreSkipped(b64: Base64, x: string, c: char, y: string)
    requires (IsSpace(c) || c == ':') && x + y != ""
    ensures Parse(b64, x + ([c] + y)) == Parse(b64, x + y)
  {
    StripSkips(x, c, y);
  }

  /** Hex digits that are too few: nothing, an exception for a single one, and nothing again for one byte. */
  lemma TooShort(b64: Base64, hex: string)
    requires AllHex(hex) && |hex| <= 3
    ensures Parse(b64, hex) == if |hex| == 1 then Throws else Nothing
  {
    StripHex(hex);
    if |hex| >= 2 {
      assert |hex[2..]| <= 1;
      assert Unhex(hex[2..]) == [];
    }
  }

  /** Pairs that are not two hex digits are read as far as `parseInt` reads them. */
  lemma OddPairs()
    ensures PairValue('1', 'f') == PairValue('1', 'F') == 31 && PairValue('f', 'x') == 15
    ensures PairValue('+', 'f') == 15 && PairValue('-', '1') == 255 && PairValue('-', '0') == 0
    ensures PairValue('x', 'f') == PairValue('x', 'y') == PairValue('+', 'x') == 0
  {
  }

  lemma {:induction false} LabelIsCut(buf: seq<nat>, before: seq<nat>, labels: seq<string>, last: nat, rest: seq<nat>)
    requires GoodLabels(labels) && buf == before + (EncodeIds(labels) + ([last] + rest)) && |rest| < last
    ensures ParseName(buf, |before|) == None
    decreases |labels|
  {
    if labels == [] {
      EmptyIsUnit([last] + rest);
      assert buf[|before|] == last;
    } else {
      var l, more := labels[0], labels[1..];
      var own := [|l|] + Codes(l);
      assert l in labels && forall m :: m in more ==> m in labels;
      Associative(own, EncodeIds(more), [last] + rest);
      Associative(before, own, EncodeIds(more) + ([last] + rest));
      assert buf[|before|] == own[0] && |before + own| == |before| + 1 + |l|;
      LabelIsCut(buf, before + own, more, last, rest);
    }
  }

  /** A label that is cut off at the end: there is no record. */
  lemma CutLabel(b64: Base64, priority: nat, labels: seq<string>, last: nat, rest: seq<nat>)
    requires GoodLabels(labels) && last < 256 && AllBytes(rest) && |rest| < last
    ensures Parse(b64, HexText(Two(priority) + (EncodeIds(labels) + ([last] + rest)))) == Nothing
  {
    var buf := Two(priority) + (EncodeIds(labels) + ([last] + rest));
    BytesOfName(labels);
    LabelIsCut(buf, Two(priority), labels, last, rest);
    BytesAreRead(b64, buf);
  }

  /** What is left over at the end, too short for a parameter, is not looked at. */
  lemma LeftOver(show: Shower, buf: seq<nat>, at: nat)
    requires at <= |buf| && (|buf| < at + 4 || |buf| < at + 4 + Word(buf, at + 2))
    ensures ParseParams(show, buf, at) == []
  {
  }

  // ---------------------------------------------------------------- a known record

  lemma CodesOf(s: string, codes: seq<nat>)
    requires |codes| == |s| && forall i :: 0 <= i < |s| ==> s[i] as nat == codes[i]
    ensures Codes(s) == codes
  {
  }

  lemma {:induction false} IdsOf(ids: seq<string>, own: seq<nat>, more: seq<nat>)
    requires ids != [] && Codes(ids[0]) == own && EncodeIds(ids[1..]) == more
    ensures EncodeIds(ids) == [|own|] + own + more
  {
  }

  /** The name `foo.example.org`. */
  lemma NameOfVector(labels: seq<string>)
    requires labels == ["foo", "example", "org"]
    ensures EncodeIds(labels) ==
      [3, 0x66, 0x6f, 0x6f, 7, 0x65, 0x78, 0x61, 0x6d, 0x70, 0x6c, 0x65, 3, 0x6f, 0x72, 0x67]
  {
    CodesOf("foo", [0x66, 0x6f, 0x6f]);
    CodesOf("example", [0x65, 0x78, 0x61, 0x6d, 0x70, 0x6c, 0x65]);
    CodesOf("org", [0x6f, 0x72, 0x67]);
    var last := ["org"];
    assert labels[1..][1..] == last && last[1..] == [] && EncodeIds([]) == [];
    IdsOf(last, [0x6f, 0x72, 0x67], []);
    IdsOf(labels[1..], [0x65, 0x78, 0x61, 0x6d, 0x70, 0x6c, 0x65], EncodeIds(last));
    IdsOf(labels, [0x66, 0x6f, 0x6f], EncodeIds(labels[1..]));
  }

  lemma AlpnOfVector(ids: seq<string>)
    requires ids == ["h2", "h3-19"]
    ensures EncodeIds(ids) == [2, 0x68, 0x32, 5, 0x68, 0x33, 0x2d, 0x31, 0x39]
  {
    CodesOf("h2", [0x68, 0x32]);
    CodesOf("h3-19", [0x68, 0x33, 0x2d, 0x31, 0x39]);
    var last := ["h3-19"];
    assert ids[1..] == last && last[1..] == [] && EncodeIds([]) == [];
    IdsOf(last, [0x68, 0x33, 0x2d, 0x31, 0x39], []);
    IdsOf(ids, [0x68, 0x32], EncodeIds(last));
  }

  lemma EmitFirst(e: Entry, more: seq<Entry>, bytes: seq<nat>)
    requires Emit(more) == bytes
    ensures Emit([e] + more) == Two(e.num) + Two(|e.bytes|) + e.bytes + bytes
  {
    var all := [e] + more;
    assert Map(all, Frame)[0] == Frame(e) && Map(all, Frame)[1..] == Map(more, Frame);
  }

  /** The bytes of a record that is built. */
  lemma BuiltBytes(b64: Base64, priority: nat, labels: seq<string>, ps: seq<Param>)
    requires 1 <= priority <= 65535 && GoodLabels(labels)
    requires AllGood(b64, ps) && Increasing(ps, Num) && Complete(ps)
    ensures Build(b64, Some(priority), Target(labels), Lines(b64, ps)) == Hex(HexText(Packet(priority, labels, ps)))
  {
    SortOfIncreasing(ps, Num);
    SortIncreases(ps, Num);
    LinesAreCollected(b64, ps);
    CompleteIsSent(b64, ps, ScanAll(b64, Lines(b64, ps)));
    HeaderOf(priority, labels, Target(labels));
    SortOfMap(ps, Num, EntryOf, EntryNum);
    ScanIsHex(b64, priority, labels, Lines(b64, ps), ps);
  }

  lemma ScanIsHex(b64: Base64, priority: nat, labels: seq<string>, lines: seq<string>, ps: seq<Param>)
    requires priority > 0 && Header(priority, Target(labels)) == Two(priority) + (EncodeIds(labels) + [0])
    requires var s := ScanAll(b64, lines);
      && !(s.noAlpn && s.alpn == {}) && s.mandatory <= s.seen && !s.malformed
      && Sort(s.entries, EntryNum) == Map(ps, EntryOf)
    ensures Build(b64, Some(priority), Target(labels), lines) == Hex(HexText(Packet(priority, labels, ps)))
  {
  }

  /** The parameters `mandatory=alpn,ipv4hint`, `alpn=h2,h3-19` and `ipv4hint=192.0.2.1`. */
  function VectorParams(): seq<Param> {
    [Mandatory([1, 4]), Alpn(["h2", "h3-19"]), Ipv4Hint([[192, 0, 2, 1]])]
  }

  function VectorName(): seq<nat> {
    [0x00, 0x10, 0x03, 0x66, 0x6f, 0x6f, 0x07, 0x65, 0x78, 0x61, 0x6d, 0x70, 0x6c, 0x65, 0x03, 0x6f, 0x72, 0x67, 0x00]
  }

  function VectorTail(): seq<nat> {
    [0x00, 0x00, 0x00, 0x04, 0x00, 0x01, 0x00, 0x04] +
    ([0x00, 0x01, 0x00, 0x09, 0x02, 0x68, 0x32, 0x05, 0x68, 0x33, 0x2d, 0x31, 0x39] +
     [0x00, 0x04, 0x00, 0x04, 0xc0, 0x00, 0x02, 0x01])
  }

  lemma VectorEmits(ps: seq<Param>)
    requires ps == VectorParams()
    ensures Emit(Map(ps, EntryOf)) == VectorTail()
  {
    var a, b, c := EntryOf(ps[0]), EntryOf(ps[1]), EntryOf(ps[2]);
    HintOfVector(ps[2].quads);
    AlpnOfVector(ps[1].ids);
    NumbersOfVector(ps[0].keys);
    ThreeEntries(a, b, c);
    assert Map(ps, EntryOf) == [a] + ([b] + ([c] + []));
  }

  lemma ThreeEntries(a: Entry, b: Entry, c: Entry)
    requires a.num == 0 && a.bytes == [0x00, 0x01, 0x00, 0x04]
    requires b.num == 1 && b.bytes == [0x02, 0x68, 0x32, 0x05, 0x68, 0x33, 0x2d, 0x31, 0x39]
    requires c.num == 4 && c.bytes == [0xc0, 0x00, 0x02, 0x01]
    ensures Emit([a] + ([b] + ([c] + []))) == VectorTail()
  {
    var none: seq<Entry> := [];
    assert Emit(none) == [];
    EmitFirst(c, none, []);
    EmitFirst(b, [c] + none, Emit([c] + none));
    EmitFirst(a, [b] + ([c] + none), Emit([b] + ([c] + none)));
  }

  lemma HintOfVector(quads: seq<seq<nat>>)
    requires |quads| == 1
    ensures Flat(quads) == quads[0]
  {
    assert quads[1..] == [];
    EmptyIsUnit(quads[0]);
  }

  lemma NumbersOfVector(keys: seq<nat>)
    requires keys == [1, 4]
    ensures EncodeNumbers(keys) == [0, 1, 0, 4]
  {
    assert keys[1..] == [4] && [4][1..] == [];
    assert EncodeNumbers([4]) == [0, 4];
  }

  lemma AlpnIsGood(b64: Base64, ids: seq<string>)
    requires ids == ["h2", "h3-19"]
    ensures Good(b64, Alpn(ids)) && |Wire(Alpn(ids))| == 9
  {
    AlpnOfVector(ids);
    forall id | id in ids ensures SvcParams.Plain(id) && GoodId(id) {
      assert id == "h2" || id == "h3-19";
    }
    PlainList(ids);
  }

  lemma VectorIsGood(b64: Base64, ps: seq<Param>)
    requires ps == VectorParams()
    ensures AllGood(b64, ps) && Increasing(ps, Num) && Complete(ps)
  {
    AlpnIsGood(b64, ps[1].ids);
    HintOfVector(ps[2].quads);
    NumbersOfVector(ps[0].keys);
    assert Good(b64, ps[0]) && Good(b64, ps[2]);
    assert Num(ps[0]) == 0 && Num(ps[1]) == 1 && Num(ps[2]) == 4;
    assert ps[1] in ps && ps[2] in ps && 1 in Numbers(ps) && 4 in Numbers(ps);
  }

  /** The record of figure 9 in appendix D.2 of RFC 9460, byte by byte. */
  lemma KnownRecord(b64: Base64, labels: seq<string>, ps: seq<Param>)
    requires labels == ["foo", "example", "org"] && ps == VectorParams()
    ensures Build(b64, Some(16), "foo.example.org.", Lines(b64, ps)) == Hex(HexText(VectorName() + VectorTail()))
  {
    VectorIsGood(b64, ps);
    NameOfVector(labels);
    VectorEmits(ps);
    TargetOfVector(labels);
    VectorLabels(labels);
    BuiltBytes(b64, 16, labels, ps);
    VectorHeader(16, EncodeIds(labels));
  }

  lemma VectorHeader(priority: nat, name: seq<nat>)
    requires priority == 16
    requires name == [3, 0x66, 0x6f, 0x6f, 7, 0x65, 0x78, 0x61, 0x6d, 0x70, 0x6c, 0x65, 3, 0x6f, 0x72, 0x67]
    ensures Two(priority) + (name + [0]) == VectorName()
  {
  }

  lemma VectorLabels(labels: seq<string>)
    requires labels == ["foo", "example", "org"]
    ensures GoodLabels(labels)
  {
    forall l | l in labels ensures GoodLabel(l) {
      assert l == "foo" || l == "example" || l == "org";
    }
  }

  lemma TargetOfVector(labels: seq<string>)
    requires labels == ["foo", "example", "org"]
    ensures Target(labels) == "foo.example.org."
  {
    assert labels[1..] == ["example", "org"] && ["example", "org"][1..] == ["org"];
    assert Join(["org"], ".") == "org";
    assert Join(["example", "org"], ".") == "example.org";
  }

  /** Bytes are written with two digits each. */
  lemma KnownHex(buf: seq<nat>)
    requires buf == [0x01, 0xbb]
    ensures HexText(buf) == "01bb"
  {
    assert buf[1..] == [0xbb] && [0xbb][1..] == [];
    assert Show(0xbb, 16) == "b" + "b" && Show(1, 16) == "1";
    assert Pad("1", 2) == "0" + "1";
  }
}
