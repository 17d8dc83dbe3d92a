/** Building a record and parsing it, and what the record holds. */
module SvcbRoundTrip {
  import opened Base
  import opened Text
  import opened Sorting
  import opened SvcValues
  import opened SvcParams
  import opened SvcRoundTrip
  import opened Svcb

  function Lines(b64: Base64, ps: seq<Param>): (r: seq<string>)
    ensures |r| == |ps| && forall i :: 0 <= i < |ps| ==> r[i] == Line(b64, ps[i])
  {
    seq(|ps|, i requires 0 <= i < |ps| => Line(b64, ps[i]))
  }

  function EntryOf(p: Param): Entry {
    Entry(Num(p), KeyName(Num(p)), Wire(p))
  }

  /** The key numbers that the lines name. */
  function Numbers(ps: seq<Param>): set<nat> {
    set p | p in ps :: Num(p)
  }

  /** Parameters that can be sent, apart from each other. */
  predicate AllGood(b64: Base64, ps: seq<Param>) {
    forall p :: p in ps ==> Good(b64, p) && |Wire(p)| <= 65535
  }

  predicate HasAlpn(ps: seq<Param>) {
    exists p :: p in ps && p.Alpn?
  }

  /** Every mandatory key has its own line, and `no-default-alpn` comes with `alpn`. */
  predicate Complete(ps: seq<Param>) {
    && (forall p :: p in ps && p.Mandatory? ==> forall k :: k in p.keys ==> k in Numbers(ps))
    && (NoDefaultAlpn in ps ==> HasAlpn(ps))
  }

  // ---------------------------------------------------------------- the lines

  /** What the loop has collected after the lines of `ps`. */
  ghost predicate Collected(b64: Base64, ps: seq<Param>, s: Scan) {
    && s.entries == Map(ps, EntryOf)
    && (forall p :: p in ps ==> KeyName(Num(p)) in s.seen)
    && (forall name :: name in s.seen ==> exists p :: p in ps && name == KeyName(Num(p)))
    && (forall name :: name in s.mandatory ==> MandatoryName(ps, name))
    && (HasAlpn(ps) ==> s.alpn != {})
    && (s.noAlpn ==> NoDefaultAlpn in ps)
    && !s.malformed
  }

  predicate MandatoryName(ps: seq<Param>, name: string) {
    exists p :: p in ps && p.Mandatory? && name in Names(p.keys)
  }

  /** The step of a line that is kept. */
  lemma StepIs(b64: Base64, s: Scan, line: string, n: nat, value: string, bytes: seq<nat>)
    requires Trim(line) != "" && n <= 65535 && SplitLine(line) == (KeyName(n), value) && KeyName(n) !in s.seen
    requires (n == 2 || value != "") && Encode(b64, KeyName(n), value) == Some(bytes)
    ensures Step(b64, s, line) ==
      Scan(s.seen + {KeyName(n)}, s.entries + [Entry(n, KeyName(n), bytes)],
        if n == 0 then Items(value) else s.mandatory,
        if n == 1 then Items(value) else s.alpn, s.noAlpn || n == 2, s.malformed)
  {
    KeyNameIsRead(n);
  }

  /** The step of one good line. */
  lemma StepOf(b64: Base64, s: Scan, p: Param)
    requires Good(b64, p) && KeyName(Num(p)) !in s.seen
    ensures Step(b64, s, Line(b64, p)) ==
      Scan(s.seen + {KeyName(Num(p))}, s.entries + [EntryOf(p)],
        if p.Mandatory? then Items(ValueText(b64, p)) else s.mandatory,
        if p.Alpn? then Items(ValueText(b64, p)) else s.alpn, s.noAlpn || p.NoDefaultAlpn?, s.malformed)
  {
    var value := if p.NoDefaultAlpn? then "" else KeptText(b64, p);
    LineSplits(b64, p);
    EncodeIsWire(b64, p);
    if !p.NoDefaultAlpn? {
      TextIsKept(b64, p);
    }
    StepIs(b64, s, Line(b64, p), Num(p), value, Wire(p));
  }

  lemma ItemsOfNames(b64: Base64, keys: seq<nat>)
    requires Good(b64, Mandatory(keys))
    ensures forall name :: name in Items(Join(Names(keys), ",")) ==> name in Names(keys)
  {
    NamesArePlain(keys);
    PlainList(Names(keys));
  }

  lemma ItemsOfIds(b64: Base64, ids: seq<string>)
    requires Good(b64, Alpn(ids))
    ensures Items(Join(ids, ",")) != {}
  {
    SplitOfJoin(ids, ',');
    assert ids[0] in ids && ids[0] in Items(Join(ids, ","));
  }

  lemma CollectMore(b64: Base64, front: seq<Param>, p: Param, s: Scan)
    requires Collected(b64, front, s) && Good(b64, p) && KeyName(Num(p)) !in s.seen
    ensures Collected(b64, front + [p], Step(b64, s, Line(b64, p)))
  {
    StepOf(b64, s, p);
    EntriesMore(front, p);
    SeenMore(front, p, s.seen);
    MandatoryMore(b64, front, p, s.mandatory);
    AlpnMore(b64, front, p, s.alpn);
    assert p in front + [p] && forall q :: q in front ==> q in front + [p];
  }

  lemma EntriesMore(front: seq<Param>, p: Param)
    ensures Map(front + [p], EntryOf) == Map(front, EntryOf) + [EntryOf(p)]
  {
  }

  lemma SeenMore(front: seq<Param>, p: Param, seen: set<string>)
    requires forall q :: q in front ==> KeyName(Num(q)) in seen
    requires forall name :: name in seen ==> exists q :: q in front && name == KeyName(Num(q))
    ensures forall q :: q in front + [p] ==> KeyName(Num(q)) in seen + {KeyName(Num(p))}
    ensures forall name :: name in seen + {KeyName(Num(p))} ==> exists q :: q in front + [p] && name == KeyName(Num(q))
  {
    assert p in front + [p] && forall q :: q in front ==> q in front + [p];
  }

  lemma MandatoryMore(b64: Base64, front: seq<Param>, p: Param, before: set<string>)
    requires Good(b64, p) && forall name :: name in before ==> MandatoryName(front, name)
    ensures forall name :: name in (if p.Mandatory? then Items(ValueText(b64, p)) else before) ==>
      MandatoryName(front + [p], name)
  {
    assert p in front + [p] && forall q :: q in front ==> q in front + [p];
    if p.Mandatory? {
      ItemsOfNames(b64, p.keys);
    }
  }

  lemma AlpnMore(b64: Base64, front: seq<Param>, p: Param, before: set<string>)
    requires Good(b64, p) && (HasAlpn(front) ==> before != {})
    ensures HasAlpn(front + [p]) ==> (if p.Alpn? then Items(ValueText(b64, p)) else before) != {}
  {
    assert forall q :: q in front + [p] ==> q in front || q == p;
    if p.Alpn? {
      ItemsOfIds(b64, p.ids);
    }
  }

  lemma NewNumber(front: seq<Param>, p: Param, s: Scan, b64: Base64)
    requires Collected(b64, front, s) && AllGood(b64, front) && Good(b64, p) && Avoids(front, Num, Num(p))
    ensures KeyName(Num(p)) !in s.seen
  {
    KeyNameIsRead(Num(p));
    forall q | q in front ensures KeyName(Num(q)) != KeyName(Num(p)) {
      KeyNameIsRead(Num(q));
    }
  }

  lemma LastOf(b64: Base64, ps: seq<Param>)
    requires AllGood(b64, ps) && DistinctKeys(ps, Num) && ps != []
    ensures var front, p := ps[..|ps| - 1], ps[|ps| - 1];
      ps == front + [p] && AllGood(b64, front) && DistinctKeys(front, Num) && Avoids(front, Num, Num(p)) && Good(b64, p)
      && Lines(b64, ps)[..|ps| - 1] == Lines(b64, front)
  {
    var front, p := ps[..|ps| - 1], ps[|ps| - 1];
    assert ps == front + [p] && p in ps;
    assert forall q :: q in front ==> q in ps;
    DistinctSnoc(ps, front, p, Num);
  }

  lemma {:induction false} LinesAreCollected(b64: Base64, ps: seq<Param>)
    requires AllGood(b64, ps) && DistinctKeys(ps, Num)
    ensures Collected(b64, ps, ScanAll(b64, Lines(b64, ps)))
  {
    if ps != [] {
      var front, p := ps[..|ps| - 1], ps[|ps| - 1];
      LastOf(b64, ps);
      LinesAreCollected(b64, front);
      var s := ScanAll(b64, Lines(b64, front));
      NewNumber(front, p, s, b64);
      CollectMore(b64, front, p, s);
    }
  }

  /** The checks after the loop. */
  lemma CompleteIsSent(b64: Base64, ps: seq<Param>, s: Scan)
    requires Collected(b64, ps, s) && Complete(ps)
    ensures s.mandatory <= s.seen && (s.noAlpn ==> s.alpn != {})
  {
    forall name | name in s.mandatory ensures name in s.seen {
      var p :| p in ps && p.Mandatory? && name in Names(p.keys);
      var i :| 0 <= i < |p.keys| && name == KeyName(p.keys[i]);
      assert p.keys[i] in p.keys && p.keys[i] in Numbers(ps);
      var q :| q in ps && Num(q) == p.keys[i];
    }
  }

  // ---------------------------------------------------------------- bytes

  lemma {:induction false} PairOfShow(b: nat, rest: string)
    requires b < 256
    ensures var t := Pad(Show(b, 16), 2);
      |t| == 2 && AllHex(t) && Unhex(t + rest) == [b] + Unhex(rest)
  {
    var t := Pad(Show(b, 16), 2);
    PowersOfSixteen();
    ShowLength(b, 16, 2);
    ValueOfShow(b, 16);
    ValueOfPad(Show(b, 16), 2);
    PairValueIs(t);
    var all := t + rest;
    assert all[0] == t[0] && all[1] == t[1] && all[2..] == rest;
  }

  lemma PairValueIs(t: string)
    requires |t| == 2 && AllHex(t)
    ensures PairValue(t[0], t[1]) == Value(t, 16)
  {
    var front := t[..1];
    assert t[0] in t && t[1] in t;
    assert front[..0] == "" && Value(front[..0], 16) == 0;
    assert Value(front, 16) == DigitValue(t[0]);
  }

  /** Two hex digits a byte, read back. */
  lemma {:induction false} HexIsRead(buf: seq<nat>)
    requires AllBytes(buf)
    ensures AllHex(HexText(buf)) && |HexText(buf)| == 2 * |buf| && Unhex(HexText(buf)) == buf
  {
    if buf != [] {
      assert buf[0] in buf;
      SliceBytes(buf, 1, |buf|);
      HexIsRead(buf[1..]);
      PairOfShow(buf[0], HexText(buf[1..]));
    }
  }

  lemma HexIsNotSpace(c: char)
    requires IsHex(c)
    ensures !IsSpace(c) && c != ':'
  {
  }

  lemma {:induction false} StripHex(s: string)
    requires AllHex(s)
    ensures Strip(s) == s
  {
    if s != "" {
      assert s[0] in s && forall c :: c in s[1..] ==> c in s;
      StripHex(s[1..]);
      HexIsNotSpace(s[0]);
      assert s == [s[0]] + s[1..];
    }
  }

  // ---------------------------------------------------------------- the target

  predicate GoodLabel(label_: string) {
    1 <= |label_| <= 255 && ByteText(label_) && '.' !in label_
  }

  predicate GoodLabels(labels: seq<string>) {
    forall l :: l in labels ==> GoodLabel(l)
  }

  /** The target as it is shown: with a dot at its end. */
  function Target(labels: seq<string>): string {
    Join(labels, ".") + "."
  }

  /** From `at` on, the labels lie one after the other up to an empty one. */
  predicate NameLaid(buf: seq<nat>, at: nat, labels: seq<string>)
    decreases |labels|
  {
    if labels == [] then at < |buf| && buf[at] == 0
    else
      var l := labels[0];
      var next := at + 1 + |l|;
      next <= |buf| && buf[at] == |l| && buf[at + 1..next] == Codes(l) && NameLaid(buf, next, labels[1..])
  }

  /** How many bytes the labels take, with the empty one. */
  function NameSize(labels: seq<string>): nat {
    if labels == [] then 1 else 1 + |labels[0]| + NameSize(labels[1..])
  }

  /** The labels, up to the empty one after them. */
  lemma {:induction false} NameIsRead(buf: seq<nat>, at: nat, labels: seq<string>)
    requires GoodLabels(labels) && at <= |buf| && NameLaid(buf, at, labels)
    ensures ParseName(buf, at) == Some((labels, at + NameSize(labels)))
    decreases |labels|
  {
    if labels != [] {
      var l, more := labels[0], labels[1..];
      assert l in labels && forall m :: m in more ==> m in labels;
      NameIsRead(buf, at + 1 + |l|, more);
      LabelIsRead(buf, at, l, more, at + NameSize(labels));
      assert labels == [l] + more;
    }
  }

  lemma LabelIsRead(buf: seq<nat>, at: nat, l: string, more: seq<string>, end: nat)
    requires GoodLabel(l) && at + 1 + |l| <= |buf| && buf[at] == |l| && buf[at + 1..at + 1 + |l|] == Codes(l)
    requires ParseName(buf, at + 1 + |l|) == Some((more, end))
    ensures ParseName(buf, at) == Some(([l] + more, end))
  {
    CharsOfCodes(l);
  }

  lemma {:induction false} NameIsLaid(buf: seq<nat>, before: seq<nat>, labels: seq<string>, rest: seq<nat>)
    requires GoodLabels(labels) && buf == before + (EncodeIds(labels) + ([0] + rest))
    ensures NameLaid(buf, |before|, labels) && |EncodeIds(labels)| + 1 == NameSize(labels)
    decreases |labels|
  {
    if labels == [] {
      EmptyIsUnit([0] + rest);
    } else {
      var l, more := labels[0], labels[1..];
      assert l in labels && forall m :: m in more ==> m in labels;
      var own := [|l|] + Codes(l);
      RegroupName(before, own, EncodeIds(more), [0] + rest);
      NameIsLaid(buf, before + own, more, rest);
      LabelIsLaid(buf, before, l, own, EncodeIds(more) + ([0] + rest));
      var at, next := |before|, |before + own|;
      assert next == at + 1 + |l| && buf[at] == |l| && buf[at + 1..next] == Codes(l);
      assert NameLaid(buf, next, labels[1..]);
    }
  }

  lemma RegroupName(a: seq<nat>, b: seq<nat>, c: seq<nat>, d: seq<nat>)
    ensures a + ((b + c) + d) == (a + b) + (c + d)
  {
  }

  lemma LabelIsLaid(buf: seq<nat>, before: seq<nat>, l: string, own: seq<nat>, rest: seq<nat>)
    requires own == [|l|] + Codes(l) && buf == before + own + rest
    ensures |before + own| == |before| + 1 + |l| <= |buf| && buf[|before|] == |l|
    ensures buf[|before| + 1..|before + own|] == Codes(l)
  {
    assert own[1..] == Codes(l);
  }

  lemma {:induction false} LastLabel(labels: seq<string>)
    requires GoodLabels(labels) && labels != []
    ensures Join(labels, ".") != "" && Join(labels, ".")[|Join(labels, ".")| - 1] != '.'
  {
    var l := labels[0];
    assert l in labels;
    if |labels| > 1 {
      assert forall m :: m in labels[1..] ==> m in labels;
      LastLabel(labels[1..]);
    } else {
      assert l[|l| - 1] in l;
    }
  }

  /** The header, for the target with or without its last dot. */
  lemma HeaderOf(priority: int, labels: seq<string>, target: string)
    requires GoodLabels(labels)
    requires target == Target(labels) || (labels != [] && target == Join(labels, "."))
    ensures Header(priority, target) == Two(priority) + (EncodeIds(labels) + [0])
  {
    if labels == [] {
      assert target == ".";
    } else {
      var joined := Join(labels, ".");
      LastLabel(labels);
      assert target == joined + "." ==> target[..|target| - 1] == joined;
      assert Stripped(target) == joined;
      SplitOfJoin(labels, '.');
    }
  }

  // ---------------------------------------------------------------- the parameters

  /** Entries as they are shown. */
  function ShownEntries(show: Shower, entries: seq<Entry>): (r: seq<string>)
    ensures |r| == |entries| && forall i :: 0 <= i < |r| ==> r[i] == show(entries[i].num, entries[i].bytes)
  {
    seq(|entries|, i requires 0 <= i < |entries| => show(entries[i].num, entries[i].bytes))
  }

  lemma ShownFirst(show: Shower, entries: seq<Entry>, e: Entry, more: seq<Entry>)
    requires entries != [] && e == entries[0] && more == entries[1..]
    ensures ShownEntries(show, entries) == [show(e.num, e.bytes)] + ShownEntries(show, more)
  {
  }

  predicate Sendable(entries: seq<Entry>) {
    forall e :: e in entries ==> e.num <= 65535 && |e.bytes| <= 65535
  }

  /** From `at` on, the entries lie one after the other up to the end. */
  predicate Laid(buf: seq<nat>, at: nat, entries: seq<Entry>)
    decreases |entries|
  {
    if entries == [] then at == |buf|
    else
      var e := entries[0];
      var next := at + 4 + |e.bytes|;
      next <= |buf| && Word(buf, at) == e.num && Word(buf, at + 2) == |e.bytes| && buf[at + 4..next] == e.bytes
      && Laid(buf, next, entries[1..])
  }

  /** What was sent is read back, entry by entry. */
  lemma {:induction false} EntriesAreRead(show: Shower, buf: seq<nat>, at: nat, entries: seq<Entry>)
    requires at <= |buf| && Laid(buf, at, entries)
    ensures ParseParams(show, buf, at) == ShownEntries(show, entries)
    decreases |entries|
  {
    if entries != [] {
      EntriesAreRead(show, buf, at + 4 + |entries[0].bytes|, entries[1..]);
      ShownFirst(show, entries, entries[0], entries[1..]);
    }
  }

  /** The bytes of an entry: its number, its length and its value. */
  predicate IsFrame(frame: seq<nat>, e: Entry) {
    |frame| == 4 + |e.bytes| && Word(frame, 0) == e.num && Word(frame, 2) == |e.bytes| && frame[4..] == e.bytes
  }

  lemma {:induction false} FramesAreLaid(buf: seq<nat>, before: seq<nat>, entries: seq<Entry>, frames: seq<seq<nat>>)
    requires |frames| == |entries| && (forall i :: 0 <= i < |entries| ==> IsFrame(frames[i], entries[i]))
    requires buf == before + Flat(frames)
    ensures Laid(buf, |before|, entries)
    decreases |entries|
  {
    if entries == [] {
      EmptyIsUnit(before);
    } else {
      FirstFrame(buf, before, entries, frames);
      FramesAreLaid(buf, before + frames[0], entries[1..], frames[1..]);
    }
  }

  lemma FirstFrame(buf: seq<nat>, before: seq<nat>, entries: seq<Entry>, frames: seq<seq<nat>>)
    requires |frames| == |entries| > 0 && IsFrame(frames[0], entries[0]) && buf == before + Flat(frames)
    ensures var next := |before| + 4 + |entries[0].bytes|;
      && buf == (before + frames[0]) + Flat(frames[1..]) && |before + frames[0]| == next <= |buf|
      && Word(buf, |before|) == entries[0].num && Word(buf, |before| + 2) == |entries[0].bytes|
      && buf[|before| + 4..next] == entries[0].bytes
  {
    Associative(before, frames[0], Flat(frames[1..]));
    FrameInside(buf, before, frames[0], Flat(frames[1..]), entries[0]);
  }

  lemma FrameInside(buf: seq<nat>, before: seq<nat>, frame: seq<nat>, rest: seq<nat>, e: Entry)
    requires IsFrame(frame, e) && buf == before + frame + rest
    ensures var at := |before|; var next := at + 4 + |e.bytes|;
      && |before + frame| == next <= |buf| && Word(buf, at) == e.num && Word(buf, at + 2) == |e.bytes|
      && buf[at + 4..next] == e.bytes
  {
    assert forall i :: 0 <= i < |frame| ==> buf[|before| + i] == frame[i];
    assert buf[|before| + 4..|before + frame|] == frame[4..];
  }

  lemma FrameIs(e: Entry)
    requires e.num <= 65535 && |e.bytes| <= 65535
    ensures IsFrame(Frame(e), e) && (AllBytes(e.bytes) ==> AllBytes(Frame(e)))
  {
  }

  lemma EmitIsLaid(buf: seq<nat>, before: seq<nat>, entries: seq<Entry>)
    requires Sendable(entries) && buf == before + Emit(entries)
    ensures Laid(buf, |before|, entries)
  {
    forall i | 0 <= i < |entries| ensures IsFrame(Frame(entries[i]), entries[i]) {
      assert entries[i] in entries;
      FrameIs(entries[i]);
    }
    FramesAreLaid(buf, before, entries, Map(entries, Frame));
  }

  lemma {:induction false} FlatBytes(parts: seq<seq<nat>>)
    requires forall i :: 0 <= i < |parts| ==> AllBytes(parts[i])
    ensures AllBytes(Flat(parts))
  {
    if parts != [] {
      FlatBytes(parts[1..]);
    }
  }

  lemma BytesOfEntries(entries: seq<Entry>)
    requires Sendable(entries) && forall e :: e in entries ==> AllBytes(e.bytes)
    ensures AllBytes(Emit(entries))
  {
    forall i | 0 <= i < |entries| ensures AllBytes(Map(entries, Frame)[i]) {
      assert entries[i] in entries;
      FrameIs(entries[i]);
    }
    FlatBytes(Map(entries, Frame));
  }

  lemma {:induction false} BytesOfName(labels: seq<string>)
    requires GoodLabels(labels)
    ensures AllBytes(EncodeIds(labels))
  {
    if labels != [] {
      assert labels[0] in labels && forall m :: m in labels[1..] ==> m in labels;
      CharsOfCodes(labels[0]);
      BytesOfName(labels[1..]);
    }
  }

  lemma EntriesAreShown(b64: Base64, ps: seq<Param>)
    requires AllGood(b64, ps)
    ensures ShownEntries(Shown(b64), Map(ps, EntryOf)) == Lines(b64, ps)
  {
    var shown := ShownEntries(Shown(b64), Map(ps, EntryOf));
    forall i | 0 <= i < |ps| ensures shown[i] == Lines(b64, ps)[i] {
      assert ps[i] in ps;
      EntryIsShown(b64, ps[i]);
    }
  }

  lemma EntriesAreSendable(b64: Base64, ps: seq<Param>)
    requires AllGood(b64, ps)
    ensures Sendable(Map(ps, EntryOf)) && forall e :: e in Map(ps, EntryOf) ==> AllBytes(e.bytes)
  {
    forall e | e in Map(ps, EntryOf) ensures e.num <= 65535 && |e.bytes| <= 65535 && AllBytes(e.bytes) {
      var i :| 0 <= i < |ps| && e == EntryOf(ps[i]);
      assert ps[i] in ps;
      EntryIsShown(b64, ps[i]);
    }
  }

  lemma EntryIsShown(b64: Base64, p: Param)
    requires Good(b64, p)
    ensures Shown(b64)(Num(p), Wire(p)) == Line(b64, p) && AllBytes(Wire(p)) && Num(p) <= 65535
  {
    DecodeIsText(b64, p);
    NoDefaultIsTwo(b64, p);
  }

  /** The line that is parsed. */
  lemma NoDefaultIsTwo(b64: Base64, p: Param)
    requires Good(b64, p) && Decode(b64, KeyName(Num(p)), Wire(p)) == ValueText(b64, p)
    ensures ParamLine(b64, Num(p), Wire(p)) == Line(b64, p)
  {
    var n: nat := 2;
    KeyNameIsRead(n);
    KeyNameIsRead(Num(p));
    assert KeyName(n) == "no-default-alpn";
  }

  // ---------------------------------------------------------------- the round trip

  /** What is sent. */
  function Packet(priority: int, labels: seq<string>, ps: seq<Param>): seq<nat> {
    Two(priority) + (EncodeIds(labels) + [0]) + Emit(Map(ps, EntryOf))
  }

  lemma BytesAreRead(b64: Base64, buf: seq<nat>)
    requires AllBytes(buf) && |buf| >= 2
    ensures var name := ParseName(buf, 2);
      Parse(b64, HexText(buf)) ==
        if name.None? then Nothing
        else Record(Word(buf, 0), Join(name.value.0, ".") + ".", ParseParams(Shown(b64), buf, name.value.1))
  {
    HexIsRead(buf);
    StripHex(HexText(buf));
  }

  lemma PacketIsRead(b64: Base64, priority: nat, labels: seq<string>, ps: seq<Param>)
    requires priority <= 65535 && GoodLabels(labels) && AllGood(b64, ps)
    ensures Parse(b64, HexText(Packet(priority, labels, ps))) == Record(priority, Target(labels), Lines(b64, ps))
  {
    var entries := Map(ps, EntryOf);
    EntriesAreSendable(b64, ps);
    EntriesAreShown(b64, ps);
    BytesOfEntries(entries);
    BytesOfName(labels);
    PartsAreRead(b64, priority, labels, entries);
  }

  lemma PartsAreRead(b64: Base64, priority: nat, labels: seq<string>, entries: seq<Entry>)
    requires priority <= 65535 && GoodLabels(labels) && Sendable(entries)
    requires AllBytes(EncodeIds(labels)) && AllBytes(Emit(entries))
    ensures Parse(b64, HexText(Two(priority) + (EncodeIds(labels) + [0]) + Emit(entries))) ==
      Record(priority, Target(labels), ShownEntries(Shown(b64), entries))
  {
    var head, name, rest := Two(priority), EncodeIds(labels), Emit(entries);
    var buf := head + (name + [0]) + rest;
    EmitIsLaid(buf, head + (name + [0]), entries);
    EntriesAreRead(Shown(b64), buf, |head + (name + [0])|, entries);
    HeaderIsRead(buf, priority, labels, rest);
    PacketBytes(head, name, rest);
    BytesAreRead(b64, buf);
  }

  lemma HeaderIsRead(buf: seq<nat>, priority: nat, labels: seq<string>, rest: seq<nat>)
    requires priority <= 65535 && GoodLabels(labels) && buf == Two(priority) + (EncodeIds(labels) + [0]) + rest
    ensures Word(buf, 0) == priority && |buf| >= 2
    ensures ParseName(buf, 2) == Some((labels, 2 + |EncodeIds(labels)| + 1))
  {
    RegroupPacket(Two(priority), EncodeIds(labels), [0], rest);
    PriorityFirst(buf, priority, EncodeIds(labels) + ([0] + rest));
    NameIsLaid(buf, Two(priority), labels, rest);
    NameIsRead(buf, 2, labels);
  }

  lemma RegroupPacket(a: seq<nat>, b: seq<nat>, c: seq<nat>, d: seq<nat>)
    ensures a + (b + c) + d == a + (b + (c + d))
  {
  }

  lemma PriorityFirst(buf: seq<nat>, priority: nat, rest: seq<nat>)
    requires priority <= 65535 && buf == Two(priority) + rest
    ensures Word(buf, 0) == priority
  {
  }

  lemma PacketBytes(head: seq<nat>, name: seq<nat>, rest: seq<nat>)
    requires AllBytes(head) && AllBytes(name) && AllBytes(rest)
    ensures AllBytes(head + (name + [0]) + rest)
  {
  }

  /**
   Parsing what was built gives the record back: its priority, its target with a dot, and
   its lines in the order of their keys.
   */
  lemma RoundTrip(b64: Base64, priority: nat, labels: seq<string>, target: string, ps: seq<Param>)
    requires 1 <= priority <= 65535 && GoodLabels(labels)
    requires target == Target(labels) || (labels != [] && target == Join(labels, "."))
    requires AllGood(b64, ps) && DistinctKeys(ps, Num) && Complete(ps)
    ensures var built := Build(b64, Some(priority), target, Lines(b64, ps));
      built.Hex? && Parse(b64, built.text) == Record(priority, Target(labels), Lines(b64, Sort(ps, Num)))
    ensures Increasing(Sort(ps, Num), Num)
  {
    LinesAreCollected(b64, ps);
    var s := ScanAll(b64, Lines(b64, ps));
    CompleteIsSent(b64, ps, s);
    HeaderOf(priority, labels, target);
    SortOfMap(ps, Num, EntryOf, EntryNum);
    SortMembers(ps, Num);
    SortIncreases(ps, Num);
    PacketIsRead(b64, priority, labels, Sort(ps, Num));
  }

  // ---------------------------------------------------------------- the order of the keys

  /** The entries have different names, and the numbers that the names stand for. */
  ghost predicate Named(s: Scan) {
    && (forall e :: e in s.entries ==> e.name in s.seen && KeyNumber(e.name) == Some(e.num))
    && (forall i, j :: 0 <= i < j < |s.entries| ==> s.entries[i].name != s.entries[j].name)
  }

  lemma StepKeepsNames(b64: Base64, s: Scan, line: string)
    requires Named(s)
    ensures Named(Step(b64, s, line)) && s.seen <= Step(b64, s, line).seen && s.entries <= Step(b64, s, line).entries
  {
    var t := Step(b64, s, line);
    if t.entries != s.entries {
      var e := t.entries[|s.entries|];
      assert e.name !in s.seen;
      assert forall i :: 0 <= i < |s.entries| ==> s.entries[i] in s.entries && t.entries[i] == s.entries[i];
    }
  }

  /** Of lines with the same name only the first is kept; but names with the same number are different ones. */
  lemma {:induction false} LinesAreNamed(b64: Base64, lines: seq<string>)
    ensures Named(ScanAll(b64, lines))
  {
    if lines != [] {
      LinesAreNamed(b64, lines[..|lines| - 1]);
      StepKeepsNames(b64, ScanAll(b64, lines[..|lines| - 1]), lines[|lines| - 1]);
    }
  }

  /** The keys that are sent, in their order. */
  function SentEntries(b64: Base64, lines: seq<string>): seq<Entry> {
    Sort(ScanAll(b64, lines).entries, EntryNum)
  }

  /** A line that is not blank and has a key that is known. */
  predicate Keyed(line: string) {
    Trim(line) != "" && KeyNumber(SplitLine(line).0).Some?
  }

  /** The keys that the lines have, as they are written. */
  function KeysOf(lines: seq<string>): set<string> {
    if lines == [] then {}
    else
      var line := lines[|lines| - 1];
      KeysOf(lines[..|lines| - 1]) + if Keyed(line) then {SplitLine(line).0} else {}
  }

  /** The numbers of the lines whose key is known, is not that of an earlier line, and has a value or needs none. */
  function NumbersOf(lines: seq<string>): seq<nat> {
    if lines == [] then []
    else
      var front, line := lines[..|lines| - 1], lines[|lines| - 1];
      NumbersOf(front) + if Counts(KeysOf(front), line) then [KeyNumber(SplitLine(line).0).value] else []
  }

  /** The line has a key for the first time, and a value if one is needed. */
  predicate Counts(seen: set<string>, line: string) {
    var (key, value) := SplitLine(line);
    Keyed(line) && key !in seen && (KeyNumber(key) == Some(2) || value != "")
  }

  lemma StepOnLine(b64: Base64, s: Scan, line: string)
    ensures var t := Step(b64, s, line);
      && t.seen == s.seen + (if Keyed(line) then {SplitLine(line).0} else {})
      && Map(t.entries, EntryNum) == Map(s.entries, EntryNum) +
           (if Counts(s.seen, line) then [KeyNumber(SplitLine(line).0).value] else [])
  {
    var t := Step(b64, s, line);
    if Counts(s.seen, line) {
      var e := t.entries[|s.entries|];
      assert t.entries == s.entries + [e] && EntryNum(e) == KeyNumber(SplitLine(line).0).value;
    } else {
      assert t.entries == s.entries;
    }
  }

  lemma {:induction false} ScanIsOnLines(b64: Base64, lines: seq<string>)
    ensures ScanAll(b64, lines).seen == KeysOf(lines)
    ensures Map(ScanAll(b64, lines).entries, EntryNum) == NumbersOf(lines)
  {
    if lines != [] {
      var front, line := lines[..|lines| - 1], lines[|lines| - 1];
      ScanIsOnLines(b64, front);
      StepOnLine(b64, ScanAll(b64, front), line);
    }
  }

  lemma DistinctNumbers(entries: seq<Entry>)
    ensures DistinctKeys(entries, EntryNum) <==> NoDuplicates(Map(entries, EntryNum))
  {
    var ns := Map(entries, EntryNum);
    if NoDuplicates(ns) {
      assert forall i, j :: 0 <= i < j < |entries| ==> ns[i] != ns[j];
    }
    if DistinctKeys(entries, EntryNum) {
      assert forall i, j :: 0 <= i < j < |entries| ==> EntryNum(entries[i]) != EntryNum(entries[j]);
    }
  }

  /**
   The keys never decrease. They increase strictly, as section 2.2 of RFC 9460 demands,
   exactly when no number is named twice by lines that have their key for the first time
   and a value if one is needed; and they do so whenever each of these lines has the
   canonical name of its key.
   */
  lemma SentKeysIncrease(b64: Base64, lines: seq<string>)
    ensures Ordered(SentEntries(b64, lines), EntryNum)
    ensures Increasing(SentEntries(b64, lines), EntryNum) <==> NoDuplicates(NumbersOf(lines))
    ensures (forall line :: line in lines && Keyed(line) ==> CanonicalKey(line)) ==> NoDuplicates(NumbersOf(lines))
  {
    var entries := ScanAll(b64, lines).entries;
    ScanIsOnLines(b64, lines);
    SortKeeps(entries, EntryNum);
    SortIncreases(entries, EntryNum);
    DistinctNumbers(entries);
    if forall line :: line in lines && Keyed(line) ==> CanonicalKey(line) {
      CanonicalNumbers(lines);
    }
  }

  /** The key of the line is the name that the parser shows for its number. */
  predicate CanonicalKey(line: string)
    requires Keyed(line)
  {
    var key := SplitLine(line).0;
    key == KeyName(KeyNumber(key).value)
  }

  lemma {:induction false} CanonicalNumbers(lines: seq<string>)
    requires forall line :: line in lines && Keyed(line) ==> CanonicalKey(line)
    ensures NoDuplicates(NumbersOf(lines))
    ensures forall n :: n in NumbersOf(lines) ==> KeyName(n) in KeysOf(lines)
  {
    if lines != [] {
      var front, line := lines[..|lines| - 1], lines[|lines| - 1];
      assert line in lines && forall other :: other in front ==> other in lines;
      CanonicalNumbers(front);
    }
  }

  /** A line that is kept adds its number. */
  lemma StepAdds(b64: Base64, s: Scan, name: string, value: string, n: nat)
    requires Kept(value) && NameText(name) && name !in s.seen && KeyNumber(name) == Some(n)
    ensures var t := Step(b64, s, name + ("=" + value));
      |t.entries| == |s.entries| + 1 && t.entries[..|s.entries|] == s.entries && t.entries[|s.entries|].num == n
  {
    KeptLine(name, value);
    SplitPlain(value, '=');
    NameTextIsPlain(name);
    TrimKeepsSome(name + ("=" + value));
  }

  /** A key with two names, such as `alpn` and `key1`, is sent twice. */
  lemma TwoNamesAreSentTwice(b64: Base64, ids: seq<string>, name: string, value: string)
    requires Good(b64, Alpn(ids)) && Kept(value) && NameText(name) && name != "alpn" && KeyNumber(name) == Some(1)
    ensures var lines := [Line(b64, Alpn(ids)), name + ("=" + value)];
      |SentEntries(b64, lines)| == 2 && !Increasing(SentEntries(b64, lines), EntryNum)
  {
    var first, second := Line(b64, Alpn(ids)), name + ("=" + value);
    var lines := [first, second];
    var nothing := ScanAll(b64, []);
    var s := Step(b64, nothing, first);
    StepOf(b64, nothing, Alpn(ids));
    StepAdds(b64, s, name, value, 1);
    var t := Step(b64, s, second);
    assert lines[..1] == [first] && [first][..0] == [];
    assert ScanAll(b64, [first]) == s;
    assert ScanAll(b64, lines) == t;
    assert EntryNum(t.entries[0]) == EntryNum(t.entries[1]);
    SortIncreases(t.entries, EntryNum);
    SortMembers(t.entries, EntryNum);
  }

  /** `key1` is such a name. */
  lemma KeyOneIsAlpn()
    ensures NameText("key1") && KeyNumber("key1") == Some(1)
  {
    var name := "key1";
    forall c | c in name ensures NameChar(c) {
      assert c == 'k' || c == 'e' || c == 'y' || c == '1';
    }
    LowerKeeps(name);
    var digits := name[3..];
    assert digits == "1" && AllDigits(digits);
    assert digits[..0] == "" && Value(digits, 10) == 1;
  }
}
