/** SVCB and HTTPS record data in hex: `buildSvcbHex` and `parseSvcbHex` of `tools/dnsrecordhandlers.js`. */
module Svcb {
  import opened Base
  import opened Text
  import opened Sorting
  import opened SvcValues
  import opened SvcParams

  // ---------------------------------------------------------------- building

  /** A parameter to be sent. */
  datatype Entry = Entry(num: nat, name: string, bytes: seq<nat>)

  /** What the loop over the lines has collected. */
  datatype Scan = Scan(
    seen: set<string>, entries: seq<Entry>, mandatory: set<string>, alpn: set<string>, noAlpn: bool, malformed: bool)

  /** The hex text; `null`; or a value that is no byte sequence (an address whose parts are not numbers). */
  datatype Built = Hex(text: string) | Null | Malformed

  function EntryNum(e: Entry): nat {
    e.num
  }

  function Items(value: string): set<string> {
    set n | n in Split(value, ',') && n != ""
  }

  /** One line. A `return null` inside of `forEach` leaves out the line only. */
  function Step(b64: Base64, s: Scan, line: string): Scan {
    if Trim(line) == "" then s
    else
      var (key, value) := SplitLine(line);
      var num := KeyNumber(key);
      if num.None? || key in s.seen then s
      else if num.value != 2 && value == "" then s.(seen := s.seen + {key})
      else
        var bytes := Encode(b64, key, value);
        Scan(
          s.seen + {key},
          s.entries + [Entry(num.value, key, bytes.GetOr([]))],
          if num.value == 0 then Items(value) else s.mandatory,
          if num.value == 1 then Items(value) else s.alpn,
          s.noAlpn || num.value == 2,
          s.malformed || bytes.None?)
  }

  function ScanAll(b64: Base64, lines: seq<string>): Scan {
    if lines == [] then Scan({}, [], {}, {}, false, false)
    else Step(b64, ScanAll(b64, lines[..|lines| - 1]), lines[|lines| - 1])
  }

  /** The target without a dot at its end; the root stays. */
  function Stripped(target: string): string {
    if target != "." && target != "" && target[|target| - 1] == '.' then target[..|target| - 1] else target
  }

  function Header(priority: int, target: string): seq<nat> {
    Two(priority) + ((if target == "." then [] else EncodeIds(Split(Stripped(target), '.'))) + [0])
  }

  /** A parameter on the wire. */
  function Frame(e: Entry): seq<nat> {
    Two(e.num) + Two(|e.bytes|) + e.bytes
  }

  function Emit(entries: seq<Entry>): seq<nat> {
    Flat(Map(entries, Frame))
  }

  /** `buildSvcbHex`; no priority stands for one that is not a number. */
  function Build(b64: Base64, priority: Option<int>, target: string, lines: seq<string>): Built {
    var pr := priority.GetOr(1);
    var s := ScanAll(b64, lines);
    if pr == 0 then if Stripped(target) == "." then Null else Hex(HexText(Header(pr, target)))
    else if (s.noAlpn && s.alpn == {}) || !(s.mandatory <= s.seen) then Null
    else if s.malformed then Malformed
    else Hex(HexText(Header(pr, target) + Emit(Sort(s.entries, EntryNum))))
  }

  method BuildSvcbHex(b64: Base64, priority0: Option<int>, target0: string, params: seq<string>) returns (r: Built)
    ensures r == Build(b64, priority0, target0, params)
  {
    var priority, target := priority0.GetOr(1), target0;
    var buf := Two(priority);
    if target != "." {
      if target != "" && target[|target| - 1] == '.' {
        target := target[..|target| - 1];
      }
      var name := NameLoop(Split(target, '.'));
      buf := buf + name;
    }
    buf := buf + [0];
    assert buf == Header(priority, target0);
    if priority == 0 {
      return if target == "." then Null else Hex(HexText(buf));
    }
    var s := LineLoop(b64, params);
    if (s.noAlpn && s.alpn == {}) || !(s.mandatory <= s.seen) {
      return Null;
    }
    if s.malformed {
      return Malformed;
    }
    var rest := EmitLoop(Sort(s.entries, EntryNum));
    r := Hex(HexText(buf + rest));
  }

  /** The loop over the lines. */
  method LineLoop(b64: Base64, params: seq<string>) returns (s: Scan)
    ensures s == ScanAll(b64, params)
  {
    var seenKeys, paramList, mandatoryKeys, definedAlpn, noDefaultAlpn, malformed := {}, [], {}, {}, false, false;
    var i := 0;
    assert params[..0] == [];
    while i < |params|
      invariant 0 <= i <= |params|
      invariant ScanAll(b64, params[..i]) ==
        Scan(seenKeys, paramList, mandatoryKeys, definedAlpn, noDefaultAlpn, malformed)
    {
      ScanMore(b64, params, i);
      var line := params[i];
      i := i + 1;
      if Trim(line) == "" {
        continue;
      }
      var (keyName, val) := SplitLine(line);
      var keyNum := KeyNumber(keyName);
      if keyNum.None? || keyName in seenKeys {
        continue;
      }
      seenKeys := seenKeys + {keyName};
      if keyNum.value != 2 && val == "" {
        continue;
      }
      if keyNum.value == 0 {
        mandatoryKeys := Items(val);
      }
      if keyNum.value == 1 {
        definedAlpn := Items(val);
      }
      if keyNum.value == 2 {
        noDefaultAlpn := true;
      }
      var valueBytes := Encode(b64, keyName, val);
      malformed := malformed || valueBytes.None?;
      paramList := paramList + [Entry(keyNum.value, keyName, valueBytes.GetOr([]))];
    }
    assert params[..i] == params;
    s := Scan(seenKeys, paramList, mandatoryKeys, definedAlpn, noDefaultAlpn, malformed);
  }

  lemma ScanMore(b64: Base64, lines: seq<string>, i: nat)
    requires i < |lines|
    ensures ScanAll(b64, lines[..i + 1]) == Step(b64, ScanAll(b64, lines[..i]), lines[i])
  {
    assert lines[..i + 1][..i] == lines[..i];
  }

  /** The loops over the labels of the target. */
  method NameLoop(labels: seq<string>) returns (buf: seq<nat>)
    ensures buf == EncodeIds(labels)
  {
    buf := [];
    var k := 0;
    assert labels[0..] == labels;
    while k < |labels|
      invariant 0 <= k <= |labels|
      invariant buf + EncodeIds(labels[k..]) == EncodeIds(labels)
    {
      var part := labels[k];
      ghost var before, rest := buf, EncodeIds(labels[k + 1..]);
      assert labels[k..][1..] == labels[k + 1..];
      buf := buf + [|part|];
      var i := 0;
      while i < |part|
        invariant 0 <= i <= |part|
        invariant buf == before + ([|part|] + Codes(part)[..i])
      {
        buf := buf + [part[i] as nat];
        i := i + 1;
      }
      assert Codes(part)[..i] == Codes(part);
      Associative(before, [|part|] + Codes(part), rest);
      k := k + 1;
    }
    EmptyIsUnit(buf);
  }

  method EmitLoop(entries: seq<Entry>) returns (buf: seq<nat>)
    ensures buf == Emit(entries)
  {
    buf := [];
    ghost var frames := Map(entries, Frame);
    var k := 0;
    assert frames[0..] == frames;
    while k < |entries|
      invariant 0 <= k <= |entries|
      invariant buf + Flat(frames[k..]) == Flat(frames)
    {
      var p := entries[k];
      assert frames[k..][1..] == frames[k + 1..] && frames[k..][0] == frames[k] == Frame(p);
      EmitAppends(buf, Two(p.num), Two(|p.bytes|), p.bytes, Flat(frames[k + 1..]));
      buf := buf + Two(p.num);
      buf := buf + Two(|p.bytes|);
      buf := buf + p.bytes;
      k := k + 1;
    }
    EmptyIsUnit(buf);
  }

  lemma EmitAppends(a: seq<nat>, b: seq<nat>, c: seq<nat>, d: seq<nat>, e: seq<nat>)
    ensures a + b + c + d + e == a + (b + c + d + e)
  {
  }

  // ---------------------------------------------------------------- parsing

  /** A record; `null`; or the exception of `null.map`, for less than two hex digits. */
  datatype Parsed = Record(priority: nat, target: string, params: seq<string>) | Nothing | Throws

  /** `hex.replace(/[\s:]/g, '')` */
  function Strip(hex: string): string {
    if hex == "" then "" else (if IsSpace(hex[0]) || hex[0] == ':' then "" else [hex[0]]) + Strip(hex[1..])
  }

  /** `parseInt` of two characters, as a byte: its hex digits, and what is not a number as zero. */
  function PairValue(a: char, b: char): (n: nat)
    ensures n < 256
  {
    if IsHex(a) && IsHex(b) then DigitValue(a) * 16 + DigitValue(b)
    else if IsHex(a) then DigitValue(a)
    else if a == '+' && IsHex(b) then DigitValue(b)
    else if a == '-' && IsHex(b) then (256 - DigitValue(b)) % 256
    else 0
  }

  function Unhex(data: string): (buf: seq<nat>)
    ensures AllBytes(buf)
  {
    if |data| < 2 then [] else [PairValue(data[0], data[1])] + Unhex(data[2..])
  }

  type Named = Option<(seq<string>, nat)>

  function Prepend(front: seq<string>, r: Named): Named {
    if r.None? then None else Some((front + r.value.0, r.value.1))
  }

  lemma PrependTwice(x: seq<string>, y: seq<string>, r: Named)
    ensures Prepend(x, Prepend(y, r)) == Prepend(x + y, r) && Prepend([], r) == r
  {
    if r.Some? {
      Associative(x, y, r.value.0);
      EmptyIsUnit(r.value.0);
    }
  }

  /** The labels up to an empty one, or up to the end, and where they end. None: a label is cut off. */
  function ParseName(buf: seq<nat>, offset: nat): (r: Named)
    requires offset <= |buf|
    ensures r.Some? ==> r.value.1 <= |buf|
    decreases |buf| - offset
  {
    if offset == |buf| then Some(([], offset))
    else
      var len, start := buf[offset], offset + 1;
      if len == 0 then Some(([], start))
      else if start + len > |buf| then None
      else Prepend([Chars(buf[start..start + len])], ParseName(buf, start + len))
  }

  function ParamLine(b64: Base64, num: nat, value: seq<nat>): string {
    var name := KeyName(num);
    if name == "no-default-alpn" && value == [] then name else name + ("=" + Decode(b64, name, value))
  }

  /** How a parameter is shown: by its number and its bytes. */
  type Shower = (nat, seq<nat>) -> string

  function Shown(b64: Base64): (show: Shower)
    ensures forall num, value :: show(num, value) == ParamLine(b64, num, value)
  {
    (num: nat, value: seq<nat>) => ParamLine(b64, num, value)
  }

  function ParseParams(show: Shower, buf: seq<nat>, offset: nat): seq<string>
    requires offset <= |buf|
    decreases |buf| - offset
  {
    if offset + 4 > |buf| then []
    else
      var key, len, start := Word(buf, offset), Word(buf, offset + 2), offset + 4;
      if start + len > |buf| then []
      else [show(key, buf[start..start + len])] + ParseParams(show, buf, start + len)
  }

  /** `parseSvcbHex` */
  function Parse(b64: Base64, hex: string): Parsed {
    if hex == "" then Nothing
    else if |Strip(hex)| < 2 then Throws
    else
      var buf := Unhex(Strip(hex));
      if |buf| < 2 then Nothing
      else
        var name := ParseName(buf, 2);
        if name.None? then Nothing
        else Record(Word(buf, 0), Join(name.value.0, ".") + ".", ParseParams(Shown(b64), buf, name.value.1))
  }

  method ParseSvcbHex(b64: Base64, hex: string) returns (r: Parsed)
    ensures r == Parse(b64, hex)
  {
    if hex == "" {
      return Nothing;
    }
    var data := Strip(hex);
    if |data| < 2 {
      return Throws;
    }
    var buf := Unhex(data);
    if |buf| < 2 {
      return Nothing;
    }
    var priority := Word(buf, 0);
    var target, offset := NameFrom(buf, 2);
    if target.None? {
      return Nothing;
    }
    var svcParams := ParamsFrom(Shown(b64), buf, offset);
    r := Record(priority, Join(target.value, ".") + ".", svcParams);
  }

  /** The loop of `parseName`. */
  method NameFrom(buf: seq<nat>, start: nat) returns (labels: Option<seq<string>>, offset: nat)
    requires start <= |buf|
    ensures labels.None? ==> ParseName(buf, start) == None
    ensures labels.Some? ==> offset <= |buf| && ParseName(buf, start) == Some((labels.value, offset))
  {
    offset := start;
    var list: seq<string> := [];
    PrependTwice(list, list, ParseName(buf, start));
    while offset < |buf|
      invariant start <= offset <= |buf|
      invariant ParseName(buf, start) == Prepend(list, ParseName(buf, offset))
      decreases |buf| - offset
    {
      var len := buf[offset];
      offset := offset + 1;
      if len == 0 {
        EmptyIsUnit(list);
        return Some(list), offset;
      }
      if offset + len > |buf| {
        return None, offset;
      }
      var name := Chars(buf[offset..offset + len]);
      PrependTwice(list, [name], ParseName(buf, offset + len));
      list := list + [name];
      offset := offset + len;
    }
    EmptyIsUnit(list);
    labels := Some(list);
  }

  /** One round of the loop over the parameters. */
  lemma ParamStep(show: Shower, buf: seq<nat>, offset: nat, front: seq<string>)
    requires offset + 4 <= |buf|
    ensures var len, start := Word(buf, offset + 2), offset + 4;
      front + ParseParams(show, buf, offset) ==
        if start + len > |buf| then front
        else front + [show(Word(buf, offset), buf[start..start + len])] + ParseParams(show, buf, start + len)
  {
    var len, start := Word(buf, offset + 2), offset + 4;
    EmptyIsUnit(front);
    if start + len <= |buf| {
      Associative(front, [show(Word(buf, offset), buf[start..start + len])], ParseParams(show, buf, start + len));
    }
  }

  /** The loop over the parameters. */
  method ParamsFrom(show: Shower, buf: seq<nat>, start: nat) returns (svcParams: seq<string>)
    requires start <= |buf|
    ensures svcParams == ParseParams(show, buf, start)
  {
    svcParams := [];
    var offset := start;
    ghost var all := ParseParams(show, buf, start);
    while offset + 4 <= |buf|
      invariant start <= offset <= |buf|
      invariant svcParams + ParseParams(show, buf, offset) == all
      decreases |buf| - offset
    {
      ParamStep(show, buf, offset, svcParams);
      var key := Word(buf, offset);
      var len := Word(buf, offset + 2);
      offset := offset + 4;
      if offset + len > |buf| {
        return;
      }
      svcParams := svcParams + [show(key, buf[offset..offset + len])];
      offset := offset + len;
    }
    EmptyIsUnit(svcParams);
  }
}
