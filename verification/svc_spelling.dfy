/** Service parameters whose keys are known, but not written as the encoder's `switch` has them. */
module SvcSpelling {
  import opened Base
  import opened Text
  import opened Ip
  import opened Ipv6Text
  import opened SvcValues
  import opened SvcParams
  import opened SvcRoundTrip
  import opened Svcb

  /** What is sent for a name that the `switch` does not know: the text itself for a numbered one, or else nothing. */
  function Raw(key: string, value: string): seq<nat> {
    if Numbered(Lower(key)) then EncodeRaw(Split(value, ',')) else []
  }

  /** The encoder uses the format of the number. */
  predicate WellSpelled(key: string, n: nat) {
    n == 2 || n >= 7 || key == KeyName(n)
  }

  /** Base64 text is longer than its bytes, and has no commas. */
  predicate Lengthens(b64: Base64, config: seq<nat>) {
    0 < |config| < |Unpadded(b64, config)| && ',' !in Unpadded(b64, config)
  }

  lemma KindOfSpelling(key: string, n: nat)
    requires KeyNumber(key) == Some(n)
    ensures key != KeyName(n) && n < 7 ==> Kind(key) in {7, 8} && (Kind(key) == 7 <==> Numbered(Lower(key)))
    ensures n >= 7 ==> Kind(key) == 7
  {
    var k := Kind(key);
    if k < 7 {
      KeyNameIsRead(k);
    }
  }

  // ---------------------------------------------------------------- the text is not the wire form

  lemma {:induction false} RawLength(parts: seq<string>, m: nat)
    requires forall p :: p in parts ==> |p| >= m
    ensures |EncodeRaw(parts)| >= m * |parts|
  {
    if parts != [] {
      var more := parts[1..];
      assert parts[0] in parts && forall p :: p in more ==> p in parts;
      RawLength(more, m);
      OneMoreTime(m, |more|);
    }
  }

  lemma {:induction false} RawIsPlain(parts: seq<string>)
    requires forall p :: p in parts ==> Plain(p)
    ensures forall b :: b in EncodeRaw(parts) ==> b >= 45
  {
    if parts != [] {
      assert parts[0] in parts && forall p :: p in parts[1..] ==> p in parts;
      RawIsPlain(parts[1..]);
      forall b | b in Codes(parts[0]) ensures b >= 45 {
        var i :| 0 <= i < |parts[0]| && Codes(parts[0])[i] == b;
        assert parts[0][i] in parts[0] && PlainChar(parts[0][i]);
      }
    }
  }

  lemma OneMoreTime(m: nat, n: nat)
    ensures m * (n + 1) == m + m * n
  {
  }

  lemma {:induction false} JoinLength(parts: seq<string>, sep: string, m: nat)
    requires parts != [] && |sep| == 1 && forall p :: p in parts ==> |p| >= m
    ensures |Join(parts, sep)| >= m * |parts| + |parts| - 1
  {
    assert parts[0] in parts;
    if |parts| > 1 {
      var more := parts[1..];
      assert forall p :: p in more ==> p in parts;
      JoinLength(more, sep, m);
      OneMoreTime(m, |more|);
    }
  }

  lemma {:induction false} NumbersLength(keys: seq<nat>)
    ensures |EncodeNumbers(keys)| == 2 * |keys|
  {
    if keys != [] {
      NumbersLength(keys[1..]);
    }
  }

  lemma NamesDiffer(keys: seq<nat>)
    requires keys != [] && GoodKeys(keys)
    ensures EncodeRaw(Names(keys)) != EncodeNumbers(keys)
  {
    forall p | p in Names(keys) ensures |p| >= 3 {
      var i :| 0 <= i < |keys| && p == KeyName(keys[i]);
      NameLength(keys[i]);
    }
    RawLength(Names(keys), 3);
    NumbersLength(keys);
  }

  lemma NameLength(n: nat)
    ensures |KeyName(n)| >= 3
  {
  }

  /** The identifiers are sent with their lengths in front. */
  lemma {:induction false} IdsDiffer(ids: seq<string>)
    ensures |EncodeIds(ids)| == |EncodeRaw(ids)| + |ids|
  {
    if ids != [] {
      IdsDiffer(ids[1..]);
    }
  }

  /** A port of two digits does not have a digit's code as its first byte. */
  lemma PortDiffers(port: nat)
    ensures Codes(Show(port, 10)) != Two(port)
  {
    var text := Show(port, 10);
    assert text[0] in text && IsDigit(text[0]);
    assert Codes(text)[0] >= 48;
    if |text| == 2 {
      ValueBound(text, 10);
      ValueOfShow(port, 10);
      PowersOfTen();
      assert Two(port)[0] == 0;
    }
  }

  lemma PowersOfTen()
    ensures Power(10, 2) == 100
  {
  }

  lemma {:induction false} QuadsLength(quads: seq<seq<nat>>)
    requires forall q :: q in quads ==> Octets(q)
    ensures |Flat(quads)| == 4 * |quads|
  {
    if quads != [] {
      assert quads[0] in quads && forall q :: q in quads[1..] ==> q in quads;
      QuadsLength(quads[1..]);
    }
  }

  lemma QuadsDiffer(quads: seq<seq<nat>>)
    requires quads != [] && forall q :: q in quads ==> Octets(q)
    ensures EncodeRaw(Quads(quads)) != Flat(quads)
  {
    forall p | p in Quads(quads) ensures |p| >= 7 {
      var i :| 0 <= i < |quads| && p == Quad(ShowDecimals(quads[i]));
      assert quads[i] in quads;
      DecimalsArePlain(quads[i]);
      JoinLength(ShowDecimals(quads[i]), ".", 1);
    }
    RawLength(Quads(quads), 7);
    QuadsLength(quads);
  }

  // ---------------------------------------------------------------- IPv6 addresses

  lemma {:induction false} HighBytes(ws: seq<nat>)
    requires forall b :: b in WordBytes(ws) ==> b >= 45
    ensures forall w :: w in ws ==> w >= 0x1000
  {
    if ws != [] {
      var bytes := WordBytes(ws);
      assert bytes[0] == ws[0] / 256 && bytes[0] in bytes;
      assert forall b :: b in WordBytes(ws[1..]) ==> b in bytes;
      HighBytes(ws[1..]);
      assert ws == [ws[0]] + ws[1..];
    }
  }

  lemma {:induction false} HighAddresses(addrs: seq<seq<nat>>)
    requires forall b :: b in AddressBytes(addrs) ==> b >= 45
    ensures forall a, w :: a in addrs && w in a ==> w >= 0x1000
  {
    if addrs != [] {
      var first, more := WordBytes(addrs[0]), AddressBytes(addrs[1..]);
      assert AddressBytes(addrs) == first + more;
      assert forall b :: b in first || b in more ==> b in first + more;
      HighBytes(addrs[0]);
      HighAddresses(addrs[1..]);
      assert addrs == [addrs[0]] + addrs[1..];
    }
  }

  lemma {:induction false} AddressesLength(addrs: seq<seq<nat>>)
    requires forall a :: a in addrs ==> GoodAddress(a)
    ensures |AddressBytes(addrs)| == 16 * |addrs|
  {
    if addrs != [] {
      assert addrs[0] in addrs && forall a :: a in addrs[1..] ==> a in addrs;
      AddressesLength(addrs[1..]);
    }
  }

  lemma FourDigitsShown(w: nat)
    requires w >= 0x1000
    ensures |Show(w, 16)| >= 4
  {
    var w1 := w / 16;
    var w2 := w1 / 16;
    assert |Show(w2, 16)| >= 2;
    assert |Show(w1, 16)| == |Show(w2, 16)| + 1;
  }

  /** Without a zero nothing is left out. */
  lemma NothingLeftOut(ws: seq<nat>)
    requires forall i :: 0 <= i < |ws| ==> ws[i] != 0
    ensures Compressed(ws) == Colons(Texts(ws))
  {
    var r := BestRun(ws, |ws|);
    if r.1 > 0 {
      StartsWithZero(ws, r.0, r.1);
      assert false;
    }
  }

  lemma StartsWithZero(ws: seq<nat>, a: nat, n: nat)
    requires ZeroRun(ws, a, n) && n > 0
    ensures a < |ws| && ws[a] == 0
  {
  }

  lemma LongText(ws: seq<nat>)
    requires |ws| == 8 && forall w :: w in ws ==> w >= 0x1000
    ensures |Compressed(ws)| >= 39
  {
    forall i | 0 <= i < |ws| ensures ws[i] >= 0x1000 {
      assert ws[i] in ws;
    }
    NothingLeftOut(ws);
    var parts := Texts(ws);
    forall i | 0 <= i < |ws| ensures |parts[i]| >= 4 {
      FourDigitsShown(ws[i]);
    }
    JoinLength(parts, ":", 4);
  }

  /** Codes of characters are high bytes, and addresses of high bytes have long texts. */
  lemma AddressesDiffer(addrs: seq<seq<nat>>)
    requires addrs != [] && forall a :: a in addrs ==> GoodAddress(a)
    ensures EncodeRaw(Addresses(addrs)) != AddressBytes(addrs)
  {
    AddressesLength(addrs);
    AddressesArePlain(addrs);
    RawIsPlain(Addresses(addrs));
    if EncodeRaw(Addresses(addrs)) == AddressBytes(addrs) {
      HighAddresses(addrs);
      forall p | p in Addresses(addrs) ensures |p| >= 39 {
        var i :| 0 <= i < |addrs| && p == Compressed(addrs[i]);
        assert addrs[i] in addrs;
        LongText(addrs[i]);
      }
      RawLength(Addresses(addrs), 39);
    }
  }

  // ---------------------------------------------------------------- what is sent

  /** Where the number has a format of its own, neither the text nor nothing is the wire form. */
  lemma RawIsNotWire(b64: Base64, p: Param, key: string)
    requires Good(b64, p) && Num(p) < 7 && !p.NoDefaultAlpn? && (p.Ech? ==> Lengthens(b64, p.config))
    ensures Raw(key, KeptText(b64, p)) != Wire(p)
  {
    match p
    case Mandatory(keys) =>
      NamesArePlain(keys);
      PlainList(Names(keys));
      NamesDiffer(keys);
      NumbersLength(keys);
    case Alpn(ids) =>
      SplitOfJoin(ids, ',');
      IdsDiffer(ids);
    case Port(port) =>
      DigitsAreOne(port);
      PortDiffers(port);
    case Ipv4Hint(quads) =>
      QuadsArePlain(quads);
      PlainList(Quads(quads));
      QuadsDiffer(quads);
      QuadsLength(quads);
    case Ech(config) =>
      RawIsEncoded(Unpadded(b64, config));
    case Ipv6Hint(addrs) =>
      AddressesArePlain(addrs);
      PlainList(Addresses(addrs));
      AddressesDiffer(addrs);
      AddressesLength(addrs);
  }

  lemma DigitsAreOne(port: nat)
    ensures EncodeRaw(Split(Show(port, 10), ',')) == Codes(Show(port, 10))
  {
    assert !IsDigit(',');
    RawIsEncoded(Show(port, 10));
  }

  /** The bytes sent for a value are the wire form of the key's number if and only if the key is spelled well. */
  lemma SpellingDecides(b64: Base64, p: Param, key: string)
    requires Good(b64, p) && KeyNumber(key) == Some(Num(p)) && (p.Ech? ==> Lengthens(b64, p.config))
    ensures var value := if p.NoDefaultAlpn? then "" else KeptText(b64, p);
      && (Encode(b64, key, value) == Some(Wire(p)) <==> WellSpelled(key, Num(p)))
      && (!WellSpelled(key, Num(p)) ==> Encode(b64, key, value) == Some(Raw(key, value)))
  {
    EncodeIsWire(b64, p);
    var value := if p.NoDefaultAlpn? then "" else KeptText(b64, p);
    EncodeIsRaw(b64, key, value, Num(p));
    if p.NoDefaultAlpn? {
      RawIsEncoded(value);
    } else if p.Other? {
      RawIsEncoded(p.text);
    } else {
      RawIsNotWire(b64, p, key);
    }
  }

  lemma EncodeIsRaw(b64: Base64, key: string, value: string, n: nat)
    requires KeyNumber(key) == Some(n)
    ensures key != KeyName(n) || n >= 7 ==> Encode(b64, key, value) == Some(Raw(key, value))
    ensures n >= 7 ==> Numbered(Lower(key))
  {
    KindOfSpelling(key, n);
  }

  // ---------------------------------------------------------------- lines

  lemma KnownChars(name: string)
    requires KeyNumber(name).Some?
    ensures NameText(Lower(name)) && forall c :: c in name ==> NameChar(LowerChar(c))
  {
    var low := Lower(name);
    if Numbered(low) {
      assert low == low[..3] + low[3..];
    }
    forall c | c in name ensures NameChar(LowerChar(c)) {
      var i :| 0 <= i < |name| && name[i] == c;
      assert low[i] in low;
    }
  }

  /** A known key has no white space or quotes at its ends, and no equals sign. */
  lemma KnownIsPlain(name: string)
    requires KeyNumber(name).Some?
    ensures Trim(name) == name && name != "" && Unquote(name) == name && '=' !in name && !IsSpace(name[0])
  {
    KnownChars(name);
    assert name[0] in name && name[|name| - 1] in name;
    SpaceIsNoName(name[0]);
    SpaceIsNoName(name[|name| - 1]);
    TrimKeeps(name);
    assert LowerChar('=') == '=' && LowerChar('"') == '"';
  }

  lemma SpaceIsNoName(c: char)
    requires NameChar(LowerChar(c))
    ensures !IsSpace(c)
  {
  }

  lemma KnownLine(key: string, value: string)
    requires KeyNumber(key).Some? && Kept(value)
    ensures var line := key + ("=" + value); SplitLine(line) == (key, value) && Trim(line) != ""
  {
    KnownIsPlain(key);
    SplitAt(key, value, '=');
    SplitPlain(key, '=');
    SplitPlain(value, '=');
    TrimKeeps(value);
    TrimKeepsSome(key + ("=" + value));
  }

  /** A line is sent under the number of its key; its bytes are the wire form if and only if the key is spelled well. */
  lemma SpelledLine(b64: Base64, s: Scan, p: Param, key: string)
    requires Good(b64, p) && !p.NoDefaultAlpn? && (p.Ech? ==> Lengthens(b64, p.config))
    requires KeyNumber(key) == Some(Num(p)) && key !in s.seen
    ensures var t := Step(b64, s, key + ("=" + KeptText(b64, p)));
      && |t.entries| == |s.entries| + 1 && t.entries[..|s.entries|] == s.entries
      && var e := t.entries[|s.entries|];
         e.num == Num(p) && e.name == key && (e.bytes == Wire(p) <==> WellSpelled(key, Num(p)))
  {
    TextIsKept(b64, p);
    KnownLine(key, KeptText(b64, p));
    SpellingDecides(b64, p, key);
  }

  /** `ALPN` has the number of `alpn`, and nothing is sent for it. */
  lemma UpperCaseSendsNothing(b64: Base64, key: string, value: string)
    requires key == "ALPN"
    ensures KeyNumber(key) == Some(1) && !WellSpelled(key, 1) && Encode(b64, key, value) == Some([])
  {
    assert Lower(key) == "alpn";
    assert KeyName(1) == "alpn" && key[0] == 'A';
    assert Lower(key)[..3][0] == 'a';
    EncodeIsRaw(b64, key, value, 1);
  }
}
