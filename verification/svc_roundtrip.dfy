/** Values of service parameters: encoding what is shown gives the wire form, decoding that shows it again. */
module SvcRoundTrip {
  import opened Base
  import opened Text
  import opened Ip
  import opened Ipv6Text
  import opened Sorting
  import opened SvcValues
  import opened SvcParams

  // ---------------------------------------------------------------- mandatory keys

  lemma NameIsNew(k: nat, ks: seq<nat>)
    requires k <= 65535 && k !in ks && forall j :: j in ks ==> j <= 65535
    ensures KeyName(k) !in Names(ks)
  {
    KeyNameIsRead(k);
    if KeyName(k) in Names(ks) {
      var i :| 0 <= i < |ks| && Names(ks)[i] == KeyName(k);
      assert ks[i] in ks;
      KeyNameIsRead(ks[i]);
    }
  }

  lemma LaterKeys(ks: seq<nat>)
    requires GoodKeys(ks) && ks != []
    ensures ks[0] in ks && GoodKeys(ks[1..]) && KeyName(ks[0]) !in Names(ks[1..])
  {
    var more := ks[1..];
    assert ks[0] in ks && forall k :: k in more ==> k in ks;
    assert forall i :: 0 <= i < |more| ==> more[i] == ks[i + 1] > ks[0];
    NameIsNew(ks[0], more);
  }

  lemma {:induction false} NumbersOfNames(ks: seq<nat>, seen: set<string>)
    requires GoodKeys(ks) && forall n :: n in Names(ks) ==> n !in seen
    ensures MandatoryNumbers(Names(ks), seen) == ks
  {
    if ks != [] {
      var name, more := KeyName(ks[0]), ks[1..];
      LaterKeys(ks);
      KeyNameIsRead(ks[0]);
      NameTextIsPlain(name);
      var names := Names(ks);
      assert names[0] == name && names[1..] == Names(more);
      forall n | n in Names(more) ensures n !in seen + {name} {
        assert n in names;
      }
      NumbersOfNames(more, seen + {name});
    }
  }

  lemma MandatoryIsEncoded(b64: Base64, keys: seq<nat>)
    requires Good(b64, Mandatory(keys))
    ensures Encode(b64, KeyName(0), Join(Names(keys), ",")) == Some(EncodeNumbers(keys))
  {
    NamesArePlain(keys);
    PlainList(Names(keys));
    NumbersOfNames(keys, {});
    SortOfIncreasing(keys, Same);
    KindOfName(0);
  }

  lemma TwoThen(n: nat, rest: seq<nat>)
    requires n <= 65535
    ensures var buf := Two(n) + rest; Word(buf, 0) == n && buf[2..] == rest
  {
  }

  lemma {:induction false} NumbersAreDecoded(ns: seq<nat>)
    requires forall n :: n in ns ==> n <= 65535
    ensures AllBytes(EncodeNumbers(ns)) && DecodeNumbers(EncodeNumbers(ns)) == ns
  {
    if ns != [] {
      assert ns[0] in ns && forall n :: n in ns[1..] ==> n in ns;
      NumbersAreDecoded(ns[1..]);
      TwoThen(ns[0], EncodeNumbers(ns[1..]));
      assert ns == [ns[0]] + ns[1..];
    }
  }

  /** The name stands for a number that is sent, and is not among the names that were seen before. */
  predicate Means(name: string, seen: set<string>, n: nat) {
    n != 0 && Trim(name) !in seen && KeyNumber(Trim(name)) == Some(n)
  }

  /** Two names that differ, as `alpn` and `key1` do, with one number. */
  predicate Clash(name: string, other: string, seen: set<string>) {
    Trim(name) != Trim(other) && var n := KeyNumber(Trim(name)).GetOr(0); Means(name, seen, n) && Means(other, seen, n)
  }

  lemma FirstMember(names: seq<string>, seen: set<string>, n: nat)
    requires names != []
    ensures n in MandatoryNumbers(names, seen) <==>
      Means(names[0], seen, n) || n in MandatoryNumbers(names[1..], seen + {Trim(names[0])})
  {
    var more := MandatoryNumbers(names[1..], seen + {Trim(names[0])});
    assert forall x: nat :: n in [x] + more <==> n == x || n in more;
  }

  lemma {:induction false} MandatoryMembers(names: seq<string>, seen: set<string>, n: nat)
    ensures n in MandatoryNumbers(names, seen) <==> exists name :: name in names && Means(name, seen, n)
  {
    if names != [] {
      var k, tail := Trim(names[0]), names[1..];
      FirstMember(names, seen, n);
      MandatoryMembers(tail, seen + {k}, n);
      if n in MandatoryNumbers(tail, seen + {k}) {
        var name :| name in tail && Means(name, seen + {k}, n);
        assert name in names && Means(name, seen, n);
      }
      forall name | name in names && Means(name, seen, n) ensures n in MandatoryNumbers(names, seen) {
        if Trim(name) == k {
          assert Means(names[0], seen, n);
        } else {
          assert name in tail && Means(name, seen + {k}, n);
        }
      }
    }
  }

  lemma {:induction false} MandatoryClashes(names: seq<string>, seen: set<string>)
    ensures NoDuplicates(MandatoryNumbers(names, seen)) <==>
      forall a, b :: a in names && b in names ==> !Clash(a, b, seen)
  {
    if names != [] {
      var head, tail := names[0], names[1..];
      var k := Trim(head);
      MandatoryClashes(tail, seen + {k});
      ClashesWithHead(head, tail, seen);
      var more, n := MandatoryNumbers(tail, seen + {k}), KeyNumber(k).GetOr(0);
      if Means(head, seen, n) {
        MandatoryMembers(tail, seen + {k}, n);
        assert forall name :: Means(name, seen + {k}, n) <==> Clash(head, name, seen);
        NoDuplicatesCons(n, more);
      }
    }
  }

  lemma NoDuplicatesCons(n: nat, more: seq<nat>)
    ensures NoDuplicates([n] + more) <==> n !in more && NoDuplicates(more)
  {
    var all := [n] + more;
    assert forall i :: 0 <= i < |more| ==> all[i + 1] == more[i];
    if NoDuplicates(all) {
      forall i, j | 0 <= i < j < |more| ensures more[i] != more[j] {
        assert all[i + 1] != all[j + 1];
      }
      forall i | 0 <= i < |more| ensures more[i] != n {
        assert all[0] != all[i + 1];
      }
    }
  }

  lemma ClashesWithHead(head: string, tail: seq<string>, seen: set<string>)
    ensures var names, k := [head] + tail, Trim(head);
      (forall a, b :: a in names && b in names ==> !Clash(a, b, seen)) <==>
      (forall b :: b in tail ==> !Clash(head, b, seen)) &&
      (forall a, b :: a in tail && b in tail ==> !Clash(a, b, seen + {k}))
  {
    var names, k := [head] + tail, Trim(head);
    assert forall a, b :: Clash(a, b, seen + {k}) <==> Clash(a, b, seen) && Trim(a) != k && Trim(b) != k;
    assert forall a, b :: Clash(a, b, seen) && Trim(a) == k ==> Clash(head, b, seen);
    assert forall a, b :: Clash(a, b, seen) ==> Clash(b, a, seen);
    assert forall a :: a in names <==> a == head || a in tail;
  }

  /**
   The numbers that are sent never decrease, and 0 is not among them. They increase
   strictly, as section 8 of RFC 9460 demands, exactly when no two different names in the
   list have the same number.
   */
  lemma MandatoryIncreases(names: seq<string>, seen: set<string>)
    ensures var ns := MandatoryNumbers(names, seen);
      && 0 !in ns && Ordered(Sort(ns, Same), Same)
      && (Increasing(Sort(ns, Same), Same) <==> forall a, b :: a in names && b in names ==> !Clash(a, b, seen))
  {
    var ns := MandatoryNumbers(names, seen);
    SortKeeps(ns, Same);
    SortIncreases(ns, Same);
    MandatoryClashes(names, seen);
    assert DistinctKeys(ns, Same) <==> NoDuplicates(ns) by {
      if NoDuplicates(ns) {
        assert forall i, j :: 0 <= i < j < |ns| ==> Same(ns[i]) != Same(ns[j]);
      }
      if DistinctKeys(ns, Same) {
        assert forall i, j :: 0 <= i < j < |ns| ==> Same(ns[i]) != Same(ns[j]);
      }
    }
    NoZero(names, seen);
  }

  lemma {:induction false} NoZero(names: seq<string>, seen: set<string>)
    ensures 0 !in MandatoryNumbers(names, seen)
  {
    if names != [] {
      NoZero(names[1..], seen + {Trim(names[0])});
    }
  }

  // ---------------------------------------------------------------- protocol identifiers

  lemma {:induction false} IdsAreDecoded(ids: seq<string>)
    requires forall id :: id in ids ==> GoodId(id)
    ensures AllBytes(EncodeIds(ids)) && DecodeIds(EncodeIds(ids)) == ids
  {
    if ids != [] {
      var id, more := ids[0], ids[1..];
      assert id in ids;
      IdsAreDecoded(more);
      CharsOfCodes(id);
      var buf := EncodeIds(ids);
      assert buf[0] == |id| && buf[1..1 + |id|] == Codes(id) && buf[1 + |id|..] == EncodeIds(more);
      assert ids == [id] + more;
    }
  }

  /** One round of the loop over the identifiers. */
  lemma IdStep(buf: seq<nat>, pos: nat, front: seq<string>)
    requires pos < |buf|
    ensures var start, end := pos + 1, pos + 1 + buf[pos];
      front + DecodeIds(buf[pos..]) ==
        if end > |buf| then front else front + [Chars(buf[start..end])] + DecodeIds(buf[end..])
  {
    var rest, len, start := buf[pos..], buf[pos], pos + 1;
    EmptyIsUnit(front);
    if start + len <= |buf| {
      assert rest[1..1 + len] == buf[start..start + len] && rest[1 + len..] == buf[start + len..];
      Associative(front, [Chars(buf[start..start + len])], DecodeIds(buf[start + len..]));
    }
  }

  /** The loop of `decodeSvcParamValue` over the identifiers. */
  method DecodeIdsLoop(buf: seq<nat>) returns (result: seq<string>)
    ensures result == DecodeIds(buf)
  {
    var pos := 0;
    result := [];
    assert buf[0..] == buf;
    while pos < |buf|
      invariant 0 <= pos <= |buf|
      invariant result + DecodeIds(buf[pos..]) == DecodeIds(buf)
    {
      IdStep(buf, pos, result);
      var len := buf[pos];
      pos := pos + 1;
      if pos + len > |buf| {
        return;
      }
      result := result + [Chars(buf[pos..pos + len])];
      pos := pos + len;
    }
    EmptyIsUnit(result);
  }

  // ---------------------------------------------------------------- IPv4 hints

  lemma {:induction false} DecimalsAreParsed(ns: seq<nat>)
    ensures ParseDecimals(ShowDecimals(ns)) == Some(ns)
  {
    if ns != [] {
      DecimalsAreParsed(ns[1..]);
      ValueOfShow(ns[0], 10);
      assert ShowDecimals(ns)[1..] == ShowDecimals(ns[1..]);
      assert ns == [ns[0]] + ns[1..];
    }
  }

  lemma QuadIsEncoded(q: seq<nat>)
    requires Octets(q)
    ensures ParseDecimals(Split(Trim(Quad(ShowDecimals(q))), '.')) == Some(q)
  {
    QuadIsPlain(q);
    PlainIsKept(Quad(ShowDecimals(q)));
    TrimKeeps(Quad(ShowDecimals(q)));
    DecimalsArePlain(q);
    SplitOfJoin(ShowDecimals(q), '.');
    DecimalsAreParsed(q);
  }

  lemma {:induction false} QuadsAreEncoded(quads: seq<seq<nat>>)
    requires forall q :: q in quads ==> Octets(q)
    ensures EncodeIpv4Hints(Quads(quads)) == Some(Flat(quads))
  {
    if quads != [] {
      assert quads[0] in quads;
      QuadIsEncoded(quads[0]);
      QuadsAreEncoded(quads[1..]);
      assert Quads(quads)[1..] == Quads(quads[1..]);
    }
  }

  lemma {:induction false} QuadsAreDecoded(quads: seq<seq<nat>>)
    requires forall q :: q in quads ==> Octets(q)
    ensures AllBytes(Flat(quads)) && DecodeIpv4Hints(Flat(quads)) == Quads(quads)
    ensures quads != [] ==> Flat(quads) != []
  {
    if quads != [] {
      var q, more := quads[0], quads[1..];
      assert q in quads;
      QuadsAreDecoded(more);
      var buf := Flat(quads);
      assert AllBytes(q) by {
        assert forall i :: 0 <= i < 4 ==> IsByte(q[i]);
      }
      assert buf[..4] == q && buf[4..] == Flat(more);
      assert Quads(quads) == [Quad(ShowDecimals(q))] + Quads(more);
      if more == [] {
        EmptyIsUnit(q);
      }
    }
  }

  // ---------------------------------------------------------------- IPv6 hints

  lemma {:induction false} AddressesAreEncoded(addrs: seq<seq<nat>>)
    requires forall a :: a in addrs ==> GoodAddress(a)
    ensures EncodeIpv6Hints(Addresses(addrs)) == Some(AddressBytes(addrs))
  {
    if addrs != [] {
      assert addrs[0] in addrs;
      AddressIsPlain(addrs[0]);
      PlainIsKept(Compressed(addrs[0]));
      TrimKeeps(Compressed(addrs[0]));
      CompressedIsEncoded(addrs[0]);
      AddressesAreEncoded(addrs[1..]);
      assert Addresses(addrs)[1..] == Addresses(addrs[1..]);
    }
  }

  lemma {:induction false} WordBytesAt(ws: seq<nat>, i: nat)
    requires Words(ws) && i < |ws|
    ensures AllBytes(WordBytes(ws)) && Word(WordBytes(ws), 2 * i) == ws[i]
  {
    var more := ws[1..];
    assert ws[0] in ws && forall w :: w in more ==> w in ws;
    var buf := WordBytes(ws);
    assert buf[2..] == WordBytes(more);
    if more != [] {
      WordBytesAt(more, if i == 0 then 0 else i - 1);
    }
    if i > 0 {
      assert buf[2 * i] == WordBytes(more)[2 * i - 2] && buf[2 * i + 1] == WordBytes(more)[2 * i - 1];
    }
  }

  lemma WordsOfBytes(ws: seq<nat>, rest: seq<nat>)
    requires GoodAddress(ws)
    ensures EightWords(WordBytes(ws) + rest) == ws
  {
    var buf := WordBytes(ws);
    forall i: nat | i < 8 ensures Word(buf + rest, 2 * i) == ws[i] {
      WordBytesAt(ws, i);
    }
    forall k: nat | k < 8 ensures EightWords(buf + rest)[k] == ws[k] {
      EightWordsAt(buf + rest, k);
    }
  }

  lemma EightWordsAt(buf: seq<nat>, k: nat)
    requires k < 8
    ensures EightWords(buf)[k] == Word(buf, 2 * k)
  {
    assert k == 0 || k == 1 || k == 2 || k == 3 || k == 4 || k == 5 || k == 6 || k == 7;
  }

  /** The bytes that the inner loop reads. */
  lemma WordAt(buf: seq<nat>, i: nat, k: nat)
    requires AllBytes(buf) && i <= |buf| && k < 8
    ensures var hi, lo := ByteAt(buf, i + 2 * k), ByteAt(buf, i + 2 * k + 1);
      IsByte(hi) && IsByte(lo) && EightWords(buf[i..])[k] == hi * 256 + lo
  {
    EightWordsAt(buf[i..], k);
    var hi := i + 2 * k;
    assert hi < |buf| ==> buf[hi] in buf && buf[i..][2 * k] == buf[hi];
    assert hi + 1 < |buf| ==> buf[hi + 1] in buf && buf[i..][2 * k + 1] == buf[hi + 1];
  }

  lemma {:induction false} AddressesAreDecoded(addrs: seq<seq<nat>>)
    requires forall a :: a in addrs ==> GoodAddress(a)
    ensures AllBytes(AddressBytes(addrs)) && DecodeIpv6Hints(AddressBytes(addrs)) == Addresses(addrs)
  {
    if addrs != [] {
      var a, more := addrs[0], addrs[1..];
      assert a in addrs;
      AddressesAreDecoded(more);
      WordBytesAt(a, 0);
      WordsOfBytes(a, AddressBytes(more));
      var buf := AddressBytes(addrs);
      assert buf[16..] == AddressBytes(more);
      assert Addresses(addrs) == [Compressed(a)] + Addresses(more);
    }
  }

  /** The loops of `decodeSvcParamValue` over the addresses. */
  method DecodeIpv6Loop(buf: seq<nat>) returns (addrs: seq<string>)
    requires AllBytes(buf)
    ensures addrs == DecodeIpv6Hints(buf)
  {
    addrs := [];
    var i := 0;
    assert buf[0..] == buf;
    while i + 15 <= |buf|
      invariant 0 <= i
      invariant addrs + DecodeIpv6Hints(if i <= |buf| then buf[i..] else []) == DecodeIpv6Hints(buf)
    {
      ghost var rest := buf[i..];
      var addr := AddressLoop(buf, i);
      var text := CompressIPv6(addr);
      ghost var later := if i + 16 <= |buf| then buf[i + 16..] else [];
      assert |rest| >= 16 ==> rest[16..] == later;
      assert DecodeIpv6Hints(rest) == [text] + DecodeIpv6Hints(later);
      Associative(addrs, [text], DecodeIpv6Hints(later));
      addrs := addrs + [text];
      i := i + 16;
    }
    EmptyIsUnit(addrs);
  }

  /** The inner loop: eight words as four hex digits each. */
  method AddressLoop(buf: seq<nat>, i: nat) returns (addr: seq<string>)
    requires AllBytes(buf) && i + 15 <= |buf|
    ensures Groups(addr) && Values(addr) == EightWords(buf[i..])
  {
    addr := [];
    ghost var ws := EightWords(buf[i..]);
    var j: nat := 0;
    while j < 16
      invariant j <= 16 && j % 2 == 0 && |addr| == j / 2
      invariant Groups(addr) && Values(addr) == ws[..j / 2]
    {
      var hi, lo := ByteAt(buf, i + j), ByteAt(buf, i + j + 1);
      WordAt(buf, i, j / 2);
      var word := hi * 256 + lo;
      PaddedWord(word);
      ValuesAppend(addr, [Pad(Show(word, 16), 4)]);
      addr := addr + [Pad(Show(word, 16), 4)];
      j := j + 2;
    }
  }

  lemma PaddedWord(w: nat)
    requires w <= 0xFFFF
    ensures var g := Pad(Show(w, 16), 4); Groups([g]) && Values([g]) == [w]
  {
    PowersOfSixteen();
    ShowLength(w, 16, 4);
    ValueOfShow(w, 16);
    ValueOfPad(Show(w, 16), 4);
    var g := Pad(Show(w, 16), 4);
    var gs := [g];
    assert gs[..0] == [];
    ValueAt(gs, 0);
  }

  // ---------------------------------------------------------------- every value

  lemma {:induction false} RawIsEncoded(text: string)
    requires ',' !in text
    ensures EncodeRaw(Split(text, ',')) == Codes(text)
  {
    SplitPlain(text, ',');
    var parts := [text];
    assert parts[1..] == [];
    EmptyIsUnit(Codes(text));
  }

  lemma OtherIsEncoded(b64: Base64, num: nat, text: string)
    requires Good(b64, Other(num, text))
    ensures Encode(b64, KeyName(num), text) == Some(Codes(text))
  {
    KindOfName(num);
    RawIsEncoded(text);
  }

  lemma OtherIsDecoded(b64: Base64, num: nat, text: string)
    requires Good(b64, Other(num, text))
    ensures AllBytes(Codes(text)) && Decode(b64, KeyName(num), Codes(text)) == text
  {
    KindOfName(num);
    CharsOfCodes(text);
  }

  lemma Ipv4HintIsEncoded(b64: Base64, quads: seq<seq<nat>>)
    requires quads != [] && forall x :: x in quads ==> Octets(x)
    ensures Encode(b64, KeyName(4), Join(Quads(quads), ",")) == Some(Flat(quads))
  {
    QuadsArePlain(quads);
    PlainList(Quads(quads));
    QuadsAreEncoded(quads);
    KindOfName(4);
  }

  lemma Ipv6HintIsEncoded(b64: Base64, addrs: seq<seq<nat>>)
    requires addrs != [] && forall x :: x in addrs ==> GoodAddress(x)
    ensures Encode(b64, KeyName(6), Join(Addresses(addrs), ",")) == Some(AddressBytes(addrs))
  {
    AddressesArePlain(addrs);
    PlainList(Addresses(addrs));
    AddressesAreEncoded(addrs);
    KindOfName(6);
  }

  lemma AlpnIsEncoded(b64: Base64, ids: seq<string>)
    requires Good(b64, Alpn(ids))
    ensures Encode(b64, KeyName(1), Join(ids, ",")) == Some(EncodeIds(ids))
  {
    SplitOfJoin(ids, ',');
    KindOfName(1);
  }

  lemma PortIsEncoded(b64: Base64, port: nat)
    ensures Encode(b64, KeyName(3), Show(port, 10)) == Some(Two(port))
  {
    ParseIntOfShow(port);
    KindOfName(3);
  }

  /** The encoder turns the value of a line into its wire form. */
  lemma EncodeIsWire(b64: Base64, p: Param)
    requires Good(b64, p)
    ensures Encode(b64, KeyName(Num(p)), if p.NoDefaultAlpn? then "" else KeptText(b64, p)) == Some(Wire(p))
  {
    KindOfName(Num(p));
    match p
    case Mandatory(keys) => MandatoryIsEncoded(b64, keys);
    case Alpn(ids) => AlpnIsEncoded(b64, ids);
    case Port(port) => PortIsEncoded(b64, port);
    case Ipv4Hint(quads) => Ipv4HintIsEncoded(b64, quads);
    case Ipv6Hint(addrs) => Ipv6HintIsEncoded(b64, addrs);
    case Other(num, text) => OtherIsEncoded(b64, num, text);
    case _ =>
  }

  /** The decoder shows the wire form as the value was shown. */
  lemma DecodeIsText(b64: Base64, p: Param)
    requires Good(b64, p)
    ensures AllBytes(Wire(p)) && Decode(b64, KeyName(Num(p)), Wire(p)) == ValueText(b64, p)
  {
    KindOfName(Num(p));
    match p
    case Mandatory(keys) => NumbersAreDecoded(keys);
    case Alpn(ids) => IdsAreDecoded(ids);
    case Port(port) => PortIsDecoded(b64, port);
    case Ipv4Hint(quads) => QuadsAreDecoded(quads);
    case Ipv6Hint(addrs) => AddressesAreDecoded(addrs);
    case Other(num, text) => OtherIsDecoded(b64, num, text);
    case _ =>
  }

  lemma PortIsDecoded(b64: Base64, port: nat)
    requires port <= 65535
    ensures Decode(b64, KeyName(3), Two(port)) == Show(port, 10)
  {
    WordOfTwo(port);
    KindOfName(3);
  }
}
