/** Values that are cut off: what the decoder shows of them. */
module SvcRules {
  import opened Base
  import opened Text
  import opened Ip
  import opened Ipv6Text
  import opened SvcValues
  import opened SvcParams
  import opened SvcRoundTrip

  /** A byte that is left over of the key numbers is not shown. */
  lemma {:induction false} CutNumbers(ns: seq<nat>, last: nat)
    requires forall n :: n in ns ==> n <= 65535
    ensures DecodeNumbers(EncodeNumbers(ns) + [last]) == ns
  {
    if ns != [] {
      assert ns[0] in ns && forall n :: n in ns[1..] ==> n in ns;
      CutNumbers(ns[1..], last);
      Associative(Two(ns[0]), EncodeNumbers(ns[1..]), [last]);
      TwoThen(ns[0], EncodeNumbers(ns[1..]) + [last]);
      assert ns == [ns[0]] + ns[1..];
    }
  }

  /** An identifier that is cut off is not shown. */
  lemma {:induction false} CutIds(ids: seq<string>, length: nat, rest: seq<nat>)
    requires (forall id :: id in ids ==> GoodId(id)) && |rest| < length
    ensures DecodeIds(EncodeIds(ids) + ([length] + rest)) == ids
  {
    if ids == [] {
      EmptyIsUnit([length] + rest);
    } else {
      var id, more := ids[0], ids[1..];
      assert id in ids && forall other :: other in more ==> other in ids;
      CutIds(more, length, rest);
      Associative([|id|] + Codes(id), EncodeIds(more), [length] + rest);
      IdFirst(id, EncodeIds(more) + ([length] + rest));
      assert ids == [id] + more;
    }
  }

  lemma IdFirst(id: string, tail: seq<nat>)
    requires GoodId(id)
    ensures DecodeIds([|id|] + Codes(id) + tail) == [id] + DecodeIds(tail)
  {
    CharsOfCodes(id);
    var buf := [|id|] + Codes(id) + tail;
    assert buf[1..1 + |id|] == Codes(id) && buf[1 + |id|..] == tail;
  }

  /** Of an IPv4 address the bytes that are there are shown. */
  lemma {:induction false} CutQuads(quads: seq<seq<nat>>, rest: seq<nat>)
    requires (forall q :: q in quads ==> Octets(q)) && 0 < |rest| < 4
    ensures DecodeIpv4Hints(Flat(quads) + rest) == Quads(quads) + [Join(ShowDecimals(rest), ".")]
  {
    if quads == [] {
      EmptyIsUnit(rest);
      assert Quads(quads) == [];
    } else {
      var q, more := quads[0], quads[1..];
      assert q in quads && forall other :: other in more ==> other in quads;
      CutQuads(more, rest);
      OneMoreQuad(q, more, Flat(more) + rest, [Join(ShowDecimals(rest), ".")]);
      Associative(q, Flat(more), rest);
      assert quads == [q] + more;
    }
  }

  lemma OneMoreQuad(q: seq<nat>, more: seq<seq<nat>>, tail: seq<nat>, last: seq<string>)
    requires Octets(q) && tail != [] && DecodeIpv4Hints(tail) == Quads(more) + last
    ensures DecodeIpv4Hints(q + tail) == Quads([q] + more) + last
  {
    QuadFirst(q, tail);
    assert Quads([q] + more) == [Quad(ShowDecimals(q))] + Quads(more);
    Associative([Quad(ShowDecimals(q))], Quads(more), last);
  }

  lemma QuadFirst(q: seq<nat>, rest: seq<nat>)
    requires Octets(q) && rest != []
    ensures DecodeIpv4Hints(q + rest) == [Quad(ShowDecimals(q))] + DecodeIpv4Hints(rest)
  {
    assert (q + rest)[..4] == q && (q + rest)[4..] == rest;
  }

  /** Less than fifteen bytes of an IPv6 address are not shown; with fifteen the missing one counts as zero. */
  lemma {:induction false} CutAddresses(addrs: seq<seq<nat>>, rest: seq<nat>)
    requires (forall a :: a in addrs ==> GoodAddress(a)) && |rest| < 16
    ensures DecodeIpv6Hints(AddressBytes(addrs) + rest) == Addresses(addrs) + LastAddress(rest)
  {
    if addrs == [] {
      EmptyIsUnit(rest);
      LastIsDecoded(rest);
      assert Addresses(addrs) == [];
    } else {
      var a, more := addrs[0], addrs[1..];
      assert a in addrs && forall other :: other in more ==> other in addrs;
      CutAddresses(more, rest);
      AddressThen(a, more, rest, LastAddress(rest));
      assert addrs == [a] + more;
    }
  }

  lemma AddressThen(a: seq<nat>, more: seq<seq<nat>>, rest: seq<nat>, last: seq<string>)
    requires GoodAddress(a) && DecodeIpv6Hints(AddressBytes(more) + rest) == Addresses(more) + last
    ensures DecodeIpv6Hints(AddressBytes([a] + more) + rest) == Addresses([a] + more) + last
  {
    var addrs := [a] + more;
    assert addrs[0] == a && addrs[1..] == more;
    assert AddressBytes(addrs) == WordBytes(a) + AddressBytes(more);
    Associative(WordBytes(a), AddressBytes(more), rest);
    AddressFirst(a, AddressBytes(more) + rest);
    OneMoreAddress(a, more, last, Compressed(a));
  }

  lemma OneMoreAddress(a: seq<nat>, more: seq<seq<nat>>, last: seq<string>, shown: string)
    requires |a| == 8 && shown == Compressed(a)
    ensures Addresses([a] + more) + last == [shown] + (Addresses(more) + last)
  {
    assert Addresses([a] + more) == [shown] + Addresses(more);
  }

  function LastAddress(rest: seq<nat>): seq<string> {
    if |rest| < 15 then [] else [Compressed(EightWords(rest + [0]))]
  }

  lemma LastIsDecoded(rest: seq<nat>)
    requires |rest| < 16
    ensures DecodeIpv6Hints(rest) == LastAddress(rest)
  {
    if |rest| == 15 {
      ZeroIsMissing(rest);
      assert DecodeIpv6Hints([]) == [];
    }
  }

  lemma ZeroIsMissing(rest: seq<nat>)
    requires |rest| == 15
    ensures EightWords(rest + [0]) == EightWords(rest)
  {
    assert forall i: nat :: ByteAt(rest + [0], i) == ByteAt(rest, i);
  }

  lemma AddressFirst(a: seq<nat>, rest: seq<nat>)
    requires GoodAddress(a)
    ensures DecodeIpv6Hints(WordBytes(a) + rest) == [Compressed(a)] + DecodeIpv6Hints(rest)
  {
    var buf := WordBytes(a) + rest;
    WordBytesAt(a, 0);
    WordsOfBytes(a, rest);
    assert buf[16..] == rest;
  }

  /** A port of less than two bytes is filled up with zeros. */
  lemma CutPort(b64: Base64, high: nat)
    ensures Decode(b64, "port", []) == "0" && Decode(b64, "port", [high]) == Show(high * 256, 10)
  {
    assert Show(0, 10) == "0";
  }

  /** `key` with one to five digits is the number they denote, up to 65535; with more or fewer it is no key. */
  lemma NumberedKeys(key: string, digits: string)
    requires key == "key" && AllDigits(digits)
    ensures KeyNumber(key + digits) ==
      if 1 <= |digits| <= 5 && Value(digits, 10) <= 65535 then Some(Value(digits, 10)) else None
  {
    var name := key + digits;
    KeyIsLower(key, digits);
    assert name[..3] == key && name[3..] == digits && name[0] == key[0];
    IsNumbered(name, digits);
    NotNamed(name);
  }

  lemma IsNumbered(name: string, digits: string)
    requires |name| == 3 + |digits| && name[..3] == "key" && name[3..] == digits && AllDigits(digits)
    ensures Numbered(name) <==> 1 <= |digits| <= 5
  {
  }

  lemma KeyIsLower(key: string, digits: string)
    requires key == "key" && AllDigits(digits)
    ensures Lower(key + digits) == key + digits
  {
    var name := key + digits;
    forall i | 0 <= i < |name| ensures LowerChar(name[i]) == name[i] {
      if i >= 3 {
        assert name[i] == digits[i - 3] && digits[i - 3] in digits;
      }
    }
    assert Lower(name) == name;
  }

  lemma NotNamed(name: string)
    requires Lower(name) == name && name != "" && name[0] == 'k'
    ensures KeyNumber(name) ==
      if Numbered(name) && Value(name[3..], 10) <= 65535 then Some(Value(name[3..], 10)) else None
  {
  }

  /** The octets of an IPv4 hint. */
  lemma {:induction false} DecimalsAre(xs: seq<string>)
    requires forall i :: 0 <= i < |xs| ==> xs[i] != "" && AllDigits(xs[i])
    ensures var r := ParseDecimals(xs);
      r.Some? && |r.value| == |xs| && forall i :: 0 <= i < |xs| ==> r.value[i] == Value(xs[i], 10)
  {
    if xs != [] {
      DecimalsAre(xs[1..]);
    }
  }

  lemma {:induction false} NoDecimals(xs: seq<string>, i: nat)
    requires i < |xs| && (xs[i] == "" || !AllDigits(xs[i]))
    ensures ParseDecimals(xs).None?
  {
    if i > 0 {
      NoDecimals(xs[1..], i - 1);
    }
  }
}
