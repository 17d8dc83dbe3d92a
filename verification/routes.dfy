/** Longest prefix match of `view/status/routes.js`, and the subnet sums of `dhcp.js` and `static.js`. */
module Routes {
  import opened Base
  import opened Bits
  import opened Ip
  import opened Ipv6Text
  import opened Masks
  import opened Subnets

  // ---------------------------------------------------------------- the search

  /** An address of an interface: `address || target`, and `mask`. */
  datatype Entry = Entry(addr: Option<string>, mask: Option<int>)

  /** An interface with its lists of addresses, in the order in which they are searched. */
  datatype Network = Network(iface: string, l3Device: Option<string>, device: Option<string>, lists: seq<seq<Entry>>)

  /** An address, and the interface that has it. */
  datatype Candidate = Candidate(iface: string, entry: Entry)

  /** The best so far: `matching_iface` and `matching_prefix`. */
  datatype Match = Match(iface: Option<string>, prefix: int)

  datatype Query = Query(addr: string, mask: int, v6: bool)

  /** Whether an entry passes the comparison of the masked addresses. */
  predicate Passes(e: Entry, q: Query) {
    e.addr.Some? && e.mask.Some?
    && ApplyMask(e.addr.value, e.mask.value, q.v6) == ApplyMask(q.addr, e.mask.value, q.v6) && q.mask >= e.mask.value
  }

  function Better(best: Match, c: Candidate, q: Query): Match {
    if Passes(c.entry, q) && c.entry.mask.value > best.prefix then Match(Some(c.iface), c.entry.mask.value) else best
  }

  function Best(cs: seq<Candidate>, q: Query): (best: Match)
    ensures best.prefix >= -1
  {
    if cs == [] then Match(None, -1) else Better(Best(cs[..|cs| - 1], q), cs[|cs| - 1], q)
  }

  function OfList(iface: string, list: seq<Entry>): (cs: seq<Candidate>)
    ensures |cs| == |list| && forall i :: 0 <= i < |list| ==> cs[i] == Candidate(iface, list[i])
  {
    seq(|list|, i requires 0 <= i < |list| => Candidate(iface, list[i]))
  }

  function OfLists(iface: string, lists: seq<seq<Entry>>): seq<Candidate> {
    if lists == [] then [] else OfLists(iface, lists[..|lists| - 1]) + OfList(iface, lists[|lists| - 1])
  }

  /** Entries that are no objects are passed over, and so are interfaces on other devices. */
  predicate OnDevice(n: Option<Network>, dev: string) {
    n.Some? && (n.value.l3Device == Some(dev) || n.value.device == Some(dev))
  }

  /** The addresses of the interfaces on a device, in the order in which they are met. */
  function Candidates(networks: seq<Option<Network>>, dev: string): seq<Candidate> {
    if networks == [] then []
    else
      var front, n := networks[..|networks| - 1], networks[|networks| - 1];
      Candidates(front, dev) + (if OnDevice(n, dev) then OfLists(n.value.iface, n.value.lists) else [])
  }

  method GetNetworkByDevice(networks: seq<Option<Network>>, dev: string, q: Query) returns (iface: Option<string>)
    ensures iface == Best(Candidates(networks, dev), q).iface
  {
    var best := Match(None, -1);
    var i := 0;
    assert networks[..0] == [];
    while i < |networks|
      invariant 0 <= i <= |networks|
      invariant best == Best(Candidates(networks[..i], dev), q)
    {
      assert networks[..i + 1][..i] == networks[..i];
      EmptyIsUnit(Candidates(networks[..i], dev));
      if OnDevice(networks[i], dev) {
        best := SearchLists(Candidates(networks[..i], dev), networks[i].value.iface, networks[i].value.lists, q, best);
      }
      i := i + 1;
    }
    assert networks[..i] == networks;
    iface := best.iface;
  }

  method SearchLists(ghost before: seq<Candidate>, iface: string, lists: seq<seq<Entry>>, q: Query, best0: Match)
    returns (best: Match)
    requires best0 == Best(before, q)
    ensures best == Best(before + OfLists(iface, lists), q)
  {
    best := best0;
    var j := 0;
    assert lists[..0] == [];
    EmptyIsUnit(before);
    while j < |lists|
      invariant 0 <= j <= |lists|
      invariant best == Best(before + OfLists(iface, lists[..j]), q)
    {
      assert lists[..j + 1][..j] == lists[..j];
      Associative(before, OfLists(iface, lists[..j]), OfList(iface, lists[j]));
      best := SearchList(before + OfLists(iface, lists[..j]), iface, lists[j], q, best);
      j := j + 1;
    }
    assert lists[..j] == lists;
  }

  method SearchList(ghost before: seq<Candidate>, iface: string, list: seq<Entry>, q: Query, best0: Match)
    returns (best: Match)
    requires best0 == Best(before, q)
    ensures best == Best(before + OfList(iface, list), q)
  {
    best := best0;
    var k := 0;
    EmptyIsUnit(before);
    assert OfList(iface, list[..0]) == [];
    while k < |list|
      invariant 0 <= k <= |list|
      invariant best == Best(before + OfList(iface, list[..k]), q)
    {
      BestMore(before, iface, list, k, q);
      var e := list[k];
      k := k + 1;
      if e.addr.None? {
        continue;
      }
      if e.mask.None? {
        continue;
      }
      var addr1, addr2 := ApplyMask(e.addr.value, e.mask.value, q.v6), ApplyMask(q.addr, e.mask.value, q.v6);
      if addr1 != addr2 || q.mask < e.mask.value {
        continue;
      }
      if e.mask.value > best.prefix {
        best := Match(Some(iface), e.mask.value);
      }
    }
    assert list[..k] == list;
  }

  lemma BestMore(before: seq<Candidate>, iface: string, list: seq<Entry>, k: nat, q: Query)
    requires k < |list|
    ensures Best(before + OfList(iface, list[..k + 1]), q) ==
      Better(Best(before + OfList(iface, list[..k]), q), Candidate(iface, list[k]), q)
  {
    var cs := before + OfList(iface, list[..k + 1]);
    assert cs[..|cs| - 1] == before + OfList(iface, list[..k]);
  }

  // ---------------------------------------------------------------- what it finds

  /** The number of an address. */
  function Value(addr: string, v6: bool): nat
    requires Address(addr, v6).Some?
  {
    Number(Address(addr, v6).value, Width(v6))
  }

  /** The size of the subnets of a prefix. */
  function Size(prefix: nat, v6: bool): nat
    requires prefix <= AddressBits(v6)
  {
    Pow2(AddressBits(v6) - prefix)
  }

  /** An entry covers the searched subnet: its prefix is not longer, and both start alike. */
  predicate Covers(e: Entry, q: Query)
    requires Address(q.addr, q.v6).Some? && q.mask <= AddressBits(q.v6)
  {
    && e.addr.Some? && e.mask.Some? && 0 <= e.mask.value <= q.mask && Address(e.addr.value, q.v6).Some?
    && RoundDown(Value(e.addr.value, q.v6), Size(e.mask.value, q.v6)) ==
      RoundDown(Value(q.addr, q.v6), Size(e.mask.value, q.v6))
  }

  lemma {:induction false} MaskedFits(ws: seq<nat>, width: nat, mask: nat)
    requires FitWords(ws, width)
    ensures FitWords(Masked(ws, width, mask), width)
  {
    if ws != [] {
      var b := Min(mask, width);
      RestFits(ws, width);
      MaskedFits(ws[1..], width, mask - b);
      AndBound(ws[0], Top(width, b));
    }
  }

  /** Different words stand for different numbers. */
  lemma {:induction false} NumberIsInjective(ws: seq<nat>, vs: seq<nat>, width: nat)
    requires |ws| == |vs| && FitWords(ws, width) && FitWords(vs, width) && Number(ws, width) == Number(vs, width)
    ensures ws == vs
  {
    if ws != [] {
      var p := Pow2(Total(ws[1..], width));
      TotalSame(ws[1..], vs[1..], width);
      RestFits(ws, width);
      RestFits(vs, width);
      NumberBound(ws[1..], width);
      NumberBound(vs[1..], width);
      DivModIs(Number(ws, width), p, ws[0], Number(ws[1..], width));
      DivModIs(Number(ws, width), p, vs[0], Number(vs[1..], width));
      NumberIsInjective(ws[1..], vs[1..], width);
      assert ws == [ws[0]] + ws[1..] && vs == [vs[0]] + vs[1..];
    }
  }

  /** Words that are shown alike are the same. */
  lemma ShownAlike(ws: seq<nat>, vs: seq<nat>, v6: bool)
    requires |ws| == |vs| == (if v6 then 8 else 4) && FitWords(ws, Width(v6)) && FitWords(vs, Width(v6))
    requires ShowWords(ws, v6) == ShowWords(vs, v6)
    ensures ws == vs
  {
    Pow2Values();
    if v6 {
      ValuesOfTexts(ws);
      ValuesOfTexts(vs);
      EightAreRead(Texts(ws));
      EightAreRead(Texts(vs));
    } else {
      IPv4RoundTrip(ws);
      IPv4RoundTrip(vs);
    }
  }

  lemma WordsAlike(ws: seq<nat>, vs: seq<nat>, mask: nat, v6: bool)
    requires |ws| == |vs| == (if v6 then 8 else 4) && FitWords(ws, Width(v6)) && FitWords(vs, Width(v6))
    ensures ShowWords(Masked(ws, Width(v6), mask), v6) == ShowWords(Masked(vs, Width(v6), mask), v6) <==>
      Number(Masked(ws, Width(v6), mask), Width(v6)) == Number(Masked(vs, Width(v6), mask), Width(v6))
  {
    var width := Width(v6);
    var m, n := Masked(ws, width, mask), Masked(vs, width, mask);
    MaskedFits(ws, width, mask);
    MaskedFits(vs, width, mask);
    if Number(m, width) == Number(n, width) {
      NumberIsInjective(m, n, width);
    }
    if ShowWords(m, v6) == ShowWords(n, v6) {
      ShownAlike(m, n, v6);
    }
  }

  lemma MaskedNumber(ws: seq<nat>, mask: nat, v6: bool)
    requires |ws| == (if v6 then 8 else 4) && FitWords(ws, Width(v6)) && mask <= AddressBits(v6)
    ensures Number(Masked(ws, Width(v6), mask), Width(v6)) == RoundDown(Number(ws, Width(v6)), Size(mask, v6))
  {
    TotalIs(ws, Width(v6));
    MaskRoundsDown(ws, Width(v6), mask);
  }

  /** What masking leaves of an address. */
  lemma MaskedValue(a: string, mask: nat, v6: bool)
    requires Address(a, v6).Some? && mask <= AddressBits(v6)
    ensures var ws := Address(a, v6).value;
      |ws| == (if v6 then 8 else 4) && FitWords(ws, Width(v6))
      && ApplyMask(a, mask, v6) == Some(ShowWords(Masked(ws, Width(v6), mask), v6))
      && Number(Masked(ws, Width(v6), mask), Width(v6)) == RoundDown(Value(a, v6), Size(mask, v6))
  {
    ParsedWords(a, v6);
    MaskedNumber(Address(a, v6).value, mask, v6);
  }

  /** Addresses agree after masking exactly when their subnets start alike. */
  lemma MaskedAlike(a: string, b: string, mask: nat, v6: bool)
    requires Address(a, v6).Some? && Address(b, v6).Some? && mask <= AddressBits(v6)
    ensures ApplyMask(a, mask, v6) == ApplyMask(b, mask, v6) <==>
      RoundDown(Value(a, v6), Size(mask, v6)) == RoundDown(Value(b, v6), Size(mask, v6))
  {
    MaskedValue(a, mask, v6);
    MaskedValue(b, mask, v6);
    WordsAlike(Address(a, v6).value, Address(b, v6).value, mask, v6);
  }

  /**
   An entry matches a query, whatever the texts are. A mask beyond the width matches by its
   number alone; of two texts that are no addresses of the family each matches the other.
   */
  predicate Matches(e: Entry, q: Query) {
    && e.addr.Some? && e.mask.Some? && 0 <= e.mask.value <= q.mask
    && if e.mask.value > AddressBits(q.v6) then true
       else if Address(q.addr, q.v6).None? then Address(e.addr.value, q.v6).None?
       else
         && Address(e.addr.value, q.v6).Some?
         && RoundDown(Value(e.addr.value, q.v6), Size(e.mask.value, q.v6)) ==
              RoundDown(Value(q.addr, q.v6), Size(e.mask.value, q.v6))
  }

  /** The comparison finds the matching entries; those with a negative mask pass too, but are never better. */
  lemma PassesIsMatches(e: Entry, q: Query)
    ensures Passes(e, q) && e.mask.value >= 0 <==> Matches(e, q)
  {
    if e.addr.Some? && e.mask.Some? && 0 <= e.mask.value <= q.mask && e.mask.value <= AddressBits(q.v6) {
      if Address(q.addr, q.v6).Some? && Address(e.addr.value, q.v6).Some? {
        MaskedAlike(e.addr.value, q.addr, e.mask.value, q.v6);
      } else {
        UnreadIsNull(e.addr.value, e.mask.value, q.v6);
        UnreadIsNull(q.addr, e.mask.value, q.v6);
      }
    }
  }

  lemma UnreadIsNull(addr: string, mask: nat, v6: bool)
    requires mask <= AddressBits(v6)
    ensures ApplyMask(addr, mask, v6).None? <==> Address(addr, v6).None?
  {
    if Address(addr, v6).Some? {
      MaskedValue(addr, mask, v6);
    }
  }

  /** For an address, the comparison finds the covering entries; of the other family none passes. */
  lemma PassesIsCovers(e: Entry, q: Query)
    requires Address(q.addr, q.v6).Some? && q.mask <= AddressBits(q.v6)
    ensures Passes(e, q) && e.mask.value >= 0 <==> Covers(e, q)
    ensures Matches(e, q) <==> Covers(e, q)
  {
    PassesIsMatches(e, q);
  }

  /** `k` is the first of the matching entries with the longest prefix. */
  ghost predicate IsLongest(cs: seq<Candidate>, q: Query, k: nat)
  {
    && k < |cs| && Matches(cs[k].entry, q)
    && (forall j :: 0 <= j < |cs| && Matches(cs[j].entry, q) ==> cs[j].entry.mask.value <= cs[k].entry.mask.value)
    && (forall j :: 0 <= j < k && Matches(cs[j].entry, q) ==> cs[j].entry.mask.value < cs[k].entry.mask.value)
  }

  /** What the search has found: nothing, if no entry matches, or the first of the longest. */
  ghost predicate Found(cs: seq<Candidate>, q: Query, best: Match)
  {
    if best.iface.None? then best.prefix == -1 && forall c :: c in cs ==> !Matches(c.entry, q)
    else exists k: nat :: IsLongest(cs, q, k) && best == Match(Some(cs[k].iface), cs[k].entry.mask.value)
  }

  lemma NewLongest(front: seq<Candidate>, c: Candidate, q: Query, before: Match)
    requires Found(front, q, before) && Matches(c.entry, q) && c.entry.mask.value > before.prefix
    ensures IsLongest(front + [c], q, |front|)
  {
    var cs := front + [c];
    forall j | 0 <= j < |front| && Matches(cs[j].entry, q) ensures cs[j].entry.mask.value < c.entry.mask.value {
      assert cs[j] == front[j] && front[j] in front;
    }
  }

  lemma StillLongest(front: seq<Candidate>, c: Candidate, q: Query, before: Match)
    requires Found(front, q, before) && (Matches(c.entry, q) ==> before.prefix >= c.entry.mask.value)
    ensures Found(front + [c], q, before)
  {
    var cs := front + [c];
    if before.iface.Some? {
      var k: nat :| IsLongest(front, q, k) && before == Match(Some(front[k].iface), front[k].entry.mask.value);
      LongestOfMore(front, c, q, k);
      assert cs[k] == front[k];
    }
  }

  lemma LongestOfMore(front: seq<Candidate>, c: Candidate, q: Query, k: nat)
    requires IsLongest(front, q, k) && (Matches(c.entry, q) ==> front[k].entry.mask.value >= c.entry.mask.value)
    ensures IsLongest(front + [c], q, k)
  {
    var cs := front + [c];
    assert forall j :: 0 <= j < |front| ==> cs[j] == front[j];
  }

  lemma {:induction false} BestIsLongest(cs: seq<Candidate>, q: Query)
    ensures Found(cs, q, Best(cs, q))
  {
    if cs != [] {
      var front, c := cs[..|cs| - 1], cs[|cs| - 1];
      BestIsLongest(front, q);
      PassesIsMatches(c.entry, q);
      assert cs == front + [c];
      if Passes(c.entry, q) && c.entry.mask.value > Best(front, q).prefix {
        NewLongest(front, c, q, Best(front, q));
      } else {
        StillLongest(front, c, q, Best(front, q));
      }
    }
  }

  /** For every query: the first of the longest matching entries, and nothing exactly when none matches. */
  lemma FirstLongestMatch(networks: seq<Option<Network>>, dev: string, q: Query)
    ensures var cs, iface := Candidates(networks, dev), Best(Candidates(networks, dev), q).iface;
      && (iface.None? <==> forall c :: c in cs ==> !Matches(c.entry, q))
      && (iface.Some? ==> exists k: nat :: IsLongest(cs, q, k) && iface == Some(cs[k].iface))
  {
    var cs := Candidates(networks, dev);
    BestIsLongest(cs, q);
    if Best(cs, q).iface.Some? {
      var k: nat :| IsLongest(cs, q, k) && Best(cs, q) == Match(Some(cs[k].iface), cs[k].entry.mask.value);
      assert cs[k] in cs;
    }
  }

  /**
   For an address and a mask within its width, the search finds the first of the covering
   entries with the longest prefix, and nothing exactly when no entry covers.
   */
  lemma LongestPrefixMatch(networks: seq<Option<Network>>, dev: string, q: Query)
    requires Address(q.addr, q.v6).Some? && q.mask <= AddressBits(q.v6)
    ensures var cs, iface := Candidates(networks, dev), Best(Candidates(networks, dev), q).iface;
      && (iface.None? <==> forall c :: c in cs ==> !Covers(c.entry, q))
      && (iface.Some? ==> exists k: nat :: IsLongest(cs, q, k) && iface == Some(cs[k].iface))
    ensures forall e: Entry :: Matches(e, q) <==> Covers(e, q)
  {
    forall e: Entry ensures Matches(e, q) <==> Covers(e, q) {
      PassesIsCovers(e, q);
    }
    FirstLongestMatch(networks, dev, q);
  }

  /** An entry within the mask whose text is no address of the family. */
  predicate Unread(e: Entry, q: Query) {
    && e.addr.Some? && e.mask.Some? && 0 <= e.mask.value <= q.mask
    && Address(e.addr.value, q.v6).None?
  }

  /** For a text that is no address, something is found exactly when an entry within the mask is no address either. */
  lemma UnreadFindsUnread(networks: seq<Option<Network>>, dev: string, q: Query)
    requires Address(q.addr, q.v6).None? && q.mask <= AddressBits(q.v6)
    ensures Best(Candidates(networks, dev), q).iface.Some? <==>
      exists c :: c in Candidates(networks, dev) && Unread(c.entry, q)
  {
    FirstLongestMatch(networks, dev, q);
    forall c | c in Candidates(networks, dev) ensures Matches(c.entry, q) <==> Unread(c.entry, q) {
    }
  }

  /** The search for `1:2:3:4:5:6:7::` finds an interface that has an IPv4 address. */
  lemma UnreadFindsOtherFamily(networks: seq<Option<Network>>, dev: string, c: Candidate)
    requires c in Candidates(networks, dev) && c.entry.addr.Some? && c.entry.mask.Some? && 0 <= c.entry.mask.value <= 32
    requires '.' in c.entry.addr.value && ':' !in c.entry.addr.value
    ensures Best(Candidates(networks, dev), Query("1:2:3:4:5:6:7::", 128, true)).iface.Some?
  {
    var q := Query("1:2:3:4:5:6:7::", 128, true);
    OneGroupAtEnd();
    DottedIsNoIPv6(c.entry.addr.value);
    assert Unread(c.entry, q);
    UnreadFindsUnread(networks, dev, q);
  }

  // ---------------------------------------------------------------- which addresses are searched

  /** The interface is on the device, and the entry is in one of its lists. */
  predicate HasEntry(n: Option<Network>, dev: string, c: Candidate) {
    match n
    case None => false
    case Some(net) =>
      && (net.l3Device == Some(dev) || net.device == Some(dev))
      && c.iface == net.iface && exists list :: list in net.lists && c.entry in list
  }

  lemma {:induction false} OfListsAre(iface: string, lists: seq<seq<Entry>>, c: Candidate)
    ensures c in OfLists(iface, lists) <==> c.iface == iface && exists list :: list in lists && c.entry in list
  {
    if lists != [] {
      var front, last := lists[..|lists| - 1], lists[|lists| - 1];
      OfListsAre(iface, front, c);
      assert lists == front + [last];
      OfListIs(iface, last, c);
    }
  }

  lemma OfListIs(iface: string, list: seq<Entry>, c: Candidate)
    ensures c in OfList(iface, list) <==> c.iface == iface && c.entry in list
  {
    var cs := OfList(iface, list);
    if c.iface == iface && c.entry in list {
      var i :| 0 <= i < |list| && list[i] == c.entry;
      assert cs[i] == c;
    }
    if c in cs {
      var i :| 0 <= i < |cs| && cs[i] == c;
      assert list[i] == c.entry;
    }
  }

  /** Exactly the entries of the interfaces on the device are searched. */
  lemma {:induction false} CandidatesAre(networks: seq<Option<Network>>, dev: string, c: Candidate)
    ensures c in Candidates(networks, dev) <==> exists n :: n in networks && HasEntry(n, dev, c)
  {
    if networks != [] {
      var front, last := networks[..|networks| - 1], networks[|networks| - 1];
      CandidatesAre(front, dev, c);
      assert networks == front + [last];
      if last.Some? {
        OfListsAre(last.value.iface, last.value.lists, c);
      }
      var own := if OnDevice(last, dev) then OfLists(last.value.iface, last.value.lists) else [];
      assert c in own <==> HasEntry(last, dev, c);
      assert c in Candidates(networks, dev) <==> c in Candidates(front, dev) || c in own;
      if HasEntry(last, dev, c) {
        assert last in networks;
      }
    }
  }

  lemma {:induction false} OfListsAppend(iface: string, x: seq<seq<Entry>>, y: seq<seq<Entry>>)
    ensures OfLists(iface, x + y) == OfLists(iface, x) + OfLists(iface, y)
  {
    if y == [] {
      assert x + y == x;
    } else {
      var front, last := y[..|y| - 1], y[|y| - 1];
      assert (x + y)[..|x + y| - 1] == x + front;
      OfListsAppend(iface, x, front);
      Associative(OfLists(iface, x), OfLists(iface, front), OfList(iface, last));
    }
  }

  /** They are searched interface by interface, list by list, in their order. */
  lemma {:induction false} CandidatesAppend(x: seq<Option<Network>>, y: seq<Option<Network>>, dev: string)
    ensures Candidates(x + y, dev) == Candidates(x, dev) + Candidates(y, dev)
  {
    if y == [] {
      assert x + y == x;
    } else {
      var front, last := y[..|y| - 1], y[|y| - 1];
      assert (x + y)[..|x + y| - 1] == x + front;
      CandidatesAppend(x, front, dev);
      var own := if OnDevice(last, dev) then OfLists(last.value.iface, last.value.lists) else [];
      Associative(Candidates(x, dev), Candidates(front, dev), own);
    }
  }

  // ---------------------------------------------------------------- network and broadcast addresses

  /** A netmask as `dhcp.js` and `static.js` take it: a number, or dotted. */
  datatype Netmask = Prefix(bits: int) | Dotted(text: string)

  /** The octets of a netmask. The outer None stands for the exception of `null.match`. */
  function MaskOctets(mask: Netmask): Option<Option<seq<nat>>> {
    match mask
    case Dotted(text) => Some(ParseIPv4(text))
    case Prefix(bits) =>
      var text := PrefixToMask(bits, false);
      if text.None? then None else Some(ParseIPv4(text.value))
  }

  datatype Subnet = Subnet(network: string, mask: string) | NoSubnet | Throws

  function AndOctet(a: nat, m: nat): nat {
    And(a, And(m, 255))
  }

  /** `calculateNetwork` */
  function CalculateNetwork(addr: string, mask: Netmask): Subnet {
    var a, m := ParseIPv4(addr), MaskOctets(mask);
    if m.None? then Throws
    else if a.None? || m.value.None? then NoSubnet
    else
      var x, y := a.value, m.value.value;
      Subnet(
        ShowIPv4([AndOctet(x[0], y[0]), AndOctet(x[1], y[1]), AndOctet(x[2], y[2]), AndOctet(x[3], y[3])]), ShowIPv4(y))
  }

  /** `addr[i]|(~mask[i]>>>0&255)` */
  function OrOctet(a: nat, m: nat): nat
    requires m <= 255
  {
    Or(a, 255 - m)
  }

  /** The octets that `calculateBroadcast` joins. */
  function Broadcast(x: seq<nat>, y: seq<nat>): seq<nat>
    requires |x| == 4 && Octets(y)
  {
    [OrOctet(x[0], y[0]), OrOctet(x[1], y[1]), OrOctet(x[2], y[2]), OrOctet(x[3], y[3])]
  }

  lemma {:induction false} MaskedByWords(ws: seq<nat>, width: nat, mask: nat, i: nat)
    requires i < |ws|
    ensures MaskWords(width, |ws|, mask)[i] < Pow2(width)
    ensures Masked(ws, width, mask)[i] == And(ws[i], MaskWords(width, |ws|, mask)[i])
    ensures FilledUp(ws, width, mask)[i] == Or(ws[i], Pow2(width) - 1 - MaskWords(width, |ws|, mask)[i])
  {
    var b, more := Min(mask, width), ws[1..];
    NextWord(width, |ws|, mask);
    if i > 0 {
      MaskedByWords(more, width, mask - b, i - 1);
    }
  }

  lemma OctetOfMask(m: nat)
    requires m <= 255
    ensures And(m, 255) == m
  {
    Pow2Values();
    AndLow(m, 8);
    QuotIs(m, 8, 0, m);
  }

  /** The octets of network and broadcast address. */
  lemma SubnetOctets(x: seq<nat>, y: seq<nat>, bits: nat, four: nat)
    requires Octets(x) && Octets(y) && four == 4 && y == MaskWords(8, four, bits)
    ensures [AndOctet(x[0], y[0]), AndOctet(x[1], y[1]), AndOctet(x[2], y[2]), AndOctet(x[3], y[3])] ==
      Masked(x, 8, bits)
    ensures Broadcast(x, y) == FilledUp(x, 8, bits)
  {
    FourOf(Masked(x, 8, bits));
    FourOf(FilledUp(x, 8, bits));
    SubnetOctet(x, y, bits, 0);
    SubnetOctet(x, y, bits, 1);
    SubnetOctet(x, y, bits, 2);
    SubnetOctet(x, y, bits, 3);
  }

  lemma FourOf(s: seq<nat>)
    requires |s| == 4
    ensures s == [s[0], s[1], s[2], s[3]]
  {
  }

  lemma SubnetOctet(x: seq<nat>, y: seq<nat>, bits: nat, i: nat)
    requires Octets(x) && Octets(y) && i < 4 && y == MaskWords(8, |x|, bits)
    ensures AndOctet(x[i], y[i]) == Masked(x, 8, bits)[i] && OrOctet(x[i], y[i]) == FilledUp(x, 8, bits)[i]
  {
    Pow2Values();
    MaskedByWords(x, 8, bits, i);
    OctetOfMask(y[i]);
  }

  lemma MaskOfPrefix(bits: nat, four: nat)
    requires bits <= 32 && four == 4
    ensures MaskOctets(Prefix(bits)) == Some(Some(MaskWords(8, four, bits))) && Octets(MaskWords(8, four, bits))
  {
    Ipv4MaskText(bits, four);
  }

  /**
   The subnet of an address and a prefix: both ways of masking give the same network
   address, which is the address rounded down to a multiple of the subnet's size; and the
   broadcast address is the last one of the subnet.
   */
  lemma SubnetAgreement(addr: string, bits: nat)
    requires ParseIPv4(addr).Some? && bits <= 32
    ensures var x, size := ParseIPv4(addr).value, Pow2(32 - bits);
      var y := MaskOctets(Prefix(bits));
      && y.Some? && y.value.Some? && Octets(y.value.value)
      && var net, last := Masked(x, 8, bits), Broadcast(x, y.value.value);
      && ApplyMask(addr, bits, false) == Some(ShowIPv4(net))
      && CalculateNetwork(addr, Prefix(bits)) == Subnet(ShowIPv4(net), ShowIPv4(y.value.value))
      && Number(net, 8) == Number(x, 8) - Number(x, 8) % size
      && Number(last, 8) == Number(net, 8) + (size - 1)
      && Number(net, 8) <= Number(x, 8) <= Number(last, 8)
  {
    var x, four: nat := ParseIPv4(addr).value, 4;
    MaskOfPrefix(bits, four);
    SubnetOctets(x, MaskWords(8, four, bits), bits, four);
    SubnetNumbers(x, bits);
  }

  lemma OctetsFit(x: seq<nat>)
    requires Octets(x)
    ensures FitWords(x, 8) && Total(x, 8) == 32
  {
    Pow2Values();
    TotalIs(x, 8);
  }

  lemma InSubnet(x: nat, size: nat)
    requires size > 0
    ensures RoundDown(x, size) == x - x % size && RoundDown(x, size) <= x <= RoundDown(x, size) + (size - 1)
  {
    RoundDownIsDivision(x, size);
    QuotientAndRest(x, size);
  }

  lemma SubnetNumbers(x: seq<nat>, bits: nat)
    requires Octets(x) && bits <= 32
    ensures var size, net, last := Pow2(32 - bits), Masked(x, 8, bits), FilledUp(x, 8, bits);
      && Number(net, 8) == Number(x, 8) - Number(x, 8) % size
      && Number(last, 8) == Number(net, 8) + (size - 1)
      && Number(net, 8) <= Number(x, 8) <= Number(last, 8)
  {
    OctetsFit(x);
    var size := Pow2(32 - bits);
    MaskRoundsDown(x, 8, bits);
    FilledIsLast(x, 8, bits);
    InSubnet(Number(x, 8), size);
  }
}
