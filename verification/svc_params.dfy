/** Service parameters by their meaning, and the two forms that the editor converts between. */
module SvcParams {
  import opened Text
  import opened Ip
  import opened Ipv6Text
  import opened SvcValues

  datatype Param =
    | Mandatory(keys: seq<nat>)
    | Alpn(ids: seq<string>)
    | NoDefaultAlpn
    | Port(port: nat)
    | Ipv4Hint(quads: seq<seq<nat>>)
    | Ech(config: seq<nat>)
    | Ipv6Hint(addrs: seq<seq<nat>>)
    | Other(num: nat, text: string)

  function Num(p: Param): nat {
    match p
    case Mandatory(_) => 0
    case Alpn(_) => 1
    case NoDefaultAlpn => 2
    case Port(_) => 3
    case Ipv4Hint(_) => 4
    case Ech(_) => 5
    case Ipv6Hint(_) => 6
    case Other(num, _) => num
  }

  function Quads(quads: seq<seq<nat>>): (r: seq<string>)
    ensures |r| == |quads| && forall i :: 0 <= i < |quads| ==> r[i] == Quad(ShowDecimals(quads[i]))
  {
    seq(|quads|, i requires 0 <= i < |quads| => Quad(ShowDecimals(quads[i])))
  }

  function Addresses(addrs: seq<seq<nat>>): (r: seq<string>)
    ensures |r| == |addrs| && forall i :: 0 <= i < |addrs| ==> r[i] == Compressed(addrs[i])
  {
    seq(|addrs|, i requires 0 <= i < |addrs| => Compressed(addrs[i]))
  }

  /** The value as it is shown. */
  function ValueText(b64: Base64, p: Param): string {
    match p
    case Mandatory(keys) => Join(Names(keys), ",")
    case Alpn(ids) => Join(ids, ",")
    case NoDefaultAlpn => ""
    case Port(port) => Show(port, 10)
    case Ipv4Hint(quads) => Join(Quads(quads), ",")
    case Ech(config) => b64.btoa(config)
    case Ipv6Hint(addrs) => Join(Addresses(addrs), ",")
    case Other(_, text) => text
  }

  /** The line of the editor. */
  function Line(b64: Base64, p: Param): string {
    if p.NoDefaultAlpn? then KeyName(2) else KeyName(Num(p)) + ("=" + ValueText(b64, p))
  }

  function AddressBytes(addrs: seq<seq<nat>>): seq<nat> {
    if addrs == [] then [] else WordBytes(addrs[0]) + AddressBytes(addrs[1..])
  }

  /** The value on the wire. */
  function Wire(p: Param): seq<nat> {
    match p
    case Mandatory(keys) => EncodeNumbers(keys)
    case Alpn(ids) => EncodeIds(ids)
    case NoDefaultAlpn => []
    case Port(port) => Two(port)
    case Ipv4Hint(quads) => Flat(quads)
    case Ech(config) => config
    case Ipv6Hint(addrs) => AddressBytes(addrs)
    case Other(_, text) => Codes(text)
  }

  /** A value that the line keeps as it is: no `=`, no white space or quotes to take off. */
  predicate Kept(t: string) {
    t != "" && Trimmed(t) && Unquote(t) == t && '=' !in t
  }

  predicate GoodId(id: string) {
    1 <= |id| <= 255 && ByteText(id) && ',' !in id
  }

  predicate GoodKeys(keys: seq<nat>) {
    (forall i, j :: 0 <= i < j < |keys| ==> keys[i] < keys[j]) && forall k :: k in keys ==> 1 <= k <= 65535
  }

  predicate GoodAddress(ws: seq<nat>) {
    |ws| == 8 && Words(ws)
  }

  /** The part of the base64 text before its padding, which is all that the line keeps. */
  function Unpadded(b64: Base64, config: seq<nat>): string {
    Split(b64.btoa(config), '=')[0]
  }

  predicate Good(b64: Base64, p: Param) {
    match p
    case Mandatory(keys) => keys != [] && GoodKeys(keys)
    case Alpn(ids) => ids != [] && (forall id :: id in ids ==> GoodId(id)) && Kept(Join(ids, ","))
    case NoDefaultAlpn => true
    case Port(port) => port <= 65535
    case Ipv4Hint(quads) => quads != [] && forall q :: q in quads ==> Octets(q)
    case Ech(config) => AllBytes(config) && Kept(Unpadded(b64, config)) && b64.atob(Unpadded(b64, config)) == config
    case Ipv6Hint(addrs) => addrs != [] && forall a :: a in addrs ==> GoodAddress(a)
    case Other(num, text) => 7 <= num <= 65535 && Kept(text) && ByteText(text) && ',' !in text
  }

  /** The name and the value of a line. */
  function SplitLine(line: string): (string, string) {
    var parts := Split(line, '=');
    (Unquote(Trim(parts[0])), Unquote(Trim(if |parts| > 1 then parts[1] else "")))
  }

  // ---------------------------------------------------------------- lists of plain texts

  predicate PlainChar(c: char) {
    IsHex(c) || 'a' <= c <= 'z' || c == '-' || c == '.' || c == ':'
  }

  predicate Plain(s: string) {
    s != "" && forall c :: c in s ==> PlainChar(c)
  }

  lemma PlainIsKept(s: string)
    requires s != "" && forall c :: c in s ==> PlainChar(c) || c == ','
    ensures Kept(s)
  {
    assert s[0] in s && s[|s| - 1] in s;
    assert !PlainChar('=') && !PlainChar('"');
  }

  lemma PlainList(parts: seq<string>)
    requires parts != [] && forall p :: p in parts ==> Plain(p)
    ensures Kept(Join(parts, ",")) && Split(Join(parts, ","), ',') == parts
    ensures forall p :: p in parts ==> Trim(p) == p
  {
    CharsOfJoin(parts, ",");
    assert parts[0] in parts;
    assert !PlainChar(',');
    PlainIsKept(Join(parts, ","));
    SplitOfJoin(parts, ',');
    forall p | p in parts ensures Trim(p) == p {
      PlainIsKept(p);
      TrimKeeps(p);
    }
  }

  // ---------------------------------------------------------------- lines

  lemma KeptLine(name: string, value: string)
    requires NameText(name)
    ensures var v := Split(value, '=')[0];
      Kept(v) ==> SplitLine(name + ("=" + value)) == (name, v)
  {
    NameTextIsPlain(name);
    SplitAt(name, value, '=');
    SplitPlain(name, '=');
    var v := Split(value, '=')[0];
    if Kept(v) {
      TrimKeeps(v);
    }
  }

  /** What a line keeps of the value. */
  function KeptText(b64: Base64, p: Param): string {
    if p.Ech? then Unpadded(b64, p.config) else ValueText(b64, p)
  }

  lemma TextIsKept(b64: Base64, p: Param)
    requires Good(b64, p) && !p.NoDefaultAlpn?
    ensures Kept(KeptText(b64, p))
  {
    match p
    case Mandatory(keys) =>
      NamesArePlain(keys);
      PlainList(Names(keys));
    case Port(port) => PlainIsKept(Show(port, 10));
    case Ipv4Hint(quads) =>
      QuadsArePlain(quads);
      PlainList(Quads(quads));
    case Ipv6Hint(addrs) =>
      AddressesArePlain(addrs);
      PlainList(Addresses(addrs));
    case _ =>
  }

  lemma NamesArePlain(keys: seq<nat>)
    requires forall k :: k in keys ==> k <= 65535
    ensures forall p :: p in Names(keys) ==> Plain(p) && NameText(p)
  {
    forall p | p in Names(keys) ensures Plain(p) && NameText(p) {
      var i :| 0 <= i < |keys| && p == KeyName(keys[i]);
      assert keys[i] in keys;
      KeyNameIsRead(keys[i]);
      assert forall c :: NameChar(c) ==> PlainChar(c);
    }
  }

  lemma {:induction false} DecimalsArePlain(ns: seq<nat>)
    ensures |ShowDecimals(ns)| == |ns|
    ensures forall s :: s in ShowDecimals(ns) ==> s != "" && AllDigits(s) && '.' !in s
  {
    if ns != [] {
      DecimalsArePlain(ns[1..]);
      assert AllDigits(Show(ns[0], 10)) && !IsDigit('.');
    }
  }

  lemma QuadIsPlain(q: seq<nat>)
    requires q != []
    ensures Plain(Quad(ShowDecimals(q)))
  {
    DecimalsArePlain(q);
    var parts := ShowDecimals(q);
    CharsOfJoin(parts, ".");
    assert parts[0] in parts;
    forall c | c in Quad(parts) ensures PlainChar(c) {
      if c !in "." {
        var s :| s in parts && c in s;
        assert IsDigit(c);
      }
    }
  }

  lemma QuadsArePlain(quads: seq<seq<nat>>)
    requires forall q :: q in quads ==> q != []
    ensures forall p :: p in Quads(quads) ==> Plain(p)
  {
    forall p | p in Quads(quads) ensures Plain(p) {
      var i :| 0 <= i < |quads| && p == Quad(ShowDecimals(quads[i]));
      assert quads[i] in quads;
      QuadIsPlain(quads[i]);
    }
  }

  lemma AddressIsPlain(ws: seq<nat>)
    requires GoodAddress(ws)
    ensures Plain(Compressed(ws))
  {
    CompressedIsRead(ws);
    assert forall c :: GroupChar(c) ==> PlainChar(c);
  }

  lemma AddressesArePlain(addrs: seq<seq<nat>>)
    requires forall a :: a in addrs ==> GoodAddress(a)
    ensures forall p :: p in Addresses(addrs) ==> Plain(p)
  {
    forall p | p in Addresses(addrs) ensures Plain(p) {
      var i :| 0 <= i < |addrs| && p == Compressed(addrs[i]);
      assert addrs[i] in addrs;
      AddressIsPlain(addrs[i]);
    }
  }

  /** A line is split into its key and its value. */
  lemma LineSplits(b64: Base64, p: Param)
    requires Good(b64, p)
    ensures SplitLine(Line(b64, p)) == (KeyName(Num(p)), if p.NoDefaultAlpn? then "" else KeptText(b64, p))
    ensures Trim(Line(b64, p)) != ""
  {
    var name := KeyName(Num(p));
    KeyNameIsRead(Num(p));
    NameTextIsPlain(name);
    TrimKeepsSome(Line(b64, p));
    if p.NoDefaultAlpn? {
      SplitPlain(name, '=');
    } else {
      TextIsKept(b64, p);
      KeptLine(name, ValueText(b64, p));
      if !p.Ech? {
        SplitPlain(ValueText(b64, p), '=');
      }
    }
  }
}
