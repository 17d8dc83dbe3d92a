/** The keys of service parameters and the values of each, as text and on the wire (`tools/dnsrecordhandlers.js`). */
module SvcValues {
  import opened Base
  import opened Text
  import opened Ip
  import opened Ipv6Text
  import opened Sorting

  // ---------------------------------------------------------------- keys

  function KeyName(n: nat): string {
    if n == 0 then "mandatory"
    else if n == 1 then "alpn"
    else if n == 2 then "no-default-alpn"
    else if n == 3 then "port"
    else if n == 4 then "ipv4hint"
    else if n == 5 then "ech"
    else if n == 6 then "ipv6hint"
    else "key" + Show(n, 10)
  }

  function LowerChar(c: char): char {
    if 'A' <= c <= 'Z' then c - 'A' + 'a' else c
  }

  /** `toLowerCase`, of the letters A to Z. */
  function Lower(s: string): (t: string)
    ensures |t| == |s|
  {
    seq(|s|, i requires 0 <= i < |s| => LowerChar(s[i]))
  }

  /** `/^key(\d{1,5})$/` */
  predicate Numbered(name: string) {
    4 <= |name| <= 8 && name[..3] == "key" && AllDigits(name[3..])
  }

  function KeyNumber(name: string): (n: Option<nat>)
    ensures n.Some? ==> n.value <= 65535
  {
    var low := Lower(name);
    if low == "mandatory" then Some(0)
    else if low == "alpn" then Some(1)
    else if low == "no-default-alpn" then Some(2)
    else if low == "port" then Some(3)
    else if low == "ipv4hint" then Some(4)
    else if low == "ech" then Some(5)
    else if low == "ipv6hint" then Some(6)
    else if Numbered(low) && Value(low[3..], 10) <= 65535 then Some(Value(low[3..], 10))
    else None
  }

  /** Which case of the codecs' `switch` a name falls under: 7 for `/^key\d{1,5}$/i`, 8 for none. */
  function Kind(key: string): nat {
    if key == "mandatory" then 0
    else if key == "alpn" then 1
    else if key == "no-default-alpn" then 2
    else if key == "port" then 3
    else if key == "ipv4hint" then 4
    else if key == "ech" then 5
    else if key == "ipv6hint" then 6
    else if Numbered(Lower(key)) then 7
    else 8
  }

  /** Letters, digits and hyphens: the characters of key names. */
  predicate NameChar(c: char) {
    IsDigit(c) || 'a' <= c <= 'z' || c == '-'
  }

  predicate NameText(s: string) {
    s != "" && forall c :: c in s ==> NameChar(c)
  }

  lemma LowerKeeps(s: string)
    requires forall c :: c in s ==> NameChar(c)
    ensures Lower(s) == s
  {
    forall i | 0 <= i < |s| ensures Lower(s)[i] == s[i] {
      assert s[i] in s;
    }
  }

  lemma NumberedName(n: nat)
    requires 7 <= n <= 65535
    ensures Numbered(KeyName(n)) && Value(KeyName(n)[3..], 10) == n && NameText(KeyName(n))
  {
    var digits := Show(n, 10);
    PowersOfSixteen();
    ShowLength(n, 10, 5);
    ValueOfShow(n, 10);
    assert KeyName(n)[3..] == digits && KeyName(n)[..3] == "key";
    forall c | c in KeyName(n) ensures NameChar(c) {
      assert c in "key" || c in digits;
    }
  }

  /** Names are read back as their numbers, so that different numbers have different names. */
  lemma KeyNameIsRead(n: nat)
    requires n <= 65535
    ensures KeyNumber(KeyName(n)) == Some(n) && NameText(KeyName(n))
  {
    var name := KeyName(n);
    if n >= 7 {
      NumberedName(n);
    }
    assert NameText(name);
    LowerKeeps(name);
    if n >= 7 {
      assert name[0] == 'k';
    }
  }

  lemma KindOfName(n: nat)
    requires n <= 65535
    ensures Kind(KeyName(n)) == if n < 7 then n else 7
  {
    if n >= 7 {
      NumberedName(n);
      LowerKeeps(KeyName(n));
      assert KeyName(n)[0] == 'k';
    }
  }

  lemma NameTextIsPlain(s: string)
    requires NameText(s)
    ensures Trim(s) == s && Unquote(s) == s && '=' !in s && ',' !in s && !IsSpace(s[0])
  {
    assert s[0] in s && s[|s| - 1] in s;
    TrimKeeps(s);
    assert !NameChar('=') && !NameChar(',');
  }

  // ---------------------------------------------------------------- bytes

  predicate IsByte(b: nat) {
    b < 256
  }

  predicate AllBytes(s: seq<nat>) {
    forall b :: b in s ==> IsByte(b)
  }

  /** Characters with codes of one byte. */
  predicate ByteText(s: string) {
    forall c :: c in s ==> c as int < 256
  }

  /** `charCodeAt`, of each character. */
  function Codes(s: string): (r: seq<nat>)
    ensures |r| == |s| && forall i :: 0 <= i < |s| ==> r[i] == s[i] as nat
  {
    seq(|s|, i requires 0 <= i < |s| => s[i] as nat)
  }

  /** `String.fromCharCode`, of the elements of a byte array. */
  function Chars(s: seq<nat>): (r: string)
    ensures |r| == |s| && forall i :: 0 <= i < |s| ==> r[i] as int == s[i] % 256
  {
    seq(|s|, i requires 0 <= i < |s| => (s[i] % 256) as char)
  }

  lemma CharsOfCodes(s: string)
    requires ByteText(s)
    ensures AllBytes(Codes(s)) && Chars(Codes(s)) == s
  {
    assert forall i :: 0 <= i < |s| ==> s[i] in s && Codes(s)[i] == s[i] as nat;
    forall i | 0 <= i < |s| ensures Chars(Codes(s))[i] == s[i] && IsByte(Codes(s)[i]) {
      assert s[i] in s;
    }
  }

  /** `[(n>>8)&0xff, n&0xff]` */
  function Two(n: int): (r: seq<nat>)
    ensures |r| == 2 && AllBytes(r)
  {
    [n / 256 % 256, n % 256]
  }

  /** `s[i]`, where a missing byte counts as zero in `<<` and `|`. */
  function ByteAt(s: seq<nat>, i: nat): nat {
    if i < |s| then s[i] else 0
  }

  function Word(s: seq<nat>, i: nat): nat {
    ByteAt(s, i) * 256 + ByteAt(s, i + 1)
  }

  lemma WordOfTwo(n: nat)
    requires n <= 65535
    ensures Word(Two(n), 0) == n
  {
  }

  /** Concatenation, `flat()`. */
  function Flat(parts: seq<seq<nat>>): seq<nat> {
    if parts == [] then [] else parts[0] + Flat(parts[1..])
  }

  // ---------------------------------------------------------------- encoding

  /** `atob` and `btoa`, which are not modelled further. */
  datatype Base64 = Base64(atob: string -> seq<nat>, btoa: seq<nat> -> string)

  /** The numbers of key names: duplicate names, unknown ones and that of `mandatory` itself left out. */
  function MandatoryNumbers(names: seq<string>, seen: set<string>): seq<nat> {
    if names == [] then []
    else
      var k := Trim(names[0]);
      var more := MandatoryNumbers(names[1..], seen + {k});
      var n := KeyNumber(k);
      if k in seen || n.None? || n.value == 0 then more else [n.value] + more
  }

  function Same(n: nat): nat {
    n
  }

  function EncodeNumbers(ns: seq<nat>): seq<nat> {
    if ns == [] then [] else Two(ns[0]) + EncodeNumbers(ns[1..])
  }

  function EncodeIds(ids: seq<string>): seq<nat> {
    if ids == [] then [] else [|ids[0]|] + Codes(ids[0]) + EncodeIds(ids[1..])
  }

  /** `parseInt(x, 10)`, of digits. */
  function ParseDecimal(x: string): Option<nat> {
    if x != "" && AllDigits(x) then Some(Value(x, 10)) else None
  }

  /** The digits that a text starts with. */
  function LeadingDigits(s: string): (t: string)
    ensures AllDigits(t)
  {
    if s != "" && IsDigit(s[0]) then [s[0]] + LeadingDigits(s[1..]) else ""
  }

  /** `parseInt(s, 10)`; what is not a number counts as zero in `>>` and `&`. */
  function ParseInt(s: string): int {
    var t := TrimLeft(s);
    if t != "" && t[0] == '-' then 0 as int - Value(LeadingDigits(t[1..]), 10)
    else if t != "" && t[0] == '+' then Value(LeadingDigits(t[1..]), 10)
    else Value(LeadingDigits(t), 10)
  }

  lemma {:induction false} LeadingDigitsAll(s: string)
    requires AllDigits(s)
    ensures LeadingDigits(s) == s
  {
    if s != "" {
      assert s[0] in s && forall c :: c in s[1..] ==> c in s;
      LeadingDigitsAll(s[1..]);
      assert s == [s[0]] + s[1..];
    }
  }

  lemma ParseIntOfDigits(s: string)
    requires s != "" && AllDigits(s)
    ensures ParseInt(s) == Value(s, 10)
  {
    assert s[0] in s && IsDigit(s[0]) && !IsSpace(s[0]);
    LeadingDigitsAll(s);
  }

  lemma ParseIntOfShow(n: nat)
    ensures ParseInt(Show(n, 10)) == n
  {
    ParseIntOfDigits(Show(n, 10));
    ValueOfShow(n, 10);
  }

  function ParseDecimals(xs: seq<string>): Option<seq<nat>> {
    if xs == [] then Some([])
    else
      var x, more := ParseDecimal(xs[0]), ParseDecimals(xs[1..]);
      if x.None? || more.None? then None else Some([x.value] + more.value)
  }

  function EncodeIpv4Hints(ips: seq<string>): Option<seq<nat>> {
    if ips == [] then Some([])
    else
      var ip, more := ParseDecimals(Split(Trim(ips[0]), '.')), EncodeIpv4Hints(ips[1..]);
      if ip.None? || more.None? then None else Some(ip.value + more.value)
  }

  function EncodeIpv6Hints(ips: seq<string>): Option<seq<nat>> {
    if ips == [] then Some([])
    else
      var ip, more := HintBytes(Trim(ips[0])), EncodeIpv6Hints(ips[1..]);
      if ip.None? || more.None? then None else Some(ip.value + more.value)
  }

  function EncodeRaw(parts: seq<string>): seq<nat> {
    if parts == [] then [] else Codes(parts[0]) + EncodeRaw(parts[1..])
  }

  /** `encodeSvcParamValue`. None: an address whose parts are not numbers. */
  function Encode(b64: Base64, key: string, value: string): Option<seq<nat>> {
    match Kind(key)
    case 0 => Some(EncodeNumbers(Sort(MandatoryNumbers(Split(value, ','), {}), Same)))
    case 1 => Some(EncodeIds(Split(value, ',')))
    case 2 => Some([])
    case 3 => Some(Two(ParseInt(value)))
    case 4 => EncodeIpv4Hints(Split(value, ','))
    case 5 => Some(b64.atob(value))
    case 6 => EncodeIpv6Hints(Split(value, ','))
    case 7 => Some(EncodeRaw(Split(value, ',')))
    case _ => Some([])
  }

  // ---------------------------------------------------------------- decoding

  function DecodeNumbers(buf: seq<nat>): seq<nat> {
    if |buf| < 2 then [] else [Word(buf, 0)] + DecodeNumbers(buf[2..])
  }

  function Names(ns: seq<nat>): (r: seq<string>)
    ensures |r| == |ns| && forall i :: 0 <= i < |ns| ==> r[i] == KeyName(ns[i])
  {
    seq(|ns|, i requires 0 <= i < |ns| => KeyName(ns[i]))
  }

  function DecodeIds(buf: seq<nat>): seq<string> {
    if buf == [] || 1 + buf[0] > |buf| then [] else [Chars(buf[1..1 + buf[0]])] + DecodeIds(buf[1 + buf[0]..])
  }

  function ShowDecimals(ns: seq<nat>): seq<string> {
    if ns == [] then [] else [Show(ns[0], 10)] + ShowDecimals(ns[1..])
  }

  /** The addresses, four bytes each; the last may have fewer. */
  function DecodeIpv4Hints(buf: seq<nat>): seq<string> {
    if buf == [] then []
    else if |buf| <= 4 then [Quad(ShowDecimals(buf))]
    else [Quad(ShowDecimals(buf[..4]))] + DecodeIpv4Hints(buf[4..])
  }

  function EightWords(buf: seq<nat>): seq<nat> {
    [Word(buf, 0), Word(buf, 2), Word(buf, 4), Word(buf, 6), Word(buf, 8), Word(buf, 10), Word(buf, 12), Word(buf, 14)]
  }

  /** The addresses: as long as there are fifteen bytes, a missing sixteenth counting as zero. */
  function DecodeIpv6Hints(buf: seq<nat>): seq<string>
    decreases |buf|
  {
    if |buf| < 15 then []
    else [Compressed(EightWords(buf))] + DecodeIpv6Hints(if |buf| < 16 then [] else buf[16..])
  }

  lemma SliceBytes(buf: seq<nat>, i: nat, j: nat)
    requires AllBytes(buf) && i <= j <= |buf|
    ensures AllBytes(buf[i..j]) && AllBytes(buf[i..])
  {
    assert forall b :: b in buf[i..j] || b in buf[i..] ==> b in buf;
  }

  /** `decodeSvcParamValue`, for the name of a number. */
  function Decode(b64: Base64, key: string, buf: seq<nat>): string {
    match Kind(key)
    case 0 => Join(Names(DecodeNumbers(buf)), ",")
    case 1 => Join(DecodeIds(buf), ",")
    case 2 => ""
    case 3 => Show(Word(buf, 0), 10)
    case 4 => Join(DecodeIpv4Hints(buf), ",")
    case 5 => b64.btoa(buf)
    case 6 => Join(DecodeIpv6Hints(buf), ",")
    case 7 => Chars(buf)
    case _ => HexText(buf)
  }

  /** Two hex digits a byte. */
  function HexText(buf: seq<nat>): string {
    if buf == [] then "" else Pad(Show(buf[0], 16), 2) + HexText(buf[1..])
  }
}
