/** IPv6 addresses in service records: the writer `compressIPv6` and the reader of `ipv6hint`. */
module Ipv6Text {
  import opened Base
  import opened Bits
  import opened Text
  import opened Ip

  // ---------------------------------------------------------------- runs of zeros

  /** The groups of an address, in hex and without leading zeros. */
  function Texts(ws: seq<nat>): (parts: seq<string>)
    ensures |parts| == |ws| && forall i :: 0 <= i < |ws| ==> parts[i] == Show(ws[i], 16)
  {
    seq(|ws|, i requires 0 <= i < |ws| => Show(ws[i], 16))
  }

  predicate ZeroRun(ws: seq<nat>, a: nat, n: nat) {
    a + n <= |ws| && forall i :: a <= i < a + n ==> ws[i] == 0
  }

  /** Among the first `k` words: no run of zeros is longer, and none that starts before `a` is as long. */
  ghost predicate LongestRun(ws: seq<nat>, k: nat, a: nat, n: nat) {
    a + n <= k <= |ws| && ZeroRun(ws, a, n)
    && forall c: nat, m: nat :: c + m <= k && ZeroRun(ws, c, m) ==> m < n || (m == n && a <= c)
  }

  lemma SkipNonZero(ws: seq<nat>, k: nat, a: nat, n: nat)
    requires LongestRun(ws, k, a, n) && k < |ws| && ws[k] != 0
    ensures LongestRun(ws, k + 1, a, n)
  {
    forall c: nat, m: nat | c + m <= k + 1 && ZeroRun(ws, c, m) ensures m < n || (m == n && a <= c) {
      assert m > 0 ==> ws[c + m - 1] == 0;
      assert ZeroRun(ws, 0, 0);
    }
  }

  lemma TakeRun(ws: seq<nat>, start: nat, k: nat, a: nat, n: nat)
    requires LongestRun(ws, start, a, n) && start <= k <= |ws| && ZeroRun(ws, start, k - start)
    requires start > 0 ==> ws[start - 1] != 0
    ensures if k - start > n then LongestRun(ws, k, start, k - start) else LongestRun(ws, k, a, n)
  {
    forall c: nat, m: nat | c + m <= k && ZeroRun(ws, c, m)
      ensures m < n || (m == n && a <= c) || (n < k - start && (m < k - start || (m == k - start && start <= c)))
    {
      assert ZeroRun(ws, 0, 0);
    }
  }

  /** How many of the first `k` words up to their end are zero. */
  function Trailing(ws: seq<nat>, k: nat): (n: nat)
    requires k <= |ws|
    ensures n <= k && ZeroRun(ws, k - n, n) && (n < k ==> ws[k - n - 1] != 0)
  {
    if k == 0 || ws[k - 1] != 0 then 0 else 1 + Trailing(ws, k - 1)
  }

  function BestRun(ws: seq<nat>, k: nat): (r: (nat, nat))
    requires k <= |ws|
    ensures LongestRun(ws, k, r.0, r.1)
  {
    if k == 0 then (0, 0)
    else
      var t := Trailing(ws, k);
      if t == 0 then
        var r := BestRun(ws, k - 1);
        SkipNonZero(ws, k - 1, r.0, r.1);
        r
      else
        var r := BestRun(ws, k - t);
        TakeRun(ws, k - t, k, r.0, r.1);
        if t > r.1 then (k - t, t) else r
  }

  // ---------------------------------------------------------------- the writer

  /** The address with `n` words from `a` on left out, unless that is a single one. */
  function Short(ws: seq<nat>, a: nat, n: nat): string
    requires a + n <= |ws|
  {
    if n >= 2 then Elided(Texts(ws[..a]), Texts(ws[a + n..])) else Colons(Texts(ws))
  }

  function Compressed(ws: seq<nat>): string {
    var r := BestRun(ws, |ws|);
    Short(ws, r.0, r.1)
  }

  /** The leftmost longest run of zeros is left out (section 4.2 of RFC 5952), and nothing else is. */
  lemma LeftmostLongestIsElided(ws: seq<nat>, a: nat, n: nat)
    requires a + n <= |ws| && LongestRun(ws, |ws|, a, n)
    ensures Compressed(ws) == Short(ws, a, n)
  {
    var r := BestRun(ws, |ws|);
    assert ZeroRun(ws, r.0, r.1) && ZeroRun(ws, a, n);
  }

  method CompressIPv6(hextets: seq<string>) returns (text: string)
    requires Groups(hextets)
    ensures text == Compressed(Values(hextets))
  {
    ghost var ws := Values(hextets);
    var normalized := Normalize(hextets);
    var bestStart, bestLen := FindRun(normalized, ws);
    if bestLen < 2 {
      return Colons(normalized);
    }
    var head := Colons(normalized[..bestStart]);
    var tail := Colons(normalized[bestStart + bestLen..]);
    TextsOfSlices(ws, bestStart, bestLen);
    text := Assemble(head, tail);
  }

  lemma TextsOfSlices(ws: seq<nat>, a: nat, n: nat)
    requires a + n <= |ws|
    ensures Texts(ws)[..a] == Texts(ws[..a]) && Texts(ws)[a + n..] == Texts(ws[a + n..])
  {
  }

  method Assemble(head: string, tail: string) returns (text: string)
    ensures text == head + ("::" + tail)
  {
    if head != "" && tail != "" {
      text := head + ("::" + tail);
    } else if head != "" {
      text := head + "::";
    } else if tail != "" {
      text := "::" + tail;
    } else {
      text := "::";
    }
  }

  /** The loops that look for the run to leave out. */
  method FindRun(normalized: seq<string>, ghost ws: seq<nat>) returns (bestStart: int, bestLen: int)
    requires normalized == Texts(ws)
    ensures bestLen < 2 ==> Compressed(ws) == Colons(normalized)
    ensures bestLen >= 2 ==>
      0 <= bestStart <= bestStart + bestLen <= |ws| && Compressed(ws) == Short(ws, bestStart, bestLen)
  {
    bestStart, bestLen := -1, 0;
    var i := 0;
    while i < |normalized|
      invariant 0 <= i <= |normalized|
      invariant if bestLen == 0 then bestStart == -1 else bestLen > 0 && bestStart >= 0
      invariant LongestRun(ws, i, if bestLen == 0 then 0 else bestStart, bestLen)
      invariant 0 < i < |ws| && ws[i] == 0 ==> ws[i - 1] != 0
    {
      ShowZero(ws[i], 16);
      ghost var best := if bestLen == 0 then 0 else bestStart;
      if normalized[i] != "0" {
        SkipNonZero(ws, i, best, bestLen);
        i := i + 1;
      } else {
        var start := i;
        i := EndOfRun(normalized, ws, i);
        var len := i - start;
        TakeRun(ws, start, i, best, bestLen);
        if len > bestLen {
          bestStart := start;
          bestLen := len;
        }
      }
    }
    LeftmostLongestIsElided(ws, if bestLen == 0 then 0 else bestStart, bestLen);
  }

  /** `hextets.map(h => parseInt(h, 16).toString(16))` */
  method Normalize(hextets: seq<string>) returns (normalized: seq<string>)
    requires Groups(hextets)
    ensures normalized == Texts(Values(hextets))
  {
    normalized := [];
    var i := 0;
    while i < |hextets|
      invariant 0 <= i <= |hextets|
      invariant normalized == Texts(Values(hextets))[..i]
    {
      assert hextets[i] in hextets;
      ValueAt(hextets, i);
      normalized := normalized + [Show(Value(hextets[i], 16), 16)];
      i := i + 1;
    }
  }

  method EndOfRun(normalized: seq<string>, ghost ws: seq<nat>, start: nat) returns (i: nat)
    requires normalized == Texts(ws) && start < |ws| && ws[start] == 0
    ensures start < i <= |ws| && ZeroRun(ws, start, i - start)
    ensures i < |ws| ==> ws[i] != 0
  {
    i := start;
    assert ws[start] == 0;
    while i < |normalized| && normalized[i] == "0"
      invariant start <= i <= |normalized| && ZeroRun(ws, start, i - start)
      invariant i == start ==> normalized[i] == "0"
    {
      ShowZero(ws[i], 16);
      i := i + 1;
    }
    if i < |ws| {
      ShowZero(ws[i], 16);
    }
  }

  lemma {:induction false} ValueAt(parts: seq<string>, i: nat)
    requires Groups(parts) && i < |parts|
    ensures parts[i] in parts && Values(parts)[i] == Value(parts[i], 16)
  {
    if i < |parts| - 1 {
      var front := parts[..|parts| - 1];
      assert Groups(front) by { assert forall p :: p in front ==> p in parts; }
      ValueAt(front, i);
    }
  }

  /** Writing words as groups and reading them back. */
  lemma ValuesOfTexts(ws: seq<nat>)
    requires Words(ws)
    ensures Groups(Texts(ws)) && Values(Texts(ws)) == ws
  {
    var parts := Texts(ws);
    forall i | 0 <= i < |ws| ensures GroupText(parts[i]) && Value(parts[i], 16) == ws[i] {
      assert ws[i] in ws;
      PowersOfSixteen();
      ShowLength(ws[i], 16, 4);
      ValueOfShow(ws[i], 16);
    }
    assert Groups(parts);
    forall i | 0 <= i < |ws| ensures Values(parts)[i] == ws[i] {
      ValueAt(parts, i);
    }
  }

  lemma ZerosAreZero(ws: seq<nat>, a: nat, n: nat)
    requires ZeroRun(ws, a, n)
    ensures ws[..a] + Zeros(n) + ws[a + n..] == ws
    decreases n
  {
    if n > 0 {
      ZerosAreZero(ws, a, n - 1);
      assert ws[a + n - 1..] == [0] + ws[a + n..];
      Associative(ws[..a], Zeros(n - 1), [0]);
      Associative(ws[..a] + Zeros(n - 1), [0], ws[a + n..]);
    } else {
      EmptyIsUnit(ws[..a]);
    }
  }

  lemma ElidedIsRead(ws: seq<nat>, a: nat, n: nat)
    requires |ws| == 8 && Words(ws) && ZeroRun(ws, a, n) && n >= 2
    ensures ReadGroups(Elided(Texts(ws[..a]), Texts(ws[a + n..]))) == Some(ws)
  {
    var front, back := ws[..a], ws[a + n..];
    assert Words(front) && Words(back) by { assert forall w :: w in front || w in back ==> w in ws; }
    ValuesOfTexts(front);
    ValuesOfTexts(back);
    ZerosAreZero(ws, a, n);
    assert Expansion(Texts(front), Texts(back)) == ws;
    ElisionIsRead(Texts(front), Texts(back));
  }

  lemma ShortIsRead(ws: seq<nat>, a: nat, n: nat)
    requires |ws| == 8 && Words(ws) && ZeroRun(ws, a, n)
    ensures ReadGroups(Short(ws, a, n)) == Some(ws)
  {
    if n >= 2 {
      ElidedIsRead(ws, a, n);
    } else {
      ValuesOfTexts(ws);
      EightAreRead(Texts(ws));
    }
  }

  /** What the writer writes, `parseIPv6` reads back. */
  lemma CompressedIsRead(ws: seq<nat>)
    requires |ws| == 8 && Words(ws)
    ensures ReadIPv6(Compressed(ws)) == Some(ws)
    ensures AllGroupChars(Compressed(ws))
  {
    var r := BestRun(ws, |ws|);
    ShortIsRead(ws, r.0, r.1);
    NoDots(Compressed(ws));
  }

  // ---------------------------------------------------------------- the reader of `ipv6hint`

  /** The groups padded, and the zeros that the first of a row of empty groups stands for. */
  function Expand(parts: seq<string>, afterEmpty: bool, missing: int): seq<string> {
    if parts == [] then []
    else if parts[0] == "" then (if afterEmpty then [] else ZeroGroups(missing)) + Expand(parts[1..], true, missing)
    else [Pad(parts[0], 4)] + Expand(parts[1..], false, missing)
  }

  function ZeroGroups(n: int): seq<string> {
    if n <= 0 then [] else ZeroGroups(n - 1) + ["0000"]
  }

  function NonEmpty(parts: seq<string>): nat {
    if parts == [] then 0 else (if parts[0] == "" then 0 else 1) + NonEmpty(parts[1..])
  }

  /** `parts.map(p => p.padStart(4, '0'))` */
  function Padded(parts: seq<string>): seq<string> {
    if parts == [] then [] else [Pad(parts[0], 4)] + Padded(parts[1..])
  }

  /** `/\d+\.\d+\.\d+\.\d+$/`, for the text after the last colon. */
  predicate EndsInQuad(last: string) {
    var q := Split(last, '.');
    |q| >= 4 && (forall i :: |q| - 3 <= i < |q| ==> q[i] != "" && AllDigits(q[i]))
    && q[|q| - 4] != "" && IsDigit(q[|q| - 4][|q[|q| - 4]| - 1])
  }

  /** The colon-separated groups, a dotted tail made into two. None: the tail is not four numbers up to 255. */
  function HintGroups(ip: string): Option<seq<string>> {
    var parts := Split(ip, ':');
    var last := parts[|parts| - 1];
    if !EndsInQuad(last) then Some(parts)
    else
      var q := Split(last, '.');
      if |q| != 4 || !AllDigits(q[0]) then None
      else
        var o := [Value(q[0], 10), Value(q[1], 10), Value(q[2], 10), Value(q[3], 10)];
        if o[0] > 255 || o[1] > 255 || o[2] > 255 || o[3] > 255 then None
        else
          var tail := Pad(Show(o[0] * 256 + o[1], 16), 4) + (":" + Pad(Show(o[2] * 256 + o[3], 16), 4));
          Some(Split(Join(parts[..|parts| - 1], ":") + (":" + tail), ':'))
  }

  function Filled(parts: seq<string>): seq<string> {
    if "" in parts then Expand(parts, false, 8 - NonEmpty(parts)) else Padded(parts)
  }

  /** The loop over the groups. */
  method ExpandGroups(parts: seq<string>, missing: int) returns (expanded: seq<string>)
    ensures expanded == Expand(parts, false, missing)
  {
    expanded := [];
    var i := 0;
    while i < |parts|
      invariant 0 <= i <= |parts|
      invariant expanded + Expand(parts[i..], i > 0 && parts[i - 1] == "", missing) == Expand(parts, false, missing)
    {
      var rest := parts[i..];
      assert rest[0] == parts[i] && rest[1..] == parts[i + 1..];
      ghost var before := expanded;
      if parts[i] == "" && (i == 0 || parts[i - 1] != "") {
        expanded := expanded + ZeroGroups(missing);
        Associative(before, ZeroGroups(missing), Expand(parts[i + 1..], true, missing));
      } else if parts[i] != "" {
        expanded := expanded + [Pad(parts[i], 4)];
        Associative(before, [Pad(parts[i], 4)], Expand(parts[i + 1..], false, missing));
      } else {
        EmptyIsUnit(Expand(parts[i + 1..], true, missing));
      }
      i := i + 1;
    }
    EmptyIsUnit(expanded);
  }

  predicate PaddedGroup(p: string) {
    |p| >= 4 && AllHex(p)
  }

  /** The bytes of a group: `parseInt` of its first two and of its next two digits. */
  function PairBytes(p: string): seq<nat>
    requires PaddedGroup(p)
  {
    assert AllHex(p[..2]) by { assert forall c :: c in p[..2] ==> c in p; }
    assert AllHex(p[2..4]) by { assert forall c :: c in p[2..4] ==> c in p; }
    [Value(p[..2], 16), Value(p[2..4], 16)]
  }

  predicate AllPadded(parts: seq<string>) {
    forall p :: p in parts ==> PaddedGroup(p)
  }

  function GroupBytes(parts: seq<string>): seq<nat>
    requires AllPadded(parts)
  {
    if parts == [] then []
    else
      assert parts[0] in parts && forall p :: p in parts[1..] ==> p in parts;
      PairBytes(parts[0]) + GroupBytes(parts[1..])
  }

  /** The bytes of one address. None: a text that is not made of hex groups. */
  function HintBytes(ip: string): Option<seq<nat>> {
    var groups := HintGroups(ip);
    if groups.None? || !AllPadded(Filled(groups.value)) then None else Some(GroupBytes(Filled(groups.value)))
  }

  /** The bytes of words, the high one first. */
  function WordBytes(ws: seq<nat>): (bytes: seq<nat>)
    ensures |bytes| == 2 * |ws|
  {
    if ws == [] then [] else [ws[0] / 256, ws[0] % 256] + WordBytes(ws[1..])
  }

  // ---------------------------------------------------------------- the two readers agree

  lemma {:induction false} PaddedIs(parts: seq<string>)
    requires Groups(parts)
    ensures AllPadded(Padded(parts)) && GroupBytes(Padded(parts)) == WordBytes(Values(parts))
    ensures NonEmpty(parts) == |parts| && "" !in parts
  {
    if parts != [] {
      var more := parts[1..];
      assert Groups(more) by { assert forall p :: p in more ==> p in parts; }
      assert parts[0] in parts;
      PaddedIs(more);
      PairIs(parts[0]);
      ValuesFront(parts);
      var ps := Padded(parts);
      assert ps[1..] == Padded(more);
      assert AllPadded(ps) by { assert forall p :: p in ps ==> p == ps[0] || p in ps[1..]; }
    }
  }

  lemma ValuesFront(parts: seq<string>)
    requires Groups(parts) && parts != [] && Groups(parts[1..]) && GroupText(parts[0])
    ensures Values(parts) == [Value(parts[0], 16)] + Values(parts[1..])
  {
    var more := parts[1..];
    forall i | 0 <= i < |parts| ensures Values(parts)[i] == ([Value(parts[0], 16)] + Values(more))[i] {
      ValueAt(parts, i);
      if i > 0 { ValueAt(more, i - 1); }
    }
  }

  /** The bytes of a padded group are those of its word. */
  lemma PairIs(p: string)
    requires GroupText(p)
    ensures var q := Pad(p, 4); PaddedGroup(q) && PairBytes(q) == [Value(p, 16) / 256, Value(p, 16) % 256]
  {
    var q := Pad(p, 4);
    ValueOfPad(p, 4);
    var hi, lo := q[..2], q[2..4];
    assert q == hi + lo;
    assert AllHex(hi) by { assert forall c :: c in hi ==> c in q; }
    assert AllHex(lo) by { assert forall c :: c in lo ==> c in q; }
    ValueAppend(hi, lo, 16);
    ValueBound(lo, 16);
    PowersOfSixteen();
    DivModIs(Value(p, 16), 256, Value(hi, 16), Value(lo, 16));
  }

  lemma {:induction false} ExpandGroupsFirst(p: seq<string>, rest: seq<string>, afterEmpty: bool, missing: int)
    requires Groups(p)
    ensures Expand(p + rest, afterEmpty, missing) ==
      Padded(p) + Expand(rest, if p == [] then afterEmpty else false, missing)
    ensures NonEmpty(p + rest) == |p| + NonEmpty(rest)
  {
    if p == [] {
      assert p + rest == rest;
    } else {
      assert p[0] in p && forall g :: g in p[1..] ==> g in p;
      assert (p + rest)[1..] == p[1..] + rest;
      ExpandGroupsFirst(p[1..], rest, false, missing);
      Associative([Pad(p[0], 4)], Padded(p[1..]), Expand(rest, false, missing));
    }
  }

  /** The parts between single colons of two lists of groups with `::` between them. */
  function Parts(p: seq<string>, s: seq<string>): seq<string> {
    (if p == [] then [""] else p) + ([""] + (if s == [] then [""] else s))
  }

  lemma PartsOfElided(p: seq<string>, s: seq<string>)
    requires Groups(p) && Groups(s)
    ensures Split(Elided(p, s), ':') == Parts(p, s)
  {
    NoColons(p);
    NoColons(s);
    if p != [] { SplitOfJoin(p, ':'); }
    if s != [] { SplitOfJoin(s, ':'); }
    SplitAt(Colons(p), ":" + Colons(s), ':');
    SplitAt("", Colons(s), ':');
    assert ":" + (":" + Colons(s)) == "::" + Colons(s);
    assert "" + (":" + Colons(s)) == ":" + Colons(s);
  }

  /** An empty group. */
  lemma ExpandEmpty(parts: seq<string>, rest: seq<string>, afterEmpty: bool, missing: int)
    requires |parts| == 1 + |rest| && parts[0] == "" && parts[1..] == rest
    ensures Expand(parts, afterEmpty, missing) ==
      if afterEmpty then Expand(rest, true, missing) else ZeroGroups(missing) + Expand(rest, true, missing)
    ensures NonEmpty(parts) == NonEmpty(rest)
  {
    EmptyIsUnit(Expand(rest, true, missing));
  }

  lemma ExpandNothing(afterEmpty: bool, missing: int)
    ensures Expand([], afterEmpty, missing) == [] && NonEmpty([]) == 0 && Padded([]) == []
  {
  }

  lemma ExpandBack(back: seq<string>, s: seq<string>, missing: int)
    requires Groups(s) && back == [""] + (if s == [] then [""] else s)
    ensures Expand(back, false, missing) == ZeroGroups(missing) + Padded(s) && NonEmpty(back) == |s|
  {
    ExpandNothing(true, missing);
    if s == [] {
      ExpandEmpty(back[1..], [], true, missing);
    } else {
      ExpandGroupsFirst(s, [], true, missing);
      ExpandNothing(false, missing);
      EmptyIsUnit(s);
      EmptyIsUnit(Padded(s));
    }
    ExpandEmpty(back, back[1..], false, missing);
  }

  lemma ExpandElided(p: seq<string>, s: seq<string>, missing: int)
    requires Groups(p) && Groups(s)
    ensures NonEmpty(Parts(p, s)) == |p| + |s|
    ensures Expand(Parts(p, s), false, missing) == Padded(p) + (ZeroGroups(missing) + Padded(s))
  {
    var parts := Parts(p, s);
    var back := [""] + (if s == [] then [""] else s);
    ExpandBack(back, s, missing);
    if p == [] {
      assert parts[1..] == back;
      ExpandEmpty(parts, back, false, missing);
      ExpandEmpty(back, back[1..], false, missing);
      ExpandEmpty(back, back[1..], true, missing);
      ExpandNothing(false, missing);
    } else {
      ExpandGroupsFirst(p, back, false, missing);
    }
  }

  lemma {:induction false} OnlyZeros(z: string)
    requires forall c :: c in z ==> c == '0'
    ensures AllHex(z) && Value(z, 16) == 0
  {
    if z != "" {
      var front, last := z[..|z| - 1], z[|z| - 1];
      assert last in z && forall c :: c in front ==> c in z;
      OnlyZeros(front);
    }
  }

  lemma {:induction false} ZeroGroupsAre(n: nat)
    ensures Groups(ZeroGroups(n)) && Values(ZeroGroups(n)) == Zeros(n)
    ensures Padded(ZeroGroups(n)) == ZeroGroups(n)
  {
    if n > 0 {
      var front, z := ZeroGroups(n - 1), "0000";
      OnlyZeros(z);
      ZeroGroupsAre(n - 1);
      ZeroGroupLast(front, z);
      PaddedAppend(front, [z]);
    }
  }

  lemma ZeroGroupLast(front: seq<string>, z: string)
    requires Groups(front) && GroupText(z) && |z| == 4
    ensures Groups(front + [z]) && Values(front + [z]) == Values(front) + [Value(z, 16)]
    ensures Padded([z]) == [z]
  {
    assert (front + [z])[..|front|] == front;
    assert [z][1..] == [];
  }

  lemma {:induction false} PaddedAppend(p: seq<string>, q: seq<string>)
    ensures Padded(p + q) == Padded(p) + Padded(q)
  {
    if p == [] {
      assert p + q == q;
    } else {
      assert (p + q)[1..] == p[1..] + q;
      PaddedAppend(p[1..], q);
      Associative([Pad(p[0], 4)], Padded(p[1..]), Padded(q));
    }
  }

  lemma {:induction false} ValuesAppend(p: seq<string>, q: seq<string>)
    requires Groups(p) && Groups(q)
    ensures Groups(p + q) && Values(p + q) == Values(p) + Values(q)
    decreases |q|
  {
    if q == [] {
      EmptyIsUnit(p);
      EmptyIsUnit(Values(p));
    } else {
      var front := q[..|q| - 1];
      assert Groups(front) by { assert forall g :: g in front ==> g in q; }
      ValuesAppend(p, front);
      assert q[|q| - 1] in q && GroupText(q[|q| - 1]);
      assert (p + q)[..|p + q| - 1] == p + front;
      Associative(Values(p), Values(front), [Value(q[|q| - 1], 16)]);
    }
  }

  lemma FilledEight(p: seq<string>)
    requires Groups(p) && |p| == 8
    ensures AllPadded(Filled(p)) && GroupBytes(Filled(p)) == WordBytes(Values(p))
  {
    PaddedIs(p);
  }

  lemma FilledElided(p: seq<string>, s: seq<string>)
    requires Groups(p) && Groups(s) && |p| + |s| <= 8
    ensures var f := Filled(Parts(p, s)); AllPadded(f) && GroupBytes(f) == WordBytes(Expansion(p, s))
  {
    var m := 8 - |p| - |s|;
    assert "" in Parts(p, s) by { assert Parts(p, s)[|if p == [] then [""] else p|] == ""; }
    ExpandElided(p, s, m);
    var zeros := ZeroGroups(m);
    ZeroGroupsAre(m);
    var all := p + zeros + s;
    PaddedAppend(p, zeros);
    PaddedAppend(p + zeros, s);
    Associative(Padded(p), zeros, Padded(s));
    ValuesAppend(p, zeros);
    ValuesAppend(p + zeros, s);
    PaddedIs(all);
  }

  /** The groups of a text that is read give the bytes of its words. */
  lemma GroupsGiveBytes(x: string, ws: seq<nat>)
    requires ReadGroups(x) == Some(ws)
    ensures var f := Filled(Split(x, ':')); AllPadded(f) && GroupBytes(f) == WordBytes(ws)
  {
    OnlyTheseAreRead(x);
    var halves := SplitPairs(x);
    var p := Group(halves[0]);
    if |halves| == 1 {
      NoColons(p);
      SplitOfJoin(p, ':');
      FilledEight(p);
    } else {
      PartsOfElided(p, Group(halves[1]));
      FilledElided(p, Group(halves[1]));
    }
  }

  predicate SamePadded(a: seq<string>, b: seq<string>) {
    |a| == |b| && forall i :: 0 <= i < |a| ==> Pad(a[i], 4) == Pad(b[i], 4) && (a[i] == "" <==> b[i] == "")
  }

  lemma {:induction false} FilledSame(a: seq<string>, b: seq<string>, afterEmpty: bool, missing: int)
    requires SamePadded(a, b)
    ensures Expand(a, afterEmpty, missing) == Expand(b, afterEmpty, missing) && Padded(a) == Padded(b)
    ensures NonEmpty(a) == NonEmpty(b) && ("" in a <==> "" in b)
  {
    if a != [] {
      assert SamePadded(a[1..], b[1..]);
      FilledSame(a[1..], b[1..], a[0] == "", missing);
      assert a == [a[0]] + a[1..] && b == [b[0]] + b[1..];
    }
  }

  /** A colon-free text at the end, twice. */
  lemma SplitTwoMore(x: string, g: string, h: string)
    requires ':' !in g && ':' !in h
    ensures Split(x + (":" + (g + (":" + h))), ':') == Split(x, ':') + [g, h]
  {
    SplitAt(x, g + (":" + h), ':');
    SplitAt(g, h, ':');
    SplitPlain(g, ':');
    SplitPlain(h, ':');
  }

  lemma TailPads(v6: string, g: string, h: string)
    requires AllHex(g) && AllHex(h) && g != "" && h != ""
    ensures SamePadded(Split(v6 + (":" + (g + (":" + h))), ':'),
      Split(v6 + (":" + (Pad(g, 4) + (":" + Pad(h, 4)))), ':'))
  {
    assert !IsHex(':');
    SplitTwoMore(v6, g, h);
    SplitTwoMore(v6, Pad(g, 4), Pad(h, 4));
  }

  lemma QuadEnds(x: string)
    requires QuadShaped(x)
    ensures EndsInQuad(x)
  {
    var q := Split(x, '.');
    assert forall i :: 0 <= i < 4 ==> OctetText(q[i]);
    assert q[0][|q[0]| - 1] in q[0];
  }

  lemma DottedHint(x: string)
    requires Embedded(x).Some? && ParseIPv4(Embedded(x).value.1).Some?
    ensures var e := Embedded(x).value; var groups := HintGroups(x);
      groups.Some? && SamePadded(Split(Undotted(e.0, ParseIPv4(e.1).value), ':'), groups.value)
  {
    var e := Embedded(x).value;
    var o := ParseIPv4(e.1).value;
    QuadEnds(e.1);
    TailPads(e.0, Show(o[0] * 256 + o[1], 16), Show(o[2] * 256 + o[3], 16));
  }

  lemma PlainHint(x: string)
    requires AllGroupChars(x)
    ensures HintGroups(x) == Some(Split(x, ':'))
  {
    LastHasNoDot(x);
    NoQuad(Split(x, ':')[|Split(x, ':')| - 1]);
  }

  lemma NoQuad(last: string)
    requires '.' !in last
    ensures !EndsInQuad(last)
  {
    SplitPlain(last, '.');
  }

  /** The two readers agree: of every text that `parseIPv6` takes for an address, the encoder makes its bytes. */
  lemma HintsAgree(x: string, ws: seq<nat>)
    requires ReadIPv6(x) == Some(ws)
    ensures HintBytes(x) == Some(WordBytes(ws))
  {
    var e := Embedded(x);
    if e.None? {
      GroupsGiveBytes(x, ws);
      PlainHint(x);
    } else {
      var y := Undotted(e.value.0, ParseIPv4(e.value.1).value);
      DottedHint(x);
      GroupsGiveBytes(y, ws);
      var a, b := Split(y, ':'), HintGroups(x).value;
      FilledSame(a, b, false, 8 - NonEmpty(a));
    }
  }

  /** What the writer writes, the encoder of `ipv6hint` turns back into the same bytes. */
  lemma CompressedIsEncoded(ws: seq<nat>)
    requires |ws| == 8 && Words(ws)
    ensures HintBytes(Compressed(ws)) == Some(WordBytes(ws))
  {
    CompressedIsRead(ws);
    HintsAgree(Compressed(ws), ws);
  }
}
