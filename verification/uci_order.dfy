/** Section order: `sections`, `move` and `reorderSections` of `uci.js`. */
module UciOrder {
  import opened Base
  import opened UciModel

  /** The sort key of a section object. */
  function IndexIn(s: Section): int {
    if ".index" in s && s[".index"].Number? then s[".index"].number else 0
  }

  /** `sections` copies a snapshot section with its changes on top; deletion marks are not applied. */
  function Listed(p: Package, sid: string): Section {
    if sid in p.N() then p.N()[sid] else Inner(p.V(), sid) + ChangesOf(p, sid)
  }

  function IndexOf(p: Package, sid: string): int {
    IndexIn(Listed(p, sid))
  }

  /** No two live sections compare equal, so that sorting leaves no choice. */
  ghost predicate DistinctIndices(p: Package) {
    forall s, t :: s in Live(p) && t in Live(p) && s != t ==> IndexOf(p, s) != IndexOf(p, t)
  }

  ghost predicate Ascending(p: Package, order: seq<string>) {
    forall i, j :: 0 <= i < j < |order| ==> IndexOf(p, order[i]) <= IndexOf(p, order[j])
  }

  /** The order in which `sections` reports the live sections of a loaded package. */
  ghost predicate IsListing(p: Package, order: seq<string>) {
    && Enumerates(order, if p.values.Some? then Live(p) else {})
    && Ascending(p, order)
  }

  ghost predicate Rising(rank: string -> int, order: seq<string>) {
    forall i, j :: 0 <= i < j < |order| ==> rank(order[i]) < rank(order[j])
  }

  lemma HeadIsLeast(rank: string -> int, a: seq<string>, x: string)
    requires Rising(rank, a) && x in a
    ensures rank(a[0]) <= rank(x) && (rank(a[0]) == rank(x) ==> a[0] == x)
  {
  }

  lemma SameHead(rank: string -> int, a: seq<string>, b: seq<string>)
    requires Rising(rank, a) && Rising(rank, b)
    requires forall x :: x in a <==> x in b
    requires a != []
    ensures b != [] && b[0] == a[0]
    ensures forall x :: x in a[1..] <==> x in b[1..]
  {
    assert a[0] in b;
    HeadIsLeast(rank, b, a[0]);
    assert b[0] in a;
    HeadIsLeast(rank, a, b[0]);
    assert a == [a[0]] + a[1..] && b == [b[0]] + b[1..];
    forall x ensures x in a[1..] <==> x in b[1..] {
      assert x in a <==> x in b;
      assert x in a[1..] ==> rank(a[0]) < rank(x);
      assert x in b[1..] ==> rank(b[0]) < rank(x);
    }
  }

  lemma {:induction false} RisingIsUnique(rank: string -> int, a: seq<string>, b: seq<string>)
    requires Rising(rank, a) && Rising(rank, b)
    requires forall x :: x in a <==> x in b
    ensures a == b
    decreases |a| + |b|
  {
    if a != [] {
      SameHead(rank, a, b);
      RisingIsUnique(rank, a[1..], b[1..]);
      assert a == [a[0]] + a[1..] && b == [b[0]] + b[1..];
    } else if b != [] {
      SameHead(rank, b, a);
    }
  }

  lemma ListingIsUnique(p: Package, a: seq<string>, b: seq<string>)
    requires DistinctIndices(p) && IsListing(p, a) && IsListing(p, b)
    ensures a == b
  {
    var rank := sid => IndexOf(p, sid);
    ListingRises(p, a, rank);
    ListingRises(p, b, rank);
    RisingIsUnique(rank, a, b);
  }

  lemma ListingRises(p: Package, order: seq<string>, rank: string -> int)
    requires DistinctIndices(p) && IsListing(p, order)
    requires forall sid :: rank(sid) == IndexOf(p, sid)
    ensures Rising(rank, order)
  {
    forall i, j | 0 <= i < j < |order| ensures rank(order[i]) < rank(order[j]) {
      assert order[i] in order && order[j] in order;
      assert order[i] != order[j];
    }
  }

  // ---------------------------------------------------------------- move

  function Without(order: seq<string>, sid: string): seq<string> {
    if order == [] then []
    else if order[0] == sid then order[1..]
    else [order[0]] + Without(order[1..], sid)
  }

  function Position(order: seq<string>, sid: string): (i: nat)
    requires sid in order
    ensures i < |order| && order[i] == sid && sid !in order[..i]
  {
    if order[0] == sid then 0 else 1 + Position(order[1..], sid)
  }

  /** The order `move` asks for; `None` when it gives up. A missing target means the end. */
  function Moved(order: seq<string>, sid: string, target: Option<string>, after: bool): Option<seq<string>> {
    if sid in order then Placed(Without(order, sid), sid, target, after) else None
  }

  function Placed(rest: seq<string>, sid: string, target: Option<string>, after: bool): Option<seq<string>> {
    if target.None? then Some(rest + [sid])
    else if target.value !in rest then None
    else
      var at := Position(rest, target.value) + if after then 1 else 0;
      Some(rest[..at] + [sid] + rest[at..])
  }

  /** `get(conf, sid)['.index'] = index` */
  function Renumber(p: Package, sid: string, index: int): Package {
    var q := GetSection(p, sid).0;
    if sid in q.N() then q.(creates := Some(q.N()[sid := q.N()[sid][".index" := Number(index)]]))
    else if sid in q.V() then q.(values := Some(q.V()[sid := q.V()[sid][".index" := Number(index)]]))
    else q
  }

  /** Numbers the sections of `order` from `|order| - |rest|` on, where `rest` is what is left of it. */
  function RenumberAll(p: Package, order: seq<string>): Package {
    if order == [] then p
    else Renumber(RenumberAll(p, order[..|order| - 1]), order[|order| - 1], |order| - 1)
  }

  function Move(p: Package, order: seq<string>, sid: string, target: Option<string>, after: bool): Package {
    var moved := Moved(order, sid, target, after);
    if moved.None? then p else RenumberAll(p, moved.value)
  }

  lemma {:induction false} WithoutDrops(order: seq<string>, sid: string)
    requires NoDuplicates(order)
    ensures NoDuplicates(Without(order, sid))
    ensures forall x :: x in Without(order, sid) <==> x in order && x != sid
    ensures |Without(order, sid)| == |order| - if sid in order then 1 else 0
  {
    if order != [] {
      assert order == [order[0]] + order[1..];
      WithoutDrops(order[1..], sid);
      assert forall x :: x in order <==> x == order[0] || x in order[1..];
      assert order[0] !in order[1..];
    }
  }

  /**
   `move` succeeds exactly when the section is live and the target is absent or
   another live section; the new order has the same sections, the moved one sits
   where it was asked for, and the others keep their relative order.
   */
  lemma MovedOrder(order: seq<string>, sid: string, target: Option<string>, after: bool)
    requires NoDuplicates(order)
    ensures Moved(order, sid, target, after).Some? <==>
      sid in order && (target.Some? ==> target.value in order && target.value != sid)
    ensures Moved(order, sid, target, after).Some? ==>
      var moved := Moved(order, sid, target, after).value;
      && NoDuplicates(moved)
      && (forall x :: x in moved <==> x in order)
      && Without(moved, sid) == Without(order, sid)
      && (target.None? ==> moved[|moved| - 1] == sid)
      && (target.Some? ==> Position(moved, sid) == Position(moved, target.value) + if after then 1 else -1)
  {
    WithoutDrops(order, sid);
    var rest := Without(order, sid);
    var result := Moved(order, sid, target, after);
    if result.Some? {
      var at := if target.None? then |rest| else Position(rest, target.value) + if after then 1 else 0;
      assert result.value == rest[..at] + [sid] + rest[at..];
      InsertAt(rest, sid, at);
      if target.Some? {
        var k := if after then at - 1 else at + 1;
        FirstOfDistinct(result.value, at);
        FirstOfDistinct(result.value, k);
        PositionIs(result.value, sid, at);
        PositionIs(result.value, target.value, k);
      }
    }
  }

  /** What `move` renumbers are live sections, each once. */
  lemma MovedIsLive(p: Package, order: seq<string>, sid: string, target: Option<string>, after: bool)
    requires IsListing(p, order) && Moved(order, sid, target, after).Some?
    ensures var moved := Moved(order, sid, target, after).value;
      NoDuplicates(moved) && forall x :: x in moved ==> x in Live(p)
  {
    MovedOrder(order, sid, target, after);
  }

  lemma WithoutAt(order: seq<string>, sid: string, i: nat)
    requires i < |order| && order[i] == sid && sid !in order[..i]
    ensures Without(order, sid) == order[..i] + order[i + 1..]
  {
    if i > 0 {
      assert order[1..][..i - 1] == order[..i][1..];
      assert order[0] in order[..i];
      WithoutAt(order[1..], sid, i - 1);
      assert order[..i] == [order[0]] + order[1..][..i - 1];
      assert order[i + 1..] == order[1..][i..];
    }
  }

  lemma PositionIs(order: seq<string>, sid: string, i: nat)
    requires i < |order| && order[i] == sid && sid !in order[..i]
    ensures Position(order, sid) == i
  {
    var at := Position(order, sid);
    assert forall j :: 0 <= j < at ==> order[j] in order[..at];
    assert forall j :: 0 <= j < i ==> order[j] in order[..i];
  }

  lemma FirstOfDistinct(order: seq<string>, i: nat)
    requires NoDuplicates(order) && i < |order|
    ensures order[i] !in order[..i]
  {
  }

  lemma InsertAt(rest: seq<string>, sid: string, at: nat)
    requires NoDuplicates(rest) && sid !in rest && at <= |rest|
    ensures var moved := rest[..at] + [sid] + rest[at..];
      && NoDuplicates(moved)
      && (forall x :: x in moved <==> x == sid || x in rest)
      && Without(moved, sid) == rest
  {
    var moved := rest[..at] + [sid] + rest[at..];
    InsertKeepsDistinct(rest, sid, at);
    assert rest == rest[..at] + rest[at..];
    assert moved[..at] == rest[..at] && moved[at + 1..] == rest[at..];
    WithoutAt(moved, sid, at);
  }

  lemma InsertKeepsDistinct(rest: seq<string>, sid: string, at: nat)
    requires NoDuplicates(rest) && sid !in rest && at <= |rest|
    ensures NoDuplicates(rest[..at] + [sid] + rest[at..])
  {
    var moved := rest[..at] + [sid] + rest[at..];
    forall i, j | 0 <= i < j < |moved| ensures moved[i] != moved[j] {
      assert i != at ==> moved[i] == rest[if i < at then i else i - 1];
      assert j != at ==> moved[j] == rest[if j < at then j else j - 1];
    }
  }

  // ---------------------------------------------------------------- the effect of renumbering

  lemma RenumberSlot(p: Package, sid: string, index: int)
    requires WellFormed(p) && sid in Live(p)
    ensures var s := SlotAt(p, sid);
      var seen := Seen(s).value[".index" := Number(index)];
      && SlotAt(Renumber(p, sid, index), sid) == (if s.n.Some? then s.(n := Some(seen)) else s.(v := Some(seen)))
    ensures forall other :: other != sid ==> SlotAt(Renumber(p, sid, index), other) == SlotAt(p, other)
  {
    FlatAt(p, sid);
    assert SlotOk(SlotAt(p, sid));
  }

  /** The section keeps its meaning apart from its new index. */
  lemma RenumberedSlot(s: Slot, t: Slot, index: int)
    requires SlotOk(s) && Seen(s).Some?
    requires var seen := Seen(s).value[".index" := Number(index)];
      t == if s.n.Some? then s.(n := Some(seen)) else s.(v := Some(seen))
    ensures SlotOk(t) && Seen(t) == Some(Seen(s).value[".index" := Number(index)])
  {
    if s.n.None? {
      assert Dotted(".index");
      assert Seen(t).value == Seen(s).value[".index" := Number(index)];
    }
  }

  lemma RenumberRefines(p: Package, sid: string, index: int)
    requires WellFormed(p) && sid in Live(p)
    ensures WellFormed(Renumber(p, sid, index))
    ensures Flat(Renumber(p, sid, index)) == Flat(p)[sid := Flat(p)[sid][".index" := Number(index)]]
  {
    var q := Renumber(p, sid, index);
    assert SlotOk(SlotAt(p, sid));
    FlatAt(p, sid);
    RenumberSlot(p, sid, index);
    RenumberedSlot(SlotAt(p, sid), SlotAt(q, sid), index);
    WellFormedFrame(p, q, sid);
    FlatFrame(p, q, sid);
  }

  /** The sort key is the one a reader of the flat table sees: changes and marks never touch it. */
  lemma IndexIsFlat(p: Package, sid: string)
    requires WellFormed(p) && sid in Live(p)
    ensures IndexOf(p, sid) == IndexIn(Flat(p)[sid])
  {
    FlatAt(p, sid);
    assert SlotOk(SlotAt(p, sid));
    assert Dotted(".index");
  }

  /** The listed sections are numbered by their place; nothing else is different. */
  ghost predicate OnlyIndicesChanged(p: Package, q: Package, order: seq<string>) {
    && q.N().Keys == p.N().Keys && q.deletes == p.deletes && q.values.Some? == p.values.Some?
    && Flat(q).Keys == Flat(p).Keys
    && (forall i :: 0 <= i < |order| ==>
          order[i] in Flat(p) && Flat(q)[order[i]] == Flat(p)[order[i]][".index" := Number(i)])
    && (forall sid :: sid in Flat(p) && sid !in order ==> Flat(q)[sid] == Flat(p)[sid])
  }

  lemma RenumberOneMore(p: Package, r: Package, front: seq<string>, last: string)
    requires WellFormed(r) && OnlyIndicesChanged(p, r, front)
    requires last in Flat(p) && last !in front
    ensures WellFormed(Renumber(r, last, |front|)) && OnlyIndicesChanged(p, Renumber(r, last, |front|), front + [last])
  {
    assert Live(r) == Flat(r).Keys;
    RenumberRefines(r, last, |front|);
    var q, order := Renumber(r, last, |front|), front + [last];
    forall i | 0 <= i < |order| ensures Flat(q)[order[i]] == Flat(p)[order[i]][".index" := Number(i)] {
      if i < |front| { assert order[i] == front[i] && front[i] in front; }
    }
  }

  lemma {:induction false} RenumberAllRefines(p: Package, order: seq<string>)
    requires WellFormed(p) && NoDuplicates(order) && forall x :: x in order ==> x in Live(p)
    ensures WellFormed(RenumberAll(p, order)) && OnlyIndicesChanged(p, RenumberAll(p, order), order)
  {
    if order != [] {
      var front, last := order[..|order| - 1], order[|order| - 1];
      assert order == front + [last];
      RenumberAllRefines(p, front);
      RenumberOneMore(p, RenumberAll(p, front), front, last);
    }
  }

  lemma RenumberedListing(p: Package, order: seq<string>)
    requires WellFormed(p) && p.values.Some? && Enumerates(order, Live(p))
    ensures IsListing(RenumberAll(p, order), order)
    ensures DistinctIndices(RenumberAll(p, order))
  {
    RenumberAllRefines(p, order);
    var q := RenumberAll(p, order);
    assert Live(q) == Flat(q).Keys && Live(p) == Flat(p).Keys;
    forall i | 0 <= i < |order| ensures IndexOf(q, order[i]) == i {
      assert order[i] in order;
      IndexIsFlat(q, order[i]);
    }
  }

  lemma OnlyListing(p: Package, order: seq<string>)
    requires DistinctIndices(p) && IsListing(p, order)
    ensures forall found :: IsListing(p, found) <==> found == order
  {
    forall found | IsListing(p, found) ensures found == order {
      ListingIsUnique(p, found, order);
    }
  }

  /**
   `move` on a loaded package: it succeeds exactly when the section is live and the
   target is missing or another live section. Then `sections` lists the requested
   order and no other, with dense indices, and nothing but the indices has changed;
   otherwise nothing has changed at all.
   */
  lemma MoveReorders(p: Package, order: seq<string>, sid: string, target: Option<string>, after: bool)
    requires WellFormed(p) && p.values.Some? && IsListing(p, order)
    ensures var q := Move(p, order, sid, target, after);
      var moved := Moved(order, sid, target, after);
      && WellFormed(q)
      && (moved.Some? <==> sid in Live(p) && (target.Some? ==> target.value in Live(p) && target.value != sid))
      && (moved.None? ==> q == p)
      && (moved.Some? ==>
            OnlyIndicesChanged(p, q, moved.value) && forall found :: IsListing(q, found) <==> found == moved.value)
  {
    MovedOrder(order, sid, target, after);
    var moved := Moved(order, sid, target, after);
    if moved.Some? {
      assert Enumerates(moved.value, Live(p));
      RenumberAllRefines(p, moved.value);
      RenumberedListing(p, moved.value);
      OnlyListing(RenumberAll(p, moved.value), moved.value);
    }
  }

  // ---------------------------------------------------------------- reorderSections

  function Raw(p: Package, sid: string): Section {
    if sid in p.N() then p.N()[sid] else Inner(p.V(), sid)
  }

  /** What `reorderSections` sends for a package that was moved: nothing once a deletion table exists. */
  ghost predicate IsOrderCall(p: Package, order: seq<string>) {
    && p.deletes.None? && order != []
    && Enumerates(order, p.N().Keys + p.V().Keys)
    && forall i, j :: 0 <= i < j < |order| ==> IndexIn(Raw(p, order[i])) <= IndexIn(Raw(p, order[j]))
  }

  function NameIn(s: Section): string {
    if ".name" in s && s[".name"].Text? then s[".name"].text else ""
  }

  /** The sections are sent by the names they have by then: the backend's answers, for the created ones. */
  ghost predicate SendsOrder(p: Package, sent: seq<string>) {
    exists order :: IsOrderCall(p, order) && |sent| == |order| &&
      forall i :: 0 <= i < |order| ==> sent[i] == NameIn(Raw(p, order[i]))
  }

  /** The order that is sent is the one `sections` shows; it is sent if and only if the deletion table is absent. */
  lemma OrderCallMatchesListing(p: Package, order: seq<string>)
    requires WellFormed(p) && p.values.Some? && order != []
    ensures IsOrderCall(p, order) <==> p.deletes.None? && IsListing(p, order)
  {
    if p.deletes.None? {
      assert Live(p) == p.N().Keys + p.V().Keys;
      forall sid | sid in Live(p) ensures IndexIn(Raw(p, sid)) == IndexOf(p, sid) {
        assert SlotOk(SlotAt(p, sid));
        assert Dotted(".index");
      }
      if Enumerates(order, Live(p)) {
        assert forall i :: 0 <= i < |order| ==> order[i] in order;
      }
    }
  }
}
