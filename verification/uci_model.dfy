/**
 The staging area of `uci.js` for one configuration package, as a value.

 Every operation of the store touches the tables of one package only, so the
 class in uci_store.dfy is specified by the functions of this module, applied to
 the package's slice of the five nested tables.
 */
module UciModel {
  import opened Base

  datatype Value = Text(text: string) | Items(items: seq<string>) | Number(number: int) | Flag(flag: bool)

  /** One object of the store: options, and the bookkeeping keys that start with a dot. */
  type Section = map<string, Value>

  /** `true`, or an object whose keys are the unset options. */
  datatype Deletion = Whole | Options(names: set<string>)

  /** `None` is a package that has no object in the table at all. */
  datatype Package = Package(
    values: Option<map<string, Section>>,
    creates: Option<map<string, Section>>,
    changes: Option<map<string, Section>>,
    deletes: Option<map<string, Deletion>>)
  {
    function V(): map<string, Section> { values.GetOr(map[]) }
    function N(): map<string, Section> { creates.GetOr(map[]) }
    function C(): map<string, Section> { changes.GetOr(map[]) }
    function D(): map<string, Deletion> { deletes.GetOr(map[]) }
  }

  predicate Dotted(opt: string) {
    |opt| > 0 && opt[0] == '.'
  }

  /** The section is marked as removed as a whole. */
  predicate Gone(p: Package, sid: string) {
    sid in p.D() && p.D()[sid].Whole?
  }

  function KindIn(s: Section): string {
    if ".type" in s && s[".type"].Text? then s[".type"].text else ""
  }

  function ChangesOf(p: Package, sid: string): Section {
    Inner(p.C(), sid)
  }

  function UnsetOf(p: Package, sid: string): set<string> {
    if sid in p.D() && p.D()[sid].Options? then p.D()[sid].names else {}
  }

  // ---------------------------------------------------------------- operations

  function NewSection(kind: string, name: Option<string>, sid: string, index: int): Section {
    var anonymous := name.GetOr("") == "";
    var s: Section := map[".type" := Text(kind), ".name" := Text(sid), ".anonymous" := Flag(anonymous),
      ".index" := Number(index)];
    if name.Some? then s[".create" := Text(name.value)] else s
  }

  /** `name || createSID(conf)`: the made-up name is used when none or an empty one is given. */
  function SidFor(name: Option<string>, madeUp: string): string {
    if name.GetOr("") == "" then madeUp else name.value
  }

  function Add(p: Package, kind: string, name: Option<string>, madeUp: string, index: int): Package {
    var sid := SidFor(name, madeUp);
    p.(creates := Some(p.N()[sid := NewSection(kind, name, sid, index)]))
  }

  function Remove(p: Package, sid: string): Package {
    if sid in p.N() then
      p.(creates := Some(p.N() - {sid}))
    else if sid in p.V() then
      p.(changes := if p.changes.Some? then Some(p.C() - {sid}) else None,
         deletes := Some(p.D()[sid := Whole]))
    else p
  }

  function GetOption(p: Package, sid: string, opt: string): Option<Value> {
    if sid in p.N() then Lookup(p.N()[sid], opt)
    else if Gone(p, sid) || opt in UnsetOf(p, sid) then None
    else if opt in ChangesOf(p, sid) then Some(ChangesOf(p, sid)[opt])
    else Lookup(Inner(p.V(), sid), opt)
  }

  /** A pending change replaces the option's deletion mark; an emptied mark is dropped. */
  function Unmark(d: map<string, Deletion>, sid: string, opt: string): map<string, Deletion> {
    if sid !in d || d[sid].Whole? then d
    else if d[sid].names - {opt} == {} then d - {sid}
    else d[sid := Options(d[sid].names - {opt})]
  }

  function Mark(d: map<string, Deletion>, sid: string, opt: string): map<string, Deletion> {
    if sid in d && d[sid].Whole? then d
    else d[sid := Options((if sid in d then d[sid].names else {}) + {opt})]
  }

  /** Forgets the pending change of one option; an emptied change set is dropped. */
  function Forget(c: map<string, Section>, sid: string, opt: string): map<string, Section> {
    if sid !in c then c
    else if c[sid].Keys - {opt} == {} then c - {sid}
    else c[sid := c[sid] - {opt}]
  }

  function Set(p: Package, sid: string, opt: string, val: Option<Value>): Package {
    if Dotted(opt) then p
    else if sid in p.N() then
      p.(creates := Some(p.N()[sid := Put(p.N()[sid], opt, val)]))
    else if val.Some? && val.value != Text("") then
      if Gone(p, sid) || sid !in p.V() then p
      else p.(changes := Some(p.C()[sid := ChangesOf(p, sid)[opt := val.value]]),
              deletes := if p.deletes.Some? then Some(Unmark(p.D(), sid, opt)) else None)
    else
      p.(changes := if p.changes.Some? then Some(Forget(p.C(), sid, opt)) else None,
         deletes := if sid in p.V() && opt in p.V()[sid] then Some(Mark(p.D(), sid, opt)) else p.deletes)
  }

  /** What a whole-section `get` leaves in the snapshot: the pending changes written into it. */
  function Washed(p: Package, sid: string): Section
    requires sid in p.V()
  {
    p.V()[sid] + ChangesOf(p, sid) - UnsetOf(p, sid)
  }

  function GetSection(p: Package, sid: string): (Package, Option<Section>) {
    if sid in p.N() then (p, Some(p.N()[sid]))
    else if Gone(p, sid) || sid !in p.V() then (p, None)
    else (p.(values := Some(p.V()[sid := Washed(p, sid)])), Some(Washed(p, sid)))
  }

  // ---------------------------------------------------------------- the flat view

  /** The sections a reader can see. */
  function Live(p: Package): set<string> {
    p.N().Keys + set sid | sid in p.V() && !Gone(p, sid)
  }

  /** The package as one plain table: what all the layers together mean. */
  function Flat(p: Package): map<string, Section> {
    map sid | sid in Live(p) :: if sid in p.N() then p.N()[sid] else Washed(p, sid)
  }

  /** The plain table's own operations; `created` are the sections not yet known to the backend. */
  datatype Sheet = Sheet(sections: map<string, Section>, created: set<string>)

  function SheetOf(p: Package): Sheet {
    Sheet(Flat(p), p.N().Keys)
  }

  function SheetGet(t: Sheet, sid: string, opt: string): Option<Value> {
    Lookup(Inner(t.sections, sid), opt)
  }

  /** Writing an empty text removes the option, except on a section that is still being created. */
  function SheetSet(t: Sheet, sid: string, opt: string, val: Option<Value>): Sheet {
    var stored := if val == Some(Text("")) && sid !in t.created then None else val;
    if Dotted(opt) || sid !in t.sections then t
    else t.(sections := t.sections[sid := Put(t.sections[sid], opt, stored)])
  }

  function SheetRemove(t: Sheet, sid: string): Sheet {
    Sheet(t.sections - {sid}, t.created - {sid})
  }

  function SheetAdd(t: Sheet, sid: string, s: Section): Sheet {
    Sheet(t.sections[sid := s], t.created + {sid})
  }

  // ---------------------------------------------------------------- the invariant

  /** Everything the four tables hold about one section. */
  datatype Slot = Slot(v: Option<Section>, n: Option<Section>, c: Option<Section>, d: Option<Deletion>)

  function SlotAt(p: Package, sid: string): Slot {
    Slot(Lookup(p.V(), sid), Lookup(p.N(), sid), Lookup(p.C(), sid), Lookup(p.D(), sid))
  }

  /**
   Pending changes and deletion marks are about snapshot sections, never name the
   same option twice, never touch a dotted key and are never empty; a created
   section shadows a snapshot section only when that one is removed as a whole.
   */
  ghost predicate SlotOk(s: Slot) {
    && (s.c.Some? ==> s.v.Some? && s.d != Some(Whole) && s.c.value.Keys != {})
    && (s.c.Some? ==> forall opt :: opt in s.c.value ==> !Dotted(opt))
    && (s.d.Some? ==> s.v.Some?)
    && (s.d.Some? && s.d.value.Options? ==> s.d.value.names != {})
    && (s.d.Some? && s.d.value.Options? ==>
          forall opt :: opt in s.d.value.names ==> !Dotted(opt) && opt !in s.c.GetOr(map[]))
    && (s.n.Some? && s.v.Some? ==> s.d == Some(Whole))
  }

  ghost predicate WellFormed(p: Package) {
    forall sid :: SlotOk(SlotAt(p, sid))
  }

  /** What a reader sees of the section. */
  function Seen(s: Slot): Option<Section> {
    if s.n.Some? then s.n
    else if s.v.None? || s.d == Some(Whole) then None
    else Some(s.v.value + s.c.GetOr(map[]) - (if s.d.Some? then s.d.value.names else {}))
  }

  lemma FlatAt(p: Package, sid: string)
    ensures Lookup(Flat(p), sid) == Seen(SlotAt(p, sid))
    ensures sid in Live(p) <==> Seen(SlotAt(p, sid)).Some?
  {
  }

  lemma SameTables<K, V>(m: map<K, V>, n: map<K, V>)
    requires forall k :: Lookup(m, k) == Lookup(n, k)
    ensures m == n
  {
    assert forall k :: k in m <==> Lookup(m, k).Some?;
    assert forall k :: k in n <==> Lookup(n, k).Some?;
    assert m.Keys == n.Keys;
    forall k | k in m ensures m[k] == n[k] { assert Lookup(m, k) == Some(m[k]); }
  }

  /** Two packages whose slots differ in one place at most have flat tables that differ there at most. */
  lemma FlatFrame(p: Package, q: Package, sid: string)
    requires forall other :: other != sid ==> SlotAt(q, other) == SlotAt(p, other)
    ensures Flat(q) == Put(Flat(p), sid, Seen(SlotAt(q, sid)))
  {
    var expected := Put(Flat(p), sid, Seen(SlotAt(q, sid)));
    forall other ensures Lookup(Flat(q), other) == Lookup(expected, other) {
      FlatAt(p, other);
      FlatAt(q, other);
    }
    SameTables(Flat(q), expected);
  }

  lemma WellFormedFrame(p: Package, q: Package, sid: string)
    requires WellFormed(p) && SlotOk(SlotAt(q, sid))
    requires forall other :: other != sid ==> SlotAt(q, other) == SlotAt(p, other)
    ensures WellFormed(q)
  {
    forall other ensures SlotOk(SlotAt(q, other)) {
      assert SlotOk(SlotAt(p, other));
      if other != sid { assert SlotAt(q, other) == SlotAt(p, other); }
    }
  }

  /** Adding is meant for names that are not in use: unknown, removed, or still being created. */
  predicate CanAdd(p: Package, sid: string) {
    sid in p.V() ==> Gone(p, sid)
  }

  lemma GetReadsFlat(p: Package, sid: string, opt: string)
    requires WellFormed(p)
    ensures GetOption(p, sid, opt) == SheetGet(SheetOf(p), sid, opt)
  {
    FlatAt(p, sid);
    assert SlotOk(SlotAt(p, sid));
  }

  lemma AddRefines(p: Package, kind: string, name: Option<string>, madeUp: string, index: int)
    requires WellFormed(p) && CanAdd(p, SidFor(name, madeUp))
    ensures WellFormed(Add(p, kind, name, madeUp, index))
    ensures SheetOf(Add(p, kind, name, madeUp, index)) ==
      SheetAdd(SheetOf(p), SidFor(name, madeUp), NewSection(kind, name, SidFor(name, madeUp), index))
  {
    var sid := SidFor(name, madeUp);
    var q := Add(p, kind, name, madeUp, index);
    assert SlotOk(SlotAt(p, sid));
    assert SlotAt(q, sid) == SlotAt(p, sid).(n := Some(NewSection(kind, name, sid, index)));
    FlatFrame(p, q, sid);
    WellFormedFrame(p, q, sid);
  }

  lemma RemoveRefines(p: Package, sid: string)
    requires WellFormed(p)
    ensures WellFormed(Remove(p, sid))
    ensures SheetOf(Remove(p, sid)) == SheetRemove(SheetOf(p), sid)
  {
    var q := Remove(p, sid);
    var s := SlotAt(p, sid);
    assert SlotOk(s);
    assert SlotAt(q, sid) ==
      if s.n.Some? then s.(n := None) else if s.v.Some? then s.(c := None, d := Some(Whole)) else s;
    FlatFrame(p, q, sid);
    WellFormedFrame(p, q, sid);
  }

  function SetSlot(s: Slot, opt: string, val: Option<Value>): Slot {
    if s.n.Some? then s.(n := Some(Put(s.n.value, opt, val)))
    else if val.Some? && val.value != Text("") then
      if s.d == Some(Whole) || s.v.None? then s
      else s.(c := Some(s.c.GetOr(map[])[opt := val.value]),
              d := if s.d.None? || s.d.value.names - {opt} == {} then None else Some(Options(s.d.value.names - {opt})))
    else
      s.(c := if s.c.None? || s.c.value.Keys - {opt} == {} then None else Some(s.c.value - {opt}),
         d := if s.v.None? || opt !in s.v.value || s.d == Some(Whole) then s.d
              else Some(Options((if s.d.Some? then s.d.value.names else {}) + {opt})))
  }

  lemma SetIsLocal(p: Package, sid: string, opt: string, val: Option<Value>)
    requires !Dotted(opt)
    ensures SlotAt(Set(p, sid, opt, val), sid) == SetSlot(SlotAt(p, sid), opt, val)
    ensures forall other :: other != sid ==> SlotAt(Set(p, sid, opt, val), other) == SlotAt(p, other)
  {
    var q := Set(p, sid, opt, val);
    if sid in p.N() {
      assert q.N() == p.N()[sid := Put(p.N()[sid], opt, val)];
    } else if val.Some? && val.value != Text("") {
      if !Gone(p, sid) && sid in p.V() {
        assert q.C() == p.C()[sid := ChangesOf(p, sid)[opt := val.value]];
        assert q.D() == Unmark(p.D(), sid, opt);
      }
    } else {
      assert q.C() == Forget(p.C(), sid, opt);
      assert q.D() == if sid in p.V() && opt in p.V()[sid] then Mark(p.D(), sid, opt) else p.D();
    }
  }

  /** A value is written over the snapshot. */
  lemma OverlaySlotOk(s: Slot, opt: string, val: Value)
    requires SlotOk(s) && !Dotted(opt) && s.n.None? && val != Text("")
    ensures SlotOk(SetSlot(s, opt, Some(val)))
    ensures Seen(SetSlot(s, opt, Some(val))) == if Seen(s).None? then None else Some(Put(Seen(s).value, opt, Some(val)))
  {
    if Seen(s).Some? {
      assert Seen(SetSlot(s, opt, Some(val))).value == Seen(s).value[opt := val];
      assert opt in SetSlot(s, opt, Some(val)).c.value.Keys;
    }
  }

  /** A value is taken out of the overlay, and the snapshot's one is masked. */
  lemma UnsetSlotOk(s: Slot, opt: string)
    requires SlotOk(s) && !Dotted(opt) && s.n.None?
    ensures SlotOk(SetSlot(s, opt, None))
    ensures Seen(SetSlot(s, opt, None)) == if Seen(s).None? then None else Some(Put(Seen(s).value, opt, None))
  {
    if Seen(s).Some? {
      assert Seen(SetSlot(s, opt, None)).value == Seen(s).value - {opt};
    }
  }

  lemma SetSlotOk(s: Slot, opt: string, val: Option<Value>)
    requires SlotOk(s) && !Dotted(opt)
    ensures SlotOk(SetSlot(s, opt, val))
    ensures Seen(SetSlot(s, opt, val)) ==
      if Seen(s).None? then None
      else Some(Put(Seen(s).value, opt, if val == Some(Text("")) && s.n.None? then None else val))
  {
    if s.n.None? {
      if val.Some? && val.value != Text("") {
        OverlaySlotOk(s, opt, val.value);
      } else {
        UnsetSlotOk(s, opt);
      }
    }
  }

  lemma SetRefines(p: Package, sid: string, opt: string, val: Option<Value>)
    requires WellFormed(p)
    ensures WellFormed(Set(p, sid, opt, val))
    ensures SheetOf(Set(p, sid, opt, val)) == SheetSet(SheetOf(p), sid, opt, val)
  {
    if !Dotted(opt) {
      var q := Set(p, sid, opt, val);
      assert SlotOk(SlotAt(p, sid));
      SetIsLocal(p, sid, opt, val);
      SetSlotOk(SlotAt(p, sid), opt, val);
      FlatFrame(p, q, sid);
      WellFormedFrame(p, q, sid);
      FlatAt(p, sid);
    }
  }

  lemma GetSectionRefines(p: Package, sid: string)
    requires WellFormed(p)
    ensures var (q, s) := GetSection(p, sid);
      WellFormed(q) && SheetOf(q) == SheetOf(p) && s == Lookup(Flat(p), sid)
  {
    var q := GetSection(p, sid).0;
    var s := SlotAt(p, sid);
    assert SlotOk(s);
    if s.n.None? && Seen(s).Some? {
      assert SlotAt(q, sid) == s.(v := Seen(s));
      assert Seen(SlotAt(q, sid)).value == Seen(s).value;
    }
    FlatAt(p, sid);
    FlatFrame(p, q, sid);
    WellFormedFrame(p, q, sid);
  }
}
