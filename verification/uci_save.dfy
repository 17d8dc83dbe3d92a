/**
 `save` of `uci.js`: the pending changes of one package, replayed on the backend
 the snapshot was loaded from.
 */
module UciSave {
  import opened Base
  import opened UciModel
  import opened UciOrder

  /** A section as the backend keeps it. */
  datatype Stored = Stored(kind: string, options: Section)

  type Backend = map<string, Stored>

  /** The calls `save` makes; the name of an added section is missing when the backend is to choose one. */
  datatype Command =
    | CallDelete(sid: string, options: Option<set<string>>)
    | CallAdd(kind: string, name: Option<string>, values: Section)
    | CallSet(sid: string, values: Section)

  /** What the backend does; `reply` is the name it reports for an added section. */
  function Exec(b: Backend, cmd: Command, reply: string): Backend {
    match cmd
    case CallDelete(sid, None) => b - {sid}
    case CallDelete(sid, Some(names)) =>
      if sid in b then b[sid := b[sid].(options := b[sid].options - names)] else b
    case CallAdd(kind, name, values) =>
      var present: Section := if reply in b then b[reply].options else map[];
      b[reply := Stored(kind, present + values)]
    case CallSet(sid, values) =>
      if sid in b then b[sid := b[sid].(options := b[sid].options + values)] else b
  }

  function Plain(s: Section): Section {
    map opt | opt in s && !Dotted(opt) :: s[opt]
  }

  /** The name `save` passes to the backend: `.create`, when it is set and not empty. */
  function CreateName(s: Section): Option<string> {
    if ".create" in s && s[".create"].Text? && s[".create"].text != "" then Some(s[".create"].text) else None
  }

  function DeleteCall(p: Package, sid: string): Command
    requires sid in p.D()
  {
    CallDelete(sid, if p.D()[sid].Whole? then None else Some(p.D()[sid].names))
  }

  function AddCall(p: Package, sid: string): Command
    requires sid in p.N()
  {
    CallAdd(KindIn(p.N()[sid]), CreateName(p.N()[sid]), Plain(p.N()[sid]))
  }

  function SetCall(p: Package, sid: string): Command
    requires sid in p.C()
  {
    CallSet(sid, p.C()[sid])
  }

  // ---------------------------------------------------------------- the three phases

  function AfterDeletes(b: Backend, p: Package, ds: seq<string>): Backend
    requires forall sid :: sid in ds ==> sid in p.D()
  {
    if ds == [] then b
    else Exec(AfterDeletes(b, p, ds[..|ds| - 1]), DeleteCall(p, ds[|ds| - 1]), "")
  }

  /** `names` gives each created section the name it has in the backend afterwards. */
  function AfterAdds(b: Backend, p: Package, ns: seq<string>, names: map<string, string>): Backend
    requires forall sid :: sid in ns ==> sid in p.N() && sid in names
  {
    if ns == [] then b
    else Exec(AfterAdds(b, p, ns[..|ns| - 1], names), AddCall(p, ns[|ns| - 1]), names[ns[|ns| - 1]])
  }

  function AfterSets(b: Backend, p: Package, cs: seq<string>): Backend
    requires forall sid :: sid in cs ==> sid in p.C()
  {
    if cs == [] then b
    else Exec(AfterSets(b, p, cs[..|cs| - 1]), SetCall(p, cs[|cs| - 1]), "")
  }

  lemma {:induction false} DeletesAt(b: Backend, p: Package, ds: seq<string>, sid: string)
    requires forall s :: s in ds ==> s in p.D()
    requires NoDuplicates(ds)
    ensures Lookup(AfterDeletes(b, p, ds), sid) ==
      if sid !in ds || sid !in b then Lookup(b, sid)
      else if p.D()[sid].Whole? then None
      else Some(b[sid].(options := b[sid].options - p.D()[sid].names))
  {
    if ds != [] {
      var front, last := ds[..|ds| - 1], ds[|ds| - 1];
      assert ds == front + [last];
      DeletesAt(b, p, front, sid);
    }
  }

  lemma {:induction false} SetsAt(b: Backend, p: Package, cs: seq<string>, sid: string)
    requires forall s :: s in cs ==> s in p.C()
    requires NoDuplicates(cs)
    ensures Lookup(AfterSets(b, p, cs), sid) ==
      if sid !in cs || sid !in b then Lookup(b, sid)
      else Some(b[sid].(options := b[sid].options + p.C()[sid]))
  {
    if cs != [] {
      var front, last := cs[..|cs| - 1], cs[|cs| - 1];
      assert cs == front + [last];
      SetsAt(b, p, front, sid);
    }
  }

  /**
   Created sections get the name that their call asks for, or a reply that is new:
   different for each, and not in use in the backend or among the names `save` asks for.
   */
  ghost predicate GoodNames(p: Package, b: Backend, names: map<string, string>) {
    && names.Keys == p.N().Keys
    && (forall s, t :: s in names && t in names && s != t ==> names[s] != names[t])
    && (forall s :: s in names ==>
          var asked := AddCall(p, s).name;
          if asked.Some? then names[s] == asked.value else names[s] !in b)
  }

  lemma {:induction false} AddsKeep(b: Backend, p: Package, ns: seq<string>, names: map<string, string>, sid: string)
    requires forall s :: s in ns ==> s in p.N() && s in names
    requires forall s :: s in ns ==> names[s] != sid
    ensures Lookup(AfterAdds(b, p, ns, names), sid) == Lookup(b, sid)
  {
    if ns != [] {
      var front, last := ns[..|ns| - 1], ns[|ns| - 1];
      assert ns == front + [last];
      AddsKeep(b, p, front, names, sid);
    }
  }

  lemma {:induction false} AddsAt(b: Backend, p: Package, ns: seq<string>, names: map<string, string>, sid: string)
    requires forall s :: s in ns ==> s in p.N() && s in names
    requires forall s, t :: s in ns && t in ns && s != t ==> names[s] != names[t]
    requires NoDuplicates(ns) && sid in ns && names[sid] !in b
    ensures Lookup(AfterAdds(b, p, ns, names), names[sid]) == Some(Stored(KindIn(p.N()[sid]), Plain(p.N()[sid])))
  {
    var front, last := ns[..|ns| - 1], ns[|ns| - 1];
    assert ns == front + [last];
    if sid == last {
      AddsKeep(b, p, front, names, names[sid]);
      assert map[] + Plain(p.N()[sid]) == Plain(p.N()[sid]);
    } else {
      AddsAt(b, p, front, names, sid);
    }
  }

  // ---------------------------------------------------------------- what the snapshot remembers

  /**
   Where nothing is pending, the snapshot has the backend's value of the option, or
   has forgotten an option the backend still holds.
   */
  ghost predicate SlotTracks(s: Slot, b: Option<Stored>) {
    && s.v.Some? == b.Some?
    && (b.Some? ==> forall opt :: opt in b.value.options ==> !Dotted(opt))
    && (b.Some? && s.d != Some(Whole) ==>
          && KindIn(s.v.value) == b.value.kind
          && forall opt :: !Dotted(opt) && opt !in s.c.GetOr(map[]) && opt !in SlotUnset(s) ==>
               Lookup(s.v.value, opt) == Lookup(b.value.options, opt) || (opt in b.value.options && opt !in s.v.value))
  }

  function SlotUnset(s: Slot): set<string> {
    if s.d.Some? && s.d.value.Options? then s.d.value.names else {}
  }

  ghost predicate Tracks(p: Package, b: Backend) {
    forall sid :: SlotTracks(SlotAt(p, sid), Lookup(b, sid))
  }

  /**
   The backend holds the option, no reader sees it, and no call of `save` is going
   to remove it: neither a change nor a deletion mark is pending.
   */
  predicate LostIn(s: Slot, b: Option<Stored>, opt: string) {
    && s.n.None? && s.v.Some? && s.d != Some(Whole)
    && opt !in s.c.GetOr(map[]) && opt !in SlotUnset(s) && opt !in s.v.value
    && b.Some? && opt in b.value.options
  }

  predicate Lost(p: Package, b: Backend, sid: string, opt: string) {
    LostIn(SlotAt(p, sid), Lookup(b, sid), opt)
  }

  /** Named sections are created under the name they have here. */
  ghost predicate NamesOk(p: Package) {
    forall sid :: sid in p.N() && CreateName(p.N()[sid]).Some? ==> CreateName(p.N()[sid]).value == sid
  }

  function Final(p: Package, names: map<string, string>, sid: string): string {
    if sid in p.N() && sid in names then names[sid] else sid
  }

  /** The backend after the whole batch: deletes, then adds, then sets, each in any order. */
  function Saved(b: Backend, p: Package, ds: seq<string>, ns: seq<string>, names: map<string, string>,
                 cs: seq<string>): Backend
    requires forall sid :: sid in ds ==> sid in p.D()
    requires forall sid :: sid in ns ==> sid in p.N() && sid in names
    requires forall sid :: sid in cs ==> sid in p.C()
  {
    AfterSets(AfterAdds(AfterDeletes(b, p, ds), p, ns, names), p, cs)
  }

  ghost predicate IsBatch(p: Package, b: Backend, ds: seq<string>, ns: seq<string>, names: map<string, string>,
                          cs: seq<string>) {
    && Enumerates(ds, p.D().Keys) && Enumerates(ns, p.N().Keys) && Enumerates(cs, p.C().Keys)
    && GoodNames(p, b, names)
  }

  lemma SlotFidelity(s: Slot, b: Option<Stored>, opt: string)
    requires SlotOk(s) && SlotTracks(s, b) && s.n.None? && Seen(s).Some? && !Dotted(opt)
    ensures Lookup(b.value.options - SlotUnset(s) + s.c.GetOr(map[]), opt) == Lookup(Seen(s).value, opt)
      <==> !LostIn(s, b, opt)
  {
  }

  /** Where a name of the backend comes from after the batch. */
  lemma NewNamesAreFree(b: Backend, p: Package, names: map<string, string>, sid: string)
    requires WellFormed(p) && NamesOk(p) && Tracks(p, b) && GoodNames(p, b, names)
    requires sid in p.N()
    ensures names[sid] in p.V() ==> names[sid] == sid && Gone(p, sid)
    ensures names[sid] in b <==> names[sid] in p.V()
    ensures names[sid] !in p.C()
  {
    var t := names[sid];
    assert SlotTracks(SlotAt(p, t), Lookup(b, t));
    assert SlotOk(SlotAt(p, t));
    assert SlotOk(SlotAt(p, sid));
  }

  /** A visible section of the snapshot keeps its name and gets its changes. */
  lemma LoadedSectionSaved(b: Backend, p: Package, ds: seq<string>, ns: seq<string>, names: map<string, string>,
                           cs: seq<string>, sid: string)
    requires WellFormed(p) && NamesOk(p) && Tracks(p, b) && IsBatch(p, b, ds, ns, names, cs)
    requires sid !in p.N() && sid in Live(p)
    ensures sid in b
    ensures Lookup(Saved(b, p, ds, ns, names, cs), sid) ==
      Some(b[sid].(options := b[sid].options - UnsetOf(p, sid) + ChangesOf(p, sid)))
  {
    assert SlotTracks(SlotAt(p, sid), Lookup(b, sid));
    var b1 := AfterDeletes(b, p, ds);
    DeletesAt(b, p, ds, sid);
    assert b1[sid].options == b[sid].options - UnsetOf(p, sid);
    forall s | s in ns ensures names[s] != sid { NewNamesAreFree(b, p, names, s); }
    AddsKeep(b1, p, ns, names, sid);
    SetsAt(AfterAdds(b1, p, ns, names), p, cs, sid);
    assert sid !in p.C() ==> b1[sid].options + ChangesOf(p, sid) == b1[sid].options;
  }

  /** A created section arrives under its name, with its plain options. */
  lemma CreatedSectionSaved(b: Backend, p: Package, ds: seq<string>, ns: seq<string>, names: map<string, string>,
                            cs: seq<string>, sid: string)
    requires WellFormed(p) && NamesOk(p) && Tracks(p, b) && IsBatch(p, b, ds, ns, names, cs)
    requires sid in p.N()
    ensures Lookup(Saved(b, p, ds, ns, names, cs), names[sid]) ==
      Some(Stored(KindIn(p.N()[sid]), Plain(p.N()[sid])))
  {
    NewNamesAreFree(b, p, names, sid);
    var b1 := AfterDeletes(b, p, ds);
    DeletesAt(b, p, ds, names[sid]);
    assert Lookup(b1, names[sid]) == None;
    AddsAt(b1, p, ns, names, sid);
    SetsAt(AfterAdds(b1, p, ns, names), p, cs, names[sid]);
  }

  /** Nothing else is left: every section of the backend is a visible one under its final name. */
  lemma NoOtherSection(b: Backend, p: Package, ds: seq<string>, ns: seq<string>, names: map<string, string>,
                       cs: seq<string>, t: string)
    requires WellFormed(p) && NamesOk(p) && Tracks(p, b) && IsBatch(p, b, ds, ns, names, cs)
    requires t in Saved(b, p, ds, ns, names, cs)
    ensures exists sid :: sid in Live(p) && Final(p, names, sid) == t
  {
    if s :| s in p.N() && names[s] == t {
      assert Final(p, names, s) == t && s in Live(p);
    } else {
      var b1 := AfterDeletes(b, p, ds);
      DeletesAt(b, p, ds, t);
      AddsKeep(b1, p, ns, names, t);
      SetsAt(AfterAdds(b1, p, ns, names), p, cs, t);
      assert SlotTracks(SlotAt(p, t), Lookup(b, t));
      assert SlotOk(SlotAt(p, t));
      assert t in Live(p) && Final(p, names, t) == t;
    }
  }

  lemma FinalIsInjective(b: Backend, p: Package, names: map<string, string>, s: string, t: string)
    requires WellFormed(p) && NamesOk(p) && Tracks(p, b) && GoodNames(p, b, names)
    requires s in Live(p) && t in Live(p) && s != t
    ensures Final(p, names, s) != Final(p, names, t)
  {
    if s in p.N() && t !in p.N() { NewNamesAreFree(b, p, names, s); }
    if t in p.N() && s !in p.N() { NewNamesAreFree(b, p, names, t); }
  }

  /**
   `save` is faithful: after the batch the backend has exactly the visible sections,
   each under its own final name and with its type; and an option reads back as the
   store showed it if and only if it is not lost.
   */
  lemma SaveFidelity(b: Backend, p: Package, ds: seq<string>, ns: seq<string>, names: map<string, string>,
                     cs: seq<string>)
    requires WellFormed(p) && NamesOk(p) && Tracks(p, b) && IsBatch(p, b, ds, ns, names, cs)
    ensures var after := Saved(b, p, ds, ns, names, cs);
      && after.Keys == (set sid | sid in Live(p) :: Final(p, names, sid))
      && (forall s, t :: s in Live(p) && t in Live(p) && s != t ==> Final(p, names, s) != Final(p, names, t))
      && (forall sid :: sid in Live(p) ==> after[Final(p, names, sid)].kind == KindIn(Flat(p)[sid]))
      && (forall sid, opt :: sid in Live(p) && !Dotted(opt) ==>
            (Lookup(after[Final(p, names, sid)].options, opt) == GetOption(p, sid, opt) <==> !Lost(p, b, sid, opt)))
  {
    var after := Saved(b, p, ds, ns, names, cs);
    forall sid | sid in Live(p)
      ensures Final(p, names, sid) in after && SectionFaithful(b, p, names, after, sid)
    {
      SectionSaved(b, p, ds, ns, names, cs, sid);
    }
    forall t | t in after ensures exists sid :: sid in Live(p) && Final(p, names, sid) == t {
      NoOtherSection(b, p, ds, ns, names, cs, t);
    }
    forall s, t | s in Live(p) && t in Live(p) && s != t ensures Final(p, names, s) != Final(p, names, t) {
      FinalIsInjective(b, p, names, s, t);
    }
  }

  ghost predicate SectionFaithful(b: Backend, p: Package, names: map<string, string>, after: Backend, sid: string)
    requires sid in Live(p) && Final(p, names, sid) in after
  {
    && after[Final(p, names, sid)].kind == KindIn(Flat(p)[sid])
    && forall opt :: !Dotted(opt) ==>
         (Lookup(after[Final(p, names, sid)].options, opt) == GetOption(p, sid, opt) <==> !Lost(p, b, sid, opt))
  }

  lemma SectionSaved(b: Backend, p: Package, ds: seq<string>, ns: seq<string>, names: map<string, string>,
                     cs: seq<string>, sid: string)
    requires WellFormed(p) && NamesOk(p) && Tracks(p, b) && IsBatch(p, b, ds, ns, names, cs)
    requires sid in Live(p)
    ensures Final(p, names, sid) in Saved(b, p, ds, ns, names, cs)
    ensures SectionFaithful(b, p, names, Saved(b, p, ds, ns, names, cs), sid)
  {
    var after := Saved(b, p, ds, ns, names, cs);
    var s := SlotAt(p, sid);
    assert SlotOk(s);
    FlatAt(p, sid);
    if sid in p.N() {
      CreatedSectionSaved(b, p, ds, ns, names, cs, sid);
    } else {
      LoadedSectionSaved(b, p, ds, ns, names, cs, sid);
      assert SlotTracks(s, Lookup(b, sid));
      assert KindIn(Seen(s).value) == KindIn(s.v.value) by { assert Dotted(".type"); }
      forall opt | !Dotted(opt)
        ensures Lookup(after[sid].options, opt) == GetOption(p, sid, opt) <==> !Lost(p, b, sid, opt)
      {
        SlotFidelity(s, Lookup(b, sid), opt);
        GetReadsFlat(p, sid, opt);
      }
    }
  }

  // ---------------------------------------------------------------- runs

  datatype Op =
    | OpAdd(kind: string, name: Option<string>, madeUp: string, index: int)
    | OpSet(sid: string, opt: string, val: Option<Value>)
    | OpRemove(sid: string)
    | OpGet(sid: string, opt: string)
    | OpGetSection(sid: string)
    | OpMove(order: seq<string>, sid: string, target: Option<string>, after: bool)

  function Step(p: Package, op: Op): Package {
    match op
    case OpAdd(kind, name, madeUp, index) => Add(p, kind, name, madeUp, index)
    case OpSet(sid, opt, val) => Set(p, sid, opt, val)
    case OpRemove(sid) => Remove(p, sid)
    case OpGet(_, _) => p
    case OpGetSection(sid) => GetSection(p, sid).0
    case OpMove(order, sid, target, after) => Move(p, order, sid, target, after)
  }

  /** Sections are added under names that are not in use, and `move` works on a listing of the live sections. */
  ghost predicate Allowed(p: Package, op: Op) {
    match op
    case OpAdd(_, name, madeUp, _) => CanAdd(p, SidFor(name, madeUp))
    case OpMove(order, _, _, _) => IsListing(p, order)
    case _ => true
  }

  ghost predicate AllowedRun(p: Package, ops: seq<Op>) {
    ops == [] || (AllowedRun(p, ops[..|ops| - 1]) && Allowed(Run(p, ops[..|ops| - 1]), ops[|ops| - 1]))
  }

  function Run(p: Package, ops: seq<Op>): Package {
    if ops == [] then p else Step(Run(p, ops[..|ops| - 1]), ops[|ops| - 1])
  }

  // ---------------------------------------------------------------- the plain table, run by run

  function SheetMove(t: Sheet, moved: Option<seq<string>>): Sheet {
    if moved.None? then t
    else t.(sections := map sid | sid in t.sections ::
      if sid in moved.value then t.sections[sid][".index" := Number(Position(moved.value, sid))] else t.sections[sid])
  }

  function SheetStep(t: Sheet, op: Op): Sheet {
    match op
    case OpAdd(kind, name, madeUp, index) =>
      SheetAdd(t, SidFor(name, madeUp), NewSection(kind, name, SidFor(name, madeUp), index))
    case OpSet(sid, opt, val) => SheetSet(t, sid, opt, val)
    case OpRemove(sid) => SheetRemove(t, sid)
    case OpGet(_, _) => t
    case OpGetSection(_) => t
    case OpMove(order, sid, target, after) => SheetMove(t, Moved(order, sid, target, after))
  }

  function SheetRun(t: Sheet, ops: seq<Op>): Sheet {
    if ops == [] then t else SheetStep(SheetRun(t, ops[..|ops| - 1]), ops[|ops| - 1])
  }

  lemma MoveRefines(p: Package, order: seq<string>, sid: string, target: Option<string>, after: bool)
    requires WellFormed(p) && IsListing(p, order)
    ensures WellFormed(Move(p, order, sid, target, after))
    ensures SheetOf(Move(p, order, sid, target, after)) == SheetMove(SheetOf(p), Moved(order, sid, target, after))
  {
    var moved := Moved(order, sid, target, after);
    if moved.Some? {
      MovedIsLive(p, order, sid, target, after);
      RenumberAllRefines(p, moved.value);
      RenumberedSheet(p, RenumberAll(p, moved.value), moved.value);
    }
  }

  lemma RenumberedSheet(p: Package, q: Package, order: seq<string>)
    requires OnlyIndicesChanged(p, q, order)
    ensures SheetOf(q) == SheetMove(SheetOf(p), Some(order))
  {
    forall s | s in Flat(p) && s in order
      ensures Flat(q)[s] == Flat(p)[s][".index" := Number(Position(order, s))]
    {
      var i := Position(order, s);
      assert order[i] == s;
    }
    assert Flat(q) == SheetMove(SheetOf(p), Some(order)).sections;
  }

  lemma StepRefines(p: Package, op: Op)
    requires WellFormed(p) && Allowed(p, op)
    ensures WellFormed(Step(p, op)) && SheetOf(Step(p, op)) == SheetStep(SheetOf(p), op)
  {
    match op
    case OpAdd(kind, name, madeUp, index) => AddRefines(p, kind, name, madeUp, index);
    case OpSet(sid, opt, val) => SetRefines(p, sid, opt, val);
    case OpRemove(sid) => RemoveRefines(p, sid);
    case OpGet(_, _) =>
    case OpGetSection(sid) => GetSectionRefines(p, sid);
    case OpMove(order, sid, target, after) => MoveRefines(p, order, sid, target, after);
  }

  /** Over every run, the layers together are one plain table with put and delete, and `get` reads it. */
  lemma {:induction false} RunRefines(p: Package, ops: seq<Op>)
    requires WellFormed(p) && AllowedRun(p, ops)
    ensures WellFormed(Run(p, ops)) && SheetOf(Run(p, ops)) == SheetRun(SheetOf(p), ops)
    ensures forall sid, opt :: GetOption(Run(p, ops), sid, opt) == SheetGet(SheetRun(SheetOf(p), ops), sid, opt)
  {
    if ops != [] {
      RunRefines(p, ops[..|ops| - 1]);
      StepRefines(Run(p, ops[..|ops| - 1]), ops[|ops| - 1]);
    }
    forall sid, opt ensures GetOption(Run(p, ops), sid, opt) == SheetGet(SheetRun(SheetOf(p), ops), sid, opt) {
      GetReadsFlat(Run(p, ops), sid, opt);
    }
  }

  ghost predicate Invariant(p: Package, b: Backend) {
    WellFormed(p) && NamesOk(p) && Tracks(p, b)
  }

  /** A freshly loaded snapshot. */
  ghost predicate Loaded(p: Package, b: Backend) {
    && p.values.Some? && p.creates.None? && p.changes.None? && p.deletes.None?
    && p.V().Keys == b.Keys
    && forall sid :: sid in b ==>
         KindIn(p.V()[sid]) == b[sid].kind && Plain(p.V()[sid]) == b[sid].options
  }

  lemma LoadedIsInvariant(p: Package, b: Backend)
    requires Loaded(p, b)
    ensures Invariant(p, b)
  {
    forall sid ensures SlotTracks(SlotAt(p, sid), Lookup(b, sid)) {
      if sid in b {
        forall opt | !Dotted(opt) ensures Lookup(p.V()[sid], opt) == Lookup(b[sid].options, opt) {
          assert Lookup(Plain(p.V()[sid]), opt) == Lookup(p.V()[sid], opt);
        }
        forall opt | opt in b[sid].options ensures !Dotted(opt) {
          assert opt in Plain(p.V()[sid]);
        }
      }
    }
  }

  /** Writing the pending state into the snapshot, with any index, loses track of nothing that is not pending. */
  lemma WashTracks(s: Slot, t: Slot, b: Option<Stored>)
    requires SlotOk(s) && SlotTracks(s, b) && Seen(s).Some? && s.n.None?
    requires t.c == s.c && t.d == s.d && t.n == s.n && t.v.Some?
    requires forall opt :: opt != ".index" ==> Lookup(t.v.value, opt) == Lookup(Seen(s).value, opt)
    ensures SlotTracks(t, b)
    ensures forall opt :: !Dotted(opt) ==> (LostIn(t, b, opt) <==> LostIn(s, b, opt))
  {
    assert Dotted(".index") && Dotted(".type");
    assert Lookup(t.v.value, ".type") == Lookup(Seen(s).value, ".type");
    assert KindIn(t.v.value) == KindIn(s.v.value);
    forall opt | !Dotted(opt) && opt !in s.c.GetOr(map[]) && opt !in SlotUnset(s)
      ensures Lookup(t.v.value, opt) == Lookup(s.v.value, opt)
    {
      assert Lookup(t.v.value, opt) == Lookup(Seen(s).value, opt);
    }
  }

  /** The step that loses an option: a pending change is withdrawn, the snapshot has no such option, the backend has. */
  predicate Loses(s: Slot, b: Option<Stored>, opt: string, val: Option<Value>) {
    && (val.None? || val.value == Text(""))
    && s.n.None? && s.v.Some? && opt in s.c.GetOr(map[]) && opt !in s.v.value
    && b.Some? && opt in b.value.options
  }

  lemma SetTracks(s: Slot, b: Option<Stored>, opt: string, val: Option<Value>)
    requires SlotOk(s) && SlotTracks(s, b) && !Dotted(opt)
    ensures SlotTracks(SetSlot(s, opt, val), b)
    ensures LostIn(SetSlot(s, opt, val), b, opt) && !LostIn(s, b, opt) <==> Loses(s, b, opt, val)
    ensures forall o :: o != opt ==> (LostIn(SetSlot(s, opt, val), b, o) <==> LostIn(s, b, o))
  {
  }

  /** `q` remembers as much as `p`, and no option is lost in one of them only. */
  ghost predicate SameLosses(p: Package, q: Package, b: Backend) {
    && Tracks(q, b) && NamesOk(q)
    && forall sid, opt :: !Dotted(opt) ==> (Lost(q, b, sid, opt) <==> Lost(p, b, sid, opt))
  }

  lemma GetSectionTracks(p: Package, b: Backend, sid: string)
    requires Invariant(p, b)
    ensures SameLosses(p, GetSection(p, sid).0, b)
  {
    var q := GetSection(p, sid).0;
    var s, t := SlotAt(p, sid), SlotAt(q, sid);
    assert SlotOk(s);
    FlatAt(p, sid);
    if s.n.None? && Seen(s).Some? {
      assert t == s.(v := Seen(s));
      WashTracks(s, t, Lookup(b, sid));
    }
    forall other ensures SlotTracks(SlotAt(q, other), Lookup(b, other)) {
      assert SlotTracks(SlotAt(p, other), Lookup(b, other));
      if other != sid { assert SlotAt(q, other) == SlotAt(p, other); }
    }
  }

  lemma RenumberTracks(p: Package, b: Backend, sid: string, index: int)
    requires Invariant(p, b) && sid in Live(p)
    ensures SameLosses(p, Renumber(p, sid, index), b)
  {
    var q := Renumber(p, sid, index);
    var s, t := SlotAt(p, sid), SlotAt(q, sid);
    assert SlotOk(s) && SlotTracks(s, Lookup(b, sid));
    FlatAt(p, sid);
    RenumberSlot(p, sid, index);
    if s.n.None? { WashTracks(s, t, Lookup(b, sid)); }
    forall other ensures SlotTracks(SlotAt(q, other), Lookup(b, other)) {
      assert SlotTracks(SlotAt(p, other), Lookup(b, other));
    }
    RenumberNames(p, sid, index);
  }

  lemma RenumberNames(p: Package, sid: string, index: int)
    requires WellFormed(p) && NamesOk(p) && sid in Live(p)
    ensures NamesOk(Renumber(p, sid, index))
  {
    var q := Renumber(p, sid, index);
    RenumberSlot(p, sid, index);
    forall s | s in q.N() ensures CreateName(q.N()[s]).Some? ==> CreateName(q.N()[s]).value == s {
      assert SlotAt(q, s).n == Some(q.N()[s]);
      if s == sid {
        assert SlotOk(SlotAt(p, s));
        assert CreateName(q.N()[s]) == CreateName(p.N()[s]);
      } else {
        assert SlotAt(p, s) == SlotAt(q, s);
      }
    }
  }

  lemma LossesCompose(p: Package, r: Package, q: Package, b: Backend)
    requires SameLosses(p, r, b) && SameLosses(r, q, b)
    ensures SameLosses(p, q, b)
  {
  }

  lemma {:induction false} RenumberAllTracks(p: Package, b: Backend, order: seq<string>)
    requires Invariant(p, b) && NoDuplicates(order) && forall x :: x in order ==> x in Live(p)
    ensures SameLosses(p, RenumberAll(p, order), b)
  {
    if order != [] {
      var front, last := order[..|order| - 1], order[|order| - 1];
      assert order == front + [last];
      RenumberAllTracks(p, b, front);
      RenumberAllRefines(p, front);
      var r := RenumberAll(p, front);
      assert Live(r) == Flat(r).Keys && Live(p) == Flat(p).Keys;
      RenumberTracks(r, b, last, |front|);
      LossesCompose(p, r, RenumberAll(p, order), b);
    }
  }

  lemma AddTracks(p: Package, b: Backend, kind: string, name: Option<string>, madeUp: string, index: int)
    requires Invariant(p, b) && CanAdd(p, SidFor(name, madeUp))
    ensures SameLosses(p, Add(p, kind, name, madeUp, index), b)
  {
    var sid, q := SidFor(name, madeUp), Add(p, kind, name, madeUp, index);
    forall other ensures SlotTracks(SlotAt(q, other), Lookup(b, other)) {
      assert SlotTracks(SlotAt(p, other), Lookup(b, other));
    }
    assert SlotOk(SlotAt(p, sid));
  }

  lemma RemoveTracks(p: Package, b: Backend, sid: string)
    requires Invariant(p, b)
    ensures Tracks(Remove(p, sid), b) && NamesOk(Remove(p, sid))
    ensures forall s, opt :: Lost(Remove(p, sid), b, s, opt) ==> Lost(p, b, s, opt)
  {
    var q := Remove(p, sid);
    assert SlotOk(SlotAt(p, sid));
    forall other ensures SlotTracks(SlotAt(q, other), Lookup(b, other)) {
      assert SlotTracks(SlotAt(p, other), Lookup(b, other));
    }
  }

  lemma SetKeepsNames(p: Package, sid: string, opt: string, val: Option<Value>)
    requires NamesOk(p)
    ensures NamesOk(Set(p, sid, opt, val))
  {
    if !Dotted(opt) && sid in p.N() {
      assert Dotted(".create");
      assert CreateName(Set(p, sid, opt, val).N()[sid]) == CreateName(p.N()[sid]);
    }
  }

  lemma SetTracksAll(p: Package, b: Backend, sid: string, opt: string, val: Option<Value>)
    requires Invariant(p, b) && !Dotted(opt)
    ensures Tracks(Set(p, sid, opt, val), b)
    ensures forall s, o :: !Dotted(o) && !(s == sid && o == opt) ==>
      (Lost(Set(p, sid, opt, val), b, s, o) <==> Lost(p, b, s, o))
    ensures Lost(Set(p, sid, opt, val), b, sid, opt) && !Lost(p, b, sid, opt) <==>
      Loses(SlotAt(p, sid), Lookup(b, sid), opt, val)
  {
    var q := Set(p, sid, opt, val);
    SetIsLocal(p, sid, opt, val);
    assert SlotOk(SlotAt(p, sid)) && SlotTracks(SlotAt(p, sid), Lookup(b, sid));
    SetTracks(SlotAt(p, sid), Lookup(b, sid), opt, val);
    forall other ensures SlotTracks(SlotAt(q, other), Lookup(b, other)) {
      assert SlotTracks(SlotAt(p, other), Lookup(b, other));
    }
  }

  /** Every allowed step keeps the invariant. */
  lemma StepKeepsInvariant(p: Package, b: Backend, op: Op)
    requires Invariant(p, b) && Allowed(p, op)
    ensures Invariant(Step(p, op), b)
  {
    match op
    case OpAdd(kind, name, madeUp, index) =>
      AddRefines(p, kind, name, madeUp, index);
      AddTracks(p, b, kind, name, madeUp, index);
    case OpSet(sid, opt, val) =>
      SetRefines(p, sid, opt, val);
      SetKeepsNames(p, sid, opt, val);
      if !Dotted(opt) { SetTracksAll(p, b, sid, opt, val); }
    case OpRemove(sid) =>
      RemoveRefines(p, sid);
      RemoveTracks(p, b, sid);
    case OpGet(_, _) =>
    case OpGetSection(sid) =>
      GetSectionRefines(p, sid);
      GetSectionTracks(p, b, sid);
    case OpMove(order, sid, target, after) =>
      MovedOrder(order, sid, target, after);
      var moved := Moved(order, sid, target, after);
      if moved.Some? {
        RenumberAllRefines(p, moved.value);
        RenumberAllTracks(p, b, moved.value);
      }
  }

  /** A step loses an option exactly when it withdraws a pending change the way `Loses` says. */
  lemma StepLoses(p: Package, b: Backend, op: Op, sid: string, opt: string)
    requires Invariant(p, b) && Allowed(p, op) && !Dotted(opt)
    ensures Lost(Step(p, op), b, sid, opt) && !Lost(p, b, sid, opt) <==>
      op.OpSet? && op.sid == sid && op.opt == opt && Loses(SlotAt(p, sid), Lookup(b, sid), opt, op.val)
  {
    match op
    case OpAdd(kind, name, madeUp, index) => AddTracks(p, b, kind, name, madeUp, index);
    case OpSet(s, o, val) => if !Dotted(o) { SetTracksAll(p, b, s, o, val); }
    case OpRemove(s) => RemoveTracks(p, b, s);
    case OpGet(_, _) =>
    case OpGetSection(s) => GetSectionTracks(p, b, s);
    case OpMove(order, s, target, after) =>
      MovedOrder(order, s, target, after);
      var moved := Moved(order, s, target, after);
      if moved.Some? { RenumberAllTracks(p, b, moved.value); }
  }

  lemma {:induction false} RunKeepsInvariant(p: Package, b: Backend, ops: seq<Op>)
    requires Loaded(p, b) && AllowedRun(p, ops)
    ensures Invariant(Run(p, ops), b)
  {
    if ops == [] {
      LoadedIsInvariant(p, b);
    } else {
      RunKeepsInvariant(p, b, ops[..|ops| - 1]);
      StepKeepsInvariant(Run(p, ops[..|ops| - 1]), b, ops[|ops| - 1]);
    }
  }

  /** As long as nothing is written into the snapshot, it equals the backend. */
  lemma {:induction false} SnapshotIsPristine(p: Package, ops: seq<Op>)
    requires forall op :: op in ops ==> !op.OpGetSection? && !op.OpMove?
    ensures Run(p, ops).values == p.values
  {
    if ops != [] {
      SnapshotIsPristine(p, ops[..|ops| - 1]);
      assert ops[|ops| - 1] in ops;
    }
  }

  /**
   The run theorem: load, do anything that neither fetches a whole section nor moves
   one, and save. The backend ends up with exactly the sections and options that the
   store was showing.
   */
  lemma RunThenSave(b: Backend, p: Package, ops: seq<Op>, ds: seq<string>, ns: seq<string>,
                    names: map<string, string>, cs: seq<string>)
    requires Loaded(p, b) && AllowedRun(p, ops)
    requires forall op :: op in ops ==> !op.OpGetSection? && !op.OpMove?
    requires IsBatch(Run(p, ops), b, ds, ns, names, cs)
    ensures var q := Run(p, ops);
      var after := Saved(b, q, ds, ns, names, cs);
      && after.Keys == (set sid | sid in Live(q) :: Final(q, names, sid))
      && (forall sid, opt :: sid in Live(q) && !Dotted(opt) ==>
            Lookup(after[Final(q, names, sid)].options, opt) == GetOption(q, sid, opt))
  {
    var q := Run(p, ops);
    RunKeepsInvariant(p, b, ops);
    SnapshotIsPristine(p, ops);
    SaveFidelity(b, q, ds, ns, names, cs);
    forall sid, opt | sid in Live(q) && !Dotted(opt) ensures !Lost(q, b, sid, opt) {
      if sid in b && sid in q.V() && opt in b[sid].options {
        assert Plain(p.V()[sid]) == b[sid].options;
        assert opt in Plain(p.V()[sid]);
      }
    }
  }

  /**
   The losing run, for every loaded option: unset it, fetch its section, set it again
   and unset it again. The store shows no such option, and nothing is left pending
   for the section, so `save` makes no call about it.
   */
  lemma WholeGetLosesDelete(b: Backend, p: Package, sid: string, opt: string, val: Value)
    requires Loaded(p, b) && sid in b && opt in b[sid].options && val != Text("")
    ensures var p1 := Step(p, OpSet(sid, opt, None));
      var p2 := Step(p1, OpGetSection(sid));
      var p3 := Step(p2, OpSet(sid, opt, Some(val)));
      var p4 := Step(p3, OpSet(sid, opt, None));
      && GetOption(p4, sid, opt) == None
      && sid !in p4.C() && sid !in p4.D() && sid !in p4.N()
      && Lost(p4, b, sid, opt)
  {
    LoadedIsInvariant(p, b);
    assert SlotTracks(SlotAt(p, sid), Lookup(b, sid));
    assert Lookup(Plain(p.V()[sid]), opt) == Some(b[sid].options[opt]);
    var unset, again := OpSet(sid, opt, None), OpSet(sid, opt, Some(val));
    var p1 := Step(p, unset);
    SetIsLocal(p, sid, opt, None);
    var none: set<string> := {};
    assert none + {opt} == {opt};
    var s1 := Slot(Some(p.V()[sid]), None, None, Some(Options({opt})));
    assert SlotAt(p1, sid) == s1;
    var p2 := Step(p1, OpGetSection(sid));
    var s2 := s1.(v := Some(Washed(p1, sid)));
    assert SlotAt(p2, sid) == s2 && opt !in s2.v.value;
    var p3 := Step(p2, again);
    SetIsLocal(p2, sid, opt, Some(val));
    assert {opt} - {opt} == none;
    var s3 := Slot(s2.v, None, Some(map[opt := val]), None);
    assert SlotAt(p3, sid) == s3;
    SetIsLocal(p3, sid, opt, None);
    assert map[opt := val].Keys - {opt} == {};
    assert SlotAt(Step(p3, unset), sid) == Slot(s2.v, None, None, None);
  }

  lemma {:induction false} RenumberingKeepsDeletes(p: Package, order: seq<string>)
    ensures RenumberAll(p, order).deletes == p.deletes
  {
    if order != [] {
      RenumberingKeepsDeletes(p, order[..|order| - 1]);
    }
  }

  /**
   The run that is not reordered, for every loaded option: unset it and set it again. What
   is left is an empty deletion table. A section that is moved then is listed in its new
   place, but `reorderSections` sends no order.
   */
  lemma EmptyDeletionsBlockReorder(b: Backend, p: Package, sid: string, opt: string, val: Value,
                                   order: seq<string>, moving: string, target: Option<string>, after: bool)
    requires Loaded(p, b) && sid in b && opt in b[sid].options && val != Text("")
    ensures var q := Step(Step(p, OpSet(sid, opt, None)), OpSet(sid, opt, Some(val)));
      var moved := Moved(order, moving, target, after);
      var r := Step(q, OpMove(order, moving, target, after));
      && q.deletes == Some(map[])
      && (IsListing(q, order) && moved.Some? ==> IsListing(r, moved.value))
      && (forall sent :: !SendsOrder(r, sent))
  {
    LoadedIsInvariant(p, b);
    assert SlotTracks(SlotAt(p, sid), Lookup(b, sid));
    assert Lookup(Plain(p.V()[sid]), opt) == Some(b[sid].options[opt]);
    var p1 := Step(p, OpSet(sid, opt, None));
    var q := Step(p1, OpSet(sid, opt, Some(val)));
    var none: set<string> := {};
    assert none + {opt} == {opt} && {opt} - {opt} == none;
    assert p1.D() == map[sid := Options({opt})];
    assert q.D() == map[];
    StepKeepsInvariant(p, b, OpSet(sid, opt, None));
    StepKeepsInvariant(p1, b, OpSet(sid, opt, Some(val)));
    if IsListing(q, order) {
      MoveReorders(q, order, moving, target, after);
    }
    if Moved(order, moving, target, after).Some? {
      RenumberingKeepsDeletes(q, Moved(order, moving, target, after).value);
    }
  }
}
