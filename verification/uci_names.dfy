/** The calls for created sections, told from the history of a run alone. */
module UciNames {
  import opened Base
  import opened UciModel
  import opened UciOrder
  import opened UciSave

  /** The section that an `add` creates: the one asked for, or the made-up one. */
  function Created(op: Op): string
    requires op.OpAdd?
  {
    match op.name
    case Some(name) => if name == "" then op.madeUp else name
    case None => op.madeUp
  }

  /** The `add` that created the section, when it was not removed since. */
  function Creation(ops: seq<Op>, sid: string): Option<Op> {
    if ops == [] then None
    else
      var front, last := ops[..|ops| - 1], ops[|ops| - 1];
      if last.OpAdd? && Created(last) == sid then Some(last)
      else if last.OpRemove? && last.sid == sid then None
      else Creation(front, sid)
  }

  /** The name that is asked of the backend: none for a section that was added without one. */
  function Asked(op: Op): Option<string>
    requires op.OpAdd?
  {
    if op.name == Some("") then None else op.name
  }

  /** The section is as the `add` made it, as far as its call goes. */
  predicate MadeBy(s: Section, op: Op) {
    && op.OpAdd? && KindIn(s) == op.kind && CreateName(s) == Asked(op)
  }

  predicate AreMade(p: Package, ops: seq<Op>) {
    && (forall sid :: sid in p.N() ==> Creation(ops, sid).Some? && MadeBy(p.N()[sid], Creation(ops, sid).value))
  }

  ghost predicate History(p: Package, ops: seq<Op>) {
    AreMade(p, ops) && forall sid :: Creation(ops, sid).Some? ==> sid in p.N()
  }

  lemma CreationSnoc(ops: seq<Op>, op: Op, sid: string)
    ensures Creation(ops + [op], sid) ==
      if op.OpAdd? && Created(op) == sid then Some(op)
      else if op.OpRemove? && op.sid == sid then None
      else Creation(ops, sid)
  {
    assert (ops + [op])[..|ops|] == ops;
  }

  lemma NewIsMade(op: Op)
    requires op.OpAdd?
    ensures MadeBy(NewSection(op.kind, op.name, SidFor(op.name, op.madeUp), op.index), op)
    ensures SidFor(op.name, op.madeUp) == Created(op)
  {
  }

  lemma PutKeepsMade(s: Section, opt: string, val: Option<Value>, op: Op)
    requires MadeBy(s, op) && opt != ".type" && opt != ".create"
    ensures MadeBy(Put(s, opt, val), op)
  {
  }

  lemma {:induction false} RenumberedIsMade(p: Package, order: seq<string>, sid: string, op: Op)
    requires WellFormed(p) && NoDuplicates(order) && forall x :: x in order ==> x in Live(p)
    ensures RenumberAll(p, order).N().Keys == p.N().Keys
    ensures sid in p.N() && MadeBy(p.N()[sid], op) ==> MadeBy(RenumberAll(p, order).N()[sid], op)
  {
    if order != [] {
      var front, last := order[..|order| - 1], order[|order| - 1];
      assert order == front + [last];
      RenumberedIsMade(p, front, sid, op);
      RenumberAllRefines(p, front);
      var r := RenumberAll(p, front);
      assert Live(r) == Flat(r).Keys && Live(p) == Flat(p).Keys;
      OneIsMade(r, last, |front|, sid, op);
    }
  }

  lemma OneIsMade(p: Package, last: string, index: int, sid: string, op: Op)
    requires WellFormed(p) && last in Live(p)
    ensures Renumber(p, last, index).N().Keys == p.N().Keys
    ensures sid in p.N() && MadeBy(p.N()[sid], op) ==> MadeBy(Renumber(p, last, index).N()[sid], op)
  {
    if sid in p.N() && sid == last && MadeBy(p.N()[sid], op) {
      PutKeepsMade(p.N()[sid], ".index", Some(Number(index)), op);
    }
  }

  lemma StepKeepsHistory(p: Package, ops: seq<Op>, op: Op)
    requires WellFormed(p) && Allowed(p, op) && History(p, ops)
    ensures History(Step(p, op), ops + [op])
  {
    var q := Step(p, op);
    forall sid
      ensures sid in q.N() <==> Creation(ops + [op], sid).Some?
      ensures sid in q.N() ==> MadeBy(q.N()[sid], Creation(ops + [op], sid).value)
    {
      CreationSnoc(ops, op, sid);
      match op
      case OpAdd(_, _, _, _) => NewIsMade(op);
      case OpSet(s, opt, val) =>
        if !Dotted(opt) && s == sid && sid in p.N() {
          assert Dotted(".type") && Dotted(".create");
          PutKeepsMade(p.N()[sid], opt, val, Creation(ops, sid).value);
        }
      case OpMove(order, s, target, after) =>
        MovedOrder(order, s, target, after);
        var moved := Moved(order, s, target, after);
        if moved.Some? {
          MovedIsLive(p, order, s, target, after);
          RenumberedIsMade(p, moved.value, sid, Creation(ops, sid).GetOr(op));
        }
      case _ =>
    }
  }

  lemma {:induction false} RunKeepsHistory(p: Package, b: Backend, ops: seq<Op>)
    requires Loaded(p, b) && AllowedRun(p, ops)
    ensures History(Run(p, ops), ops)
  {
    if ops != [] {
      var front, last := ops[..|ops| - 1], ops[|ops| - 1];
      RunKeepsHistory(p, b, front);
      RunKeepsInvariant(p, b, front);
      StepKeepsHistory(Run(p, front), front, last);
      assert ops == front + [last];
    }
  }

  /**
   After any run, `save` adds exactly the sections that were added and not removed since,
   each with the type it was added with; one that was added under a name is asked for under
   that name, and one that was added without a name is left for the backend to name.
   */
  lemma AddsAreAsked(p: Package, b: Backend, ops: seq<Op>, sid: string)
    requires Loaded(p, b) && AllowedRun(p, ops)
    ensures var q := Run(p, ops);
      && (sid in q.N() <==> Creation(ops, sid).Some?)
      && (sid in q.N() ==>
            var op, call := Creation(ops, sid).value, AddCall(q, sid);
            && op.OpAdd? && Created(op) == sid && call.kind == op.kind
            && (op.name.Some? && op.name.value != "" ==> call.name == Some(sid))
            && (op.name.None? || op.name.value == "" ==> call.name.None?)
            && forall opt :: Lookup(call.values, opt) == if Dotted(opt) then None else GetOption(q, sid, opt))
  {
    RunKeepsHistory(p, b, ops);
    CreationIsItsOwn(ops, sid);
  }

  lemma {:induction false} CreationIsItsOwn(ops: seq<Op>, sid: string)
    ensures Creation(ops, sid).Some? ==> Creation(ops, sid).value.OpAdd? && Created(Creation(ops, sid).value) == sid
  {
    if ops != [] {
      CreationIsItsOwn(ops[..|ops| - 1], sid);
    }
  }

  /** After the batch a section that was added under a name is there under that name, with its type. */
  lemma NamedIsSaved(b: Backend, p: Package, ops: seq<Op>, ds: seq<string>, ns: seq<string>, names: map<string, string>,
                     cs: seq<string>, op: Op, name: string)
    requires Loaded(p, b) && AllowedRun(p, ops) && IsBatch(Run(p, ops), b, ds, ns, names, cs)
    requires name != "" && Creation(ops, name) == Some(op) && op.OpAdd? && op.name == Some(name)
    ensures var after := Saved(b, Run(p, ops), ds, ns, names, cs);
      name in after && after[name].kind == op.kind
  {
    var q := Run(p, ops);
    AddsAreAsked(p, b, ops, name);
    RunKeepsInvariant(p, b, ops);
    SaveFidelity(b, q, ds, ns, names, cs);
    assert name in Live(q) && Final(q, names, name) == name;
    CreatedSectionSaved(b, q, ds, ns, names, cs, name);
  }

  // ---------------------------------------------------------------- options

  /** Options that start with a dot are the store's own: `set` leaves them. All others are read as they were set. */
  lemma OptionsAreSet(p: Package, sid: string, opt: string, val: Value)
    requires WellFormed(p)
    ensures Step(p, OpSet(sid, "." + opt, Some(val))) == p
    ensures sid in Live(p) && (opt == "" || opt[0] != '.') && val != Text("") ==>
      GetOption(Step(p, OpSet(sid, opt, Some(val))), sid, opt) == Some(val)
  {
    assert SlotOk(SlotAt(p, sid));
    assert Dotted("." + opt);
  }

  /** What is read of a section that was just added. */
  lemma AddReads(p: Package, kind: string, name: Option<string>, madeUp: string, index: int)
    ensures var op := OpAdd(kind, name, madeUp, index);
      var q, sid := Step(p, op), Created(op);
      && GetOption(q, sid, ".type") == Some(Text(kind)) && GetOption(q, sid, ".name") == Some(Text(sid))
      && GetOption(q, sid, ".index") == Some(Number(index))
      && GetOption(q, sid, ".anonymous") == Some(Flag(name.None? || name.value == ""))
      && forall opt :: !Dotted(opt) ==> GetOption(q, sid, opt).None?
  {
  }
}
