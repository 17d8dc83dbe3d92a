/** The order that is sent after a save, over whole runs. */
module UciSent {
  import opened Base
  import opened UciModel
  import opened UciOrder
  import opened UciSave

  predicate Calls(s: Section, name: string) {
    Lookup(s, ".name") == Some(Text(name))
  }

  /** The package is loaded, and its sections carry the names they are kept under. */
  predicate OwnNames(p: Package) {
    && p.values.Some?
    && (forall sid :: sid in p.V() ==> Calls(p.V()[sid], sid))
    && (forall sid :: sid in p.N() ==> Calls(p.N()[sid], sid))
  }

  /** The replies of the backend taken as names of the created sections. */
  function Replied(p: Package, names: map<string, string>): Package
    requires names.Keys == p.N().Keys
  {
    if p.creates.None? then p
    else p.(creates := Some(map sid | sid in p.N() :: p.N()[sid][".name" := Text(names[sid])]))
  }

  lemma GetKeepsNames(p: Package, sid: string)
    requires WellFormed(p) && OwnNames(p)
    ensures OwnNames(GetSection(p, sid).0)
  {
    if sid in p.V() && sid !in p.N() && !Gone(p, sid) {
      assert SlotOk(SlotAt(p, sid)) && Dotted(".name");
      assert Calls(Washed(p, sid), sid);
    }
  }

  lemma OneKeepsNames(p: Package, sid: string, index: int)
    requires WellFormed(p) && OwnNames(p)
    ensures OwnNames(Renumber(p, sid, index))
  {
    GetKeepsNames(p, sid);
    var q := GetSection(p, sid).0;
    if sid in q.N() {
      CreatedKeepsNames(q, sid, q.N()[sid][".index" := Number(index)]);
    } else if sid in q.V() {
      var r := Renumber(p, sid, index);
      assert r.V() == q.V()[sid := q.V()[sid][".index" := Number(index)]];
    }
  }

  lemma CreatedKeepsNames(p: Package, sid: string, s: Section)
    requires OwnNames(p) && Calls(s, sid)
    ensures OwnNames(p.(creates := Some(p.N()[sid := s])))
  {
    var q := p.(creates := Some(p.N()[sid := s]));
    assert q.V() == p.V();
    forall t | t in q.N() ensures Calls(q.N()[t], t) {
      assert q.N()[t] == if t == sid then s else p.N()[t];
    }
  }

  lemma PutKeepsName(s: Section, opt: string, val: Option<Value>, sid: string)
    requires Calls(s, sid) && opt != ".name"
    ensures Calls(Put(s, opt, val), sid)
  {
  }

  lemma {:induction false} RenumberKeepsNames(p: Package, order: seq<string>)
    requires WellFormed(p) && OwnNames(p) && NoDuplicates(order) && forall x :: x in order ==> x in Live(p)
    ensures OwnNames(RenumberAll(p, order))
  {
    if order != [] {
      var front, last := order[..|order| - 1], order[|order| - 1];
      assert order == front + [last];
      RenumberKeepsNames(p, front);
      RenumberAllRefines(p, front);
      OneKeepsNames(RenumberAll(p, front), last, |front|);
    }
  }

  lemma StepKeepsNames(p: Package, op: Op)
    requires WellFormed(p) && Allowed(p, op) && OwnNames(p)
    ensures OwnNames(Step(p, op))
  {
    match op
    case OpAdd(kind, name, madeUp, index) =>
      var sid := SidFor(name, madeUp);
      CreatedKeepsNames(p, sid, NewSection(kind, name, sid, index));
    case OpSet(sid, opt, val) =>
      if !Dotted(opt) && sid in p.N() {
        assert Dotted(".name");
        PutKeepsName(p.N()[sid], opt, val, sid);
        CreatedKeepsNames(p, sid, Put(p.N()[sid], opt, val));
      }
    case OpRemove(sid) =>
      var q := Remove(p, sid);
      assert q.V() == p.V();
      forall t | t in q.N() ensures Calls(q.N()[t], t) {
        assert q.N()[t] == p.N()[t];
      }
    case OpGetSection(sid) => GetKeepsNames(p, sid);
    case OpMove(order, sid, target, after) =>
      MovedOrder(order, sid, target, after);
      var moved := Moved(order, sid, target, after);
      if moved.Some? {
        MovedIsLive(p, order, sid, target, after);
        RenumberKeepsNames(p, moved.value);
      }
    case _ =>
  }

  lemma {:induction false} RunKeepsNames(b: Backend, p: Package, ops: seq<Op>)
    requires Loaded(p, b) && AllowedRun(p, ops) && OwnNames(p)
    ensures OwnNames(Run(p, ops))
  {
    if ops != [] {
      var front := ops[..|ops| - 1];
      RunKeepsNames(b, p, front);
      RunKeepsInvariant(p, b, front);
      StepKeepsNames(Run(p, front), ops[|ops| - 1]);
    }
  }

  /** The names say nothing about the order, and the final names are sent. */
  lemma RepliedOrder(p: Package, names: map<string, string>, order: seq<string>)
    requires WellFormed(p) && OwnNames(p) && names.Keys == p.N().Keys
    requires IsOrderCall(Replied(p, names), order)
    ensures IsOrderCall(p, order)
    ensures forall sid :: sid in order ==> Calls(Raw(Replied(p, names), sid), Final(p, names, sid))
  {
    var r := Replied(p, names);
    forall sid | sid in p.N().Keys + p.V().Keys
      ensures IndexIn(Raw(r, sid)) == IndexIn(Raw(p, sid)) && Calls(Raw(r, sid), Final(p, names, sid))
    {
      if sid in p.N() {
        assert r.N()[sid] == p.N()[sid][".name" := Text(names[sid])];
      }
    }
    assert forall i :: 0 <= i < |order| ==> order[i] in order;
  }

  /**
   What is sent for a moved package after any run and the batch: the sections in the order
   `sections` lists them, each under the name it has in the backend by then, and all of them.
   */
  lemma OrderIsSent(b: Backend, p: Package, ops: seq<Op>, ds: seq<string>, ns: seq<string>,
                    names: map<string, string>, cs: seq<string>, sent: seq<string>)
    requires Loaded(p, b) && AllowedRun(p, ops) && OwnNames(p)
    requires IsBatch(Run(p, ops), b, ds, ns, names, cs) && SendsOrder(Replied(Run(p, ops), names), sent)
    ensures var q := Run(p, ops);
      && Enumerates(sent, Saved(b, q, ds, ns, names, cs).Keys)
      && exists order :: IsListing(q, order) && |sent| == |order| &&
           forall i :: 0 <= i < |order| ==> sent[i] == Final(q, names, order[i])
  {
    var q := Run(p, ops);
    RunKeepsNames(b, p, ops);
    RunKeepsInvariant(p, b, ops);
    SaveFidelity(b, q, ds, ns, names, cs);
    var order := SentOrder(q, names, sent);
    SentAll(q, names, order, sent);
  }

  lemma SentOrder(q: Package, names: map<string, string>, sent: seq<string>) returns (order: seq<string>)
    requires WellFormed(q) && OwnNames(q) && names.Keys == q.N().Keys && SendsOrder(Replied(q, names), sent)
    ensures IsListing(q, order) && |sent| == |order|
    ensures forall i :: 0 <= i < |order| ==> sent[i] == Final(q, names, order[i])
  {
    var r := Replied(q, names);
    order :| IsOrderCall(r, order) && SentAs(r, order, sent);
    RepliedOrder(q, names, order);
    OrderCallMatchesListing(q, order);
    FinalNames(q, names, order, sent);
  }

  predicate SentAs(r: Package, order: seq<string>, sent: seq<string>) {
    |sent| == |order| && forall i :: 0 <= i < |order| ==> sent[i] == NameIn(Raw(r, order[i]))
  }

  lemma FinalNames(q: Package, names: map<string, string>, order: seq<string>, sent: seq<string>)
    requires names.Keys == q.N().Keys && SentAs(Replied(q, names), order, sent)
    requires forall sid :: sid in order ==> Calls(Raw(Replied(q, names), sid), Final(q, names, sid))
    ensures forall i :: 0 <= i < |order| ==> sent[i] == Final(q, names, order[i])
  {
    forall i | 0 <= i < |order| ensures sent[i] == Final(q, names, order[i]) {
      assert order[i] in order;
    }
  }

  lemma SentAll(q: Package, names: map<string, string>, order: seq<string>, sent: seq<string>)
    requires Enumerates(order, Live(q)) && |sent| == |order|
    requires forall i :: 0 <= i < |order| ==> sent[i] == Final(q, names, order[i])
    requires forall s, t :: s in Live(q) && t in Live(q) && s != t ==> Final(q, names, s) != Final(q, names, t)
    ensures Enumerates(sent, set sid | sid in Live(q) :: Final(q, names, sid))
  {
    forall i, j | 0 <= i < j < |sent| ensures sent[i] != sent[j] {
      assert order[i] in order && order[j] in order;
    }
    forall sid | sid in Live(q) ensures Final(q, names, sid) in sent {
      var i :| 0 <= i < |order| && order[i] == sid;
      assert sent[i] == Final(q, names, sid);
    }
    forall t | t in sent ensures exists sid :: sid in Live(q) && Final(q, names, sid) == t {
      var i :| 0 <= i < |sent| && sent[i] == t;
      assert order[i] in order;
    }
  }
}
