/** The batch of `save` over all packages, seen from one package. */
module UciBatch {
  import opened Base
  import opened UciModel
  import opened UciSave

  /** A call, and the package it is about. */
  type Call = (string, Command)

  /** The names of one package among (package, section) pairs. */
  function Only(ps: seq<(string, string)>, conf: string): seq<string> {
    if ps == [] then []
    else Only(ps[..|ps| - 1], conf) + if ps[|ps| - 1].0 == conf then [ps[|ps| - 1].1] else []
  }

  /** The calls of one `save`: all deletes, then all adds, then all sets. */
  datatype Batch = Batch(dels: seq<Call>, adds: seq<Call>, sets: seq<Call>)
  {
    function Calls(): seq<Call> { dels + adds + sets }
  }

  /** The calls for the deletions `ds`; those of other packages are not looked at. */
  ghost predicate DeleteCalls(p: Package, conf: string, ds: seq<(string, string)>, calls: seq<Call>) {
    && |calls| == |ds|
    && (forall i :: 0 <= i < |ds| ==> calls[i].0 == ds[i].0)
    && (forall i :: 0 <= i < |ds| && ds[i].0 == conf ==> ds[i].1 in p.D() && calls[i].1 == DeleteCall(p, ds[i].1))
  }

  /** The calls for the created sections `ns`. */
  ghost predicate AddCalls(p: Package, conf: string, ns: seq<(string, string)>, calls: seq<Call>) {
    && |calls| == |ns|
    && (forall i :: 0 <= i < |ns| ==> calls[i].0 == ns[i].0)
    && (forall i :: 0 <= i < |ns| && ns[i].0 == conf ==> ns[i].1 in p.N() && calls[i].1 == AddCall(p, ns[i].1))
  }

  /** The calls for the change sets `cs`. */
  ghost predicate SetCalls(p: Package, conf: string, cs: seq<(string, string)>, calls: seq<Call>) {
    && |calls| == |cs|
    && (forall i :: 0 <= i < |cs| ==> calls[i].0 == cs[i].0)
    && (forall i :: 0 <= i < |cs| && cs[i].0 == conf ==> cs[i].1 in p.C() && calls[i].1 == SetCall(p, cs[i].1))
  }

  /** `ps` lists the sections `sids` of the package once each. */
  ghost predicate ListsOf(ps: seq<(string, string)>, conf: string, sids: set<string>) {
    NoDuplicates(ps) && forall sid :: (conf, sid) in ps <==> sid in sids
  }

  /** The calls executed in order, as far as they concern the package; `replies` answers each of them. */
  function Replay(conf: string, b: Backend, calls: seq<Call>, replies: seq<string>): Backend
    requires |replies| == |calls|
  {
    if calls == [] then b
    else
      var n := |calls| - 1;
      var before := Replay(conf, b, calls[..n], replies[..n]);
      if calls[n].0 == conf then Exec(before, calls[n].1, replies[n]) else before
  }

  lemma {:induction false} ReplayAppend(conf: string, b: Backend, x: seq<Call>, y: seq<Call>, rx: seq<string>,
                                        ry: seq<string>)
    requires |x| == |rx| && |y| == |ry|
    ensures Replay(conf, b, x + y, rx + ry) == Replay(conf, Replay(conf, b, x, rx), y, ry)
    decreases |y|
  {
    if y == [] {
      assert x + y == x && rx + ry == rx;
    } else {
      var n := |y| - 1;
      ReplayAppend(conf, b, x, y[..n], rx, ry[..n]);
      assert (x + y)[..|x + y| - 1] == x + y[..n] && (rx + ry)[..|rx + ry| - 1] == rx + ry[..n];
    }
  }

  lemma {:induction false} OnlyLists(ps: seq<(string, string)>, conf: string)
    requires NoDuplicates(ps)
    ensures NoDuplicates(Only(ps, conf))
    ensures forall sid :: sid in Only(ps, conf) <==> (conf, sid) in ps
  {
    if ps != [] {
      var front, last := ps[..|ps| - 1], ps[|ps| - 1];
      assert ps == front + [last];
      OnlyLists(front, conf);
      assert last !in front;
    }
  }

  lemma OnlySnoc(ps: seq<(string, string)>, conf: string)
    requires ps != []
    ensures var front := Only(ps[..|ps| - 1], conf);
      var last := ps[|ps| - 1];
      if last.0 != conf then Only(ps, conf) == front
      else Only(ps, conf) != [] && Only(ps, conf)[..|Only(ps, conf)| - 1] == front
           && Only(ps, conf)[|Only(ps, conf)| - 1] == last.1
           && forall x :: x in Only(ps, conf) <==> x in front || x == last.1
  {
    var front, last := Only(ps[..|ps| - 1], conf), ps[|ps| - 1];
    if last.0 == conf { assert (front + [last.1])[..|front|] == front; }
  }

  lemma {:induction false} ReplayDeletes(conf: string, b: Backend, p: Package, ds: seq<(string, string)>,
                                         calls: seq<Call>, replies: seq<string>)
    requires DeleteCalls(p, conf, ds, calls) && |replies| == |calls|
    ensures forall sid :: sid in Only(ds, conf) ==> sid in p.D()
    ensures Replay(conf, b, calls, replies) == AfterDeletes(b, p, Only(ds, conf))
  {
    if ds != [] {
      var n := |ds| - 1;
      ReplayDeletes(conf, b, p, ds[..n], calls[..n], replies[..n]);
      OnlySnoc(ds, conf);
    }
  }

  lemma {:induction false} ReplayAdds(conf: string, b: Backend, p: Package, ns: seq<(string, string)>,
                                      calls: seq<Call>, replies: seq<string>, names: map<string, string>)
    requires AddCalls(p, conf, ns, calls) && |replies| == |calls| && names.Keys == p.N().Keys
    requires forall i :: 0 <= i < |ns| && ns[i].0 == conf ==> replies[i] == names[ns[i].1]
    ensures forall sid :: sid in Only(ns, conf) ==> sid in p.N()
    ensures Replay(conf, b, calls, replies) == AfterAdds(b, p, Only(ns, conf), names)
  {
    if ns != [] {
      var n := |ns| - 1;
      ReplayAdds(conf, b, p, ns[..n], calls[..n], replies[..n], names);
      OnlySnoc(ns, conf);
    }
  }

  lemma {:induction false} ReplaySets(conf: string, b: Backend, p: Package, cs: seq<(string, string)>,
                                      calls: seq<Call>, replies: seq<string>)
    requires SetCalls(p, conf, cs, calls) && |replies| == |calls|
    ensures forall sid :: sid in Only(cs, conf) ==> sid in p.C()
    ensures Replay(conf, b, calls, replies) == AfterSets(b, p, Only(cs, conf))
  {
    if cs != [] {
      var n := |cs| - 1;
      ReplaySets(conf, b, p, cs[..n], calls[..n], replies[..n]);
      OnlySnoc(cs, conf);
    }
  }

  lemma ReplayParts(conf: string, b: Backend, batch: Batch, r1: seq<string>, r2: seq<string>, r3: seq<string>)
    requires |r1| == |batch.dels| && |r2| == |batch.adds| && |r3| == |batch.sets|
    ensures Replay(conf, b, batch.Calls(), r1 + r2 + r3) ==
      Replay(conf, Replay(conf, Replay(conf, b, batch.dels, r1), batch.adds, r2), batch.sets, r3)
  {
    ReplayAppend(conf, b, batch.dels, batch.adds, r1, r2);
    ReplayAppend(conf, b, batch.dels + batch.adds, batch.sets, r1 + r2, r3);
  }

  /**
   The interleaved batch has on every package the effect of that package's own calls:
   `SaveFidelity` applies to it. The backend answers the adds with `names`; what it
   answers the other calls does not matter.
   */
  lemma BatchIsPerPackage(conf: string, b: Backend, p: Package, ds: seq<(string, string)>, ns: seq<(string, string)>,
                          cs: seq<(string, string)>, batch: Batch, r1: seq<string>, r2: seq<string>, r3: seq<string>,
                          names: map<string, string>)
    requires DeleteCalls(p, conf, ds, batch.dels) && AddCalls(p, conf, ns, batch.adds) &&
      SetCalls(p, conf, cs, batch.sets)
    requires ListsOf(ds, conf, p.D().Keys) && ListsOf(ns, conf, p.N().Keys) && ListsOf(cs, conf, p.C().Keys)
    requires |r1| == |batch.dels| && |r2| == |batch.adds| && |r3| == |batch.sets|
    requires GoodNames(p, b, names) && forall i :: 0 <= i < |ns| && ns[i].0 == conf ==> r2[i] == names[ns[i].1]
    ensures IsBatch(p, b, Only(ds, conf), Only(ns, conf), names, Only(cs, conf))
    ensures Replay(conf, b, batch.Calls(), r1 + r2 + r3) ==
      Saved(b, p, Only(ds, conf), Only(ns, conf), names, Only(cs, conf))
  {
    OnlyLists(ds, conf);
    OnlyLists(ns, conf);
    OnlyLists(cs, conf);
    ReplayDeletes(conf, b, p, ds, batch.dels, r1);
    var b1 := Replay(conf, b, batch.dels, r1);
    ReplayAdds(conf, b1, p, ns, batch.adds, r2, names);
    var b2 := Replay(conf, b1, batch.adds, r2);
    ReplaySets(conf, b2, p, cs, batch.sets, r3);
    ReplayParts(conf, b, batch, r1, r2, r3);
  }
}
