/** The store object of `uci.js`, with its five tables updated in place. */
module UciStore {
  import opened Base
  import opened UciModel
  import opened UciBatch
  import opened UciOrder
  import opened UciSave

  class Store {
    var newidx: nat
    var values: map<string, map<string, Section>>
    var creates: map<string, map<string, Section>>
    var changes: map<string, map<string, Section>>
    var deletes: map<string, map<string, Deletion>>
    var reorder: set<string>

    constructor ()
      ensures newidx == 0 && reorder == {}
      ensures forall conf :: Pkg(conf) == Package(None, None, None, None)
    {
      newidx, values, creates, changes, deletes, reorder := 0, map[], map[], map[], map[], {};
    }

    /** The part of the five tables that belongs to one configuration package. */
    ghost function Pkg(conf: string): Package
      reads this
    {
      Package(Lookup(values, conf), Lookup(creates, conf), Lookup(changes, conf), Lookup(deletes, conf))
    }

    /** Only the package `conf` may have changed, to `q`. */
    twostate predicate Became(conf: string, q: Package)
      reads this
    {
      && Pkg(conf) == q
      && forall c :: c != conf ==> Pkg(c) == old(Pkg(c))
    }

    /** Loads the backend's answer for a package. */
    method Load(conf: string, answer: map<string, Section>)
      modifies `values
      ensures Became(conf, old(Pkg(conf)).(values := Some(if conf in old(values) then old(values)[conf] else answer)))
    {
      if conf !in values {
        values := values[conf := answer];
      }
    }

    method Unload(conf: string)
      modifies `values, `creates, `changes, `deletes
      ensures Became(conf, Package(None, None, None, None))
    {
      values := values - {conf};
      creates := creates - {conf};
      changes := changes - {conf};
      deletes := deletes - {conf};
    }

    /** `madeUp` is the random name of `createSID`, which draws until it finds one not in use. */
    method Add(conf: string, kind: string, name: Option<string>, madeUp: string) returns (sid: string)
      requires name.GetOr("") == "" ==> madeUp !in Inner(creates, conf) && madeUp !in Inner(values, conf)
      modifies `creates, `newidx
      ensures sid == SidFor(name, madeUp) && newidx == old(newidx) + 1
      ensures Became(conf, UciModel.Add(old(Pkg(conf)), kind, name, madeUp, 1000 + old(newidx)))
    {
      ghost var p := Pkg(conf);
      var anonymous := name.GetOr("") == "";
      sid := if anonymous then madeUp else name.value;
      if conf !in creates {
        creates := creates[conf := map[]];
      }
      var s: Section := map[".type" := Text(kind), ".name" := Text(sid), ".anonymous" := Flag(anonymous),
        ".index" := Value.Number(1000 + newidx)];
      newidx := newidx + 1;
      if name.Some? {
        s := s[".create" := Text(name.value)];
      }
      creates := creates[conf := creates[conf][sid := s]];
    }

    method Remove(conf: string, sid: string)
      modifies `creates, `changes, `deletes
      ensures Became(conf, UciModel.Remove(old(Pkg(conf)), sid))
    {
      ghost var p := Pkg(conf);
      if sid in Inner(creates, conf) {
        creates := creates[conf := creates[conf] - {sid}];
      } else if sid in Inner(values, conf) {
        if conf in changes {
          changes := changes[conf := changes[conf] - {sid}];
        }
        if conf !in deletes {
          deletes := deletes[conf := map[]];
        }
        deletes := deletes[conf := deletes[conf][sid := Whole]];
      }
    }

    method Get(conf: string, sid: string, opt: string) returns (r: Option<Value>)
      ensures r == GetOption(Pkg(conf), sid, opt)
    {
      if sid in Inner(creates, conf) {
        return Lookup(creates[conf][sid], opt);
      }
      if sid in Inner(deletes, conf) {
        if deletes[conf][sid].Whole? || opt in deletes[conf][sid].names {
          return None;
        }
      }
      if sid in Inner(changes, conf) && opt in changes[conf][sid] {
        return Some(changes[conf][sid][opt]);
      }
      if sid in Inner(values, conf) {
        return Lookup(values[conf][sid], opt);
      }
      return None;
    }

    /** The whole-section form of `get`: it hands out the snapshot's object, with the pending state written to it. */
    method GetSection(conf: string, sid: string) returns (r: Option<Section>)
      modifies `values
      ensures Became(conf, UciModel.GetSection(old(Pkg(conf)), sid).0)
      ensures r == UciModel.GetSection(old(Pkg(conf)), sid).1
    {
      ghost var p := Pkg(conf);
      if sid in Inner(creates, conf) {
        return Some(creates[conf][sid]);
      }
      if conf !in values || (sid in Inner(deletes, conf) && deletes[conf][sid].Whole?) || sid !in values[conf] {
        return None;
      }
      var s := WriteBack(conf, sid);
      values := values[conf := values[conf][sid := s]];
      return Some(s);
    }

    /** The snapshot's object with the changes assigned and the unset options deleted. */
    method WriteBack(conf: string, sid: string) returns (s: Section)
      requires sid in Pkg(conf).V() && !Gone(Pkg(conf), sid)
      ensures s == Washed(Pkg(conf), sid)
    {
      s := values[conf][sid];
      if sid in Inner(changes, conf) {
        s := Overwrite(s, changes[conf][sid]);
      }
      if sid in Inner(deletes, conf) {
        s := Strip(s, deletes[conf][sid].names);
      }
    }

    /** `for (opt in c) s[opt] = c[opt]` */
    static method Overwrite(s: Section, c: Section) returns (r: Section)
      ensures r == s + c
    {
      r := s;
      var todo := c.Keys;
      while todo != {}
        invariant todo <= c.Keys
        invariant r == s + map opt | opt in c && opt !in todo :: c[opt]
      {
        var opt :| opt in todo;
        r := r[opt := c[opt]];
        todo := todo - {opt};
      }
    }

    /** `for (opt in d) delete s[opt]` */
    static method Strip(s: Section, names: set<string>) returns (r: Section)
      ensures r == s - names
    {
      r := s;
      var todo := names;
      while todo != {}
        invariant todo <= names
        invariant r == s - (names - todo)
      {
        var opt :| opt in todo;
        r := r - {opt};
        todo := todo - {opt};
      }
    }

    method Set(conf: string, sid: string, opt: string, val: Option<Value>)
      modifies `creates, `changes, `deletes
      ensures Became(conf, UciModel.Set(old(Pkg(conf)), sid, opt, val))
    {
      ghost var p := Pkg(conf);
      if Dotted(opt) {
      } else if sid in Inner(creates, conf) {
        var s := creates[conf][sid];
        creates := creates[conf := creates[conf][sid := if val.Some? then s[opt := val.value] else s - {opt}]];
      } else if val.Some? && val.value != Text("") {
        SetValue(conf, sid, opt, val.value);
      } else {
        UnsetValue(conf, sid, opt, val);
      }
    }

    /** The branch of `set` that stores a value over the snapshot. */
    method SetValue(conf: string, sid: string, opt: string, val: Value)
      requires !Dotted(opt) && sid !in Pkg(conf).N() && val != Text("")
      modifies `changes, `deletes
      ensures Became(conf, UciModel.Set(old(Pkg(conf)), sid, opt, Some(val)))
    {
      if sid in Inner(deletes, conf) && deletes[conf][sid].Whole? {
        return;
      }
      if sid !in Inner(values, conf) {
        return;
      }
      if sid in Inner(deletes, conf) {
        DropMark(conf, sid, opt);
      }
      var pending := Inner(Inner(changes, conf), sid);
      changes := changes[conf := Inner(changes, conf)[sid := pending[opt := val]]];
    }

    /** `delete d[conf][sid][opt]`, and the emptied mark with it. */
    method DropMark(conf: string, sid: string, opt: string)
      requires sid in Pkg(conf).D() && Pkg(conf).D()[sid].Options?
      modifies `deletes
      ensures Became(conf, old(Pkg(conf)).(deletes := Some(Unmark(old(Pkg(conf)).D(), sid, opt))))
    {
      var d := deletes[conf];
      if d[sid].names - {opt} == {} {
        d := d - {sid};
      } else {
        d := d[sid := Options(d[sid].names - {opt})];
      }
      deletes := deletes[conf := d];
    }

    /** The branch of `set` that withdraws a change and masks the snapshot's value. */
    method UnsetValue(conf: string, sid: string, opt: string, val: Option<Value>)
      requires !Dotted(opt) && sid !in Pkg(conf).N() && (val.None? || val.value == Text(""))
      modifies `changes, `deletes
      ensures Became(conf, UciModel.Set(old(Pkg(conf)), sid, opt, val))
    {
      if sid in Inner(changes, conf) {
        DropChange(conf, sid, opt);
      }
      if sid in Inner(values, conf) && opt in values[conf][sid] {
        AddMark(conf, sid, opt);
      }
    }

    /** `delete c[conf][sid][opt]`, and the emptied change set with it. */
    method DropChange(conf: string, sid: string, opt: string)
      requires sid in Pkg(conf).C()
      modifies `changes
      ensures Became(conf, old(Pkg(conf)).(changes := Some(Forget(old(Pkg(conf)).C(), sid, opt))))
    {
      var c := changes[conf];
      if c[sid].Keys - {opt} == {} {
        c := c - {sid};
      } else {
        c := c[sid := c[sid] - {opt}];
      }
      changes := changes[conf := c];
    }

    /** `d[conf][sid][opt] = true`, unless the section is removed as a whole. */
    method AddMark(conf: string, sid: string, opt: string)
      modifies `deletes
      ensures Became(conf, old(Pkg(conf)).(deletes := Some(Mark(old(Pkg(conf)).D(), sid, opt))))
    {
      var d := Inner(deletes, conf);
      if sid !in d {
        d := d[sid := Options({})];
      }
      if d[sid].Options? {
        d := d[sid := Options(d[sid].names + {opt})];
      }
      assert d == Mark(Inner(deletes, conf), sid, opt);
      deletes := deletes[conf := d];
    }

    // -------------------------------------------------------------- order

    /**
     The visible sections of a loaded package, of one type or of all, in order of
     their index, each as a copy that is numbered by its place. The names are those in
     `.name`, which are the keys of the tables.
     */
    method Sections(conf: string, kind: Option<string>) returns (ids: seq<string>, sa: seq<Section>)
      requires WellFormed(Pkg(conf))
      ensures Enumerates(ids, set sid | sid in Live(Pkg(conf)) && conf in values &&
        OfKind(Listed(Pkg(conf), sid), kind))
      ensures Ascending(Pkg(conf), ids)
      ensures |sa| == |ids|
      ensures forall i :: 0 <= i < |ids| ==> sa[i] == Listed(Pkg(conf), ids[i])[".index" := Value.Number(i)]
    {
      ids, sa := [], [];
      if conf !in values {
        return;
      }
      ids, sa := ListLoaded(conf, kind);
      forall x | x in ids ensures x !in Pkg(conf).N() { LoadedRow(Pkg(conf), x); }
      ids, sa := ListCreated(conf, kind, ids, sa);
      sa := Number(sa);
    }

    /** The snapshot's part of the listing: not removed, of the type, changes on top. */
    method ListLoaded(conf: string, kind: Option<string>) returns (ids: seq<string>, sa: seq<Section>)
      requires WellFormed(Pkg(conf)) && conf in values
      ensures Rows(Pkg(conf), ids, sa)
      ensures Enumerates(ids, set sid | sid in Pkg(conf).V() && !Gone(Pkg(conf), sid) &&
        OfKind(Listed(Pkg(conf), sid), kind))
    {
      ids, sa := [], [];
      var v, c, d := values[conf], Inner(changes, conf), Inner(deletes, conf);
      var todo := v.Keys;
      while todo != {}
        invariant todo <= v.Keys
        invariant Rows(Pkg(conf), ids, sa) && NoDuplicates(ids)
        invariant forall x :: x in ids <==>
          x in v && x !in todo && !Gone(Pkg(conf), x) && OfKind(Listed(Pkg(conf), x), kind)
      {
        var s :| s in todo;
        if !Gone(Pkg(conf), s) { LoadedRow(Pkg(conf), s); }
        todo := todo - {s};
        if !(s in d && d[s].Whole?) && OfKind(v[s], kind) {
          ids, sa := Place(Pkg(conf), ids, sa, s, v[s] + Inner(c, s));
        }
      }
    }

    method ListCreated(conf: string, kind: Option<string>, ids0: seq<string>, sa0: seq<Section>)
        returns (ids: seq<string>, sa: seq<Section>)
      requires Rows(Pkg(conf), ids0, sa0) && NoDuplicates(ids0) && forall x :: x in ids0 ==> x !in Pkg(conf).N()
      ensures Rows(Pkg(conf), ids, sa) && NoDuplicates(ids)
      ensures forall x :: x in ids <==> x in ids0 || (x in Pkg(conf).N() && OfKind(Listed(Pkg(conf), x), kind))
    {
      ids, sa := ids0, sa0;
      var n := Inner(creates, conf);
      var todo := n.Keys;
      while todo != {}
        invariant todo <= n.Keys
        invariant Rows(Pkg(conf), ids, sa) && NoDuplicates(ids)
        invariant forall x :: x in ids <==> x in ids0 || (x in n && x !in todo && OfKind(Listed(Pkg(conf), x), kind))
      {
        var s :| s in todo;
        todo := todo - {s};
        if OfKind(n[s], kind) {
          ids, sa := Place(Pkg(conf), ids, sa, s, n[s]);
        }
      }
    }

    /** The copies get their place as index. */
    static method Number(rows: seq<Section>) returns (sa: seq<Section>)
      ensures |sa| == |rows| && forall i :: 0 <= i < |sa| ==> sa[i] == rows[i][".index" := Value.Number(i)]
    {
      sa := rows;
      for i := 0 to |rows|
        invariant |sa| == |rows|
        invariant forall j :: 0 <= j < i ==> sa[j] == rows[j][".index" := Value.Number(j)]
        invariant forall j :: i <= j < |sa| ==> sa[j] == rows[j]
      {
        sa := sa[i := sa[i][".index" := Value.Number(i)]];
      }
    }

    /** One insertion of the stable sort by `.index`. */
    static method Place(ghost p: Package, ids: seq<string>, sa: seq<Section>, sid: string, s: Section)
        returns (ids': seq<string>, sa': seq<Section>)
      requires Rows(p, ids, sa) && NoDuplicates(ids) && sid !in ids && s == Listed(p, sid)
      ensures Rows(p, ids', sa') && NoDuplicates(ids')
      ensures forall x :: x in ids' <==> x == sid || x in ids
    {
      var k := FindPlace(sa, s);
      ids' := ids[..k] + [sid] + ids[k..];
      sa' := sa[..k] + [s] + sa[k..];
      PlacedInOrder(p, ids, sa, sid, k);
    }

    /** The place after the last section that does not sort behind `s`. */
    static method FindPlace(sa: seq<Section>, s: Section) returns (k: nat)
      ensures k <= |sa|
      ensures k > 0 ==> IndexIn(sa[k - 1]) <= IndexIn(s)
      ensures forall j :: k <= j < |sa| ==> IndexIn(sa[j]) > IndexIn(s)
    {
      k := |sa|;
      while k > 0 && IndexIn(sa[k - 1]) > IndexIn(s)
        invariant 0 <= k <= |sa|
        invariant forall j :: k <= j < |sa| ==> IndexIn(sa[j]) > IndexIn(s)
      {
        k := k - 1;
      }
    }

    /** `get(conf, sid)['.index'] = index`, on the object the store holds. */
    method SetIndex(conf: string, sid: string, index: int)
      requires sid in Live(Pkg(conf))
      modifies `values, `creates
      ensures Became(conf, Renumber(old(Pkg(conf)), sid, index))
    {
      var s := GetSection(conf, sid);
      if sid in Inner(creates, conf) {
        creates := creates[conf := creates[conf][sid := s.value[".index" := Value.Number(index)]]];
      } else {
        values := values[conf := values[conf][sid := s.value[".index" := Value.Number(index)]]];
      }
    }

    /** Moves a section in front of or behind another one, or to the end. `order` is the listing it started from. */
    method Move(conf: string, sid1: string, sid2: Option<string>, after: bool)
      returns (ok: bool, ghost order: seq<string>)
      requires WellFormed(Pkg(conf))
      modifies `values, `creates, `reorder
      ensures IsListing(old(Pkg(conf)), order)
      ensures Became(conf, UciOrder.Move(old(Pkg(conf)), order, sid1, sid2, after))
      ensures ok <==> Moved(order, sid1, sid2, after).Some?
      ensures reorder == old(reorder) + if ok then {conf} else {}
    {
      ghost var p := Pkg(conf);
      var ids := Listing(conf);
      order := ids;
      assert Became(conf, p) && IsListing(p, order);
      var moved := Reinsert(ids, sid1, sid2, after);
      ok := moved.Some?;
      if ok {
        MovedIsLive(Pkg(conf), ids, sid1, sid2, after);
        SetIndices(conf, moved.value);
        assert Became(conf, RenumberAll(p, moved.value));
        reorder := reorder + {conf};
      }
    }

    method Listing(conf: string) returns (ids: seq<string>)
      requires WellFormed(Pkg(conf))
      ensures IsListing(Pkg(conf), ids)
    {
      var sa;
      ids, sa := Sections(conf, None);
    }

    /** The two searches and splices of `move`; `None` where it returns false. */
    static method Reinsert(order: seq<string>, sid1: string, sid2: Option<string>, after: bool)
      returns (moved: Option<seq<string>>)
      ensures moved == Moved(order, sid1, sid2, after)
    {
      var i := Find(order, sid1);
      if i == |order| {
        return None;
      }
      var ids := order[..i] + order[i + 1..];
      WithoutAt(order, sid1, i);
      moved := InsertBeside(ids, sid1, sid2, after);
    }

    static method InsertBeside(ids: seq<string>, sid1: string, sid2: Option<string>, after: bool)
      returns (moved: Option<seq<string>>)
      ensures moved == Placed(ids, sid1, sid2, after)
    {
      if sid2.None? {
        return Some(ids + [sid1]);
      }
      var k := Find(ids, sid2.value);
      if k == |ids| {
        return None;
      }
      PositionIs(ids, sid2.value, k);
      k := k + if after then 1 else 0;
      return Some(ids[..k] + [sid1] + ids[k..]);
    }

    method SetIndices(conf: string, ids: seq<string>)
      requires WellFormed(Pkg(conf)) && NoDuplicates(ids) && forall x :: x in ids ==> x in Live(Pkg(conf))
      modifies `values, `creates
      ensures Became(conf, RenumberAll(old(Pkg(conf)), ids))
    {
      ghost var p := Pkg(conf);
      for n := 0 to |ids|
        invariant Became(conf, RenumberAll(p, ids[..n]))
      {
        RenumberAllRefines(p, ids[..n]);
        assert Live(Pkg(conf)) == Flat(Pkg(conf)).Keys && Live(p) == Flat(p).Keys;
        assert ids[n] in ids;
        SetIndex(conf, ids[n], n);
        assert ids[..n + 1][..n] == ids[..n];
      }
      assert ids[..|ids|] == ids;
    }

    static method Find(ids: seq<string>, sid: string) returns (i: nat)
      ensures i <= |ids| && sid !in ids[..i]
      ensures i < |ids| ==> ids[i] == sid
    {
      i := 0;
      while i < |ids| && ids[i] != sid
        invariant i <= |ids| && sid !in ids[..i]
      {
        i := i + 1;
      }
    }

    // -------------------------------------------------------------- save

    /** The nested loops `for (conf in t) for (sid in t[conf])`. */
    static method Pairs<T>(t: map<string, map<string, T>>) returns (ps: seq<(string, string)>)
      ensures NoDuplicates(ps)
      ensures forall conf, sid :: (conf, sid) in ps <==> sid in Inner(t, conf)
    {
      ps := [];
      var confs := t.Keys;
      while confs != {}
        invariant confs <= t.Keys && NoDuplicates(ps)
        invariant forall conf, sid :: (conf, sid) in ps <==> conf !in confs && sid in Inner(t, conf)
      {
        var conf :| conf in confs;
        var sids := t[conf].Keys;
        while sids != {}
          invariant sids <= t[conf].Keys && NoDuplicates(ps)
          invariant forall c, sid :: (c, sid) in ps <==>
            sid in Inner(t, c) && (c !in confs || (c == conf && sid !in sids))
        {
          var sid :| sid in sids;
          sids := sids - {sid};
          ps := ps + [(conf, sid)];
        }
        confs := confs - {conf};
      }
    }

    /**
     The calls of `save`: all deletes, then all adds, then all sets, package after
     package. `ns` are the created sections, in the order of their calls.
     */
    method Save()
      returns (ds: seq<(string, string)>, ns: seq<(string, string)>, cs: seq<(string, string)>, batch: Batch)
      ensures forall conf :: ListsOf(ds, conf, Pkg(conf).D().Keys)
      ensures forall conf :: ListsOf(ns, conf, Pkg(conf).N().Keys)
      ensures forall conf :: ListsOf(cs, conf, Pkg(conf).C().Keys)
      ensures forall conf ::
        && DeleteCalls(Pkg(conf), conf, ds, batch.dels)
        && AddCalls(Pkg(conf), conf, ns, batch.adds)
        && SetCalls(Pkg(conf), conf, cs, batch.sets)
    {
      ds := Pairs(deletes);
      var dels := SendDeletes(ds);
      ns := Pairs(creates);
      var adds := SendAdds(ns);
      cs := Pairs(changes);
      var sets := SendSets(cs);
      batch := Batch(dels, adds, sets);
    }

    method SendDeletes(ds: seq<(string, string)>) returns (calls: seq<Call>)
      requires forall i :: 0 <= i < |ds| ==> ds[i].1 in Inner(deletes, ds[i].0)
      ensures forall conf :: DeleteCalls(Pkg(conf), conf, ds, calls)
    {
      calls := [];
      for i := 0 to |ds|
        invariant |calls| == i
        invariant forall conf :: DeleteCalls(Pkg(conf), conf, ds[..i], calls)
      {
        var o := deletes[ds[i].0][ds[i].1];
        calls := calls + [(ds[i].0, CallDelete(ds[i].1, if o.Whole? then None else Some(o.names)))];
      }
      assert ds[..|ds|] == ds;
    }

    method SendAdds(ns: seq<(string, string)>) returns (calls: seq<Call>)
      requires forall i :: 0 <= i < |ns| ==> ns[i].1 in Inner(creates, ns[i].0)
      ensures forall conf :: AddCalls(Pkg(conf), conf, ns, calls)
    {
      calls := [];
      for i := 0 to |ns|
        invariant |calls| == i
        invariant forall conf :: AddCalls(Pkg(conf), conf, ns[..i], calls)
      {
        var s := creates[ns[i].0][ns[i].1];
        calls := calls + [(ns[i].0, CallAdd(KindIn(s), CreateName(s), Plain(s)))];
      }
      assert ns[..|ns|] == ns;
    }

    method SendSets(cs: seq<(string, string)>) returns (calls: seq<Call>)
      requires forall i :: 0 <= i < |cs| ==> cs[i].1 in Inner(changes, cs[i].0)
      ensures forall conf :: SetCalls(Pkg(conf), conf, cs, calls)
    {
      calls := [];
      for i := 0 to |cs|
        invariant |calls| == i
        invariant forall conf :: SetCalls(Pkg(conf), conf, cs[..i], calls)
      {
        calls := calls + [(cs[i].0, CallSet(cs[i].1, changes[cs[i].0][cs[i].1]))];
      }
      assert cs[..|cs|] == cs;
    }

    /** `snew[i]['.name'] = responses[i]` */
    method TakeName(conf: string, sid: string, reply: string)
      requires sid in Pkg(conf).N()
      modifies `creates
      ensures Became(conf,
        old(Pkg(conf)).(creates := Some(old(Pkg(conf)).N()[sid := old(Pkg(conf)).N()[sid][".name" := Text(reply)]])))
    {
      creates := creates[conf := creates[conf][sid := creates[conf][sid][".name" := Text(reply)]]];
    }

    /**
     The `order` calls after a save: one for each moved package that has sections and
     no deletion table, none for the others. The marks of all packages are dropped.
     */
    method ReorderSections() returns (sent: map<string, seq<string>>)
      requires forall conf :: conf in reorder ==> WellFormed(Pkg(conf))
      modifies `reorder
      ensures reorder == {}
      ensures forall conf :: conf in sent <==>
        conf in old(reorder) && Pkg(conf).deletes.None? && Pkg(conf).N().Keys + Pkg(conf).V().Keys != {}
      ensures forall conf :: conf in sent ==> SendsOrder(Pkg(conf), sent[conf])
    {
      sent := map[];
      var todo := reorder;
      while todo != {}
        invariant todo <= reorder && reorder == old(reorder)
        invariant forall conf :: conf in sent <==>
          conf in reorder - todo && Pkg(conf).deletes.None? && Pkg(conf).N().Keys + Pkg(conf).V().Keys != {}
        invariant forall conf :: conf in sent ==> SendsOrder(Pkg(conf), sent[conf])
      {
        var conf :| conf in todo;
        todo := todo - {conf};
        if conf !in deletes {
          var o := RawRows(conf);
          if |o| > 0 {
            sent := sent[conf := o];
          }
        }
      }
      reorder := {};
    }

    /** The names of all sections of the package, created and loaded, by index. */
    method RawRows(conf: string) returns (names: seq<string>)
      requires WellFormed(Pkg(conf)) && Pkg(conf).deletes.None?
      ensures names == [] <==> Pkg(conf).N().Keys + Pkg(conf).V().Keys == {}
      ensures names != [] ==> SendsOrder(Pkg(conf), names)
    {
      var n, v := Inner(creates, conf), Inner(values, conf);
      ghost var p := Pkg(conf);
      forall s | s in p.V() ensures s !in p.N() { LoadedRow(p, s); }
      var ids, rows := [], [];
      var todo := n.Keys + v.Keys;
      while todo != {}
        invariant todo <= n.Keys + v.Keys
        invariant RawOrder(p, ids, rows)
        invariant Enumerates(ids, n.Keys + v.Keys - todo)
      {
        var s :| s in todo;
        todo := todo - {s};
        var row := if s in n then n[s] else v[s];
        var k := FindPlace(rows, row);
        RawPlaced(p, ids, rows, s, k);
        ids, rows := ids[..k] + [s] + ids[k..], rows[..k] + [row] + rows[k..];
      }
      names := [];
      for i := 0 to |rows|
        invariant |names| == i && forall j :: 0 <= j < i ==> names[j] == NameIn(rows[j])
      {
        names := names + [NameIn(rows[i])];
      }
      assert ids != [] ==> IsOrderCall(p, ids);
      if ids == [] {
        assert n.Keys + v.Keys == {};
      } else {
        assert ids[0] in n.Keys + v.Keys;
      }
    }
  }

  predicate OfKind(s: Section, kind: Option<string>) {
    kind.None? || KindIn(s) == kind.value
  }

  /** `sa` are the listed sections `ids`, in ascending order of their indices. */
  ghost predicate Rows(p: Package, ids: seq<string>, sa: seq<Section>) {
    && |sa| == |ids|
    && (forall i :: 0 <= i < |ids| ==> sa[i] == Listed(p, ids[i]))
    && Ascending(p, ids)
  }

  lemma PlacedInOrder(p: Package, ids: seq<string>, sa: seq<Section>, sid: string, k: nat)
    requires Rows(p, ids, sa) && NoDuplicates(ids) && sid !in ids && k <= |ids|
    requires k > 0 ==> IndexIn(sa[k - 1]) <= IndexOf(p, sid)
    requires forall j :: k <= j < |ids| ==> IndexOf(p, sid) < IndexIn(sa[j])
    ensures var ids' := ids[..k] + [sid] + ids[k..];
      && Rows(p, ids', sa[..k] + [Listed(p, sid)] + sa[k..]) && NoDuplicates(ids')
      && forall x :: x in ids' <==> x == sid || x in ids
  {
    InsertAt(ids, sid, k);
    InsertedAscends(p, ids, sid, k) by {
      assert k > 0 ==> sa[k - 1] == Listed(p, ids[k - 1]);
      assert forall j :: k <= j < |ids| ==> sa[j] == Listed(p, ids[j]);
    }
  }

  lemma InsertedAscends(p: Package, ids: seq<string>, sid: string, k: nat)
    requires Ascending(p, ids) && k <= |ids|
    requires k > 0 ==> IndexOf(p, ids[k - 1]) <= IndexOf(p, sid)
    requires forall j :: k <= j < |ids| ==> IndexOf(p, sid) < IndexOf(p, ids[j])
    ensures Ascending(p, ids[..k] + [sid] + ids[k..])
  {
  }

  /** The type of a section is not affected by its changes, and a listed snapshot section is not a created one. */
  lemma LoadedRow(p: Package, sid: string)
    requires WellFormed(p) && sid in p.V() && !Gone(p, sid)
    ensures sid !in p.N() && KindIn(p.V()[sid]) == KindIn(Listed(p, sid))
  {
    assert SlotOk(SlotAt(p, sid));
    assert Dotted(".type");
  }

  ghost predicate RawOrder(p: Package, ids: seq<string>, rows: seq<Section>) {
    && |rows| == |ids|
    && (forall i :: 0 <= i < |ids| ==> rows[i] == Raw(p, ids[i]))
    && forall i, j :: 0 <= i < j < |ids| ==> IndexIn(rows[i]) <= IndexIn(rows[j])
  }

  lemma RawPlaced(p: Package, ids: seq<string>, rows: seq<Section>, sid: string, k: nat)
    requires RawOrder(p, ids, rows) && NoDuplicates(ids) && sid !in ids && k <= |ids|
    requires k > 0 ==> IndexIn(rows[k - 1]) <= IndexIn(Raw(p, sid))
    requires forall j :: k <= j < |ids| ==> IndexIn(Raw(p, sid)) < IndexIn(rows[j])
    ensures RawOrder(p, ids[..k] + [sid] + ids[k..], rows[..k] + [Raw(p, sid)] + rows[k..])
    ensures NoDuplicates(ids[..k] + [sid] + ids[k..])
    ensures forall x :: x in ids[..k] + [sid] + ids[k..] <==> x == sid || x in ids
  {
    InsertAt(ids, sid, k);
    RowsAscend(rows, Raw(p, sid), k);
  }

  lemma RowsAscend(rows: seq<Section>, row: Section, k: nat)
    requires k <= |rows| && forall i, j :: 0 <= i < j < |rows| ==> IndexIn(rows[i]) <= IndexIn(rows[j])
    requires k > 0 ==> IndexIn(rows[k - 1]) <= IndexIn(row)
    requires forall j :: k <= j < |rows| ==> IndexIn(row) < IndexIn(rows[j])
    ensures var r := rows[..k] + [row] + rows[k..];
      forall i, j :: 0 <= i < j < |r| ==> IndexIn(r[i]) <= IndexIn(r[j])
  {
    var r := rows[..k] + [row] + rows[k..];
    forall i, j | 0 <= i < j < |r| ensures IndexIn(r[i]) <= IndexIn(r[j]) {
      assert i < k ==> IndexIn(rows[i]) <= IndexIn(rows[k - 1]);
    }
  }
}
