/** Deleting and renaming firewall zones (`firewall.js`), on top of the staging store. */
module Zones {
  import opened Base
  import opened UciModel
  import opened UciOrder
  import opened UciStore

  const CONF := "firewall"

  function Commas(items: seq<string>): string {
    if items == [] then "" else if |items| == 1 then items[0] else items[0] + "," + Commas(items[1..])
  }

  /** JavaScript's `==` between option values: a list equals the text it joins to, two lists are different objects. */
  predicate LooseEq(a: Option<Value>, b: Option<Value>) {
    match (a, b)
    case (Some(Items(x)), Some(Text(y))) => Commas(x) == y
    case (Some(Text(x)), Some(Items(y))) => x == Commas(y)
    case (Some(Items(_)), Some(Items(_))) => false
    case _ => a == b
  }

  predicate RefersTo(s: Section, name: Option<Value>) {
    && KindIn(s) in {"rule", "redirect", "forwarding"}
    && (LooseEq(Lookup(s, "src"), name) || LooseEq(Lookup(s, "dest"), name))
  }

  /** The sections that `deleteZone` takes for references: pending unsets are not looked at. */
  function Referring(p: Package, name: Option<Value>): set<string> {
    set sid | sid in Live(p) && RefersTo(Listed(p, sid), name)
  }

  function ZonesNamed(p: Package, name: string): set<string> {
    set sid | sid in Live(p) && KindIn(Listed(p, sid)) == "zone" &&
      LooseEq(Lookup(Listed(p, sid), "name"), Some(Text(name)))
  }

  function RemoveAll(p: Package, sids: seq<string>): Package {
    if sids == [] then p else Remove(RemoveAll(p, sids[..|sids| - 1]), sids[|sids| - 1])
  }

  lemma RemoveIsLocal(p: Package, sid: string)
    ensures forall other :: other != sid ==> SlotAt(Remove(p, sid), other) == SlotAt(p, other)
  {
  }

  lemma RemoveFlat(p: Package, sid: string)
    requires WellFormed(p)
    ensures WellFormed(Remove(p, sid)) && Flat(Remove(p, sid)) == Flat(p) - {sid}
  {
    RemoveRefines(p, sid);
  }

  lemma {:induction false} RemoveAllRefines(p: Package, sids: seq<string>)
    requires WellFormed(p)
    ensures WellFormed(RemoveAll(p, sids))
    ensures Flat(RemoveAll(p, sids)) == Flat(p) - Elements(sids)
  {
    if sids != [] {
      var front, last := sids[..|sids| - 1], sids[|sids| - 1];
      assert sids == front + [last];
      RemoveAllRefines(p, front);
      RemoveFlat(RemoveAll(p, front), last);
      ElementsSnoc(front, last);
    }
  }

  lemma {:induction false} RemoveAllKeepsSnapshot(p: Package, sids: seq<string>)
    ensures RemoveAll(p, sids).values == p.values
  {
    if sids != [] { RemoveAllKeepsSnapshot(p, sids[..|sids| - 1]); }
  }

  lemma {:induction false} RemoveAllIsLocal(p: Package, sids: seq<string>, other: string)
    requires other !in sids
    ensures SlotAt(RemoveAll(p, sids), other) == SlotAt(p, other)
  {
    if sids != [] {
      var front, last := sids[..|sids| - 1], sids[|sids| - 1];
      assert sids == front + [last];
      RemoveAllIsLocal(p, front, other);
      RemoveIsLocal(RemoveAll(p, front), last);
    }
  }

  /** Nothing is pending that would hide the reference options of a section. */
  ghost predicate ReferencesVisible(p: Package) {
    forall sid :: "src" !in UnsetOf(p, sid) && "dest" !in UnsetOf(p, sid)
  }

  /** What `sections` shows of an option is what the reader sees, unless the option is unset. */
  lemma ListedIsFlat(p: Package, sid: string)
    requires WellFormed(p) && sid in Live(p)
    ensures KindIn(Listed(p, sid)) == KindIn(Flat(p)[sid])
    ensures forall opt :: opt !in UnsetOf(p, sid) ==> Lookup(Listed(p, sid), opt) == Lookup(Flat(p)[sid], opt)
    ensures forall opt :: opt in UnsetOf(p, sid) && sid !in p.N() ==> opt !in Flat(p)[sid]
    ensures sid in p.N() ==> Listed(p, sid) == Flat(p)[sid]
  {
    FlatAt(p, sid);
    assert SlotOk(SlotAt(p, sid));
    assert Dotted(".type");
  }

  /** After the cascade nobody the reader can see refers to the deleted name. */
  lemma NoReferenceLeft(p: Package, q: Package, name: string)
    requires WellFormed(p) && Flat(q) == Flat(p) - Referring(p, Some(Text(name)))
    ensures forall sid :: sid in Flat(q) ==> !RefersTo(Flat(q)[sid], Some(Text(name)))
  {
    forall sid | sid in Flat(q) ensures !RefersTo(Flat(q)[sid], Some(Text(name))) {
      ListedIsFlat(p, sid);
    }
  }

  /** The cascade removes exactly the visible references when none of them is hidden by a pending unset. */
  lemma ReferringIsExact(p: Package, name: Option<Value>)
    requires WellFormed(p) && ReferencesVisible(p)
    ensures Referring(p, name) == set sid | sid in Flat(p) && RefersTo(Flat(p)[sid], name)
  {
    forall sid | sid in Live(p) ensures RefersTo(Listed(p, sid), name) <==> RefersTo(Flat(p)[sid], name) {
      ListedIsFlat(p, sid);
    }
  }

  /** Removing zone sections leaves the references as they were. */
  lemma ReferringAfterZones(p: Package, zones: seq<string>, name: Option<Value>)
    requires WellFormed(p) && forall z :: z in zones ==> z in Live(p) && KindIn(Listed(p, z)) == "zone"
    ensures Referring(RemoveAll(p, zones), name) == Referring(p, name)
  {
    forall sid ensures sid in Referring(RemoveAll(p, zones), name) <==> sid in Referring(p, name) {
      ReferenceAfterZones(p, zones, name, sid);
    }
  }

  lemma ReferenceAfterZones(p: Package, zones: seq<string>, name: Option<Value>, sid: string)
    requires WellFormed(p) && forall z :: z in zones ==> z in Live(p) && KindIn(Listed(p, z)) == "zone"
    ensures sid in Referring(RemoveAll(p, zones), name) <==> sid in Referring(p, name)
  {
    var q := RemoveAll(p, zones);
    RemoveAllRefines(p, zones);
    assert Live(q) == Flat(q).Keys && Live(p) == Flat(p).Keys;
    if sid !in zones {
      RemoveAllIsLocal(p, zones, sid);
      assert SlotAt(q, sid) == SlotAt(p, sid);
      assert sid in Live(p) ==> Listed(q, sid) == Listed(p, sid);
    }
  }

  /**
   `deleteZone`: the zone sections and every section taken for a reference are gone,
   all others are as before, and no visible section refers to the name any more.
   */
  lemma DeleteZoneEffect(p: Package, zones: seq<string>, refs: seq<string>, name: Option<Value>)
    requires WellFormed(p) && forall z :: z in zones ==> z in Live(p) && KindIn(Listed(p, z)) == "zone"
    requires Enumerates(refs, Referring(RemoveAll(p, zones), name))
    ensures var q := RemoveAll(RemoveAll(p, zones), refs);
      && WellFormed(q)
      && Flat(q) == Flat(p) - Elements(zones) - Referring(p, name)
      && (name.Some? && name.value.Text? ==> forall sid :: sid in Flat(q) ==> !RefersTo(Flat(q)[sid], name))
      && (ReferencesVisible(p) ==> Referring(p, name) == set sid | sid in Flat(p) && RefersTo(Flat(p)[sid], name))
  {
    var r := RemoveAll(p, zones);
    RemoveAllRefines(p, zones);
    RemoveAllRefines(r, refs);
    assert Elements(refs) == Referring(r, name);
    ReferringAfterZones(p, zones, name);
    if name.Some? && name.value.Text? {
      NoReferenceLeft(r, RemoveAll(r, refs), name.value.text);
    }
    if ReferencesVisible(p) { ReferringIsExact(p, name); }
  }

  // ---------------------------------------------------------------- who refers to a zone

  /** A rule, redirect or forwarding that is listed with the name as source or destination is taken for a reference. */
  lemma NamedIsTaken(p: Package, sid: string, name: string)
    requires sid in Live(p) && KindIn(Listed(p, sid)) in {"rule", "redirect", "forwarding"}
    requires Lookup(Listed(p, sid), "src") == Some(Text(name)) || Lookup(Listed(p, sid), "dest") == Some(Text(name))
    ensures sid in Referring(p, Some(Text(name)))
  {
  }

  /** A list of one name counts as that name. */
  lemma ListIsTaken(p: Package, sid: string, name: string)
    requires sid in Live(p) && KindIn(Listed(p, sid)) in {"rule", "redirect", "forwarding"}
    requires Some(Items([name])) in {Lookup(Listed(p, sid), "src"), Lookup(Listed(p, sid), "dest")}
    ensures sid in Referring(p, Some(Text(name)))
  {
  }

  /** A list of two names counts as their text with a comma between, and one of more names as no single name. */
  lemma LongListIsTaken(p: Package, sid: string, a: string, b: string)
    requires sid in Live(p) && KindIn(Listed(p, sid)) in {"rule", "redirect", "forwarding"}
    requires Some(Items([a, b])) in {Lookup(Listed(p, sid), "src"), Lookup(Listed(p, sid), "dest")}
    ensures sid in Referring(p, Some(Text(a + ("," + b))))
  {
    assert Commas([a, b]) == a + "," + b == a + ("," + b);
  }

  lemma LongListIsSpared(p: Package, sid: string, items: seq<string>, name: string)
    requires sid in Live(p) && |items| >= 2 && ',' !in name
    requires Lookup(Listed(p, sid), "src") == Some(Items(items)) && Lookup(Listed(p, sid), "dest").None?
    ensures sid !in Referring(p, Some(Text(name)))
  {
    var text := Commas(items);
    assert text[|items[0]|] == ',' && ',' in text;
  }

  /** Where the name of a zone is itself a list, it meets texts and no lists. */
  lemma ListsNeverMeet(p: Package, sid: string, items: seq<string>, name: string)
    requires sid in Live(p) && KindIn(Listed(p, sid)) in {"rule", "redirect", "forwarding"}
    requires Lookup(Listed(p, sid), "dest").None?
    ensures Lookup(Listed(p, sid), "src") == Some(Items(items)) ==> sid !in Referring(p, Some(Items([name])))
    ensures Lookup(Listed(p, sid), "src") == Some(Text(name)) ==> sid in Referring(p, Some(Items([name])))
  {
  }

  /** The option is not there, or is another text. */
  predicate IsOther(value: Option<Value>, name: string) {
    value.None? || (value.value.Text? && value.value.text != name)
  }

  /** Other sections, and those whose source and destination are other zones or none, are not taken. */
  lemma OthersAreSpared(p: Package, sid: string, name: string)
    requires sid in Live(p)
    requires KindIn(Listed(p, sid)) !in {"rule", "redirect", "forwarding"} ||
      (IsOther(Lookup(Listed(p, sid), "src"), name) && IsOther(Lookup(Listed(p, sid), "dest"), name))
    ensures sid !in Referring(p, Some(Text(name)))
  {
  }

  /** The zones of a name are the zone sections with that name option. */
  lemma ZonesAreNamed(p: Package, sid: string, name: string)
    requires sid in Live(p)
    ensures KindIn(Listed(p, sid)) == "zone" && Lookup(Listed(p, sid), "name") == Some(Text(name)) ==>
      sid in ZonesNamed(p, name)
    ensures KindIn(Listed(p, sid)) != "zone" || IsOther(Lookup(Listed(p, sid), "name"), name) ==>
      sid !in ZonesNamed(p, name)
  {
  }

  /** A new name is made of letters, digits and underscores. */
  lemma ZoneNames(name: string)
    ensures ZoneName(name) <==> name != "" && forall c :: c in name ==>
      c in "ABCDEFGHIJKLMNOPQRSTUVWXYZ" || c in "abcdefghijklmnopqrstuvwxyz" || c in "0123456789_"
  {
    forall c ensures 'a' <= c <= 'z' || 'A' <= c <= 'Z' || '0' <= c <= '9' || c == '_' <==>
      c in "ABCDEFGHIJKLMNOPQRSTUVWXYZ" || c in "abcdefghijklmnopqrstuvwxyz" || c in "0123456789_"
    {
      NameCharacter(c);
    }
  }

  lemma NameCharacter(c: char)
    ensures 'a' <= c <= 'z' <==> c in "abcdefghijklmnopqrstuvwxyz"
    ensures 'A' <= c <= 'Z' <==> c in "ABCDEFGHIJKLMNOPQRSTUVWXYZ"
    ensures '0' <= c <= '9' <==> c in "0123456789"
  {
  }

  // ---------------------------------------------------------------- deleting, exactly

  /** The sections that a reader sees refer to the zone; a zone without a name has no references. */
  function VisibleReferences(p: Package, name: Option<Value>): set<string> {
    set sid | sid in Flat(p) && name.Some? && RefersTo(Flat(p)[sid], name)
  }

  /** The section refers to the name only by an option that the user has unset. */
  predicate HidesReference(p: Package, sid: string, name: Option<Value>)
    requires sid in Flat(p)
  {
    && KindIn(Listed(p, sid)) in {"rule", "redirect", "forwarding"}
    && (LooseEq(Lookup(Listed(p, sid), "src"), name) || LooseEq(Lookup(Listed(p, sid), "dest"), name))
    && (forall opt :: opt in {"src", "dest"} && LooseEq(Lookup(Listed(p, sid), opt), name) ==>
          opt in UnsetOf(p, sid) && sid !in p.N())
  }

  /** A rule, redirect or forwarding without source or destination zone. */
  predicate LacksZone(s: Section) {
    KindIn(s) in {"rule", "redirect", "forwarding"} && !("src" in s && "dest" in s)
  }

  /** The section is not taken by mistake: it hides no reference or, when the zone has no name, does not lack a zone. */
  predicate Spares(p: Package, sid: string, ref: Option<Value>)
    requires sid in Flat(p)
  {
    if ref.Some? then !HidesReference(p, sid, ref) else !LacksZone(Listed(p, sid))
  }

  lemma HiddenOrVisible(p: Package, sid: string, name: Option<Value>)
    requires WellFormed(p) && sid in Flat(p) && name.Some?
    ensures RefersTo(Listed(p, sid), name) <==> RefersTo(Flat(p)[sid], name) || HidesReference(p, sid, name)
    ensures !(RefersTo(Flat(p)[sid], name) && HidesReference(p, sid, name))
  {
    ListedIsFlat(p, sid);
  }

  /**
   The sections taken for references are exactly the visible ones if and only if, for a
   zone with a name, no section hides an equal reference behind an unset; for a zone
   without one, if no rule, redirect or forwarding lacks a source or a destination.
   */
  lemma ReferringIsVisible(p: Package, name: Option<Value>)
    requires WellFormed(p)
    ensures Referring(p, name) == VisibleReferences(p, name) <==>
      forall sid :: sid in Flat(p) ==> Spares(p, sid, name)
  {
    assert Live(p) == Flat(p).Keys;
    forall sid | sid in Flat(p)
      ensures (sid in Referring(p, name) <==> sid in VisibleReferences(p, name)) <==> Spares(p, sid, name)
    {
      if name.Some? { HiddenOrVisible(p, sid, name); }
    }
    if forall sid :: sid in Flat(p) ==> Spares(p, sid, name) {
      assert forall sid :: sid in Referring(p, name) <==> sid in VisibleReferences(p, name);
    }
  }

  /** Deleting removes the zones and exactly what the reader sees refer to the name, under the same condition. */
  lemma DeleteZoneIsExact(p: Package, zones: seq<string>, refs: seq<string>, name: Option<Value>)
    requires WellFormed(p) && forall z :: z in zones ==> z in Live(p) && KindIn(Listed(p, z)) == "zone"
    requires Enumerates(refs, Referring(RemoveAll(p, zones), name))
    ensures Flat(RemoveAll(RemoveAll(p, zones), refs)) == Flat(p) - Elements(zones) - VisibleReferences(p, name) <==>
      forall sid :: sid in Flat(p) ==> Spares(p, sid, name)
  {
    DeleteZoneEffect(p, zones, refs, name);
    ReferringIsVisible(p, name);
    forall z | z in zones ensures z !in Referring(p, name) && z !in VisibleReferences(p, name) {
      ListedIsFlat(p, z);
    }
    assert Referring(p, name) <= Flat(p).Keys && VisibleReferences(p, name) <= Flat(p).Keys;
    var rest := Flat(p) - Elements(zones);
    assert (rest - Referring(p, name)).Keys == rest.Keys - Referring(p, name);
    assert (rest - VisibleReferences(p, name)).Keys == rest.Keys - VisibleReferences(p, name);
    assert rest - Referring(p, name) == rest - VisibleReferences(p, name) <==>
      Referring(p, name) == VisibleReferences(p, name) by {
      SameRest(rest.Keys, Referring(p, name), VisibleReferences(p, name));
    }
  }

  lemma SameRest(rest: set<string>, x: set<string>, y: set<string>)
    requires x <= rest && y <= rest
    ensures rest - x == rest - y <==> x == y
  {
    if rest - x == rest - y {
      assert forall e :: e in rest ==> (e in x <==> e in rest && e !in rest - x);
      assert forall e :: e in rest ==> (e in y <==> e in rest && e !in rest - y);
      assert x == y;
    }
  }

  /** The whole-section `get` that comes first: it takes the unset options out of that one section. */
  lemma AfterGet(p: Package, name: string, sid: string)
    requires WellFormed(p) && sid in Live(p)
    ensures var q := GetSection(p, name).0;
      && WellFormed(q) && Flat(q) == Flat(p) && sid in Live(q) && q.N() == p.N() && UnsetOf(q, sid) == UnsetOf(p, sid)
      && Listed(q, sid) == if sid == name then Flat(p)[sid] else Listed(p, sid)
  {
    GetSectionRefines(p, name);
    if sid == name && sid !in p.N() {
      WashedKeepsChanges(p, sid);
    }
  }

  lemma WashedKeepsChanges(p: Package, sid: string)
    requires WellFormed(p) && sid in p.V() && !Gone(p, sid)
    ensures Washed(p, sid) + ChangesOf(p, sid) == Washed(p, sid)
  {
    assert SlotOk(SlotAt(p, sid));
    assert ChangesOf(p, sid).Keys !! UnsetOf(p, sid);
  }

  lemma SparesAfterGet(p: Package, name: string, sid: string, ref: Option<Value>)
    requires WellFormed(p) && sid in Flat(p) && (ref.None? && sid == name ==> KindIn(Flat(p)[sid]) == "zone")
    ensures var q := GetSection(p, name).0;
      sid in Flat(q) && (Spares(q, sid, ref) <==> sid == name || Spares(p, sid, ref))
  {
    AfterGet(p, name, sid);
    ListedIsFlat(p, sid);
  }

  /**
   Deleting, on the store before the call: exactly the zones and what a reader sees refer to
   the name are removed if and only if no section is taken by mistake. The section that the
   method first asks for by its own name does not count, since the `get` shows it as it is.
   */
  lemma DeletionIsExact(p: Package, name: string, zones: seq<string>, refs: seq<string>, ref: Option<Value>)
    requires WellFormed(p) && (ref.None? ==> name in zones)
    requires var q := GetSection(p, name).0;
      && (forall z :: z in zones ==> z in Live(q) && KindIn(Listed(q, z)) == "zone")
      && Enumerates(refs, Referring(RemoveAll(q, zones), ref))
    ensures var q := GetSection(p, name).0;
      Flat(RemoveAll(RemoveAll(q, zones), refs)) == Flat(p) - Elements(zones) - VisibleReferences(p, ref) <==>
        forall sid :: sid in Flat(p) && sid != name ==> Spares(p, sid, ref)
  {
    var q := GetSection(p, name).0;
    GetSectionRefines(p, name);
    assert Flat(q) == Flat(p);
    DeleteZoneIsExact(q, zones, refs, ref);
    assert VisibleReferences(q, ref) == VisibleReferences(p, ref);
    forall sid | sid in Flat(p)
      ensures Spares(q, sid, ref) <==> sid == name || Spares(p, sid, ref)
    {
      if sid in zones { ListedIsFlat(q, sid); }
      SparesAfterGet(p, name, sid, ref);
    }
  }

  /** Deleting a zone takes a section with it that the user has already detached from the zone. */
  lemma DetachedIsTaken(p: Package, zone: string, refs: seq<string>, name: Option<Value>, sid: string)
    requires WellFormed(p) && zone in Live(p) && KindIn(Listed(p, zone)) == "zone" && name.Some?
    requires sid in Live(p) && sid in Flat(p) && HidesReference(p, sid, name)
    requires Enumerates(refs, Referring(RemoveAll(p, [zone]), name))
    ensures !RefersTo(Flat(p)[sid], name) && sid !in Flat(RemoveAll(RemoveAll(p, [zone]), refs))
  {
    HiddenOrVisible(p, sid, name);
    DeleteZoneEffect(p, [zone], refs, name);
    assert sid in Referring(p, name);
  }

  /** Deleting a zone section that has no name takes every rule, redirect and forwarding with it that lacks a zone. */
  lemma NamelessZoneTakesRules(p: Package, zone: string, refs: seq<string>, rule: string)
    requires WellFormed(p) && zone in Live(p) && KindIn(Listed(p, zone)) == "zone" && "name" !in Listed(p, zone)
    requires rule in Live(p) && LacksZone(Listed(p, rule))
    requires Enumerates(refs, Referring(RemoveAll(p, [zone]), None))
    ensures rule in Flat(p) && rule !in Flat(RemoveAll(RemoveAll(p, [zone]), refs))
  {
    DeleteZoneEffect(p, [zone], refs, None);
    assert rule in Referring(p, None);
  }

  /** Removes the sections one after the other. */
  method RemoveEach(store: Store, sids: seq<string>)
    modifies store`creates, store`changes, store`deletes
    ensures store.Became(CONF, RemoveAll(old(store.Pkg(CONF)), sids))
  {
    ghost var p := store.Pkg(CONF);
    for i := 0 to |sids|
      invariant store.Became(CONF, RemoveAll(p, sids[..i]))
    {
      store.Remove(CONF, sids[i]);
      assert sids[..i + 1][..i] == sids[..i];
    }
    assert sids[..|sids|] == sids;
  }

  /** The zone sections with the name, and the cascade: `sections` is asked again after the zones are gone. */
  method DeleteZone(store: Store, name: string)
    returns (found: bool, ghost zones: seq<string>, ghost refs: seq<string>, ghost ref: Option<Value>)
    requires WellFormed(store.Pkg(CONF)) && store.Pkg(CONF).values.Some?
    modifies store`values, store`creates, store`changes, store`deletes
    ensures found <==> zones != []
    ensures var p := GetSection(old(store.Pkg(CONF)), name).0;
      var own := GetSection(old(store.Pkg(CONF)), name).1;
      && WellFormed(p) && Flat(p) == old(Flat(store.Pkg(CONF)))
      && store.Became(CONF, RemoveAll(RemoveAll(p, zones), refs))
      && (forall z :: z in zones ==> z in Live(p) && KindIn(Listed(p, z)) == "zone")
      && (if own.Some? && KindIn(own.value) == "zone"
          then zones == [name] && ref == Lookup(own.value, "name")
          else Enumerates(zones, ZonesNamed(p, name)) && ref == Some(Text(name)))
      && (found ==> Enumerates(refs, Referring(RemoveAll(p, zones), ref)))
      && (!found ==> refs == [])
  {
    ghost var p0 := store.Pkg(CONF);
    GetSectionRefines(p0, name);
    var section := store.GetSection(CONF, name);
    ghost var p := store.Pkg(CONF);
    var key: Option<Value> := Some(Text(name));
    found, zones, refs := false, [], [];
    if section.Some? && KindIn(section.value) == "zone" {
      found := true;
      key := Lookup(section.value, "name");
      store.Remove(CONF, name);
      zones := [name];
    } else {
      var ids, _ := NamedZones(store, name);
      found := ids != [];
      RemoveEach(store, ids);
      zones := ids;
    }
    ref := key;
    if found {
      RemoveAllRefines(p, zones);
      RemoveAllKeepsSnapshot(p, zones);
      assert store.Pkg(CONF) == RemoveAll(p, zones);
      var users, _ := References(store, key);
      RemoveEach(store, users);
      refs := users;
    }
  }

  /** The rows of a listing agree with the sections in everything the zone code looks at. */
  predicate SameRow(a: Section, b: Section) {
    && KindIn(a) == KindIn(b) && Lookup(a, "name") == Lookup(b, "name")
    && Lookup(a, "src") == Lookup(b, "src") && Lookup(a, "dest") == Lookup(b, "dest")
  }

  /** The zone sections of the name, from one listing. */
  method NamedZones(store: Store, name: string) returns (ids: seq<string>, rows: seq<Section>)
    requires WellFormed(store.Pkg(CONF)) && store.Pkg(CONF).values.Some?
    ensures Enumerates(ids, ZonesNamed(store.Pkg(CONF), name))
    ensures |rows| == |ids| && forall i :: 0 <= i < |ids| ==> SameRow(rows[i], Listed(store.Pkg(CONF), ids[i]))
  {
    var all, sa := store.Sections(CONF, Some("zone"));
    ids, rows := [], [];
    for i := 0 to |all|
      invariant NoDuplicates(ids)
      invariant forall x :: x in ids <==>
        x in all[..i] && LooseEq(Lookup(Listed(store.Pkg(CONF), x), "name"), Some(Text(name)))
      invariant |rows| == |ids| && forall j :: 0 <= j < |ids| ==> SameRow(rows[j], Listed(store.Pkg(CONF), ids[j]))
    {
      assert all[..i + 1] == all[..i] + [all[i]];
      IndexIsNoReference(Listed(store.Pkg(CONF), all[i]), i);
      if LooseEq(Lookup(sa[i], "name"), Some(Text(name))) {
        assert all[i] !in all[..i];
        ids, rows := ids + [all[i]], rows + [sa[i]];
      }
    }
    assert all[..|all|] == all;
  }

  /** The sections that refer to the zone name, from one listing. */
  method References(store: Store, name: Option<Value>) returns (ids: seq<string>, rows: seq<Section>)
    requires WellFormed(store.Pkg(CONF)) && store.Pkg(CONF).values.Some?
    ensures Enumerates(ids, Referring(store.Pkg(CONF), name))
    ensures |rows| == |ids| && forall i :: 0 <= i < |ids| ==> SameRow(rows[i], Listed(store.Pkg(CONF), ids[i]))
  {
    var all, sa := store.Sections(CONF, None);
    ids, rows := [], [];
    for i := 0 to |all|
      invariant NoDuplicates(ids)
      invariant forall x :: x in ids <==> x in all[..i] && RefersTo(Listed(store.Pkg(CONF), x), name)
      invariant |rows| == |ids| && forall j :: 0 <= j < |ids| ==> SameRow(rows[j], Listed(store.Pkg(CONF), ids[j]))
    {
      assert all[..i + 1] == all[..i] + [all[i]];
      IndexIsNoReference(Listed(store.Pkg(CONF), all[i]), i);
      if RefersTo(sa[i], name) {
        assert all[i] !in all[..i];
        ids, rows := ids + [all[i]], rows + [sa[i]];
      }
    }
    assert all[..|all|] == all;
  }

  lemma IndexIsNoReference(s: Section, i: int)
    ensures SameRow(s[".index" := Number(i)], s)
  {
  }

  // ---------------------------------------------------------------- renaming

  /** `/^[a-zA-Z0-9_]+$/` */
  predicate ZoneName(name: string) {
    && name != ""
    && forall c :: c in name ==> 'a' <= c <= 'z' || 'A' <= c <= 'Z' || '0' <= c <= '9' || c == '_'
  }

  predicate IsZone(s: Section, name: string) {
    KindIn(s) == "zone" && LooseEq(Lookup(s, "name"), Some(Text(name)))
  }

  predicate Points(s: Section, opt: string, name: string) {
    KindIn(s) in {"rule", "redirect", "forwarding"} && LooseEq(Lookup(s, opt), Some(Text(name)))
  }

  /** The section `s` after the rename, when `shown` is what `sections` shows of it. */
  function RenamedIn(s: Section, shown: Section, from: string, to: string): Section {
    if IsZone(shown, from) then s["name" := Text(to)]
    else
      var t := if Points(shown, "src", from) then s["src" := Text(to)] else s;
      if Points(shown, "dest", from) then t["dest" := Text(to)] else t
  }

  /** The calls of `set` for one listed section. */
  function RenameOne(p: Package, sid: string, shown: Section, from: string, to: string): Package {
    if IsZone(shown, from) then Set(p, sid, "name", Some(Text(to)))
    else
      var q := if Points(shown, "src", from) then Set(p, sid, "src", Some(Text(to))) else p;
      if Points(shown, "dest", from) then Set(q, sid, "dest", Some(Text(to))) else q
  }

  /** The sections `sids`, as `base` lists them, one after the other. */
  function RenameEach(p: Package, base: Package, sids: seq<string>, from: string, to: string): Package {
    if sids == [] then p
    else
      var last := sids[|sids| - 1];
      RenameOne(RenameEach(p, base, sids[..|sids| - 1], from, to), last, Listed(base, last), from, to)
  }

  lemma SetFlat(p: Package, sid: string, opt: string, text: string)
    requires WellFormed(p) && sid in Flat(p) && !Dotted(opt) && text != ""
    ensures WellFormed(Set(p, sid, opt, Some(Text(text))))
    ensures Flat(Set(p, sid, opt, Some(Text(text)))) == Flat(p)[sid := Flat(p)[sid][opt := Text(text)]]
  {
    SetRefines(p, sid, opt, Some(Text(text)));
  }

  lemma RenameOneFlat(p: Package, sid: string, shown: Section, from: string, to: string)
    requires WellFormed(p) && sid in Flat(p) && to != ""
    ensures var q := RenameOne(p, sid, shown, from, to);
      WellFormed(q) && Flat(q) == Flat(p)[sid := RenamedIn(Flat(p)[sid], shown, from, to)]
  {
    if IsZone(shown, from) {
      SetFlat(p, sid, "name", to);
    } else {
      if Points(shown, "src", from) { SetFlat(p, sid, "src", to); }
      var r := if Points(shown, "src", from) then Set(p, sid, "src", Some(Text(to))) else p;
      if Points(shown, "dest", from) { SetFlat(r, sid, "dest", to); }
    }
  }

  lemma {:induction false} RenameEachFlat(p: Package, base: Package, sids: seq<string>, from: string, to: string)
    requires WellFormed(p) && to != "" && NoDuplicates(sids) && forall sid :: sid in sids ==> sid in Flat(p)
    ensures var q := RenameEach(p, base, sids, from, to);
      && WellFormed(q) && Flat(q).Keys == Flat(p).Keys
      && forall sid :: sid in Flat(p) ==>
           Flat(q)[sid] == if sid in sids then RenamedIn(Flat(p)[sid], Listed(base, sid), from, to) else Flat(p)[sid]
  {
    if sids != [] {
      var front, last := sids[..|sids| - 1], sids[|sids| - 1];
      assert sids == front + [last];
      RenameEachFlat(p, base, front, from, to);
      var r := RenameEach(p, base, front, from, to);
      RenameOneFlat(r, last, Listed(base, last), from, to);
      var q := RenameEach(p, base, sids, from, to);
      assert q == RenameOne(r, last, Listed(base, last), from, to);
      assert last in Flat(p) && Flat(r)[last] == Flat(p)[last];
      forall sid | sid in Flat(p)
        ensures Flat(q)[sid] ==
          if sid in sids then RenamedIn(Flat(p)[sid], Listed(base, sid), from, to) else Flat(p)[sid]
      {
        assert sid in sids <==> sid in front || sid == last;
      }
    }
  }

  lemma {:induction false} RenameEachIsLocal(p: Package, base: Package, sids: seq<string>, from: string, to: string,
                                             other: string)
    requires other !in sids
    ensures SlotAt(RenameEach(p, base, sids, from, to), other) == SlotAt(p, other)
  {
    if sids != [] {
      var front, last := sids[..|sids| - 1], sids[|sids| - 1];
      assert sids == front + [last];
      RenameEachIsLocal(p, base, front, from, to, other);
      var q := RenameEach(p, base, front, from, to);
      SetIsLocal(q, last, "name", Some(Text(to)));
      SetIsLocal(q, last, "src", Some(Text(to)));
      SetIsLocal(q, last, "dest", Some(Text(to)));
      SetIsLocal(Set(q, last, "src", Some(Text(to))), last, "dest", Some(Text(to)));
    }
  }

  lemma ReferenceAfterRename(p: Package, r: Package, zones: seq<string>, from: string, to: string, sid: string)
    requires WellFormed(p) && WellFormed(r) && Enumerates(zones, ZonesNamed(p, from)) && sid in Live(p)
    requires r == RenameEach(p, p, zones, from, to) && sid in Live(r)
    requires sid in zones ==> Flat(r)[sid] == RenamedIn(Flat(p)[sid], Listed(p, sid), from, to)
    ensures RefersTo(Listed(r, sid), Some(Text(from))) <==> RefersTo(Listed(p, sid), Some(Text(from)))
    ensures RefersTo(Listed(p, sid), Some(Text(from))) ==> Listed(r, sid) == Listed(p, sid)
  {
    if sid in zones {
      ZoneStaysZone(p, r, sid, from, to);
    } else {
      RenameEachIsLocal(p, p, zones, from, to, sid);
      assert SlotAt(r, sid) == SlotAt(p, sid);
    }
  }

  /** Renaming zone sections leaves the references as they were. */
  lemma ReferringAfterRename(p: Package, zones: seq<string>, from: string, to: string)
    requires WellFormed(p) && to != "" && Enumerates(zones, ZonesNamed(p, from))
    ensures var r := RenameEach(p, p, zones, from, to);
      && Live(r) == Live(p)
      && Referring(r, Some(Text(from))) == Referring(p, Some(Text(from)))
      && forall sid :: sid in Referring(p, Some(Text(from))) ==> Listed(r, sid) == Listed(p, sid)
  {
    var r, name := RenameEach(p, p, zones, from, to), Some(Text(from));
    RenameEachFlat(p, p, zones, from, to);
    assert Live(r) == Flat(r).Keys && Live(p) == Flat(p).Keys;
    forall sid | sid in Live(p)
      ensures RefersTo(Listed(r, sid), name) <==> RefersTo(Listed(p, sid), name)
      ensures RefersTo(Listed(p, sid), name) ==> Listed(r, sid) == Listed(p, sid)
    {
      ReferenceAfterRename(p, r, zones, from, to, sid);
    }
  }

  lemma ZoneStaysZone(p: Package, r: Package, sid: string, from: string, to: string)
    requires WellFormed(p) && WellFormed(r) && sid in Live(p) && sid in Live(r) && IsZone(Listed(p, sid), from)
    requires Flat(r)[sid] == RenamedIn(Flat(p)[sid], Listed(p, sid), from, to)
    ensures KindIn(Listed(r, sid)) == "zone"
  {
    ListedIsFlat(p, sid);
    ListedIsFlat(r, sid);
  }

  /**
   `renameZone`: the zone takes the new name, every listed reference is replaced by it,
   nothing else changes, and no visible section refers to the old name any more.
   */
  lemma RenameZoneEffect(p: Package, zones: seq<string>, refs: seq<string>, from: string, to: string)
    requires WellFormed(p) && to != "" && from != to && Enumerates(zones, ZonesNamed(p, from))
    requires Enumerates(refs, Referring(p, Some(Text(from))))
    ensures var r := RenameEach(p, p, zones, from, to);
      var q := RenameEach(r, r, refs, from, to);
      && WellFormed(q) && Flat(q).Keys == Flat(p).Keys
      && (forall sid :: sid in Flat(p) ==> Flat(q)[sid] == RenamedIn(Flat(p)[sid], Listed(p, sid), from, to))
      && (forall sid :: sid in Flat(q) ==> !RefersTo(Flat(q)[sid], Some(Text(from))))
  {
    var name := Some(Text(from));
    var r := RenameEach(p, p, zones, from, to);
    var q := RenameEach(r, r, refs, from, to);
    RenameEachFlat(p, p, zones, from, to);
    ReferringAfterRename(p, zones, from, to);
    RenameEachFlat(r, r, refs, from, to);
    assert Live(p) == Flat(p).Keys;
    forall sid | sid in Flat(p)
      ensures Flat(q)[sid] == RenamedIn(Flat(p)[sid], Listed(p, sid), from, to)
    {
      assert sid in zones <==> IsZone(Listed(p, sid), from);
      assert sid in refs <==> RefersTo(Listed(p, sid), name);
    }
    forall sid | sid in Flat(p) ensures !RefersTo(Flat(q)[sid], name) {
      NoOldReference(p, sid, from, to);
    }
  }

  /** The option holds the name of a zone: that of a zone section itself, or that of a source or destination. */
  predicate NamesZone(kind: string, opt: string) {
    (kind == "zone" && opt == "name") || (kind in {"rule", "redirect", "forwarding"} && opt in {"src", "dest"})
  }

  /**
   What a reader sees after renaming: an option that names a zone and was listed with the
   old name has the new one; one that was not is as before, and so is every other option.
   */
  lemma RenameOutcome(p: Package, zones: seq<string>, refs: seq<string>, from: string, to: string, sid: string,
                      opt: string)
    requires WellFormed(p) && to != "" && from != to && Enumerates(zones, ZonesNamed(p, from))
    requires Enumerates(refs, Referring(p, Some(Text(from)))) && sid in Live(p)
    ensures var r := RenameEach(p, p, zones, from, to);
      var q := RenameEach(r, r, refs, from, to);
      var kind, listed := KindIn(Listed(p, sid)), Lookup(Listed(p, sid), opt);
      && (NamesZone(kind, opt) && listed == Some(Text(from)) ==> GetOption(q, sid, opt) == Some(Text(to)))
      && (!NamesZone(kind, opt) || IsOther(listed, from) ==> GetOption(q, sid, opt) == GetOption(p, sid, opt))
  {
    RenameZoneEffect(p, zones, refs, from, to);
    var r := RenameEach(p, p, zones, from, to);
    var q := RenameEach(r, r, refs, from, to);
    assert Live(p) == Flat(p).Keys && Live(q) == Flat(q).Keys;
    GetReadsFlat(p, sid, opt);
    GetReadsFlat(q, sid, opt);
    RenamedOption(Flat(p)[sid], Listed(p, sid), from, to, opt);
  }

  lemma RenamedOption(s: Section, shown: Section, from: string, to: string, opt: string)
    ensures var t, kind, listed := RenamedIn(s, shown, from, to), KindIn(shown), Lookup(shown, opt);
      && (NamesZone(kind, opt) && listed == Some(Text(from)) ==> Lookup(t, opt) == Some(Text(to)))
      && (!NamesZone(kind, opt) || IsOther(listed, from) ==> Lookup(t, opt) == Lookup(s, opt))
  {
  }

  /** The rename looks at an option of the section that the user has unset. */
  predicate HidesName(p: Package, sid: string, from: string) {
    sid !in p.N()
    && (("src" in UnsetOf(p, sid) && Points(Listed(p, sid), "src", from))
        || ("dest" in UnsetOf(p, sid) && Points(Listed(p, sid), "dest", from))
        || ("name" in UnsetOf(p, sid) && IsZone(Listed(p, sid), from)))
  }

  lemma RenamedAsSeen(p: Package, sid: string, from: string, to: string)
    requires WellFormed(p) && sid in Live(p) && sid in Flat(p)
    ensures RenamedIn(Flat(p)[sid], Listed(p, sid), from, to) == RenamedIn(Flat(p)[sid], Flat(p)[sid], from, to) <==>
      !HidesName(p, sid, from)
  {
    ListedIsFlat(p, sid);
    var s, shown := Flat(p)[sid], Listed(p, sid);
    var renamed, expected := RenamedIn(s, shown, from, to), RenamedIn(s, s, from, to);
    if HidesName(p, sid, from) {
      if IsZone(shown, from) {
        assert "name" in renamed && "name" !in expected;
      } else if "src" in UnsetOf(p, sid) && Points(shown, "src", from) {
        assert "src" in renamed && "src" !in expected;
      } else {
        assert "dest" in renamed && "dest" !in expected;
      }
    } else if sid !in p.N() {
      assert IsZone(shown, from) == IsZone(s, from);
      assert Points(shown, "src", from) == Points(s, "src", from);
      assert Points(shown, "dest", from) == Points(s, "dest", from);
    }
  }

  /**
   Renaming changes exactly what the reader sees of the old name if and only if no section hides it behind an unset.
   */
  lemma RenameZoneIsExact(p: Package, zones: seq<string>, refs: seq<string>, from: string, to: string)
    requires WellFormed(p) && to != "" && from != to && Enumerates(zones, ZonesNamed(p, from))
    requires Enumerates(refs, Referring(p, Some(Text(from))))
    ensures var r := RenameEach(p, p, zones, from, to);
      var q := RenameEach(r, r, refs, from, to);
      (forall sid :: sid in Flat(p) ==>
        sid in Flat(q) && Flat(q)[sid] == RenamedIn(Flat(p)[sid], Flat(p)[sid], from, to)) <==>
        forall sid :: sid in Flat(p) ==> !HidesName(p, sid, from)
  {
    RenameZoneEffect(p, zones, refs, from, to);
    assert Live(p) == Flat(p).Keys;
    var r := RenameEach(p, p, zones, from, to);
    var q := RenameEach(r, r, refs, from, to);
    forall sid | sid in Flat(p)
      ensures sid in Flat(q)
      ensures Flat(q)[sid] == RenamedIn(Flat(p)[sid], Flat(p)[sid], from, to) <==> !HidesName(p, sid, from)
    {
      RenamedAsSeen(p, sid, from, to);
    }
  }

  lemma HidesAfterGet(p: Package, name: string, sid: string, from: string)
    requires WellFormed(p) && sid in Flat(p)
    ensures var q := GetSection(p, name).0;
      HidesName(q, sid, from) <==> sid != name && HidesName(p, sid, from)
  {
    AfterGet(p, name, sid);
    ListedIsFlat(p, sid);
  }

  /** Renaming, on the store before the call: a section that is called like the new name hides nothing. */
  lemma RenamingIsExact(p: Package, zones: seq<string>, refs: seq<string>, from: string, to: string)
    requires WellFormed(p) && to != "" && from != to
    requires var q := GetSection(p, to).0;
      Enumerates(zones, ZonesNamed(q, from)) && Enumerates(refs, Referring(q, Some(Text(from))))
    ensures var q := GetSection(p, to).0;
      var r := RenameEach(q, q, zones, from, to);
      var done := RenameEach(r, r, refs, from, to);
      (forall sid :: sid in Flat(p) ==>
         sid in Flat(done) && Flat(done)[sid] == RenamedIn(Flat(p)[sid], Flat(p)[sid], from, to)) <==>
        forall sid :: sid in Flat(p) && sid != to ==> !HidesName(p, sid, from)
  {
    var q := GetSection(p, to).0;
    GetSectionRefines(p, to);
    assert Flat(q) == Flat(p);
    RenameZoneIsExact(q, zones, refs, from, to);
    forall sid | sid in Flat(p) ensures HidesName(q, sid, from) <==> sid != to && HidesName(p, sid, from) {
      HidesAfterGet(p, to, sid, from);
    }
  }

  /** The rename writes back a source that the user has unset. */
  lemma RenameRestoresUnset(p: Package, zones: seq<string>, refs: seq<string>, from: string, to: string, sid: string)
    requires WellFormed(p) && to != "" && from != to && Enumerates(zones, ZonesNamed(p, from))
    requires Enumerates(refs, Referring(p, Some(Text(from))))
    requires sid in Live(p) && sid !in p.N() && "src" in UnsetOf(p, sid) && Points(Listed(p, sid), "src", from)
    ensures var r := RenameEach(p, p, zones, from, to);
      var q := RenameEach(r, r, refs, from, to);
      GetOption(p, sid, "src") == None && GetOption(q, sid, "src") == Some(Text(to))
  {
    RenameZoneEffect(p, zones, refs, from, to);
    var r := RenameEach(p, p, zones, from, to);
    var q := RenameEach(r, r, refs, from, to);
    SourceIsWritten(p, q, sid, from, to);
  }

  lemma SourceIsWritten(p: Package, q: Package, sid: string, from: string, to: string)
    requires WellFormed(p) && WellFormed(q) && sid in Live(p) && sid in Flat(p) && sid in Flat(q)
    requires sid !in p.N() && "src" in UnsetOf(p, sid) && Points(Listed(p, sid), "src", from)
    requires Flat(q)[sid] == RenamedIn(Flat(p)[sid], Listed(p, sid), from, to)
    ensures GetOption(p, sid, "src") == None && GetOption(q, sid, "src") == Some(Text(to))
  {
    ListedIsFlat(p, sid);
    GetReadsFlat(p, sid, "src");
    GetReadsFlat(q, sid, "src");
  }

  lemma NoOldReference(p: Package, sid: string, from: string, to: string)
    requires WellFormed(p) && sid in Flat(p) && sid in Live(p) && from != to
    ensures !RefersTo(RenamedIn(Flat(p)[sid], Listed(p, sid), from, to), Some(Text(from)))
  {
    ListedIsFlat(p, sid);
    RenamedRefersNot(Flat(p)[sid], Listed(p, sid), UnsetOf(p, sid), from, to);
  }

  lemma RenamedRefersNot(s: Section, shown: Section, unset: set<string>, from: string, to: string)
    requires KindIn(shown) == KindIn(s) && from != to
    requires forall opt :: opt !in unset ==> Lookup(shown, opt) == Lookup(s, opt)
    requires forall opt :: opt in unset ==> opt !in s || Lookup(shown, opt) == Lookup(s, opt)
    ensures !RefersTo(RenamedIn(s, shown, from, to), Some(Text(from)))
  {
    var t := RenamedIn(s, shown, from, to);
    assert KindIn(t) == KindIn(s);
    if KindIn(s) in {"rule", "redirect", "forwarding"} {
      assert Lookup(t, "src") == if Points(shown, "src", from) then Some(Text(to)) else Lookup(s, "src");
      assert Lookup(t, "dest") == if Points(shown, "dest", from) then Some(Text(to)) else Lookup(s, "dest");
    }
  }

  /** `lookupZone(name) != null`; it fetches a whole section on the way. */
  method ZoneExists(store: Store, name: string) returns (present: bool)
    requires WellFormed(store.Pkg(CONF)) && store.Pkg(CONF).values.Some?
    modifies store`values
    ensures var p := GetSection(old(store.Pkg(CONF)), name).0;
      var own := GetSection(old(store.Pkg(CONF)), name).1;
      && store.Became(CONF, p)
      && (present <==> (own.Some? && KindIn(own.value) == "zone") || ZonesNamed(p, name) != {})
  {
    GetSectionRefines(store.Pkg(CONF), name);
    var section := store.GetSection(CONF, name);
    ghost var p := store.Pkg(CONF);
    if section.Some? && KindIn(section.value) == "zone" {
      return true;
    }
    var ids, _ := NamedZones(store, name);
    present := ids != [];
    assert present ==> ids[0] in ZonesNamed(p, name);
  }

  method RenameListed(store: Store, sids: seq<string>, rows: seq<Section>, ghost base: Package, from: string,
                      to: string)
    requires |rows| == |sids|
    requires forall i :: 0 <= i < |sids| ==> SameRow(rows[i], Listed(base, sids[i]))
    modifies store`creates, store`changes, store`deletes
    ensures store.Became(CONF, RenameEach(old(store.Pkg(CONF)), base, sids, from, to))
  {
    ghost var p := store.Pkg(CONF);
    for i := 0 to |sids|
      invariant store.Became(CONF, RenameEach(p, base, sids[..i], from, to))
    {
      assert sids[..i + 1][..i] == sids[..i];
      if IsZone(rows[i], from) {
        store.Set(CONF, sids[i], "name", Some(Text(to)));
      } else {
        if Points(rows[i], "src", from) {
          store.Set(CONF, sids[i], "src", Some(Text(to)));
        }
        if Points(rows[i], "dest", from) {
          store.Set(CONF, sids[i], "dest", Some(Text(to)));
        }
      }
    }
    assert sids[..|sids|] == sids;
  }

  method RenameZone(store: Store, from: Option<string>, to: Option<string>)
      returns (found: bool, ghost zones: seq<string>, ghost refs: seq<string>)
    requires WellFormed(store.Pkg(CONF)) && store.Pkg(CONF).values.Some?
    modifies store`values, store`creates, store`changes, store`deletes
    ensures from.None? || to.None? || !ZoneName(to.value) ==>
      !found && store.Became(CONF, old(store.Pkg(CONF)))
    ensures from.Some? && to.Some? && ZoneName(to.value) ==>
      var p := GetSection(old(store.Pkg(CONF)), to.value).0;
      var own := GetSection(old(store.Pkg(CONF)), to.value).1;
      var taken := (own.Some? && KindIn(own.value) == "zone") || ZonesNamed(p, to.value) != {};
      && WellFormed(p) && Flat(p) == old(Flat(store.Pkg(CONF)))
      && (found <==> !taken && ZonesNamed(p, from.value) != {})
      && (!found ==> store.Became(CONF, p))
      && (found ==>
            && from != to
            && Enumerates(zones, ZonesNamed(p, from.value))
            && Enumerates(refs, Referring(p, Some(Text(from.value))))
            && var r := RenameEach(p, p, zones, from.value, to.value);
               store.Became(CONF, RenameEach(r, r, refs, from.value, to.value)))
  {
    found, zones, refs := false, [], [];
    if from.None? || to.None? || !ZoneName(to.value) {
      return;
    }
    GetSectionRefines(store.Pkg(CONF), to.value);
    var taken := ZoneExists(store, to.value);
    if taken {
      return;
    }
    ghost var p := store.Pkg(CONF);
    var ids, rows := NamedZones(store, from.value);
    found := ids != [];
    zones := ids;
    assert found ==> ids[0] in ZonesNamed(p, from.value);
    RenameListed(store, ids, rows, p, from.value, to.value);
    if found {
      ghost var r := store.Pkg(CONF);
      RenameEachFlat(p, p, ids, from.value, to.value);
      ReferringAfterRename(p, ids, from.value, to.value);
      ids, rows := References(store, Some(Text(from.value)));
      refs := ids;
      RenameListed(store, ids, rows, r, from.value, to.value);
    }
  }
}
