/** What the statuses of the dependency walk mean: operators, replacements, providers and the texts they come from. */
module DepsRules {
  import opened Base
  import opened Text
  import opened Version
  import opened Deps

  // ---------------------------------------------------------------- operators

  /** The results of a comparison, version first, with which an operator holds; `<` and `>` allow equality. */
  function Signs(vop: string): set<int> {
    if vop == "<<" then {-1}
    else if vop in {"<", "<="} then {-1, 0}
    else if vop == "=" then {0}
    else if vop in {">", ">="} then {0, 1}
    else if vop == ">>" then {1}
    else {}
  }

  /** The package is within the constraint; without an operator every version is. */
  predicate Within(version: string, c: Constraint) {
    c.vop == "" || Compare(version, c.ver) in Signs(c.vop)
  }

  lemma SatisfiedIsWithin(version: string, c: Constraint)
    ensures c.vop == "" || VersionSatisfied(version, c.ver, c.vop) <==> Within(version, c)
  {
  }

  /**
   A package that is in a repository and not installed is on the list of installations
   exactly when its version is within the constraint; otherwise it is reported, with the
   version that is needed and the one there is. One that is nowhere is always reported.
   */
  lemma NewPackage(t: Tables, pkg: Pkg, c: Constraint)
    requires !pkg.installed
    ensures !pkg.missing ==> (StatusOf(t, pkg, c) == Install(pkg) <==> Within(pkg.version, c))
    ensures !pkg.missing && !Within(pkg.version, c) ==>
      StatusOf(t, pkg, c) == Error(RepositoryIncompatible(pkg.name, c.ver, pkg.version))
    ensures pkg.missing ==> StatusOf(t, pkg, c) == Error(NotAvailable(pkg.name))
  {
    SatisfiedIsWithin(pkg.version, c);
  }

  predicate IsFirstAt(ps: seq<Pkg>, c: Constraint, k: int) {
    0 <= k < |ps| && Within(ps[k].version, c) && forall j :: 0 <= j < k ==> !Within(ps[j].version, c)
  }

  /** `r` is the first of the packages that is within the constraint. */
  ghost predicate IsFirst(ps: seq<Pkg>, c: Constraint, r: Pkg) {
    exists k :: IsFirstAt(ps, c, k) && ps[k] == r
  }

  lemma {:induction false} ReplacementIsFirst(ps: seq<Pkg>, c: Constraint)
    requires c.vop != ""
    ensures Replacement(ps, c).None? <==> forall p :: p in ps ==> !Within(p.version, c)
    ensures Replacement(ps, c).Some? ==> IsFirst(ps, c, Replacement(ps, c).value)
  {
    if ps != [] {
      var more := ps[1..];
      SatisfiedIsWithin(ps[0].version, c);
      ReplacementIsFirst(more, c);
      assert ps == [ps[0]] + more;
      if !Within(ps[0].version, c) && Replacement(more, c).Some? {
        var r := Replacement(more, c).value;
        var k :| IsFirstAt(more, c, k) && more[k] == r;
        assert ps[k + 1] == r && IsFirstAt(ps, c, k + 1);
      } else if Within(ps[0].version, c) {
        assert IsFirstAt(ps, c, 0);
      }
    }
  }

  /**
   An installed package is acceptable exactly when its version is within the constraint. If
   it is not, the first provider that is within it gets installed, and there is an error
   exactly when there is none.
   */
  lemma InstalledPackage(t: Tables, pkg: Pkg, c: Constraint)
    requires pkg.installed
    ensures var status := StatusOf(t, pkg, c);
      var ps := if pkg.name in t.availableProviders then t.availableProviders[pkg.name] else [];
      && (status == Acceptable <==> Within(pkg.version, c))
      && (status.Install? ==> IsFirst(ps, c, status.pkg))
      && (status.Error? <==> !Within(pkg.version, c) && forall p :: p in ps ==> !Within(p.version, c))
      && (status.Error? ==> status == Error(Incompatible(pkg.name, c.ver, pkg.version)))
  {
    SatisfiedIsWithin(pkg.version, c);
    if c.vop != "" {
      ReplacementIsFirst(Lookup(t.availableProviders, pkg.name).GetOr([]), c);
    }
  }

  /** With a lower bound a newer version fits whenever an older one does; with an upper bound, the other way round. */
  lemma BoundsAreClosed(x: string, y: string, c: Constraint)
    requires Compare(x, y) <= 0
    ensures c.vop in {">", ">=", ">>"} && Within(x, c) ==> Within(y, c)
    ensures c.vop in {"<", "<=", "<<"} && Within(y, c) ==> Within(x, c)
  {
    CmpAntisymmetric(Key(x), Key(y));
    CmpAntisymmetric(Key(c.ver), Key(y));
    CmpAntisymmetric(Key(c.ver), Key(x));
    if Compare(x, c.ver) >= 0 {
      CmpTransitive(Key(c.ver), Key(x), Key(y));
    }
    if Compare(y, c.ver) <= 0 {
      CmpTransitive(Key(x), Key(y), Key(c.ver));
    }
  }

  // ---------------------------------------------------------------- providers

  function NamesIn(ps: seq<Pkg>): set<string> {
    set p | p in ps :: p.name
  }

  function ListAt(m: map<string, seq<Pkg>>, name: string): seq<Pkg> {
    if name in m then m[name] else []
  }

  lemma {:induction false} AddedNames(names: seq<string>, ps: seq<Pkg>)
    requires NoDuplicates(names)
    ensures var all := AddNames(names, ps);
      && NoDuplicates(all) && |names| <= |all| && all[..|names|] == names
      && forall n :: n in all <==> n in names || n in NamesIn(ps)
    decreases ps
  {
    if ps != [] {
      var next := if ps[0].name in names then names else names + [ps[0].name];
      AddedNames(next, ps[1..]);
      assert ps == [ps[0]] + ps[1..];
      assert forall n :: n in next <==> n in names || n == ps[0].name;
      assert AddNames(names, ps)[..|next|][..|names|] == AddNames(names, ps)[..|names|];
    }
  }

  /** The providers of a name are those installed and those available, each once, and the installed ones come first. */
  lemma ProvidersAre(t: Tables, name: string)
    ensures var ps := Providers(t, name);
      var installed := NamesIn(ListAt(t.installedProviders, name));
      var available := NamesIn(ListAt(t.availableProviders, name));
      && Enumerates(ps, installed + available)
      && forall i, j :: 0 <= i < j < |ps| && ps[j] in installed ==> ps[i] in installed
  {
    var none: seq<string> := [];
    var a, b := ListAt(t.installedProviders, name), ListAt(t.availableProviders, name);
    AddedNames(none, a);
    var first := AddNames(none, a);
    AddedNames(first, b);
    var ps := AddNames(first, b);
    forall i, j | 0 <= i < j < |ps| && ps[j] in NamesIn(a) ensures ps[i] in NamesIn(a) {
      assert ps[j] in first;
      var k :| 0 <= k < |first| && first[k] == ps[j];
      assert ps[k] == ps[..|first|][k];
      assert ps[i] == ps[..|first|][i];
    }
  }

  lemma {:induction false} CandidatesAre(t: Tables, name: string, pkgs: seq<string>)
    ensures |Candidates(t, name, pkgs)| == |pkgs|
    ensures forall i :: 0 <= i < |pkgs| ==> Candidates(t, name, pkgs)[i] == Resolve(t, pkgs[i], name)
  {
    if pkgs != [] {
      CandidatesAre(t, name, pkgs[..|pkgs| - 1]);
    }
  }

  /** One package for each provider, the installed one if there is one; a missing one when nobody provides the name. */
  lemma ShownAre(t: Tables, name: string)
    ensures var ps, shown := Providers(t, name), Shown(t, name);
      && (ps == [] ==> shown == [Pkg(name, "", false, true, [])])
      && (ps != [] ==> |shown| == |ps| && forall i :: 0 <= i < |ps| ==>
            && (ps[i] in t.installedPkgs ==> shown[i] == t.installedPkgs[ps[i]])
            && (ps[i] !in t.installedPkgs && ps[i] in t.availablePkgs ==> shown[i] == t.availablePkgs[ps[i]])
            && (ps[i] !in t.installedPkgs && ps[i] !in t.availablePkgs ==> shown[i] == Pkg(name, "", false, false, [])))
  {
    CandidatesAre(t, name, Providers(t, name));
  }

  lemma {:induction false} AddedOnce(acc: seq<string>, ds: seq<string>)
    requires NoDuplicates(acc)
    ensures NoDuplicates(AddNew(acc, ds)) && forall d :: d in AddNew(acc, ds) <==> d in acc || d in ds
  {
    if ds != [] {
      AddedOnce(acc, ds[..|ds| - 1]);
      assert ds == ds[..|ds| - 1] + [ds[|ds| - 1]];
    }
  }

  /** What the packages of an item depend on, each string once. */
  lemma {:induction false} DependsAre(ps: seq<Pkg>)
    ensures Enumerates(Depends(ps), set p, d | p in ps && d in p.depends :: d)
  {
    if ps != [] {
      var front, last := ps[..|ps| - 1], ps[|ps| - 1];
      DependsAre(front);
      AddedOnce(Depends(front), last.depends);
      assert ps == front + [last];
    }
  }

  // ---------------------------------------------------------------- the two lists

  lemma {:induction false} ListsAre(log: seq<Status>)
    ensures forall p :: p in Installs(log) <==> Install(p) in log
    ensures forall e :: e in Problems(log) <==> Error(e) in log
  {
    if log != [] {
      ListsAre(log[..|log| - 1]);
      assert log == log[..|log| - 1] + [log[|log| - 1]];
    }
  }

  lemma {:induction false} StatusesAre(t: Tables, c: Constraint, ps: seq<Pkg>)
    ensures forall s :: s in Statuses(t, c, ps) <==> exists p :: p in ps && StatusOf(t, p, c) == s
  {
    if ps != [] {
      var front, last := ps[..|ps| - 1], ps[|ps| - 1];
      StatusesAre(t, c, front);
      assert ps == front + [last];
      forall s ensures s in Statuses(t, c, ps) <==> exists p :: p in ps && StatusOf(t, p, c) == s {
        if StatusOf(t, last, c) == s {
          assert last in ps;
        }
      }
    }
  }

  /** The status `s` comes from some package that an entry is shown with. */
  ghost predicate Given(t: Tables, order: seq<Constraint>, s: Status) {
    exists c, p :: c in order && p in Shown(t, c.name) && StatusOf(t, p, c) == s
  }

  lemma {:induction false} LogIs(t: Tables, order: seq<Constraint>, s: Status)
    ensures s in Log(t, order) <==> Given(t, order, s)
  {
    if order != [] {
      var front, last := order[..|order| - 1], order[|order| - 1];
      LogIs(t, front, s);
      StatusesAre(t, last, Shown(t, last.name));
      assert order == front + [last];
    }
  }

  /** The lists of installations and of errors hold exactly what the statuses of the entries give. */
  lemma ListsOfWalk(t: Tables, order: seq<Constraint>)
    ensures forall p :: p in Installs(Log(t, order)) <==> Given(t, order, Install(p))
    ensures forall e :: e in Problems(Log(t, order)) <==> Given(t, order, Error(e))
  {
    ListsAre(Log(t, order));
    forall s ensures s in Log(t, order) <==> Given(t, order, s) {
      LogIs(t, order, s);
    }
  }

  // ---------------------------------------------------------------- texts

  predicate Solid(s: string) {
    s != "" && forall c :: c in s ==> !IsSpace(c)
  }

  /** A constraint as it is written: the version does not start like an operator and has no parenthesis. */
  predicate Writable(c: Constraint) {
    && Solid(c.name) && Solid(c.ver) && c.vop in OPERATORS
    && ')' !in c.ver && c.ver[0] !in {'<', '>', '='}
  }

  function Written(c: Constraint): string {
    c.name + (" (" + (c.vop + (c.ver + ")")))
  }

  lemma {:induction false} VersionEnds(ver: string, n: nat)
    requires Solid(ver) && ')' !in ver && 1 <= n <= |ver|
    ensures VersionPart(ver + ")", n) == Some(ver)
    decreases |ver| - n
  {
    var s := ver + ")";
    assert s[n - 1] == ver[n - 1] && ver[n - 1] in ver;
    if n < |ver| {
      assert s[n] == ver[n] && ver[n] in ver;
      VersionEnds(ver, n + 1);
    } else {
      assert s[..n] == ver;
    }
  }

  lemma {:induction false} FirstOperator(s: string, ops: seq<string>, k: nat, ver: string)
    requires k < |ops| && s == ops[k] + (ver + ")") && (forall j :: 0 <= j < k ==> !(ops[j] <= s))
    requires Solid(ver) && ')' !in ver
    ensures OperatorPart(s, ops) == Some((ops[k], ver))
    decreases k
  {
    if k == 0 {
      assert s[|ops[0]|..] == ver + ")";
      VersionEnds(ver, 1);
    } else {
      FirstOperator(s, ops[1..], k - 1, ver);
    }
  }

  /** No operator that is earlier in the list starts the text. */
  lemma OperatorIsFound(vop: string, ver: string)
    requires vop in OPERATORS && Solid(ver) && ')' !in ver && ver[0] !in {'<', '>', '='}
    ensures OperatorPart(vop + (ver + ")"), OPERATORS) == Some((vop, ver))
  {
    var s, ops := vop + (ver + ")"), OPERATORS;
    var k :| 0 <= k < |ops| && ops[k] == vop;
    assert s[0] == vop[0] && (|vop| == 1 ==> s[1] == ver[0]) && (|vop| == 2 ==> s[1] == vop[1]);
    assert s[..1] == [s[0]] && s[..2] == [s[0], s[1]];
    forall j | 0 <= j < k ensures !(ops[j] <= s) {
      assert ops[j] != s[..|ops[j]|];
    }
    FirstOperator(s, ops, k, ver);
  }

  lemma {:induction false} NameIsFound(c: Constraint, n: nat)
    requires Writable(c) && 1 <= n <= |c.name|
    ensures Matched(Written(c), n) == Some(c)
    decreases |c.name| - n
  {
    var s, tail := Written(c), c.vop + (c.ver + ")");
    assert s[n - 1] == c.name[n - 1] && c.name[n - 1] in c.name;
    if n < |c.name| {
      assert s[n..][0] == s[n] == c.name[n] && c.name[n] in c.name;
      NameIsFound(c, n + 1);
    } else {
      var after := " (" + tail;
      assert s[n..] == after && s[..n] == c.name;
      assert after[1..] == "(" + tail && TrimLeft(after) == "(" + tail && ("(" + tail)[1..] == tail;
      OperatorIsFound(c.vop, c.ver);
      SolidIsTrimmed(c.name);
      SolidIsTrimmed(c.ver);
      SolidIsTrimmed(c.vop);
    }
  }

  lemma SolidIsTrimmed(s: string)
    requires Solid(s) || s in OPERATORS
    ensures Trim(s) == s
  {
    TrimKeeps(s);
  }

  /** A dependency is read as it is written: name, operator and version. */
  lemma ParseWritten(c: Constraint)
    requires Writable(c)
    ensures Parse(Written(c)) == c
  {
    NameIsFound(c, 1);
  }
}
