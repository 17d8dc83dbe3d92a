/** The dependency walk of `package-manager.js`. */
module Deps {
  import opened Base
  import opened Text
  import opened Version

  datatype Pkg = Pkg(name: string, version: string, installed: bool, missing: bool, depends: seq<string>)

  /** The two package lists: packages by name, and for every name the packages that provide it. */
  datatype Tables = Tables(
    installedPkgs: map<string, Pkg>, availablePkgs: map<string, Pkg>,
    installedProviders: map<string, seq<Pkg>>, availableProviders: map<string, seq<Pkg>>)

  /** A dependency with its optional version constraint. */
  datatype Constraint = Constraint(name: string, vop: string, ver: string)

  /** An entry of `info.seen`. */
  datatype Entry = Entry(what: Constraint, pkgs: seq<string>)

  datatype Problem =
    | Incompatible(name: string, ver: string, version: string)
    | RepositoryIncompatible(name: string, ver: string, version: string)
    | NotAvailable(name: string)

  datatype Status = Acceptable | Install(pkg: Pkg) | Error(problem: Problem)

  // ---------------------------------------------------------------- dependency strings

  const OPERATORS: seq<string> := ["<=", ">=", "<<", ">>", "<", ">", "="]

  /** `(.+?)\)`: at least one character up to a closing parenthesis, none of them a line break. */
  function VersionPart(s: string, n: nat): Option<string>
    requires 1 <= n
    decreases |s| - n
  {
    if n >= |s| || LineBreak(s[n - 1]) then None
    else if s[n] == ')' then Some(s[..n])
    else VersionPart(s, n + 1)
  }

  /** The alternatives of the operator group, in their order. */
  function OperatorPart(s: string, ops: seq<string>): Option<(string, string)> {
    if ops == [] then None
    else
      var ver := if ops[0] <= s then VersionPart(s[|ops[0]|..], 1) else None;
      if ver.Some? then Some((ops[0], ver.value)) else OperatorPart(s, ops[1..])
  }

  /** `\s+\(` and what follows it. */
  function ConstraintPart(s: string): Option<(string, string)> {
    var t := TrimLeft(s);
    if t != s && t != "" && t[0] == '(' then OperatorPart(t[1..], OPERATORS) else None
  }

  /** The shortest name, of `n` characters or more, that a constraint follows. */
  function Matched(s: string, n: nat): Option<Constraint>
    requires 1 <= n
    decreases |s| - n
  {
    if n >= |s| || LineBreak(s[n - 1]) then None
    else
      var c := ConstraintPart(s[n..]);
      if c.Some? then Some(Constraint(Trim(s[..n]), Trim(c.value.0), Trim(c.value.1))) else Matched(s, n + 1)
  }

  /** `/^(.+?)\s+\((<=|>=|<<|>>|<|>|=)(.+?)\)/`, or else the whole string as a name. */
  function Parse(s: string): Constraint {
    Matched(s, 1).GetOr(Constraint(Trim(s), "", ""))
  }

  // ---------------------------------------------------------------- one package

  function VersionSatisfied(ver: string, ref: string, vop: string): bool {
    var r := Compare(ver, ref);
    match vop
    case "<" => r <= 0
    case "<=" => r <= 0
    case ">" => r >= 0
    case ">=" => r >= 0
    case "<<" => r < 0
    case ">>" => r > 0
    case "=" => r == 0
    case _ => false
  }

  /** The first provider whose version is acceptable. */
  function Replacement(ps: seq<Pkg>, c: Constraint): Option<Pkg> {
    if ps == [] then None
    else if VersionSatisfied(ps[0].version, c.ver, c.vop) then Some(ps[0])
    else Replacement(ps[1..], c)
  }

  function StatusOf(t: Tables, pkg: Pkg, c: Constraint): Status {
    var ok := c.vop == "" || VersionSatisfied(pkg.version, c.ver, c.vop);
    if pkg.installed then
      if ok then Acceptable
      else
        var repl := Replacement(Lookup(t.availableProviders, pkg.name).GetOr([]), c);
        if repl.Some? then Install(repl.value) else Error(Incompatible(pkg.name, c.ver, pkg.version))
    else if !pkg.missing then
      if ok then Install(pkg) else Error(RepositoryIncompatible(pkg.name, c.ver, pkg.version))
    else Error(NotAvailable(pkg.name))
  }

  // ---------------------------------------------------------------- the graph

  function AddNames(names: seq<string>, ps: seq<Pkg>): seq<string>
    decreases ps
  {
    if ps == [] then names
    else AddNames(if ps[0].name in names then names else names + [ps[0].name], ps[1..])
  }

  /** The providers of a name, installed ones first, each once. */
  function Providers(t: Tables, name: string): seq<string> {
    AddNames(AddNames([], Lookup(t.installedProviders, name).GetOr([])), Lookup(t.availableProviders, name).GetOr([]))
  }

  /** The package behind a provider's name; a bare object when neither list has it. */
  function Resolve(t: Tables, provider: string, name: string): Pkg {
    if provider in t.installedPkgs then t.installedPkgs[provider]
    else if provider in t.availablePkgs then t.availablePkgs[provider]
    else Pkg(name, "", false, false, [])
  }

  /** The packages a dependency is shown with; a missing one when nobody provides it. */
  function Candidates(t: Tables, name: string, pkgs: seq<string>): seq<Pkg> {
    if pkgs == [] then [] else Candidates(t, name, pkgs[..|pkgs| - 1]) + [Resolve(t, pkgs[|pkgs| - 1], name)]
  }

  function Shown(t: Tables, name: string): seq<Pkg> {
    if Providers(t, name) == [] then [Pkg(name, "", false, true, [])] else Candidates(t, name, Providers(t, name))
  }

  function AddNew(acc: seq<string>, ds: seq<string>): seq<string> {
    if ds == [] then acc
    else
      var before := AddNew(acc, ds[..|ds| - 1]);
      if ds[|ds| - 1] in before then before else before + [ds[|ds| - 1]]
  }

  /** The dependencies of all of them, each string once. */
  function Depends(ps: seq<Pkg>): seq<string> {
    if ps == [] then [] else AddNew(Depends(ps[..|ps| - 1]), ps[|ps| - 1].depends)
  }

  /** `info.seen` is an Array: the names of its inherited members look seen from the start. */
  const INHERITED: set<string> := {
    "at", "concat", "constructor", "copyWithin", "entries", "every", "fill", "filter", "find", "findIndex",
    "findLast", "findLastIndex", "flat", "flatMap", "forEach", "hasOwnProperty", "includes", "indexOf",
    "isPrototypeOf", "join", "keys", "lastIndexOf", "map", "pop", "propertyIsEnumerable", "push", "reduce",
    "reduceRight", "reverse", "shift", "slice", "some", "sort", "splice", "toLocaleString", "toReversed",
    "toSorted", "toSpliced", "toString", "unshift", "valueOf", "values", "with", "__proto__", "__defineGetter__",
    "__defineSetter__", "__lookupGetter__", "__lookupSetter__"
  }

  /** A dependency string that leads somewhere: the plain string `libc` does not. */
  predicate Followed(d: string) {
    d != "libc" && Parse(d).name !in INHERITED
  }

  function Names(deps: seq<string>): set<string> {
    set d | d in deps && Followed(d) :: Parse(d).name
  }

  function Succ(t: Tables, name: string): set<string> {
    Names(Depends(Shown(t, name)))
  }

  /** A walk along `succ` that starts in `starts`. */
  ghost predicate IsPath(succ: string -> set<string>, starts: set<string>, path: seq<string>) {
    && path != []
    && if |path| == 1 then path[0] in starts
       else IsPath(succ, starts, path[..|path| - 1]) && path[|path| - 1] in succ(path[|path| - 2])
  }

  ghost predicate ReachedFrom(succ: string -> set<string>, starts: set<string>, name: string) {
    exists path :: IsPath(succ, starts, path) && path[|path| - 1] == name
  }

  lemma {:induction false} PathThrough(succ: string -> set<string>, starts: set<string>, first: string,
                                       path: seq<string>)
    requires first in starts && IsPath(succ, succ(first), path)
    ensures IsPath(succ, starts, [first] + path)
  {
    var longer := [first] + path;
    if |path| == 1 {
      assert longer[..1] == [first];
    } else {
      PathThrough(succ, starts, first, path[..|path| - 1]);
      assert longer[..|path|] == [first] + path[..|path| - 1];
    }
  }

  lemma ReachThrough(succ: string -> set<string>, starts: set<string>, first: string, name: string)
    requires first in starts && ReachedFrom(succ, succ(first), name)
    ensures ReachedFrom(succ, starts, name)
  {
    var path :| IsPath(succ, succ(first), path) && path[|path| - 1] == name;
    PathThrough(succ, starts, first, path);
    assert ([first] + path)[|path|] == name;
  }

  lemma ReachDirectly(succ: string -> set<string>, starts: set<string>, name: string)
    requires name in starts
    ensures ReachedFrom(succ, starts, name)
  {
    assert IsPath(succ, starts, [name]);
  }

  lemma {:induction false} PathMore(succ: string -> set<string>, starts: set<string>, more: set<string>,
                                    path: seq<string>)
    requires starts <= more && IsPath(succ, starts, path)
    ensures IsPath(succ, more, path)
  {
    if |path| > 1 { PathMore(succ, starts, more, path[..|path| - 1]); }
  }

  lemma ReachMore(succ: string -> set<string>, starts: set<string>, more: set<string>, name: string)
    requires starts <= more && ReachedFrom(succ, starts, name)
    ensures ReachedFrom(succ, more, name)
  {
    var path :| IsPath(succ, starts, path) && path[|path| - 1] == name;
    PathMore(succ, starts, more, path);
  }

  lemma {:induction false} ClosedHasPath(succ: string -> set<string>, starts: set<string>, names: set<string>,
                                         path: seq<string>)
    requires starts <= names && (forall n :: n in names ==> succ(n) <= names) && IsPath(succ, starts, path)
    ensures path[|path| - 1] in names
  {
    if |path| > 1 { ClosedHasPath(succ, starts, names, path[..|path| - 1]); }
  }

  function Graph(t: Tables): string -> set<string> {
    name => Succ(t, name)
  }

  /** `name` is named by `deps`, directly or through the dependencies of what they name. */
  ghost predicate Reachable(t: Tables, deps: seq<string>, name: string) {
    ReachedFrom(Graph(t), Names(deps), name)
  }

  /** A closed set with the roots in it has everything that is reachable. */
  lemma ClosedHasReachable(t: Tables, deps: seq<string>, names: set<string>)
    requires Names(deps) <= names && forall n :: n in names ==> Succ(t, n) <= names
    ensures forall n :: Reachable(t, deps, n) ==> n in names
  {
    forall n | Reachable(t, deps, n) ensures n in names {
      var path :| IsPath(Graph(t), Names(deps), path) && path[|path| - 1] == n;
      ClosedHasPath(Graph(t), Names(deps), names, path);
    }
  }

  // ---------------------------------------------------------------- what a walk leaves behind

  function NamesOf(order: seq<Constraint>): set<string> {
    set c | c in order :: c.name
  }

  /** `order` are the entries that are in `seen1` and were not in `seen0`, each name once. */
  ghost predicate Extends(t: Tables, seen0: map<string, Entry>, seen1: map<string, Entry>, order: seq<Constraint>) {
    && (forall n :: n in seen1 <==> n in seen0 || n in NamesOf(order))
    && (forall n :: n in seen0 ==> seen1[n] == seen0[n])
    && (forall c :: c in order ==> c.name !in seen0 && seen1[c.name] == Entry(c, Providers(t, c.name)))
    && (forall i, j :: 0 <= i < j < |order| ==> order[i].name != order[j].name)
  }

  /**
   The walk from `deps`: all they name is seen, what was added is reachable from them,
   and what the added names depend on is seen as well, unless the walk is flat.
   */
  ghost predicate Walked(t: Tables, deps: seq<string>, flat: bool, seen0: map<string, Entry>,
                         seen1: map<string, Entry>, order: seq<Constraint>) {
    && Extends(t, seen0, seen1, order)
    && Names(deps) <= seen1.Keys
    && (forall c :: c in order ==> Reachable(t, deps, c.name))
    && (!flat ==> forall c :: c in order ==> Succ(t, c.name) <= seen1.Keys)
  }

  function Statuses(t: Tables, c: Constraint, ps: seq<Pkg>): seq<Status> {
    if ps == [] then [] else Statuses(t, c, ps[..|ps| - 1]) + [StatusOf(t, ps[|ps| - 1], c)]
  }

  /** The statuses of all expanded entries, in order of expansion. */
  function Log(t: Tables, order: seq<Constraint>): seq<Status> {
    if order == [] then []
    else Log(t, order[..|order| - 1]) + Statuses(t, order[|order| - 1], Shown(t, order[|order| - 1].name))
  }

  function Installs(log: seq<Status>): seq<Pkg> {
    if log == [] then []
    else Installs(log[..|log| - 1]) + match log[|log| - 1] case Install(p) => [p] case _ => []
  }

  function Problems(log: seq<Status>): seq<Problem> {
    if log == [] then []
    else Problems(log[..|log| - 1]) + match log[|log| - 1] case Error(p) => [p] case _ => []
  }

  function Accepted(log: seq<Status>): nat {
    if log == [] then 0 else Accepted(log[..|log| - 1]) + if log[|log| - 1].Acceptable? then 1 else 0
  }

  /** Every status is one entry of one list, unless it is an installed, acceptable package. */
  lemma {:induction false} EveryStatusCounts(log: seq<Status>)
    ensures |Installs(log)| + |Problems(log)| + Accepted(log) == |log|
  {
    if log != [] { EveryStatusCounts(log[..|log| - 1]); }
  }

  lemma LogSnoc(t: Tables, order: seq<Constraint>, c: Constraint)
    ensures Log(t, order + [c]) == Log(t, order) + Statuses(t, c, Shown(t, c.name))
  {
    assert (order + [c])[..|order|] == order;
  }

  lemma {:induction false} LogAppend(t: Tables, a: seq<Constraint>, b: seq<Constraint>)
    ensures Log(t, a + b) == Log(t, a) + Log(t, b)
  {
    if b == [] {
      EmptyIsUnit(a);
      EmptyIsUnit(Log(t, a));
    } else {
      var front, last := b[..|b| - 1], b[|b| - 1];
      var more := Statuses(t, last, Shown(t, last.name));
      assert b == front + [last] && a + b == (a + front) + [last];
      LogAppend(t, a, front);
      calc {
        Log(t, a + b);
      == { LogSnoc(t, a + front, last); }
        (Log(t, a) + Log(t, front)) + more;
      == { Associative(Log(t, a), Log(t, front), more); }
        Log(t, a) + (Log(t, front) + more);
      == { LogSnoc(t, front, last); }
        Log(t, a) + Log(t, b);
      }
    }
  }

  lemma {:induction false} ListsAppend(a: seq<Status>, b: seq<Status>)
    ensures Installs(a + b) == Installs(a) + Installs(b)
    ensures Problems(a + b) == Problems(a) + Problems(b)
  {
    if b == [] {
      assert a + b == a;
    } else {
      ListsAppend(a, b[..|b| - 1]);
      assert (a + b)[..|a + b| - 1] == a + b[..|b| - 1];
    }
  }

  /** The two lists, grown by what the statuses say. */
  function Grown(lists: (seq<Pkg>, seq<Problem>), log: seq<Status>): (seq<Pkg>, seq<Problem>) {
    (lists.0 + Installs(log), lists.1 + Problems(log))
  }

  lemma GrownTwice(lists: (seq<Pkg>, seq<Problem>), a: seq<Status>, b: seq<Status>)
    ensures Grown(Grown(lists, a), b) == Grown(lists, a + b)
  {
    ListsAppend(a, b);
    assert lists.0 + Installs(a) + Installs(b) == lists.0 + (Installs(a) + Installs(b));
    assert lists.1 + Problems(a) + Problems(b) == lists.1 + (Problems(a) + Problems(b));
  }

  lemma GrownNot(lists: (seq<Pkg>, seq<Problem>))
    ensures Grown(lists, []) == lists
  {
    assert lists.0 + [] == lists.0 && lists.1 + [] == lists.1;
  }

  lemma LogOne(t: Tables, c: Constraint)
    ensures Log(t, [c]) == Statuses(t, c, Shown(t, c.name))
  {
    assert [c][..0] == [];
    assert [] + Statuses(t, c, Shown(t, c.name)) == Statuses(t, c, Shown(t, c.name));
  }

  /** One status on the lists. */
  lemma GrownByOne(lists: (seq<Pkg>, seq<Problem>), s: Status)
    ensures Grown(lists, [s]) == match s
      case Acceptable => lists
      case Install(p) => (lists.0 + [p], lists.1)
      case Error(e) => (lists.0, lists.1 + [e])
  {
    assert [s][..0] == [];
    GrownNot(lists);
    assert Installs([s]) == match s case Install(p) => [p] case _ => [];
    assert Problems([s]) == match s case Error(e) => [e] case _ => [];
  }

  lemma GrownByWalk(t: Tables, lists: (seq<Pkg>, seq<Problem>), order: seq<Constraint>, c: Constraint,
                    sub: seq<Constraint>)
    ensures Grown(Grown(lists, Log(t, order)), Log(t, [c] + sub)) == Grown(lists, Log(t, order + [c] + sub))
  {
    var x, y := Log(t, order), Log(t, [c] + sub);
    assert Log(t, order + [c] + sub) == x + y by {
      LogAppend(t, order, [c] + sub);
      Associative(order, [c], sub);
    }
    GrownTwice(lists, x, y);
  }

  lemma GrownByItem(t: Tables, lists: (seq<Pkg>, seq<Problem>), c: Constraint, sub: seq<Constraint>)
    ensures Grown(Grown(lists, Statuses(t, c, Shown(t, c.name))), Log(t, sub)) == Grown(lists, Log(t, [c] + sub))
  {
    LogAppend(t, [c], sub);
    LogOne(t, c);
    GrownTwice(lists, Log(t, [c]), Log(t, sub));
  }

  // ---------------------------------------------------------------- how walks compose

  lemma NamesSnoc(deps: seq<string>, d: string)
    ensures Names(deps + [d]) == Names(deps) + if Followed(d) then {Parse(d).name} else {}
  {
  }

  /** A string that is skipped, or whose name has been seen, adds nothing. */
  lemma WalkSkips(t: Tables, deps: seq<string>, d: string, flat: bool, seen0: map<string, Entry>,
                  seen1: map<string, Entry>, order: seq<Constraint>)
    requires Walked(t, deps, flat, seen0, seen1, order)
    requires !Followed(d) || Parse(d).name in seen1
    ensures Walked(t, deps + [d], flat, seen0, seen1, order)
  {
    NamesSnoc(deps, d);
    forall c | c in order ensures Reachable(t, deps + [d], c.name) {
      ReachMore(Graph(t), Names(deps), Names(deps + [d]), c.name);
    }
  }

  lemma ExtendsTwice(t: Tables, a: map<string, Entry>, b: map<string, Entry>, c: map<string, Entry>,
                     x: seq<Constraint>, y: seq<Constraint>)
    requires Extends(t, a, b, x) && Extends(t, b, c, y)
    ensures Extends(t, a, c, x + y)
  {
    assert forall e :: e in x + y <==> e in x || e in y;
    assert NamesOf(x + y) == NamesOf(x) + NamesOf(y);
    forall i, j | 0 <= i < j < |x + y| ensures (x + y)[i].name != (x + y)[j].name {
      if i < |x| <= j { assert y[j - |x|] in y && x[i] in x && x[i].name in NamesOf(x); }
    }
  }

  lemma ExtendsOnce(t: Tables, seen: map<string, Entry>, c: Constraint)
    requires c.name !in seen
    ensures Extends(t, seen, seen[c.name := Entry(c, Providers(t, c.name))], [c])
  {
  }

  lemma ExtendsThrice(t: Tables, seen0: map<string, Entry>, seen1: map<string, Entry>, entered: map<string, Entry>,
                      seen2: map<string, Entry>, order: seq<Constraint>, c: Constraint, sub: seq<Constraint>)
    requires Extends(t, seen0, seen1, order) && c.name !in seen1 && Extends(t, entered, seen2, sub)
    requires entered == seen1[c.name := Entry(c, Providers(t, c.name))]
    ensures Extends(t, seen0, seen2, order + [c] + sub)
  {
    ExtendsOnce(t, seen1, c);
    ExtendsTwice(t, seen0, seen1, entered, order, [c]);
    ExtendsTwice(t, seen0, entered, seen2, order + [c], sub);
  }

  /** A new name is entered, and then the walk goes on from its dependencies. */
  lemma WalkExpands(t: Tables, deps: seq<string>, d: string, flat: bool, seen0: map<string, Entry>,
                    seen1: map<string, Entry>,
                    seen2: map<string, Entry>, order: seq<Constraint>, sub: seq<Constraint>)
    requires Walked(t, deps, flat, seen0, seen1, order)
    requires Followed(d) && Parse(d).name !in seen1
    requires ItemWalked(t, Parse(d), flat, seen1[Parse(d).name := Entry(Parse(d), Providers(t, Parse(d).name))],
      seen2, sub)
    ensures Walked(t, deps + [d], flat, seen0, seen2, order + [Parse(d)] + sub)
  {
    var c := Parse(d);
    ExpandedSees(t, deps, d, flat, seen0, seen1, seen2, order, sub, c);
    forall x | x in order + [c] + sub ensures Reachable(t, deps + [d], x.name) {
      ExpandedReaches(t, deps, d, order, sub, x);
    }
  }

  /** What is seen after a new name has been entered and followed. */
  lemma ExpandedSees(t: Tables, deps: seq<string>, d: string, flat: bool, seen0: map<string, Entry>,
                     seen1: map<string, Entry>,
                     seen2: map<string, Entry>, order: seq<Constraint>, sub: seq<Constraint>, c: Constraint)
    requires Walked(t, deps, flat, seen0, seen1, order) && Followed(d) && c == Parse(d) && c.name !in seen1
    requires ItemWalked(t, c, flat, seen1[c.name := Entry(c, Providers(t, c.name))], seen2, sub)
    ensures Extends(t, seen0, seen2, order + [c] + sub) && Names(deps + [d]) <= seen2.Keys
    ensures !flat ==> forall x :: x in order + [c] + sub ==> Succ(t, x.name) <= seen2.Keys
  {
    var entered := seen1[c.name := Entry(c, Providers(t, c.name))];
    NamesSnoc(deps, d);
    ExtendsThrice(t, seen0, seen1, entered, seen2, order, c, sub);
    assert seen1.Keys <= seen2.Keys;
    if !flat {
      ExpandedCloses(t, seen1, seen2, order, c, sub);
    }
  }

  lemma ExpandedCloses(t: Tables, seen1: map<string, Entry>, seen2: map<string, Entry>, order: seq<Constraint>,
                       c: Constraint, sub: seq<Constraint>)
    requires seen1.Keys <= seen2.Keys && Succ(t, c.name) <= seen2.Keys
    requires forall x :: x in order ==> Succ(t, x.name) <= seen1.Keys
    requires forall x :: x in sub ==> Succ(t, x.name) <= seen2.Keys
    ensures forall x :: x in order + [c] + sub ==> Succ(t, x.name) <= seen2.Keys
  {
    assert forall x :: x in order + [c] + sub <==> x in order || x == c || x in sub;
  }

  lemma ExpandedReaches(t: Tables, deps: seq<string>, d: string, order: seq<Constraint>, sub: seq<Constraint>,
                        x: Constraint)
    requires Followed(d) && x in order + [Parse(d)] + sub
    requires forall c :: c in order ==> Reachable(t, deps, c.name)
    requires forall c :: c in sub ==> Reachable(t, Depends(Shown(t, Parse(d).name)), c.name)
    ensures Reachable(t, deps + [d], x.name)
  {
    NamesSnoc(deps, d);
    if x in order {
      ReachMore(Graph(t), Names(deps), Names(deps + [d]), x.name);
    } else if x == Parse(d) {
      ReachDirectly(Graph(t), Names(deps + [d]), x.name);
    } else {
      ReachThrough(Graph(t), Names(deps + [d]), Parse(d).name, x.name);
    }
  }

  /** The walk below one entry: none when it is flat. */
  ghost predicate ItemWalked(t: Tables, c: Constraint, flat: bool, seen0: map<string, Entry>,
                             seen1: map<string, Entry>, sub: seq<Constraint>) {
    && Extends(t, seen0, seen1, sub)
    && if flat then sub == [] else Walked(t, Depends(Shown(t, c.name)), false, seen0, seen1, sub)
  }

  // ---------------------------------------------------------------- the walk

  class Info {
    var seen: map<string, Entry>
    var install: seq<Pkg>
    var errors: seq<Problem>

    constructor ()
      ensures seen == map[] && install == [] && errors == []
    {
      seen, install, errors := map[], [], [];
    }

    ghost function Lists(): (seq<Pkg>, seq<Problem>)
      reads this
    {
      (install, errors)
    }
  }

  method PkgStatus(t: Tables, pkg: Pkg, c: Constraint, info: Info)
    modifies info`install, info`errors
    ensures info.Lists() == Grown(old(info.Lists()), [StatusOf(t, pkg, c)])
  {
    GrownByOne(info.Lists(), StatusOf(t, pkg, c));
    if pkg.installed {
      var unfit := false;
      if c.vop != "" {
        var fits := Satisfies(pkg.version, c);
        unfit := !fits;
      }
      if unfit {
        var ps := Lookup(t.availableProviders, pkg.name).GetOr([]);
        var repl := FindReplacement(ps, c);
        if repl.Some? {
          info.install := info.install + [repl.value];
        } else {
          info.errors := info.errors + [Incompatible(pkg.name, c.ver, pkg.version)];
        }
      }
    } else if !pkg.missing {
      var fits := true;
      if c.vop != "" {
        fits := Satisfies(pkg.version, c);
      }
      if fits {
        info.install := info.install + [pkg];
      } else {
        info.errors := info.errors + [RepositoryIncompatible(pkg.name, c.ver, pkg.version)];
      }
    } else {
      info.errors := info.errors + [NotAvailable(pkg.name)];
    }
  }

  method Satisfies(ver: string, c: Constraint) returns (ok: bool)
    ensures ok == VersionSatisfied(ver, c.ver, c.vop)
  {
    var r := CompareVersion(ver, c.ver);
    match c.vop
    case "<" => ok := r <= 0;
    case "<=" => ok := r <= 0;
    case ">" => ok := r >= 0;
    case ">=" => ok := r >= 0;
    case "<<" => ok := r < 0;
    case ">>" => ok := r > 0;
    case "=" => ok := r == 0;
    case _ => ok := false;
  }

  method FindReplacement(ps: seq<Pkg>, c: Constraint) returns (repl: Option<Pkg>)
    ensures repl == Replacement(ps, c)
  {
    repl := None;
    for i := 0 to |ps|
      invariant Replacement(ps, c) == if repl.Some? then repl else Replacement(ps[i..], c)
    {
      if repl.None? {
        var ok := Satisfies(ps[i].version, c);
        if ok { repl := Some(ps[i]); }
      }
    }
  }

  /** Every name that can come up: a finite set, which bounds the recursion. */
  ghost predicate Universe(t: Tables, deps: seq<string>, names: set<string>) {
    && Names(deps) <= names
    && forall p :: p in t.installedPkgs.Values + t.availablePkgs.Values ==> Names(p.depends) <= names
  }

  lemma {:induction false} DependsKnown(t: Tables, names: set<string>, ps: seq<Pkg>)
    requires forall p :: p in ps ==> Names(p.depends) <= names
    ensures Names(Depends(ps)) <= names
  {
    if ps != [] {
      DependsKnown(t, names, ps[..|ps| - 1]);
      NewNames(Depends(ps[..|ps| - 1]), ps[|ps| - 1].depends);
    }
  }

  lemma {:induction false} NewNames(acc: seq<string>, ds: seq<string>)
    ensures forall d :: d in AddNew(acc, ds) <==> d in acc || d in ds
  {
    if ds != [] { NewNames(acc, ds[..|ds| - 1]); }
  }

  lemma {:induction false} CandidatesKnown(t: Tables, deps: seq<string>, names: set<string>, name: string,
                                           pkgs: seq<string>)
    requires Universe(t, deps, names)
    ensures forall p :: p in Candidates(t, name, pkgs) ==> Names(p.depends) <= names
  {
    if pkgs != [] {
      CandidatesKnown(t, deps, names, name, pkgs[..|pkgs| - 1]);
      var n := pkgs[|pkgs| - 1];
      assert n in t.installedPkgs ==> t.installedPkgs[n] in t.installedPkgs.Values;
      assert n in t.availablePkgs ==> t.availablePkgs[n] in t.availablePkgs.Values;
      assert Names([]) == {};
    }
  }

  /** What a package depends on stays within the known names. */
  lemma ShownKnown(t: Tables, deps: seq<string>, names: set<string>, name: string)
    requires Universe(t, deps, names)
    ensures Universe(t, Depends(Shown(t, name)), names)
  {
    CandidatesKnown(t, deps, names, name, Providers(t, name));
    assert Names([]) == {};
    DependsKnown(t, names, Shown(t, name));
  }

  /**
   The list of one level. `order` collects what it adds to `seen`, with all levels below.
   */
  method RenderDependencies(t: Tables, deps: seq<string>, info: Info, flat: bool, ghost names: set<string>)
      returns (ghost order: seq<Constraint>)
    requires Universe(t, deps, names)
    modifies info
    ensures Walked(t, deps, flat, old(info.seen), info.seen, order)
    ensures info.Lists() == Grown(old(info.Lists()), Log(t, order))
    decreases names - info.seen.Keys, 0
  {
    ghost var seen0, lists0 := info.seen, info.Lists();
    order := [];
    NothingWalked(t, flat, seen0, lists0);
    for i := 0 to |deps|
      invariant Walked(t, deps[..i], flat, seen0, info.seen, order)
      invariant info.Lists() == Grown(lists0, Log(t, order))
      invariant seen0.Keys <= info.seen.Keys
    {
      assert deps[..i + 1] == deps[..i] + [deps[i]];
      ghost var seen1 := info.seen;
      var c := Parse(deps[i]);
      if deps[i] == "libc" || c.name in INHERITED || c.name in info.seen {
        WalkSkips(t, deps[..i], deps[i], flat, seen0, seen1, order);
      } else {
        assert c.name in Names(deps);
        ghost var sub := RenderEntry(t, c, info, flat, names);
        WalkExpands(t, deps[..i], deps[i], flat, seen0, seen1, info.seen, order, sub);
        GrownByWalk(t, lists0, order, c, sub);
        order := order + [c] + sub;
      }
    }
    assert deps[..|deps|] == deps;
  }

  lemma NothingWalked(t: Tables, flat: bool, seen: map<string, Entry>, lists: (seq<Pkg>, seq<Problem>))
    ensures Walked(t, [], flat, seen, seen, [])
    ensures Grown(lists, Log(t, [])) == lists
  {
    assert Names([]) == {} && NamesOf([]) == {};
    GrownNot(lists);
  }

  /** Enters a new name and renders its item. */
  method RenderEntry(t: Tables, c: Constraint, info: Info, flat: bool, ghost names: set<string>)
      returns (ghost sub: seq<Constraint>)
    requires Universe(t, [], names) && c.name !in info.seen && c.name in names
    modifies info
    ensures ItemWalked(t, c, flat, old(info.seen)[c.name := Entry(c, Providers(t, c.name))], info.seen, sub)
    ensures info.Lists() == Grown(old(info.Lists()), Log(t, [c] + sub))
    ensures old(info.seen).Keys <= info.seen.Keys
    decreases names - (info.seen.Keys + {c.name}), 2
  {
    info.seen := info.seen[c.name := Entry(c, Providers(t, c.name))];
    sub := RenderDependencyItem(t, info.seen[c.name], info, flat, names);
  }

  method RenderDependencyItem(t: Tables, entry: Entry, info: Info, flat: bool, ghost names: set<string>)
      returns (ghost sub: seq<Constraint>)
    requires Universe(t, [], names) && entry.pkgs == Providers(t, entry.what.name)
    modifies info
    ensures ItemWalked(t, entry.what, flat, old(info.seen), info.seen, sub)
    ensures info.Lists() == Grown(old(info.Lists()), Log(t, [entry.what] + sub))
    decreases names - info.seen.Keys, 1
  {
    ghost var lists0 := info.Lists();
    var depends := RenderCandidates(t, entry, info);
    sub := [];
    if !flat {
      ShownKnown(t, [], names, entry.what.name);
      sub := RenderDependencies(t, depends, info, false, names);
    } else {
      NothingWalked(t, true, info.seen, info.Lists());
    }
    GrownByItem(t, lists0, entry.what, sub);
  }

  lemma OneMoreCandidate(t: Tables, c: Constraint, names: seq<string>, i: nat)
    requires i < |names|
    ensures var before, pkg := Candidates(t, c.name, names[..i]), Resolve(t, names[i], c.name);
      && Candidates(t, c.name, names[..i + 1]) == before + [pkg]
      && Statuses(t, c, before + [pkg]) == Statuses(t, c, before) + [StatusOf(t, pkg, c)]
      && Depends(before + [pkg]) == AddNew(Depends(before), pkg.depends)
  {
    var before, pkg := Candidates(t, c.name, names[..i]), Resolve(t, names[i], c.name);
    assert names[..i + 1][..i] == names[..i];
    assert (before + [pkg])[..|before|] == before;
  }

  /** The packages of an item: a status for each, and what they depend on. */
  method RenderCandidates(t: Tables, entry: Entry, info: Info) returns (depends: seq<string>)
    requires entry.pkgs == Providers(t, entry.what.name)
    modifies info`install, info`errors
    ensures depends == Depends(Shown(t, entry.what.name))
    ensures info.Lists() == Grown(old(info.Lists()), Statuses(t, entry.what, Shown(t, entry.what.name)))
  {
    var c := entry.what;
    ghost var lists0 := info.Lists();
    depends := [];
    GrownNot(lists0);
    for i := 0 to |entry.pkgs|
      invariant depends == Depends(Candidates(t, c.name, entry.pkgs[..i]))
      invariant info.Lists() == Grown(lists0, Statuses(t, c, Candidates(t, c.name, entry.pkgs[..i])))
    {
      var pkg := Resolve(t, entry.pkgs[i], c.name);
      ghost var before := Candidates(t, c.name, entry.pkgs[..i]);
      OneMoreCandidate(t, c, entry.pkgs, i);
      PkgStatus(t, pkg, c, info);
      GrownTwice(lists0, Statuses(t, c, before), [StatusOf(t, pkg, c)]);
      depends := AddEach(depends, pkg.depends);
    }
    assert entry.pkgs[..|entry.pkgs|] == entry.pkgs;
    if entry.pkgs == [] {
      var missing := Pkg(c.name, "", false, true, []);
      PkgStatus(t, missing, c, info);
      assert Statuses(t, c, [missing]) == Statuses(t, c, []) + [StatusOf(t, missing, c)];
      assert Depends([missing]) == AddNew(Depends([]), []);
    }
  }

  method AddEach(acc: seq<string>, ds: seq<string>) returns (r: seq<string>)
    ensures r == AddNew(acc, ds)
  {
    r := acc;
    for i := 0 to |ds|
      invariant r == AddNew(acc, ds[..i])
    {
      assert ds[..i + 1][..i] == ds[..i];
      if ds[i] !in r {
        r := r + [ds[i]];
      }
    }
    assert ds[..|ds|] == ds;
  }

  /** All names that occur in the tables or in the root list. */
  ghost function AllNames(t: Tables, roots: seq<string>): set<string> {
    Names(roots) + (set p, n | p in t.installedPkgs.Values + t.availablePkgs.Values && n in Names(p.depends) :: n)
  }

  /**
   The whole walk, from an empty `info`. It ends on every graph, cyclic or not. The
   names seen are exactly those reachable from the roots, each entered once, and the
   two lists hold the statuses of all of them in the order of expansion.
   */
  method DependencyTree(t: Tables, roots: seq<string>) returns (info: Info, ghost order: seq<Constraint>)
    ensures fresh(info)
    ensures forall n :: n in info.seen <==> Reachable(t, roots, n)
    ensures AllNeeded(t, roots, info.seen.Keys) <==> NoneInherited(t, roots)
    ensures Extends(t, map[], info.seen, order)
    ensures info.install == Installs(Log(t, order)) && info.errors == Problems(Log(t, order))
    ensures |info.install| + |info.errors| + Accepted(Log(t, order)) == |Log(t, order)|
  {
    info := new Info();
    ghost var names := AllNames(t, roots);
    forall p | p in t.installedPkgs.Values + t.availablePkgs.Values ensures Names(p.depends) <= names {
      assert forall n :: n in Names(p.depends) ==> n in names;
    }
    order := RenderDependencies(t, roots, info, false, names);
    WalkIsReachability(t, roots, info.seen, order);
    SeenIsNeeded(t, roots, info.seen.Keys);
    EveryStatusCounts(Log(t, order));
  }

  lemma WalkIsReachability(t: Tables, roots: seq<string>, seen: map<string, Entry>, order: seq<Constraint>)
    requires Walked(t, roots, false, map[], seen, order)
    ensures forall n :: n in seen <==> Reachable(t, roots, n)
  {
    forall n | n in seen ensures Succ(t, n) <= seen.Keys && Reachable(t, roots, n) {
      assert n in NamesOf(order);
      var c :| c in order && c.name == n;
    }
    ClosedHasReachable(t, roots, seen.Keys);
  }

  // ---------------------------------------------------------------- what the inherited names cost

  /** The names of a list of dependencies, without regard to what looks seen. */
  function Named(deps: seq<string>): set<string> {
    set d | d in deps && d != "libc" :: Parse(d).name
  }

  function NeedsGraph(t: Tables): string -> set<string> {
    name => Named(Depends(Shown(t, name)))
  }

  /** The roots name it, or something that they need does. */
  ghost predicate Needed(t: Tables, roots: seq<string>, name: string) {
    ReachedFrom(NeedsGraph(t), Named(roots), name)
  }

  lemma NamesAreNamed(deps: seq<string>)
    ensures Names(deps) == Named(deps) - INHERITED
  {
  }

  /** `some` and its starts are `all` and its starts without the names in `hidden`. */
  ghost predicate Hides(all: string -> set<string>, some: string -> set<string>, allStarts: set<string>,
                        someStarts: set<string>, hidden: set<string>) {
    someStarts == allStarts - hidden && forall n :: some(n) == all(n) - hidden
  }

  lemma {:induction false} HiddenPath(all: string -> set<string>, some: string -> set<string>, allStarts: set<string>,
                                      someStarts: set<string>, hidden: set<string>, path: seq<string>)
    requires Hides(all, some, allStarts, someStarts, hidden) && IsPath(some, someStarts, path)
    ensures IsPath(all, allStarts, path) && path[|path| - 1] !in hidden
  {
    if |path| > 1 {
      HiddenPath(all, some, allStarts, someStarts, hidden, path[..|path| - 1]);
      assert some(path[|path| - 2]) == all(path[|path| - 2]) - hidden;
    }
  }

  lemma {:induction false} OpenPath(all: string -> set<string>, some: string -> set<string>, allStarts: set<string>,
                                    someStarts: set<string>, hidden: set<string>, path: seq<string>)
    requires Hides(all, some, allStarts, someStarts, hidden) && IsPath(all, allStarts, path)
    requires forall n :: ReachedFrom(all, allStarts, n) ==> n !in hidden
    ensures IsPath(some, someStarts, path)
  {
    assert ReachedFrom(all, allStarts, path[|path| - 1]);
    if |path| > 1 {
      OpenPath(all, some, allStarts, someStarts, hidden, path[..|path| - 1]);
      assert some(path[|path| - 2]) == all(path[|path| - 2]) - hidden;
    }
  }

  /** What `some` reaches is all that `all` reaches if and only if `all` reaches nothing hidden. */
  lemma HidingCosts(all: string -> set<string>, some: string -> set<string>, allStarts: set<string>,
                    someStarts: set<string>, hidden: set<string>)
    requires Hides(all, some, allStarts, someStarts, hidden)
    ensures forall n :: ReachedFrom(some, someStarts, n) ==> ReachedFrom(all, allStarts, n) && n !in hidden
    ensures (forall n :: ReachedFrom(some, someStarts, n) <==> ReachedFrom(all, allStarts, n)) <==>
      forall n :: ReachedFrom(all, allStarts, n) ==> n !in hidden
  {
    forall n | ReachedFrom(some, someStarts, n) ensures ReachedFrom(all, allStarts, n) && n !in hidden {
      var path :| IsPath(some, someStarts, path) && path[|path| - 1] == n;
      HiddenPath(all, some, allStarts, someStarts, hidden, path);
    }
    if forall n :: ReachedFrom(all, allStarts, n) ==> n !in hidden {
      forall n | ReachedFrom(all, allStarts, n) ensures ReachedFrom(some, someStarts, n) {
        var path :| IsPath(all, allStarts, path) && path[|path| - 1] == n;
        OpenPath(all, some, allStarts, someStarts, hidden, path);
      }
    }
  }

  /** The names seen are exactly those needed. */
  ghost predicate AllNeeded(t: Tables, roots: seq<string>, seen: set<string>) {
    forall n :: n in seen <==> Needed(t, roots, n)
  }

  ghost predicate NoneNeeded(t: Tables, roots: seq<string>, hidden: set<string>) {
    forall n :: Needed(t, roots, n) ==> n !in hidden
  }

  /** No name that an array inherits is needed. */
  ghost predicate NoneInherited(t: Tables, roots: seq<string>) {
    NoneNeeded(t, roots, INHERITED)
  }

  lemma SeenWithout(t: Tables, roots: seq<string>, seen: set<string>, hidden: set<string>)
    requires Hides(NeedsGraph(t), Graph(t), Named(roots), Names(roots), hidden)
    requires forall n :: n in seen <==> Reachable(t, roots, n)
    ensures AllNeeded(t, roots, seen) <==> NoneNeeded(t, roots, hidden)
    ensures forall n :: n in seen ==> Needed(t, roots, n)
  {
    HidingCosts(NeedsGraph(t), Graph(t), Named(roots), Names(roots), hidden);
  }

  lemma GraphsDiffer(t: Tables, roots: seq<string>)
    ensures Hides(NeedsGraph(t), Graph(t), Named(roots), Names(roots), INHERITED)
  {
    NamesAreNamed(roots);
    forall n ensures Graph(t)(n) == NeedsGraph(t)(n) - INHERITED {
      NamesAreNamed(Depends(Shown(t, n)));
    }
  }

  /** What is seen, which is what is reachable, is all that is needed if and only if no inherited name is needed. */
  lemma SeenIsNeeded(t: Tables, roots: seq<string>, seen: set<string>)
    requires forall n :: n in seen <==> Reachable(t, roots, n)
    ensures AllNeeded(t, roots, seen) <==> NoneInherited(t, roots)
    ensures forall n :: n in seen ==> Needed(t, roots, n)
  {
    GraphsDiffer(t, roots);
    SeenWithout(t, roots, seen, INHERITED);
  }

  /** A dependency without white space is a name. */
  lemma PlainDependency(d: string)
    requires d != "" && forall i :: 0 <= i < |d| ==> !IsSpace(d[i])
    ensures Parse(d).name == d
  {
    NoConstraint(d, 1);
    TrimKeeps(d);
  }

  lemma {:induction false} NoConstraint(d: string, n: nat)
    requires 1 <= n && forall i :: 0 <= i < |d| ==> !IsSpace(d[i])
    ensures Matched(d, n) == None
    decreases |d| - n
  {
    if n < |d| {
      assert d[n..][0] == d[n];
      NoConstraint(d, n + 1);
    }
  }

  /** Whatever the tables hold: a needed package called `map` is not seen, and no status counts for it. */
  lemma MapIsNotSeen(t: Tables, roots: seq<string>)
    requires "map" in roots
    ensures Needed(t, roots, "map") && !Reachable(t, roots, "map")
  {
    var d := "map";
    PlainDependency(d);
    assert d in Named(roots);
    ReachDirectly(NeedsGraph(t), Named(roots), d);
    GraphsDiffer(t, roots);
    HidingCosts(NeedsGraph(t), Graph(t), Named(roots), Names(roots), INHERITED);
  }
}
