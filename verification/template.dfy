/** The template language of `fmt` in `tools/firewall.js`. */
module Template {
  import opened Base
  import opened Text

  /** Template arguments: what `JSON` can hold, numbers aside. */
  datatype Val = Null | Text(text: string) | Truth(truth: bool) | List(items: seq<Val>) | Obj(fields: map<string, Val>)

  type Args = map<string, Val>

  // ---------------------------------------------------------------- values

  /** The parts of a dotted path. */
  function Path(key: string, part: string): seq<string> {
    if key == "" then [part]
    else if key[0] == '.' then [part] + Path(key[1..], "")
    else Path(key[1..], part + [key[0]])
  }

  function Follow(v: Val, names: seq<string>): Val
    decreases names
  {
    if names == [] then v
    else if v.Obj? then Follow(Lookup(v.fields, names[0]).GetOr(Null), names[1..])
    else Null
  }

  function Get(args: Args, key: string): Val {
    Follow(Obj(args), Path(Trim(key), ""))
  }

  predicate IsSet(v: Val) {
    match v
    case Null => false
    case Text(s) => s != ""
    case Truth(b) => b
    case List(items) => items != []
    case Obj(fields) => fields != map[]
  }

  /** `String(v)` */
  function Shown(v: Val): string
    decreases v, 0
  {
    match v
    case Null => ""
    case Text(s) => s
    case Truth(b) => if b then "true" else "false"
    case List(items) => ShownItems(items)
    case Obj(_) => "[object Object]"
  }

  function ShownItems(items: seq<Val>): string
    decreases items, 0
  {
    if items == [] then ""
    else if |items| == 1 then Shown(items[0])
    else Shown(items[0]) + "," + ShownItems(items[1..])
  }

  /** The words of a text, separated by white space. */
  function Words(s: string, word: string): seq<Val> {
    if s == "" then if word == "" then [] else [Text(word)]
    else if IsSpace(s[0]) then (if word == "" then [] else [Text(word)]) + Words(s[1..], "")
    else Words(s[1..], word + [s[0]])
  }

  function ToArray(v: Val): seq<Val> {
    match v
    case Null => []
    case List(items) => items
    case Obj(_) => [v]
    case Text(s) => Words(s, "")
    case Truth(b) => [Text(if b then "true" else "false")]
  }

  function LoopArgs(args: Args, items: seq<Val>, k: nat): Args
    requires k < |items|
  {
    args + map["first" := Truth(k == 0), "next" := Truth(k > 0), "last" := Truth(k + 1 == |items|), "item" := items[k]]
  }

  // ---------------------------------------------------------------- text

  predicate Special(c: char) {
    c == '{' || c == '}' || c == '?' || c == ':' || c == '#' || c == '\\'
  }

  function Escape(s: string): string {
    if s == "" then "" else (if Special(s[0]) then ['\\', s[0]] else [s[0]]) + Escape(s[1..])
  }

  function Join(ts: seq<string>): string {
    if ts == [] then "" else ts[0] + Join(ts[1..])
  }

  // ---------------------------------------------------------------- the scanner

  /** An expression up to its closing brace, or one that never closes. */
  datatype Scanned = Closed(subs: seq<string>, after: string) | Open(subs: seq<string>)

  function Total(ss: seq<string>): nat {
    if ss == [] then 0 else Total(ss[..|ss| - 1]) + |ss[|ss| - 1]|
  }

  /**
   The inner loop: `cur` is the subexpression that is being read. Braces nest, a
   backslash protects the next character, and the operators count at level 1 only.
   */
  function Scan(rest: string, cur: string, nest: nat, esc: bool, subs: seq<string>): (r: Scanned)
    requires nest > 0
    ensures r.Closed? ==> |r.after| < |rest|
    ensures r.Closed? ==> Total(r.subs) + |r.after| + 1 == Total(subs) + |cur| + |rest|
    decreases rest
  {
    if rest == "" then Open(subs)
    else
      var ch, tail := rest[0], rest[1..];
      if esc then Scan(tail, cur + [ch], nest, false, subs)
      else if ch == '\\' then Scan(tail, cur + [ch], nest, true, subs)
      else if ch == '{' then Scan(tail, cur + [ch], nest + 1, false, subs)
      else if ch == '}' then
        if nest == 1 then Snoc(subs, cur); Closed(subs + [cur], tail) else Scan(tail, cur + [ch], nest - 1, false, subs)
      else if (ch == '?' || ch == ':' || ch == '#') && nest == 1 then
        Snoc(subs, cur);
        Snoc(subs + [cur], [ch]);
        Scan(tail, "", nest, false, subs + [cur] + [[ch]])
      else Scan(tail, cur + [ch], nest, false, subs)
  }

  lemma Snoc(ss: seq<string>, s: string)
    ensures Total(ss + [s]) == Total(ss) + |s|
  {
    assert (ss + [s])[..|ss|] == ss;
  }

  // ---------------------------------------------------------------- the evaluator

  /** Tokens, the template itself where it is malformed, or a `TypeError`. */
  datatype Out = Tokens(tokens: seq<string>) | Verbatim | Raises

  predicate Starts(rest: string) {
    |rest| > 1 && rest[0] == '%' && rest[1] == '{'
  }

  function Flush(pending: string): seq<string> {
    if pending == "" then [] else [Unescape(pending)]
  }

  /** What follows is evaluated after what came before. */
  function Then(before: Out, after: Out): Out {
    if !before.Tokens? then before
    else if !after.Tokens? then after
    else Tokens(before.tokens + after.tokens)
  }

  /** A malformed nested template is a string, which `push.apply` rejects. */
  function Nested(o: Out): Out {
    if o.Verbatim? then Raises else o
  }

  /** The kind of a scanned expression: its parts are in `subs`, every second one an operator. */
  predicate IsLoop(subs: seq<string>) {
    |subs| == 3 && subs[1] == "#"
  }

  predicate IsVariable(subs: seq<string>) {
    |subs| == 1
  }

  predicate IsConditional(subs: seq<string>) {
    (|subs| == 3 && subs[1] == "?") || (|subs| == 5 && subs[1] == "?" && subs[3] == ":")
  }

  /** The template of the branch taken when the value is set: the value itself, if none is given. */
  function IfSet(subs: seq<string>): string
    requires |subs| >= 3
  {
    if subs[2] == "" then "%{" + Trim(subs[0]) + "}" else subs[2]
  }

  function Fmt(s: string, args: Args): Out
    decreases |s|, 2, 0
  {
    FmtRest(s, "", args)
  }

  /** The outer loop: `pending` is the text since the last expression. */
  function FmtRest(rest: string, pending: string, args: Args): Out
    decreases |rest|, 1, 0
  {
    if Starts(rest) then
      var e := Scan(rest[2..], "", 1, false, []);
      if e.subs == [] then Raises
      else if e.Open? || |e.subs| > 5 || Trim(e.subs[0]) == "" then Verbatim
      else
        Parts(e.subs);
        Then(Tokens(Flush(pending)), Then(FmtExpr(rest, e, args), FmtRest(e.after, "", args)))
    else if rest == "" then Tokens(Flush(pending))
    else FmtRest(rest[1..], pending + [rest[0]], args)
  }

  lemma Parts(subs: seq<string>)
    ensures |subs| == 3 ==> Total(subs) == |subs[0]| + |subs[1]| + |subs[2]|
    ensures |subs| == 5 ==> Total(subs) == |subs[0]| + |subs[1]| + |subs[2]| + |subs[3]| + |subs[4]|
  {
    if |subs| == 3 {
      assert subs == [] + [subs[0]] + [subs[1]] + [subs[2]];
      Snoc([] + [subs[0]] + [subs[1]], subs[2]);
      Snoc([] + [subs[0]], subs[1]);
      Snoc([], subs[0]);
    } else if |subs| == 5 {
      Parts(subs[..3]);
      assert subs == subs[..3] + [subs[3]] + [subs[4]];
      Snoc(subs[..3] + [subs[3]], subs[4]);
      Snoc(subs[..3], subs[3]);
    }
  }

  function FmtExpr(rest: string, e: Scanned, args: Args): Out
    requires e.Closed? && 1 <= |e.subs| <= 5 && Total(e.subs) + |e.after| + 3 == |rest|
    decreases |rest|, 0, 0
  {
    Parts(e.subs);
    var v := Get(args, Trim(e.subs[0]));
    if IsLoop(e.subs) then FmtEach(IfSet(e.subs), args, ToArray(v), 0)
    else if IsVariable(e.subs) then Tokens([Unescape(Shown(if IsSet(v) then v else Text("")))])
    else if IsConditional(e.subs) then
      if IsSet(v) then Nested(Fmt(IfSet(e.subs), args))
      else if |e.subs| == 5 then Nested(Fmt(e.subs[4], args))
      else Nested(Fmt("", args))
    else Verbatim
  }

  function FmtEach(body: string, args: Args, items: seq<Val>, k: nat): Out
    requires k <= |items|
    decreases |body|, 3, |items| - k
  {
    if k == |items| then Tokens([])
    else Then(Nested(Fmt(body, LoopArgs(args, items, k))), FmtEach(body, args, items, k + 1))
  }

  // ---------------------------------------------------------------- templates as trees

  /** A template and its meaning, independently of how it is written down. */
  datatype Tree =
    | End
    | Lit(text: string, rest: Tree)
    | Var(name: string, rest: Tree)
    | Cond(name: string, thn: Tree, hasElse: bool, els: Tree, rest: Tree)
    | Loop(name: string, body: Tree, rest: Tree)

  function VarText(args: Args, name: string): string {
    var v := Get(args, Trim(name));
    Unescape(Shown(if IsSet(v) then v else Text("")))
  }

  /** A tree without anything in it. An empty branch stands for the value itself. */
  predicate Blank(t: Tree) {
    t.End? || (t.Lit? && t.text == "" && Blank(t.rest))
  }

  function Denote(t: Tree, args: Args): string
    decreases t, 0
  {
    match t
    case End => ""
    case Lit(text, rest) => text + Denote(rest, args)
    case Var(name, rest) => VarText(args, name) + Denote(rest, args)
    case Cond(name, thn, hasElse, els, rest) =>
      (if IsSet(Get(args, Trim(name))) then
         if Blank(thn) then VarText(args, name) else Denote(thn, args)
       else if hasElse then Denote(els, args)
       else "") + Denote(rest, args)
    case Loop(name, body, rest) => DenoteEach(name, body, args, ToArray(Get(args, Trim(name))), 0) + Denote(rest, args)
  }

  function DenoteEach(name: string, body: Tree, args: Args, items: seq<Val>, k: nat): string
    requires k <= |items|
    decreases body, 1 + |items| - k
  {
    if k == |items| then ""
    else
      var inner := LoopArgs(args, items, k);
      (if Blank(body) then VarText(inner, name) else Denote(body, inner)) + DenoteEach(name, body, args, items, k + 1)
  }

  /** Names hold no special character, and are not blank. */
  predicate GoodName(name: string) {
    Trim(name) != "" && forall c :: c in name ==> !Special(c)
  }

  predicate Good(t: Tree) {
    match t
    case End => true
    case Lit(_, rest) => Good(rest)
    case Var(name, rest) => GoodName(name) && Good(rest)
    case Cond(name, thn, _, els, rest) => GoodName(name) && Good(thn) && Good(els) && Good(rest)
    case Loop(name, body, rest) => GoodName(name) && Good(body) && Good(rest)
  }

  // ---------------------------------------------------------------- scanning a printed tree

  /** From nesting level `level` on, the scanner reads `x` as it stands and is then where it was. */
  ghost predicate Transparent(x: string, level: nat) {
    forall rest: string, cur: string, nest: nat, subs: seq<string> :: nest > 0 && nest >= level ==>
      Scan(x + rest, cur, nest, false, subs) == Scan(rest, cur + x, nest, false, subs)
  }

  lemma TransparentNothing(level: nat)
    ensures Transparent("", level)
  {
    forall rest: string, cur: string, nest: nat, subs: seq<string> | nest > 0 && nest >= level
      ensures Scan("" + rest, cur, nest, false, subs) == Scan(rest, cur + "", nest, false, subs)
    {
      assert "" + rest == rest && cur + "" == cur;
    }
  }

  lemma TransparentBoth(x: string, y: string, level: nat)
    requires Transparent(x, level) && Transparent(y, level)
    ensures Transparent(x + y, level)
  {
    forall rest: string, cur: string, nest: nat, subs: seq<string> | nest > 0 && nest >= level
      ensures Scan(x + y + rest, cur, nest, false, subs) == Scan(rest, cur + (x + y), nest, false, subs)
    {
      Associative(x, y, rest);
      Associative(cur, x, y);
      assert Scan(x + (y + rest), cur, nest, false, subs) == Scan(y + rest, cur + x, nest, false, subs);
    }
  }

  lemma TransparentChar(ch: char, level: nat)
    requires ch != '\\' && ch != '{' && ch != '}' && (level >= 2 || (ch != '?' && ch != ':' && ch != '#'))
    ensures Transparent([ch], level)
  {
    forall rest: string, cur: string, nest: nat, subs: seq<string> | nest > 0 && nest >= level
      ensures Scan([ch] + rest, cur, nest, false, subs) == Scan(rest, cur + [ch], nest, false, subs)
    {
      assert ([ch] + rest)[1..] == rest;
    }
  }

  lemma TransparentEscape(ch: char, level: nat)
    ensures Transparent(['\\', ch], level)
  {
    forall rest: string, cur: string, nest: nat, subs: seq<string> | nest > 0 && nest >= level
      ensures Scan(['\\', ch] + rest, cur, nest, false, subs) == Scan(rest, cur + ['\\', ch], nest, false, subs)
    {
      assert (['\\', ch] + rest)[1..] == [ch] + rest && ([ch] + rest)[1..] == rest;
      assert cur + ['\\'] + [ch] == cur + ['\\', ch];
    }
  }

  lemma {:induction false} TransparentName(name: string, level: nat)
    requires forall c :: c in name ==> !Special(c)
    ensures Transparent(name, level)
  {
    if name == "" {
      TransparentNothing(level);
    } else {
      assert name[0] in name && name == [name[0]] + name[1..];
      TransparentChar(name[0], level);
      TransparentName(name[1..], level);
      TransparentBoth([name[0]], name[1..], level);
    }
  }

  lemma {:induction false} TransparentText(text: string, level: nat)
    ensures Transparent(Escape(text), level)
  {
    if text == "" {
      TransparentNothing(level);
    } else {
      var c := text[0];
      if Special(c) { TransparentEscape(c, level); } else { TransparentChar(c, level); }
      TransparentText(text[1..], level);
      TransparentBoth(if Special(c) then ['\\', c] else [c], Escape(text[1..]), level);
    }
  }

  /** What is transparent inside of an expression, makes an expression that is transparent anywhere. */
  lemma TransparentBraces(inner: string)
    requires Transparent(inner, 2)
    ensures Transparent("%{" + (inner + "}"), 1)
  {
    var x := "%{" + (inner + "}");
    forall rest: string, cur: string, nest: nat, subs: seq<string> | nest > 0
      ensures Scan(x + rest, cur, nest, false, subs) == Scan(rest, cur + x, nest, false, subs)
    {
      var tail := inner + ("}" + rest);
      assert x + rest == "%" + ("{" + tail);
      assert ("%" + ("{" + tail))[1..] == "{" + tail && ("{" + tail)[1..] == tail && ("}" + rest)[1..] == rest;
      assert cur + "%" + "{" == cur + "%{";
      assert Scan(tail, cur + "%{", nest + 1, false, subs) ==
        Scan("}" + rest, cur + "%{" + inner, nest + 1, false, subs);
      assert cur + "%{" + inner + "}" == cur + x;
    }
  }

  /** The text between the braces of the first expression of a tree. */
  function Inside(t: Tree): string
    requires t.Var? || t.Cond? || t.Loop?
    decreases t, 0
  {
    match t
    case Var(name, _) => name
    case Cond(name, thn, hasElse, els, _) => name + ("?" + (Print(thn) + (if hasElse then ":" + Print(els) else "")))
    case Loop(name, body, _) => name + ("#" + Print(body))
  }

  function Print(t: Tree): string
    decreases t, 1
  {
    match t
    case End => ""
    case Lit(text, rest) => Escape(text) + Print(rest)
    case Var(_, rest) => "%{" + (Inside(t) + "}") + Print(rest)
    case Cond(_, _, _, _, rest) => "%{" + (Inside(t) + "}") + Print(rest)
    case Loop(_, _, rest) => "%{" + (Inside(t) + "}") + Print(rest)
  }

  /** A printed template is read as it stands wherever it is nested. */
  lemma {:induction false} TransparentTree(t: Tree)
    requires Good(t)
    ensures Transparent(Print(t), 1)
    decreases t, 1
  {
    match t
    case End => TransparentNothing(1);
    case Lit(text, rest) =>
      TransparentText(text, 1);
      TransparentTree(rest);
      TransparentBoth(Escape(text), Print(rest), 1);
    case Var(_, rest) =>
      TransparentInside(t);
      TransparentBraces(Inside(t));
      TransparentTree(rest);
      TransparentBoth("%{" + (Inside(t) + "}"), Print(rest), 1);
    case Cond(_, _, _, _, rest) =>
      TransparentInside(t);
      TransparentBraces(Inside(t));
      TransparentTree(rest);
      TransparentBoth("%{" + (Inside(t) + "}"), Print(rest), 1);
    case Loop(_, _, rest) =>
      TransparentInside(t);
      TransparentBraces(Inside(t));
      TransparentTree(rest);
      TransparentBoth("%{" + (Inside(t) + "}"), Print(rest), 1);
  }

  lemma TransparentDeeper(x: string)
    requires Transparent(x, 1)
    ensures Transparent(x, 2)
  {
  }

  lemma {:induction false} TransparentInside(t: Tree)
    requires (t.Var? || t.Cond? || t.Loop?) && Good(t)
    ensures Transparent(Inside(t), 2)
    decreases t, 0
  {
    TransparentName(t.name, 2);
    match t
    case Var(_, _) =>
    case Loop(name, body, _) =>
      TransparentChar('#', 2);
      TransparentTree(body);
      TransparentDeeper(Print(body));
      TransparentBoth("#", Print(body), 2);
      TransparentBoth(name, "#" + Print(body), 2);
    case Cond(name, thn, hasElse, els, _) =>
      TransparentChar('?', 2);
      TransparentTree(thn);
      TransparentDeeper(Print(thn));
      TransparentNothing(2);
      if hasElse {
        TransparentChar(':', 2);
        TransparentTree(els);
        TransparentDeeper(Print(els));
        TransparentBoth(":", Print(els), 2);
      }
      var tail := if hasElse then ":" + Print(els) else "";
      TransparentBoth(Print(thn), tail, 2);
      TransparentBoth("?", Print(thn) + tail, 2);
      TransparentBoth(name, "?" + (Print(thn) + tail), 2);
  }

  /** The parts of a printed expression. */
  function PartsOf(t: Tree): seq<string>
    requires t.Var? || t.Cond? || t.Loop?
  {
    match t
    case Var(name, _) => [name]
    case Cond(name, thn, hasElse, els, _) =>
      if hasElse then [name, "?", Print(thn), ":", Print(els)] else [name, "?", Print(thn)]
    case Loop(name, body, _) => [name, "#", Print(body)]
  }

  /** An operator at level 1 ends a part. */
  lemma ScanOperator(op: char, rest: string, cur: string, subs: seq<string>)
    requires op == '?' || op == ':' || op == '#'
    ensures Scan([op] + rest, cur, 1, false, subs) == Scan(rest, "", 1, false, subs + [cur] + [[op]])
  {
    assert ([op] + rest)[1..] == rest;
  }

  lemma ScanClose(x: string, rest: string, subs: seq<string>)
    requires Transparent(x, 1)
    ensures Scan(x + ("}" + rest), "", 1, false, subs) == Closed(subs + [x], rest)
  {
    ScanPart(x, "}" + rest, subs);
    assert ("}" + rest)[1..] == rest;
  }

  /** A part, the operator that ends it, and the rest of the expression. */
  lemma ScanTwo(x: string, op: char, rest: string, subs: seq<string>)
    requires Transparent(x, 1) && (op == '?' || op == ':' || op == '#')
    ensures Scan(x + ([op] + rest), "", 1, false, subs) == Scan(rest, "", 1, false, subs + [x, [op]])
  {
    ScanPart(x, [op] + rest, subs);
    ScanOperator(op, rest, x, subs);
    assert subs + [x] + [[op]] == subs + [x, [op]];
  }

  lemma ScanThree(name: string, op: char, body: string, rest: string)
    requires Transparent(name, 1) && Transparent(body, 1) && (op == '?' || op == '#')
    ensures Scan(name + ([op] + body) + ("}" + rest), "", 1, false, []) == Closed([name, [op], body], rest)
  {
    Associative([op], body, "}" + rest);
    Associative(name, [op] + body, "}" + rest);
    ScanTwo(name, op, body + ("}" + rest), []);
    ScanClose(body, rest, [] + [name, [op]]);
    assert [] + [name, [op]] + [body] == [name, [op], body];
  }

  lemma ScanFive(name: string, thn: string, els: string, rest: string)
    requires Transparent(name, 1) && Transparent(thn, 1) && Transparent(els, 1)
    ensures Scan(name + ("?" + (thn + (":" + els))) + ("}" + rest), "", 1, false, []) ==
      Closed([name, "?", thn, ":", els], rest)
  {
    var close := "}" + rest;
    Associative(":", els, close);
    Associative(thn, ":" + els, close);
    Associative("?", thn + (":" + els), close);
    Associative(name, "?" + (thn + (":" + els)), close);
    ScanTwo(name, '?', thn + (":" + (els + close)), []);
    ScanTwo(thn, ':', els + close, [] + [name, "?"]);
    ScanClose(els, rest, [] + [name, "?"] + [thn, ":"]);
    assert [] + [name, "?"] + [thn, ":"] + [els] == [name, "?", thn, ":", els];
  }

  /** The scanner finds exactly the parts that were printed. */
  lemma ScanExpression(t: Tree, rest: string)
    requires (t.Var? || t.Cond? || t.Loop?) && Good(t)
    ensures Scan(Inside(t) + ("}" + rest), "", 1, false, []) == Closed(PartsOf(t), rest)
  {
    TransparentName(t.name, 1);
    match t
    case Var(name, _) =>
      ScanClose(name, rest, []);
    case Loop(name, body, _) =>
      TransparentTree(body);
      ScanThree(name, '#', Print(body), rest);
    case Cond(name, thn, hasElse, els, _) =>
      TransparentTree(thn);
      TransparentTree(els);
      if hasElse {
        ScanFive(name, Print(thn), Print(els), rest);
      } else {
        assert Print(thn) + "" == Print(thn);
        ScanThree(name, '?', Print(thn), rest);
      }
  }

  lemma ScanPart(x: string, rest: string, subs: seq<string>)
    requires Transparent(x, 1)
    ensures Scan(x + rest, "", 1, false, subs) == Scan(rest, x, 1, false, subs)
  {
    assert Scan(x + rest, "", 1, false, subs) == Scan(rest, "" + x, 1, false, subs);
    assert "" + x == x;
  }

  // ---------------------------------------------------------------- the meaning of a printed tree

  lemma {:induction false} UnescapeEscape(s: string)
    ensures Unescape(Escape(s)) == s
  {
    if s != "" {
      UnescapeEscape(s[1..]);
      var e := Escape(s);
      if Special(s[0]) {
        assert e[2..] == Escape(s[1..]);
      } else {
        assert e[1..] == Escape(s[1..]);
      }
      assert s == [s[0]] + s[1..];
    }
  }

  lemma {:induction false} EscapeAppend(a: string, b: string)
    ensures Escape(a + b) == Escape(a) + Escape(b)
  {
    if a == "" {
      assert a + b == b;
    } else {
      assert (a + b)[0] == a[0] && (a + b)[1..] == a[1..] + b;
      EscapeAppend(a[1..], b);
    }
  }

  /** Text without an expression in it goes to the pending text. */
  lemma {:induction false} PassText(text: string, rest: string, pending: string, args: Args)
    requires rest != "" ==> rest[0] != '{'
    ensures FmtRest(Escape(text) + rest, pending, args) == FmtRest(rest, pending + Escape(text), args)
  {
    if text == "" {
      assert Escape(text) + rest == rest && pending + Escape(text) == pending;
    } else {
      var c, more := text[0], Escape(text[1..]);
      var head := if Special(c) then ['\\', c] else [c];
      TailIsNoBrace(text[1..], rest);
      PassChar(c, more + rest, pending, args);
      PassText(text[1..], rest, pending + head, args);
      Associative(head, more, rest);
      Associative(pending, head, more);
    }
  }

  lemma PassChar(c: char, tail: string, pending: string, args: Args)
    requires tail != "" ==> tail[0] != '{'
    ensures var head := if Special(c) then ['\\', c] else [c];
      FmtRest(head + tail, pending, args) == FmtRest(tail, pending + head, args)
  {
    if Special(c) {
      assert (['\\', c] + tail)[1..] == [c] + tail && ([c] + tail)[1..] == tail;
      assert pending + ['\\'] + [c] == pending + ['\\', c];
    } else {
      assert ([c] + tail)[1..] == tail;
    }
  }

  lemma TailIsNoBrace(text: string, rest: string)
    requires rest != "" ==> rest[0] != '{'
    ensures var tail := Escape(text) + rest; tail != "" ==> tail[0] != '{'
  {
  }

  lemma PrintIsNoBrace(t: Tree)
    ensures Print(t) != "" ==> Print(t)[0] != '{'
  {
    if t.Lit? {
      PrintIsNoBrace(t.rest);
      TailIsNoBrace(t.text, Print(t.rest));
    }
  }

  lemma {:induction false} JoinAppend(a: seq<string>, b: seq<string>)
    ensures Join(a + b) == Join(a) + Join(b)
  {
    if a == [] {
      assert a + b == b;
    } else {
      assert (a + b)[1..] == a[1..] + b;
      JoinAppend(a[1..], b);
    }
  }

  lemma {:induction false} BlankPrints(t: Tree)
    ensures Blank(t) <==> Print(t) == ""
  {
    if t.Lit? { BlankPrints(t.rest); }
  }

  /** The evaluator gives tokens that join to `text`. */
  predicate Yields(o: Out, text: string) {
    o.Tokens? && Join(o.tokens) == text
  }

  lemma ThenYields(a: Out, x: string, b: Out, y: string)
    requires Yields(a, x) && Yields(b, y)
    ensures Yields(Then(a, b), x + y)
  {
    JoinAppend(a.tokens, b.tokens);
  }

  lemma FlushYields(text: string)
    ensures Yields(Tokens(Flush(Escape(text))), text)
  {
    UnescapeEscape(text);
    if text != "" {
      assert Escape(text) != "";
      assert Join([text]) == text + Join([]);
    }
  }

  lemma {:induction false} TrimLeftProperties(s: string)
    ensures forall c :: c in TrimLeft(s) ==> c in s
    ensures TrimLeft(s) != "" ==> !IsSpace(TrimLeft(s)[0])
  {
    if s != "" && IsSpace(s[0]) { TrimLeftProperties(s[1..]); }
  }

  lemma {:induction false} TrimRightProperties(s: string)
    ensures forall c :: c in TrimRight(s) ==> c in s
    ensures TrimRight(s) != "" ==> TrimRight(s)[0] == s[0] && !IsSpace(TrimRight(s)[|TrimRight(s)| - 1])
  {
    if s != "" && IsSpace(s[|s| - 1]) { TrimRightProperties(s[..|s| - 1]); }
  }

  lemma TrimTwice(s: string)
    ensures Trim(Trim(s)) == Trim(s)
    ensures forall c :: c in Trim(s) ==> c in s
  {
    TrimLeftProperties(s);
    TrimRightProperties(TrimLeft(s));
  }

  /** One expression at the front of the rest: the text before it, its own value and what follows. */
  lemma EvalExpression(t: Tree, more: string, before: string, args: Args)
    requires (t.Var? || t.Cond? || t.Loop?) && Good(t)
    ensures var rest := "%{" + (Inside(t) + "}") + more;
      var e := Scanned.Closed(PartsOf(t), more);
      && Total(e.subs) + |more| + 3 == |rest|
      && FmtRest(rest, before, args) ==
           Then(Tokens(Flush(before)), Then(FmtExpr(rest, e, args), FmtRest(more, "", args)))
  {
    var rest := "%{" + (Inside(t) + "}") + more;
    assert rest == "%{" + (Inside(t) + ("}" + more));
    assert Starts(rest) && rest[2..] == Inside(t) + ("}" + more);
    ScanExpression(t, more);
  }

  /** The branch that is used when none is given: the value itself. */
  lemma EvalOwnValue(name: string, args: Args)
    requires GoodName(name)
    ensures Yields(Fmt("%{" + Trim(name) + "}", args), VarText(args, name))
  {
    TrimTwice(name);
    var t := Var(Trim(name), End);
    var text := "%{" + Trim(name) + "}";
    assert text == "%{" + (Inside(t) + "}") + "";
    EvalExpression(t, "", "", args);
    Parts([Trim(name)]);
    assert Join([VarText(args, name)]) == VarText(args, name) + Join([]);
    ThenYields(Tokens([VarText(args, name)]), VarText(args, name), Tokens([]), "");
    ThenYields(Tokens([]), "", Tokens([VarText(args, name)] + []), VarText(args, name) + "");
    assert "" + (VarText(args, name) + "") == VarText(args, name);
  }

  /** The branch of a set value, written or left empty. */
  lemma EvalIfSet(t: Tree, branch: Tree, args: Args)
    requires ((t.Cond? && branch == t.thn) || (t.Loop? && branch == t.body)) && Good(t)
    requires !Blank(branch) ==> Yields(Fmt(Print(branch), args), Denote(branch, args))
    ensures Yields(Fmt(IfSet(PartsOf(t)), args), if Blank(branch) then VarText(args, t.name) else Denote(branch, args))
  {
    BlankPrints(branch);
    if Blank(branch) { EvalOwnValue(t.name, args); }
  }

  /** The evaluator computes the meaning of every printed template. */
  lemma {:induction false} EvalTree(t: Tree, before: string, args: Args)
    requires Good(t)
    ensures Yields(FmtRest(Print(t), Escape(before), args), before + Denote(t, args))
    decreases t, 2
  {
    match t
    case End =>
      FlushYields(before);
      assert before + "" == before;
    case Lit(text, rest) =>
      PrintIsNoBrace(rest);
      PassText(text, Print(rest), Escape(before), args);
      EscapeAppend(before, text);
      EvalTree(rest, before + text, args);
      Associative(before, text, Denote(rest, args));
    case Var(_, rest) => EvalStep(t, rest, before, args);
    case Cond(_, _, _, _, rest) => EvalStep(t, rest, before, args);
    case Loop(_, _, rest) => EvalStep(t, rest, before, args);
  }

  /** What an expression alone means. */
  function Own(t: Tree, args: Args): string
    requires t.Var? || t.Cond? || t.Loop?
  {
    match t
    case Var(name, _) => VarText(args, name)
    case Cond(name, thn, hasElse, els, _) =>
      if IsSet(Get(args, Trim(name))) then
        if Blank(thn) then VarText(args, name) else Denote(thn, args)
      else if hasElse then Denote(els, args)
      else ""
    case Loop(name, body, _) => DenoteEach(name, body, args, ToArray(Get(args, Trim(name))), 0)
  }

  lemma {:induction false} EvalStep(t: Tree, rest: Tree, before: string, args: Args)
    requires (t.Var? || t.Cond? || t.Loop?) && Good(t) && rest == t.rest
    ensures Yields(FmtRest(Print(t), Escape(before), args), before + Denote(t, args))
    decreases t, 1
  {
    var text := Print(t);
    var e := Scanned.Closed(PartsOf(t), Print(rest));
    EvalExpression(t, Print(rest), Escape(before), args);
    EvalOwn(t, text, e, args);
    EvalTree(rest, "", args);
    assert "" + Denote(rest, args) == Denote(rest, args);
    FlushYields(before);
    var own, more := FmtExpr(text, e, args), FmtRest(Print(rest), "", args);
    ThenYields(own, Own(t, args), more, Denote(rest, args));
    ThenYields(Tokens(Flush(Escape(before))), before, Then(own, more), Own(t, args) + Denote(rest, args));
  }

  lemma {:induction false} EvalOwn(t: Tree, text: string, e: Scanned, args: Args)
    requires (t.Var? || t.Cond? || t.Loop?) && Good(t) && e.Closed? && e.subs == PartsOf(t)
    requires Total(e.subs) + |e.after| + 3 == |text|
    ensures Yields(FmtExpr(text, e, args), Own(t, args))
    decreases t, 0
  {
    match t
    case Var(name, _) =>
      assert Join([VarText(args, name)]) == VarText(args, name) + Join([]);
    case Cond(name, thn, hasElse, els, _) =>
      EvalWhole(thn, args);
      EvalIfSet(t, thn, args);
      EvalWhole(els, args);
      EvalChoice(t, text, e, args);
    case Loop(name, body, _) =>
      var items := ToArray(Get(args, Trim(name)));
      forall i: nat | i < |items|
        ensures var own := LoopArgs(args, items, i); Yields(Fmt(IfSet(PartsOf(t)), own), OwnOfItem(name, body, own))
      {
        EvalWhole(body, LoopArgs(args, items, i));
        EvalIfSet(t, body, LoopArgs(args, items, i));
      }
      EachYields(name, body, IfSet(PartsOf(t)), items, 0, args);
  }

  lemma EvalChoice(t: Tree, text: string, e: Scanned, args: Args)
    requires t.Cond? && e.Closed? && e.subs == PartsOf(t) && Total(e.subs) + |e.after| + 3 == |text|
    requires Yields(Fmt(IfSet(PartsOf(t)), args), if Blank(t.thn) then VarText(args, t.name) else Denote(t.thn, args))
    requires Yields(Fmt(Print(t.els), args), Denote(t.els, args))
    ensures Yields(FmtExpr(text, e, args), Own(t, args))
  {
    assert Fmt("", args) == Tokens([]);
  }

  lemma {:induction false} EvalWhole(t: Tree, args: Args)
    requires Good(t)
    ensures Yields(Fmt(Print(t), args), Denote(t, args))
    decreases t, 3
  {
    EvalTree(t, "", args);
    assert "" + Denote(t, args) == Denote(t, args);
  }

  /** What a loop gives for one item. */
  function OwnOfItem(name: string, body: Tree, args: Args): string {
    if Blank(body) then VarText(args, name) else Denote(body, args)
  }

  lemma {:induction false} EachYields(name: string, body: Tree, text: string, items: seq<Val>, k: nat, args: Args)
    requires k <= |items|
    requires forall i: nat :: k <= i < |items| ==>
      Yields(Fmt(text, LoopArgs(args, items, i)), OwnOfItem(name, body, LoopArgs(args, items, i)))
    ensures Yields(FmtEach(text, args, items, k), DenoteEach(name, body, args, items, k))
    decreases |items| - k
  {
    if k < |items| {
      EachYields(name, body, text, items, k + 1, args);
      OneYields(name, body, text, items, k, args);
    }
  }

  lemma OneYields(name: string, body: Tree, text: string, items: seq<Val>, k: nat, args: Args)
    requires k < |items|
    requires Yields(Fmt(text, LoopArgs(args, items, k)), OwnOfItem(name, body, LoopArgs(args, items, k)))
    requires Yields(FmtEach(text, args, items, k + 1), DenoteEach(name, body, args, items, k + 1))
    ensures Yields(FmtEach(text, args, items, k), DenoteEach(name, body, args, items, k))
  {
    var inner := LoopArgs(args, items, k);
    ThenYields(Fmt(text, inner), OwnOfItem(name, body, inner),
               FmtEach(text, args, items, k + 1), DenoteEach(name, body, args, items, k + 1));
    EachUnfolds(text, args, items, k);
    DenoteUnfolds(name, body, args, items, k);
  }

  lemma EachUnfolds(body: string, args: Args, items: seq<Val>, k: nat)
    requires k < |items|
    ensures FmtEach(body, args, items, k) ==
      Then(Nested(Fmt(body, LoopArgs(args, items, k))), FmtEach(body, args, items, k + 1))
  {
  }

  lemma DenoteUnfolds(name: string, body: Tree, args: Args, items: seq<Val>, k: nat)
    requires k < |items|
    ensures var inner := LoopArgs(args, items, k);
      DenoteEach(name, body, args, items, k) ==
        (if Blank(body) then VarText(inner, name) else Denote(body, inner)) + DenoteEach(name, body, args, items, k + 1)
  {
  }

  // ---------------------------------------------------------------- the loops

  /** The inner loop, from the character behind the opening brace; `j` ends at the closing brace. */
  method ScanExpr(fmtstr: string, start: nat) returns (subs: seq<string>, nest: nat, j: nat)
    requires start <= |fmtstr|
    ensures nest == 0 ==> start <= j < |fmtstr|
    ensures Scan(fmtstr[start..], "", 1, false, []) == if nest == 0 then Closed(subs, fmtstr[j + 1..]) else Open(subs)
  {
    var off, esc := start, false;
    j, nest, subs := start, 1, [];
    assert fmtstr[start..start] == "";
    while j < |fmtstr|
      invariant start <= off <= j <= |fmtstr| && nest > 0
      invariant Scan(fmtstr[start..], "", 1, false, []) == Scan(fmtstr[j..], fmtstr[off..j], nest, esc, subs)
    {
      var ch := fmtstr[j];
      ScanUnfolds(fmtstr, off, j, nest, esc, subs);
      if esc {
        esc := false;
      } else if ch == '\\' {
        esc := true;
      } else if ch == '{' {
        nest := nest + 1;
      } else if ch == '}' {
        nest := nest - 1;
        if nest == 0 {
          subs := subs + [fmtstr[off..j]];
          return;
        }
      } else if (ch == '?' || ch == ':' || ch == '#') && nest == 1 {
        subs := subs + [fmtstr[off..j]] + [[ch]];
        off := j + 1;
      }
      j := j + 1;
    }
  }

  lemma ScanStep(s: string, off: nat, j: nat)
    requires off <= j < |s|
    ensures s[j..][0] == s[j] && s[j..][1..] == s[j + 1..]
    ensures s[off..j] + [s[j]] == s[off..j + 1] && s[j + 1..j + 1] == ""
  {
  }

  /** One round of the scanner, in terms of positions. */
  lemma ScanUnfolds(s: string, off: nat, j: nat, nest: nat, esc: bool, subs: seq<string>)
    requires off <= j < |s| && nest > 0
    ensures var ch, tail, cur := s[j], s[j + 1..], s[off..j + 1];
      var r := Scan(s[j..], s[off..j], nest, esc, subs);
      if esc then r == Scan(tail, cur, nest, false, subs)
      else if ch == '\\' then r == Scan(tail, cur, nest, true, subs)
      else if ch == '{' then r == Scan(tail, cur, nest + 1, false, subs)
      else if ch == '}' then
        r == if nest == 1 then Closed(subs + [s[off..j]], tail) else Scan(tail, cur, nest - 1, false, subs)
      else if (ch == '?' || ch == ':' || ch == '#') && nest == 1 then
        r == Scan(tail, s[j + 1..j + 1], nest, false, subs + [s[off..j]] + [[ch]])
      else r == Scan(tail, cur, nest, false, subs)
  {
    ScanStep(s, off, j);
    var rest := s[j..];
    assert rest != "" && rest[0] == s[j] && rest[1..] == s[j + 1..];
  }

  lemma ThenTokens(tokens: seq<string>, more: seq<string>, o: Out)
    ensures Then(Tokens(tokens), Then(Tokens(more), o)) == Then(Tokens(tokens + more), o)
  {
    if o.Tokens? { Associative(tokens, more, o.tokens); }
  }

  method Format(fmtstr: string, args: Args) returns (out: Out)
    ensures out == Fmt(fmtstr, args)
    decreases |fmtstr|, 2, 0
  {
    var i: nat, last: nat, tokens := 0, 0, [];
    assert fmtstr[0..] == fmtstr && fmtstr[0..0] == "";
    NothingBefore(FmtRest(fmtstr, "", args));
    while i <= |fmtstr|
      invariant last <= i <= |fmtstr| + 1 && last <= |fmtstr|
      invariant i <= |fmtstr| ==>
        Fmt(fmtstr, args) == Then(Tokens(tokens), FmtRest(fmtstr[i..], fmtstr[last..i], args))
      invariant i > |fmtstr| ==> Fmt(fmtstr, args) == Tokens(tokens)
    {
      ghost var rest, pending := fmtstr[i..], fmtstr[last..i];
      if i + 1 < |fmtstr| && fmtstr[i] == '%' && fmtstr[i + 1] == '{' {
        var text := if i > last then [Unescape(fmtstr[last..i])] else [];
        var own, next := FormatAt(fmtstr, i, pending, args);
        if !own.Tokens? {
          return own;
        }
        ThenTokens(tokens, text + own.tokens, FmtRest(fmtstr[next..], "", args));
        tokens := tokens + (text + own.tokens);
        i, last := next, next;
        assert fmtstr[i..i] == "";
      } else if i >= |fmtstr| {
        assert rest == "" && fmtstr[last..] == pending;
        EmptyIsUnit(tokens);
        if i > last {
          tokens := tokens + [Unescape(fmtstr[last..])];
        }
        i := i + 1;
      } else {
        ScanStep(fmtstr, last, i);
        i := i + 1;
      }
    }
    out := Tokens(tokens);
  }

  /** The expression that starts at `i`: what it gives, and where it ends. */
  method FormatAt(fmtstr: string, i: nat, ghost pending: string, args: Args) returns (own: Out, next: nat)
    requires i + 1 < |fmtstr| && fmtstr[i] == '%' && fmtstr[i + 1] == '{'
    ensures i < next <= |fmtstr|
    ensures FmtRest(fmtstr[i..], pending, args) ==
      if !own.Tokens? then own else Then(Tokens(Flush(pending) + own.tokens), FmtRest(fmtstr[next..], "", args))
    decreases |fmtstr|, 1, 0
  {
    ghost var rest := fmtstr[i..];
    assert Starts(rest) && rest[2..] == fmtstr[i + 2..];
    next := i + 1;
    var subs, nest, j := ScanExpr(fmtstr, i + 2);
    if subs == [] {
      own := Raises;
    } else if nest != 0 || |subs| > 5 || Trim(subs[0]) == "" {
      own := Verbatim;
    } else {
      ghost var e := Scanned.Closed(subs, fmtstr[j + 1..]);
      own := FormatExpr(rest, e, subs, args);
      next := j + 1;
      AfterFlush(Flush(pending), own, FmtRest(e.after, "", args));
    }
  }

  lemma AfterFlush(text: seq<string>, own: Out, more: Out)
    ensures Then(Tokens(text), Then(own, more)) == if !own.Tokens? then own else Then(Tokens(text + own.tokens), more)
  {
    if own.Tokens? { ThenTokens(text, own.tokens, more); }
  }

  lemma NothingBefore(o: Out)
    ensures Then(Tokens([]), o) == o
  {
    if o.Tokens? { EmptyIsUnit(o.tokens); }
  }

  /** The branches for one expression. */
  method FormatExpr(ghost rest: string, ghost e: Scanned, subs: seq<string>, args: Args) returns (own: Out)
    requires e.Closed? && e.subs == subs && 1 <= |subs| <= 5 && Total(subs) + |e.after| + 3 == |rest|
    ensures own == FmtExpr(rest, e, args)
    decreases |rest|, 0, 0
  {
    Parts(subs);
    var varname := Trim(subs[0]);
    if |subs| == 3 && subs[1] == "#" {
      var items := ToArray(Get(args, varname));
      own := FormatEach(IfSet(subs), args, items);
    } else if IsVariable(subs) || IsConditional(subs) {
      var val := Get(args, varname);
      if |subs| == 1 {
        own := Tokens([Unescape(Shown(if IsSet(val) then val else Text("")))]);
      } else {
        var branch := if IsSet(val) then IfSet(subs) else if |subs| == 5 then subs[4] else "";
        own := Format(branch, args);
        own := Nested(own);
      }
    } else {
      own := Verbatim;
    }
  }

  method FormatEach(body: string, args: Args, items: seq<Val>) returns (out: Out)
    ensures out == FmtEach(body, args, items, 0)
    decreases |body|, 3
  {
    var tokens := [];
    NothingBefore(FmtEach(body, args, items, 0));
    for k := 0 to |items|
      invariant FmtEach(body, args, items, 0) == Then(Tokens(tokens), FmtEach(body, args, items, k))
    {
      var o := Format(body, LoopArgs(args, items, k));
      o := Nested(o);
      if !o.Tokens? {
        return o;
      }
      ThenTokens(tokens, o.tokens, FmtEach(body, args, items, k + 1));
      tokens := tokens + o.tokens;
    }
    EmptyIsUnit(tokens);
    out := Tokens(tokens);
  }
}
