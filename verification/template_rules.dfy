/** What templates give, said without the evaluator's own terms: values, paths, branches and loops. */
module TemplateRules {
  import opened Base
  import Text
  import opened Template

  // ---------------------------------------------------------------- names and texts

  /** A name without dots and white space. */
  predicate Simple(name: string) {
    name != "" && forall c :: c in name ==> !Special(c) && c != '.' && !Text.IsSpace(c)
  }

  /** A text that stands for itself in a template. */
  predicate Plain(s: string) {
    s != "" && forall c :: c in s ==> !Special(c)
  }

  predicate NoBackslash(s: string) {
    '\\' !in s
  }

  lemma SimpleIsTrimmed(name: string)
    requires Simple(name)
    ensures Text.Trim(name) == name && GoodName(name)
  {
    assert name[0] in name && name[|name| - 1] in name;
    Text.TrimKeeps(name);
  }

  lemma {:induction false} PlainIsEscaped(s: string)
    requires forall c :: c in s ==> !Special(c)
    ensures Escape(s) == s
  {
    if s != "" {
      assert s[0] in s && forall c :: c in s[1..] ==> c in s;
      PlainIsEscaped(s[1..]);
      assert s == [s[0]] + s[1..];
    }
  }

  lemma {:induction false} NothingToUnescape(s: string)
    requires NoBackslash(s)
    ensures Text.Unescape(s) == s
  {
    if s != "" {
      assert s[0] in s;
      NothingToUnescape(s[1..]);
      assert s == [s[0]] + s[1..];
    }
  }

  /** An expression. */
  function Braced(inside: string): string {
    "%{" + inside + "}"
  }

  function ChoiceText(name: string, a: string, b: string): string {
    Braced(name + ("?" + (a + (":" + b))))
  }

  function LoopText(name: string, body: string): string {
    Braced(name + ("#" + body))
  }

  // ---------------------------------------------------------------- paths

  lemma {:induction false} PathOfPart(key: string, part: string)
    requires '.' !in key
    ensures Path(key, part) == [part + key]
  {
    if key == "" {
      assert part + key == part;
    } else {
      assert key[0] in key;
      PathOfPart(key[1..], part + [key[0]]);
      assert part + [key[0]] + key[1..] == part + key;
    }
  }

  lemma {:induction false} PathSplits(key: string, part: string, rest: string)
    requires '.' !in key
    ensures Path(key + ("." + rest), part) == [part + key] + Path(rest, "")
  {
    var s := key + ("." + rest);
    if key == "" {
      assert s[0] == '.' && s[1..] == rest && part + key == part;
    } else {
      assert key[0] in key && s[0] == key[0] && s[1..] == key[1..] + ("." + rest);
      PathSplits(key[1..], part + [key[0]], rest);
      assert part + [key[0]] + key[1..] == part + key;
    }
  }

  /** The value of a name, or null. */
  function ValueAt(fields: map<string, Val>, name: string): Val {
    if name in fields then fields[name] else Null
  }

  lemma OneStep(args: Args, names: seq<string>)
    requires |names| > 0
    ensures Follow(Obj(args), names) == Follow(ValueAt(args, names[0]), names[1..])
    ensures |names| == 1 ==> Follow(Obj(args), names) == ValueAt(args, names[0])
  {
  }

  lemma SimpleValue(args: Args, name: string)
    requires Simple(name)
    ensures Get(args, name) == ValueAt(args, name)
  {
    SimpleIsTrimmed(name);
    PathOfPart(name, "");
    assert "" + name == name;
    OneStep(args, Path(name, ""));
  }

  /** A dotted path goes into objects, one name after the other; everything else on the way gives null. */
  lemma DottedValue(args: Args, name: string, rest: string)
    requires Simple(name) && rest != "" && forall c :: c in rest ==> !Text.IsSpace(c)
    ensures Get(args, name + ("." + rest)) ==
      match ValueAt(args, name) { case Obj(fields) => Get(fields, rest) case _ => Null }
  {
    var key := name + ("." + rest);
    assert key[0] == name[0] && name[0] in name && key[|key| - 1] == rest[|rest| - 1] && rest[|rest| - 1] in rest;
    assert rest[0] in rest;
    Text.TrimKeeps(key);
    Text.TrimKeeps(rest);
    PathSplits(name, "", rest);
    assert "" + name == name;
    var names := Path(key, "");
    assert names == [name] + Path(rest, "") && names[0] == name && names[1..] == Path(rest, "");
    PathIsNotEmpty(rest, "");
    OneStep(args, names);
  }

  lemma {:induction false} PathIsNotEmpty(key: string, part: string)
    ensures Path(key, part) != []
  {
    if key != "" && key[0] != '.' {
      PathIsNotEmpty(key[1..], part + [key[0]]);
    }
  }

  // ---------------------------------------------------------------- a variable alone

  /** How an item of a list is written. */
  predicate ShownAs(v: Val, text: string) {
    match v
    case Null => text == ""
    case Text(own) => text == own
    case Truth(b) => text == if b then "true" else "false"
    case Obj(_) => text == "[object Object]"
    case List(_) => false
  }

  predicate TextsJoined(items: seq<Val>, texts: seq<string>)
    requires |items| == |texts|
  {
    forall i :: 0 <= i < |items| ==> ShownAs(items[i], texts[i])
  }

  lemma {:induction false} ShownTexts(items: seq<Val>, texts: seq<string>)
    requires |items| == |texts| && TextsJoined(items, texts)
    ensures ShownItems(items) == Text.Join(texts, ",")
  {
    if |items| > 1 {
      ShownTexts(items[1..], texts[1..]);
      assert Text.Join(texts, ",") == texts[0] + ("," + Text.Join(texts[1..], ","));
      Associative(texts[0], ",", Text.Join(texts[1..], ","));
    }
  }

  /** What is in the place of a variable, by the kind of its value. */
  lemma VariableShows(args: Args, name: string)
    requires Simple(name)
    ensures var out := Fmt(Braced(name), args);
      var v := ValueAt(args, name);
      && (v == Null || v == Truth(false) || v == List([]) || v == Obj(map[]) ==> Yields(out, ""))
      && (v == Truth(true) ==> Yields(out, "true"))
      && (v.Text? && NoBackslash(v.text) ==> Yields(out, v.text))
      && (v.Obj? && v.fields != map[] ==> Yields(out, "[object Object]"))
  {
    VariableIs(args, name);
    var v := ValueAt(args, name);
    if v.Text? && NoBackslash(v.text) {
      NothingToUnescape(v.text);
    }
    NothingToUnescape("");
    NothingToUnescape("true");
    NothingToUnescape("[object Object]");
  }

  lemma VariableIs(args: Args, name: string)
    requires Simple(name)
    ensures var v := ValueAt(args, name);
      Yields(Fmt(Braced(name), args), Text.Unescape(if IsSet(v) then Shown(v) else ""))
  {
    SimpleIsTrimmed(name);
    SimpleValue(args, name);
    EvalOwnValue(name, args);
  }

  /** Backslashes protect the characters behind them: a value that was escaped is shown as it was. */
  lemma EscapedShows(args: Args, name: string, text: string)
    requires Simple(name) && ValueAt(args, name) == Val.Text(Escape(text))
    ensures Yields(Fmt(Braced(name), args), text)
  {
    VariableIs(args, name);
    UnescapeEscape(text);
    if text == "" {
      NothingToUnescape("");
    }
  }

  /** A list is shown with commas. */
  lemma ListShows(args: Args, name: string, items: seq<Val>, texts: seq<string>)
    requires Simple(name) && ValueAt(args, name) == List(items) && |items| == |texts| && TextsJoined(items, texts)
    requires NoBackslash(Text.Join(texts, ","))
    ensures Yields(Fmt(Braced(name), args), Text.Join(texts, ","))
  {
    VariableIs(args, name);
    ShownTexts(items, texts);
    NothingToUnescape(Text.Join(texts, ","));
  }

  // ---------------------------------------------------------------- a choice

  lemma ChoicePrints(name: string, a: string, b: string)
    requires Simple(name) && Plain(a) && Plain(b)
    ensures var t := Cond(name, Lit(a, End), true, Lit(b, End), End);
      Good(t) && Print(t) == ChoiceText(name, a, b)
  {
    SimpleIsTrimmed(name);
    PlainIsEscaped(a);
    PlainIsEscaped(b);
    var t := Cond(name, Lit(a, End), true, Lit(b, End), End);
    assert Print(Lit(a, End)) == a && Print(Lit(b, End)) == b;
    assert Inside(t) == name + ("?" + (a + (":" + b)));
    assert Print(t) == "%{" + (Inside(t) + "}") + "";
  }

  lemma ChoiceGives(args: Args, name: string, a: string, b: string)
    requires Simple(name) && Plain(a) && Plain(b)
    ensures Yields(Fmt(ChoiceText(name, a, b), args), if IsSet(ValueAt(args, name)) then a else b)
  {
    var thn, els := Lit(a, End), Lit(b, End);
    var t := Cond(name, thn, true, els, End);
    ChoicePrints(name, a, b);
    SimpleIsTrimmed(name);
    SimpleValue(args, name);
    EvalWhole(t, args);
    assert Denote(thn, args) == a + "" && Denote(els, args) == b + "";
    assert Denote(t, args) == (if IsSet(ValueAt(args, name)) then a else b) + "";
  }

  /** The first branch is for values that are there and not empty or false, the second one for all others. */
  lemma ChoiceByKind(args: Args, name: string, a: string, b: string)
    requires Simple(name) && Plain(a) && Plain(b)
    ensures var out := Fmt(ChoiceText(name, a, b), args);
      && (name !in args ==> Yields(out, b))
      && (name in args ==>
            match args[name]
            case Null => Yields(out, b)
            case Text(s) => Yields(out, if |s| > 0 then a else b)
            case Truth(yes) => Yields(out, if yes then a else b)
            case List(items) => Yields(out, if |items| > 0 then a else b)
            case Obj(fields) => Yields(out, if |fields| > 0 then a else b))
  {
    ChoiceGives(args, name, a, b);
  }

  // ---------------------------------------------------------------- loops

  /** Every item as a text. */
  predicate AreTexts(items: seq<Val>, texts: seq<string>) {
    |items| == |texts| && forall i :: 0 <= i < |items| ==> items[i] == Val.Text(texts[i]) && NoBackslash(texts[i])
  }

  /** `%{next?, }%{item}` */
  function Listing(): Tree {
    Cond("next", Lit(", ", End), false, End, Var("item", End))
  }

  lemma SeparatorPrints(flag: string, separator: string, item: string)
    requires Simple(flag) && Simple(item) && Plain(separator)
    ensures var t := Cond(flag, Lit(separator, End), false, End, Var(item, End));
      Good(t) && !Blank(t) && Print(t) == Braced(flag + ("?" + separator)) + Braced(item)
  {
    SimpleIsTrimmed(flag);
    SimpleIsTrimmed(item);
    var thn, last := Lit(separator, End), Var(item, End);
    var t := Cond(flag, thn, false, End, last);
    LiteralPrints(separator);
    ItemPrints(item);
    assert Print(thn) + "" == separator;
    assert Inside(t) == flag + ("?" + separator);
    assert Print(t) == "%{" + (Inside(t) + "}") + Print(last);
  }

  lemma LiteralPrints(text: string)
    requires Plain(text)
    ensures Print(Lit(text, End)) == text && !Blank(Lit(text, End))
  {
    PlainIsEscaped(text);
    assert Print(Lit(text, End)) == text + "";
  }

  lemma ItemPrints(item: string)
    ensures Print(Var(item, End)) == Braced(item)
  {
    assert Print(Var(item, End)) == "%{" + (item + "}") + "";
  }

  lemma ListingPrints()
    ensures Good(Listing()) && Print(Listing()) == "%{next?, }%{item}" && !Blank(Listing())
  {
    FlagIsSimple("next");
    ItemIsSimple("item");
    SeparatorPrints("next", ", ", "item");
    assert Braced("item") == "%{item}" && Braced("next" + ("?" + ", ")) == "%{next?, }";
  }

  lemma ItemIsSimple(item: string)
    requires item == "item"
    ensures Simple(item)
  {
  }

  lemma LiteralMeans(args: Args, text: string)
    requires text != ""
    ensures Denote(Lit(text, End), args) == text && !Blank(Lit(text, End))
  {
    assert Denote(Lit(text, End), args) == text + "";
  }

  lemma ItemMeans(args: Args, item: string, text: string)
    requires Simple(item) && NoBackslash(text) && ValueAt(args, item) == Val.Text(text)
    ensures Denote(Var(item, End), args) == text
  {
    SimpleValue(args, item);
    SimpleIsTrimmed(item);
    NothingToUnescape(text);
    assert VarText(args, item) == text;
    assert Denote(Var(item, End), args) == text + "";
  }

  lemma BranchMeans(args: Args, flag: string, thn: Tree, rest: Tree, yes: bool)
    requires Simple(flag) && ValueAt(args, flag) == Truth(yes) && !Blank(thn)
    ensures Denote(Cond(flag, thn, false, End, rest), args) ==
      (if yes then Denote(thn, args) else "") + Denote(rest, args)
  {
    SimpleValue(args, flag);
    SimpleIsTrimmed(flag);
  }

  lemma SeparatorMeans(args: Args, flag: string, separator: string, item: string, yes: bool, text: string)
    requires Simple(flag) && Simple(item) && Plain(separator) && NoBackslash(text)
    requires ValueAt(args, flag) == Truth(yes) && ValueAt(args, item) == Val.Text(text)
    ensures Denote(Cond(flag, Lit(separator, End), false, End, Var(item, End)), args) ==
      (if yes then separator else "") + text
  {
    var thn, rest := Lit(separator, End), Var(item, End);
    LiteralMeans(args, separator);
    ItemMeans(args, item, text);
    BranchMeans(args, flag, thn, rest, yes);
  }

  /** What one round of the listing gives. */
  lemma ListingOf(args: Args, items: seq<Val>, k: nat, text: string)
    requires k < |items| && items[k] == Val.Text(text) && NoBackslash(text)
    ensures Denote(Listing(), LoopArgs(args, items, k)) == (if k > 0 then ", " else "") + text
  {
    FlagIsSimple("next");
    ItemIsSimple("item");
    FlagValue(args, items, k, "next");
    SeparatorMeans(LoopArgs(args, items, k), "next", ", ", "item", k > 0, text);
  }

  lemma FlagValue(args: Args, items: seq<Val>, k: nat, flag: string)
    requires k < |items| && flag in {"first", "next", "last"}
    ensures var inner := LoopArgs(args, items, k);
      ValueAt(inner, flag) == Truth(Flagged(flag, k, |items|)) && ValueAt(inner, "item") == items[k]
  {
  }

  /** The texts from `k` on, a separator in front of each but the first one. */
  function Separated(texts: seq<string>, k: nat): string
    requires k <= |texts|
    decreases |texts| - k
  {
    if k == |texts| then "" else (if k > 0 then ", " else "") + texts[k] + Separated(texts, k + 1)
  }

  lemma EachStep(name: string, body: Tree, args: Args, items: seq<Val>, k: nat, piece: string)
    requires k < |items| && !Blank(body) && Denote(body, LoopArgs(args, items, k)) == piece
    ensures DenoteEach(name, body, args, items, k) == piece + DenoteEach(name, body, args, items, k + 1)
  {
    DenoteUnfolds(name, body, args, items, k);
  }

  lemma {:induction false} ListingEach(name: string, args: Args, items: seq<Val>, texts: seq<string>, k: nat)
    requires AreTexts(items, texts) && k <= |items|
    ensures DenoteEach(name, Listing(), args, items, k) == Separated(texts, k)
    decreases |items| - k
  {
    if k < |items| {
      ListingPrints();
      ListingOf(args, items, k, texts[k]);
      ListingEach(name, args, items, texts, k + 1);
      EachStep(name, Listing(), args, items, k, (if k > 0 then ", " else "") + texts[k]);
    }
  }

  lemma {:induction false} SeparatedIsJoin(texts: seq<string>, k: nat)
    requires k < |texts|
    ensures Separated(texts, k) == (if k > 0 then ", " else "") + Text.Join(texts[k..], ", ")
    decreases |texts| - k
  {
    var more := texts[k..];
    assert more[0] == texts[k] && more[1..] == texts[k + 1..];
    if k + 1 < |texts| {
      SeparatedIsJoin(texts, k + 1);
      assert Text.Join(more, ", ") == texts[k] + (", " + Text.Join(texts[k + 1..], ", "));
      var before := if k > 0 then ", " else "";
      Associative(before, texts[k], ", " + Text.Join(texts[k + 1..], ", "));
    } else {
      assert Separated(texts, k + 1) == "";
      assert Text.Join(more, ", ") == texts[k];
    }
  }

  lemma LoopPrints(name: string, body: Tree)
    requires Simple(name) && Good(body)
    ensures var t := Loop(name, body, End); Good(t) && Print(t) == LoopText(name, Print(body))
  {
    SimpleIsTrimmed(name);
    var t := Loop(name, body, End);
    assert Inside(t) == name + ("#" + Print(body));
    assert Print(t) == "%{" + (Inside(t) + "}") + "";
  }

  lemma LoopGives(args: Args, name: string, body: Tree)
    requires Simple(name) && Good(body)
    ensures Yields(Fmt(LoopText(name, Print(body)), args),
                   DenoteEach(name, body, args, ToArray(ValueAt(args, name)), 0))
  {
    LoopPrints(name, body);
    SimpleIsTrimmed(name);
    SimpleValue(args, name);
    var t := Loop(name, body, End);
    EvalWhole(t, args);
    var each := DenoteEach(name, body, args, ToArray(ValueAt(args, name)), 0);
    assert Denote(t, args) == each + "";
  }

  /** The loop of the rule pages: the items in their order, with commas between them. */
  lemma LoopLists(args: Args, name: string, items: seq<Val>, texts: seq<string>)
    requires Simple(name) && ValueAt(args, name) == List(items) && AreTexts(items, texts)
    ensures Yields(Fmt(LoopText(name, "%{next?, }%{item}"), args), Text.Join(texts, ", "))
  {
    ListingPrints();
    LoopGives(args, name, Listing());
    ListingEach(name, args, items, texts, 0);
    if texts != [] {
      SeparatedIsJoin(texts, 0);
      assert texts[0..] == texts;
    }
  }

  // ---------------------------------------------------------------- the first and the last item

  /** `s`, `n` times. */
  function Repeat(s: string, n: nat): string {
    if n == 0 then "" else s + Repeat(s, n - 1)
  }

  /** Which of the items a flag is set for. */
  predicate Flagged(flag: string, k: int, n: int) {
    if flag == "first" then k == 0 else if flag == "last" then k == n - 1 else k != 0
  }

  function Choices(flag: string, a: string, b: string, k: nat, n: nat): string
    requires k <= n
    decreases n - k
  {
    if k == n then "" else (if Flagged(flag, k, n) then a else b) + Choices(flag, a, b, k + 1, n)
  }

  lemma {:induction false} ChoicesEach(name: string, args: Args, items: seq<Val>, flag: string, a: string, b: string,
                                       k: nat)
    requires flag in {"first", "next", "last"} && Plain(a) && Plain(b) && k <= |items|
    ensures var body := Cond(flag, Lit(a, End), true, Lit(b, End), End);
      DenoteEach(name, body, args, items, k) == Choices(flag, a, b, k, |items|)
    decreases |items| - k
  {
    if k < |items| {
      var body := Cond(flag, Lit(a, End), true, Lit(b, End), End);
      ChoiceOf(args, items, flag, a, b, k);
      ChoicesEach(name, args, items, flag, a, b, k + 1);
      EachStep(name, body, args, items, k, if Flagged(flag, k, |items|) then a else b);
    }
  }

  lemma ChoiceOf(args: Args, items: seq<Val>, flag: string, a: string, b: string, k: nat)
    requires flag in {"first", "next", "last"} && Plain(a) && Plain(b) && k < |items|
    ensures Denote(Cond(flag, Lit(a, End), true, Lit(b, End), End), LoopArgs(args, items, k)) ==
      if Flagged(flag, k, |items|) then a else b
  {
    FlagIsSimple(flag);
    FlagValue(args, items, k, flag);
    ChoiceMeans(LoopArgs(args, items, k), flag, a, b, Flagged(flag, k, |items|));
  }

  lemma ChoiceMeans(args: Args, name: string, a: string, b: string, yes: bool)
    requires Simple(name) && Plain(a) && Plain(b) && ValueAt(args, name) == Truth(yes)
    ensures Denote(Cond(name, Lit(a, End), true, Lit(b, End), End), args) == if yes then a else b
  {
    SimpleIsTrimmed(name);
    SimpleValue(args, name);
    assert Denote(Lit(a, End), args) == a + "" && Denote(Lit(b, End), args) == b + "";
  }

  lemma FlagIsSimple(flag: string)
    requires flag in {"first", "next", "last"}
    ensures Simple(flag)
  {
    assert |flag| <= 5 && forall i :: 0 <= i < |flag| ==> 'a' <= flag[i] <= 'z';
    LettersAreSimple(flag);
  }

  lemma LettersAreSimple(name: string)
    requires name != "" && forall i :: 0 <= i < |name| ==> 'a' <= name[i] <= 'z'
    ensures Simple(name)
  {
  }

  /** A loop over a choice by one of the flags. */
  lemma LoopChooses(args: Args, name: string, items: seq<Val>, flag: string, a: string, b: string)
    requires Simple(name) && ValueAt(args, name) == List(items)
    requires flag in {"first", "next", "last"} && Plain(a) && Plain(b)
    ensures Yields(Fmt(LoopText(name, ChoiceText(flag, a, b)), args),
                   Choices(flag, a, b, 0, |items|))
  {
    FlagIsSimple(flag);
    ChoicePrints(flag, a, b);
    LoopGives(args, name, Cond(flag, Lit(a, End), true, Lit(b, End), End));
    ChoicesEach(name, args, items, flag, a, b, 0);
  }

  lemma {:induction false} RepeatSnoc(s: string, n: nat)
    ensures Repeat(s, n + 1) == Repeat(s, n) + s
  {
    if n == 0 {
      assert Repeat(s, 1) == s + "";
    } else {
      RepeatSnoc(s, n - 1);
      Associative(s, Repeat(s, n - 1), s);
    }
  }

  lemma {:induction false} AfterFirst(a: string, b: string, k: nat, n: nat)
    requires 0 < k <= n
    ensures Choices("first", a, b, k, n) == Repeat(b, n - k)
    ensures Choices("next", a, b, k, n) == Repeat(a, n - k)
    decreases n - k
  {
    if k < n {
      AfterFirst(a, b, k + 1, n);
    }
  }

  lemma {:induction false} BeforeLast(a: string, b: string, k: nat, n: nat)
    requires k < n
    ensures Choices("last", a, b, k, n) == Repeat(b, n - 1 - k) + a
    decreases n - k
  {
    if k + 1 < n {
      BeforeLast(a, b, k + 1, n);
      Associative(b, Repeat(b, n - 2 - k), a);
    } else {
      assert Choices("last", a, b, n, n) == "";
      assert a + "" == a && Repeat(b, 0) + a == a;
    }
  }

  /** `first` is set for the first item only, `next` for all others, and `last` for the last one only. */
  lemma LoopFlags(args: Args, name: string, items: seq<Val>, a: string, b: string)
    requires Simple(name) && ValueAt(args, name) == List(items) && items != [] && Plain(a) && Plain(b)
    ensures Yields(Fmt(LoopText(name, ChoiceText("first", a, b)), args),
                   a + Repeat(b, |items| - 1))
    ensures Yields(Fmt(LoopText(name, ChoiceText("next", a, b)), args),
                   b + Repeat(a, |items| - 1))
    ensures Yields(Fmt(LoopText(name, ChoiceText("last", a, b)), args),
                   Repeat(b, |items| - 1) + a)
  {
    LoopChooses(args, name, items, "first", a, b);
    LoopChooses(args, name, items, "next", a, b);
    LoopChooses(args, name, items, "last", a, b);
    AfterFirst(a, b, 1, |items|);
    BeforeLast(a, b, 0, |items|);
  }

  // ---------------------------------------------------------------- what a loop goes through

  /** Words without white space. */
  predicate AreWords(words: seq<string>) {
    forall i :: 0 <= i < |words| ==>
      words[i] != "" && NoBackslash(words[i]) && forall c :: c in words[i] ==> !Text.IsSpace(c)
  }

  lemma {:induction false} WordEnds(word: string, before: string)
    requires forall c :: c in word ==> !Text.IsSpace(c)
    requires before + word != ""
    ensures Words(word, before) == [Val.Text(before + word)]
  {
    if word == "" {
      assert before + word == before;
    } else {
      assert word[0] in word && forall c :: c in word[1..] ==> c in word;
      assert before + [word[0]] + word[1..] == before + word;
      WordEnds(word[1..], before + [word[0]]);
    }
  }

  lemma {:induction false} WordGoesOn(word: string, before: string, rest: string)
    requires forall c :: c in word ==> !Text.IsSpace(c)
    requires before + word != ""
    ensures Words(word + (" " + rest), before) == [Val.Text(before + word)] + Words(rest, "")
  {
    var s := word + (" " + rest);
    if word == "" {
      assert before + word == before && s[0] == ' ' && s[1..] == rest;
    } else {
      assert word[0] in word && forall c :: c in word[1..] ==> c in word;
      assert s[0] == word[0] && s[1..] == word[1..] + (" " + rest);
      assert before + [word[0]] + word[1..] == before + word;
      WordGoesOn(word[1..], before + [word[0]], rest);
    }
  }

  lemma {:induction false} WordsAreFound(words: seq<string>)
    requires AreWords(words)
    ensures AreTexts(Words(Text.Join(words, " "), ""), words)
  {
    if |words| == 1 {
      WordEnds(words[0], "");
      assert "" + words[0] == words[0];
    } else if |words| > 1 {
      var more := words[1..];
      WordGoesOn(words[0], "", Text.Join(more, " "));
      assert "" + words[0] == words[0];
      WordsAreFound(more);
    }
  }

  /** A text is gone through word by word; null gives nothing, and a truth value is one item. */
  lemma LoopOverOthers(args: Args, name: string, words: seq<string>)
    requires Simple(name) && AreWords(words)
    ensures var out := Fmt(LoopText(name, "%{next?, }%{item}"), args);
      && (ValueAt(args, name) == Val.Text(Text.Join(words, " ")) ==> Yields(out, Text.Join(words, ", ")))
      && (ValueAt(args, name) == Null ==> Yields(out, ""))
      && (ValueAt(args, name) == Truth(true) ==> Yields(out, "true"))
      && (ValueAt(args, name) == Truth(false) ==> Yields(out, "false"))
  {
    WordsAreFound(words);
    ListingPrints();
    LoopGives(args, name, Listing());
    var v := ValueAt(args, name);
    if v == Val.Text(Text.Join(words, " ")) {
      ListingEach(name, args, ToArray(v), words, 0);
      if words != [] {
        SeparatedIsJoin(words, 0);
        assert words[0..] == words;
      }
    } else if v.Truth? {
      var text := if v.truth then "true" else "false";
      ListingEach(name, args, ToArray(v), [text], 0);
      SeparatedIsJoin([text], 0);
    }
  }

  // ---------------------------------------------------------------- text, and malformed templates

  /** Text without an expression is given as it is, its backslashes taken out. */
  lemma {:induction false} TextAlone(s: string, pending: string, args: Args)
    requires forall i :: 0 <= i < |s| ==> s[i] != '%'
    ensures FmtRest(s, pending, args) == Tokens(if pending + s == "" then [] else [Text.Unescape(pending + s)])
  {
    if s == "" {
      assert pending + s == pending;
    } else {
      TextAlone(s[1..], pending + [s[0]], args);
      assert pending + [s[0]] + s[1..] == pending + s;
    }
  }

  /** An expression without a name or with another operator makes `fmt` return the template itself. */
  lemma MalformedIsVerbatim(args: Args, name: string, a: string)
    requires Simple(name) && Plain(a)
    ensures Fmt("%{}", args) == Verbatim
    ensures Fmt(Braced(name + (":" + a)), args) == Verbatim
  {
    BlankName(args);
    OtherOperator(args, name, a);
  }

  lemma BlankName(args: Args)
    ensures Fmt("%{}", args) == Verbatim
  {
    var s := "%{}";
    assert Starts(s) && s[2..] == "}";
    var e := Scan(s[2..], "", 1, false, []);
    assert e == Closed([""], "");
  }

  /** A name, an operator and a text are three parts. */
  lemma ScanPair(name: string, op: char, a: string)
    requires Simple(name) && Plain(a) && (op == '?' || op == ':' || op == '#')
    ensures Scan(name + ([op] + (a + ("}" + ""))), "", 1, false, []) == Closed([name, [op], a], "")
  {
    SimpleIsTrimmed(name);
    TransparentText(name, 1);
    TransparentText(a, 1);
    PlainIsEscaped(name);
    PlainIsEscaped(a);
    var after := a + ("}" + "");
    ScanPart(name, [op] + after, []);
    ScanOperator(op, after, name, []);
    assert [] + [name] + [[op]] == [name, [op]];
    ScanPart(a, "}" + "", [name, [op]]);
    ScanClose(a, "", [name, [op]]);
    assert [name, [op]] + [a] == [name, [op], a];
  }

  lemma OtherOperator(args: Args, name: string, a: string)
    requires Simple(name) && Plain(a)
    ensures Fmt(Braced(name + (":" + a)), args) == Verbatim
  {
    var s := Braced(name + (":" + a));
    assert s == "%{" + (name + ([':'] + (a + ("}" + ""))));
    assert Starts(s) && s[2..] == name + ([':'] + (a + ("}" + "")));
    ScanPair(name, ':', a);
    SimpleIsTrimmed(name);
    NoSuchOperator(s, Closed([name, ":", a], ""), args);
  }

  lemma NoSuchOperator(s: string, e: Scanned, args: Args)
    requires Starts(s) && e == Scan(s[2..], "", 1, false, []) && e.Closed?
    requires |e.subs| == 3 && e.subs[1] == ":" && Text.Trim(e.subs[0]) != ""
    ensures Fmt(s, args) == Verbatim
  {
    Parts(e.subs);
    assert FmtExpr(s, e, args) == Verbatim;
  }

  /** Without its closing brace an expression raises an error, or gives the template when it has an operator. */
  lemma Unclosed(args: Args, name: string, a: string)
    requires Simple(name) && Plain(a)
    ensures Fmt("%{", args) == Fmt("%{" + name, args) == Raises
    ensures Fmt("%{" + (name + ("?" + a)), args) == Verbatim
  {
    SimpleIsTrimmed(name);
    TransparentName(name, 1);
    TransparentName(a, 1);
    assert name + "" == name && a + "" == a;
    ScanPart(name, "", []);
    ScanPart(name, "?" + a, []);
    ScanOperator('?', a, name, []);
    ScanPart(a, "", [name, "?"]);
    OpenGives("%{", args);
    OpenGives("%{" + name, args);
    OpenGives("%{" + (name + ("?" + a)), args);
  }

  lemma OpenGives(s: string, args: Args)
    requires Starts(s) && Scan(s[2..], "", 1, false, []).Open?
    ensures Fmt(s, args) == if Scan(s[2..], "", 1, false, []).subs == [] then Raises else Verbatim
  {
  }

  /** A malformed template in a branch that is taken raises an error; in one that is not taken it does nothing. */
  lemma MalformedBranch(args: Args, name: string)
    requires Simple(name)
    ensures Fmt(Braced(name + ("?" + "%{}")), args) == if IsSet(ValueAt(args, name)) then Raises else Tokens([])
  {
    SimpleIsTrimmed(name);
    SimpleValue(args, name);
    BlankName(args);
    TransparentName(name, 1);
    TransparentNothing(2);
    TransparentBraces("");
    var body := "%{" + ("" + "}");
    assert body == "%{}";
    var s := Braced(name + ("?" + "%{}"));
    assert s == "%{" + (name + ("?" + (body + ("}" + ""))));
    assert Starts(s) && s[2..] == name + ("?" + (body + ("}" + "")));
    ScanPart(name, "?" + (body + ("}" + "")), []);
    ScanOperator('?', body + ("}" + ""), name, []);
    assert [] + [name] + ["?"] == [name, "?"];
    ScanClose(body, "", [name, "?"]);
    assert [name, "?"] + [body] == [name, "?", body];
    BranchOf(s, Closed([name, "?", body], ""), args);
  }

  lemma BranchOf(s: string, e: Scanned, args: Args)
    requires Starts(s) && e == Scan(s[2..], "", 1, false, []) && e.Closed? && e.after == ""
    requires |e.subs| == 3 && e.subs[1] == "?" && Text.Trim(e.subs[0]) == e.subs[0] != "" && e.subs[2] != ""
    requires Fmt(e.subs[2], args) == Verbatim
    ensures Fmt(s, args) == if IsSet(Get(args, e.subs[0])) then Raises else Tokens([])
  {
    Parts(e.subs);
    assert Fmt("", args) == Tokens([]);
    assert FmtRest("", "", args) == Tokens([]);
    assert FmtExpr(s, e, args) == if IsSet(Get(args, e.subs[0])) then Raises else Tokens([]);
  }
}
