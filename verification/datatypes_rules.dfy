/** Datatype expressions as texts: blanks, quotes, errors, and what the evaluators accept. */
module DatatypesRules {
  import opened Base
  import Text
  import opened Datatypes

  // ---------------------------------------------------------------- blanks

  predicate Blanks(s: string) {
    forall c :: c in s ==> c == ' ' || c == '\t'
  }

  lemma {:induction false} StartTakes(left: string, s: string)
    requires Blanks(left) && s != "" && s[0] != ' ' && s[0] != '\t'
    ensures TrimStart(left + s) == s
  {
    if left == "" {
      assert left + s == s;
    } else {
      assert left[0] in left && (left + s)[1..] == left[1..] + s && forall c :: c in left[1..] ==> c in left;
      StartTakes(left[1..], s);
    }
  }

  lemma {:induction false} EndTakes(s: string, right: string)
    requires Blanks(right) && s != "" && s[|s| - 1] != ' ' && s[|s| - 1] != '\t'
    ensures TrimEnd(s + right) == s
  {
    if right == "" {
      assert s + right == s;
    } else {
      var front := right[..|right| - 1];
      assert right[|right| - 1] in right && (s + right)[..|s + right| - 1] == s + front;
      assert forall c :: c in front ==> c in right;
      EndTakes(s, front);
    }
  }

  /** Names and numbers that stand for themselves: no parentheses, commas or backslashes, no blanks at the ends. */
  predicate IsWord(s: string) {
    && s != "" && s[0] !in {' ', '\t'} && s[|s| - 1] !in {' ', '\t'}
    && forall c :: c in s ==> c !in {'(', ')', ',', '\\'}
  }

  lemma {:induction false} WordAlone(env: Env, s: string, cur: string)
    requires forall c :: c in s ==> c !in {'(', ')', ',', '\\'}
    ensures CompileFrom(env, s, cur, false, 0, []) == if cur + s == "" then Ok([]) else Label(env, cur + s)
    decreases |s|
  {
    if s == "" {
      assert cur + s == cur;
      var r := Label(env, cur);
      if r.Ok? {
        EmptyIsUnit(r.stack);
      }
    } else {
      assert s[0] in s && forall c :: c in s[1..] ==> c in s;
      WordAlone(env, s[1..], cur + [s[0]]);
      assert cur + [s[0]] + s[1..] == cur + s;
    }
  }

  lemma {:induction false} NothingEscaped(s: string)
    requires '\\' !in s
    ensures Text.Unescape(s) == s
  {
    if s != "" {
      assert s[0] in s;
      NothingEscaped(s[1..]);
      assert s == [s[0]] + s[1..];
    }
  }

  /** A word is compiled without the blanks around it. */
  lemma WordCompiles(env: Env, left: string, s: string, right: string)
    requires Blanks(left) && Blanks(right) && IsWord(s)
    ensures Compile(env, left + s + right) == Read(env, s)
  {
    var all := left + s + right;
    forall c | c in all ensures c !in {'(', ')', ',', '\\'} {
      assert c in left || c in s || c in right;
    }
    WordAlone(env, all, "");
    assert "" + all == all;
    NothingEscaped(all);
    Associative(left, s, right);
    assert (s + right)[0] == s[0];
    StartTakes(left, s + right);
    EndTakes(s, right);
  }

  /**
   What a word is: a number first, then a text in quotes of one kind, then a known type;
   anything else is an error.
   */
  lemma WordMeans(env: Env, left: string, s: string, right: string)
    requires Blanks(left) && Blanks(right) && IsWord(s)
    ensures var r := Compile(env, left + s + right);
      && (env.number(s).Some? ==> r == Ok([Number(env.parseFloat(s))]))
      && (env.number(s).None? && s in env.types && !InQuotes(s) ==> r == Ok([Func(s), NoArgs]))
      && (env.number(s).None? && s !in env.types && !InQuotes(s) ==> r == SyntaxError)
  {
    WordCompiles(env, left, s, right);
  }

  /** In single or in double quotes, on one line. */
  predicate InQuotes(s: string) {
    && |s| >= 2 && s[|s| - 1] == s[0] && s[0] in {'\'', '"'}
    && forall i :: 1 <= i < |s| - 1 ==> !Text.LineBreak(s[i])
  }

  /** Both kinds of quotes stand for the text between them. */
  lemma QuotesCompile(env: Env, text: string)
    requires IsWord("'" + text + "'") && forall i :: 0 <= i < |text| ==> !Text.LineBreak(text[i])
    ensures env.number("'" + text + "'").None? ==> Compile(env, "'" + text + "'") == Ok([Quoted(text)])
    ensures env.number("\"" + text + "\"").None? ==> Compile(env, "\"" + text + "\"") == Ok([Quoted(text)])
  {
    var none := "";
    var single, double := "'" + text + "'", "\"" + text + "\"";
    forall c | c in double ensures c !in {'(', ')', ',', '\\'} {
      assert c == '"' || c in single;
    }
    WordCompiles(env, none, single, none);
    WordCompiles(env, none, double, none);
    assert none + single + none == single && none + double + none == double;
    assert single[1..|single| - 1] == text && double[1..|double| - 1] == text;
  }

  // ---------------------------------------------------------------- errors

  /** An argument list must follow a type. */
  lemma ArgumentsOfNothing(env: Env, rest: string)
    ensures Compile(env, ")" + rest) == SyntaxError
  {
  }

  /** A blank after a closing parenthesis is a label of its own, and an error. */
  lemma BlankAfterArguments(env: Env, e: Expr)
    requires Good(env, e) && e.Type? && e.hasArgs && env.number("").None? && "" !in env.types
    ensures Compile(env, Print(e) + " ") == SyntaxError
  {
    var none: seq<Slot> := [];
    CompileAll(env, e.args, none);
    EmptyIsUnit(FlattenAll(env, e.args));
    LabelOf(env, Type(e.name, false, Nil));
    assert e.name + "" == e.name;
    TransparentPlain(env, e.name, true);
    TransparentExprs(env, e.args);
    CallCompiles(env, e.name, PrintAll(e.args), FlattenAll(env, e.args), " ", none);
    CallText(e.name, PrintAll(e.args), " ");
    BlankIsNoLabel(env, none + [Func(e.name), Args(FlattenAll(env, e.args))]);
  }

  lemma BlankIsNoLabel(env: Env, stack: seq<Slot>)
    requires env.number("").None? && "" !in env.types
    ensures CompileFrom(env, " ", "", false, 0, stack) == SyntaxError
  {
    var blank := " ";
    assert blank[1..] == "" && "" + [blank[0]] == blank;
    NothingEscaped(blank);
    assert TrimStart(blank) == "";
    assert CompileFrom(env, "", blank, false, 0, stack) == Append(stack, Label(env, blank));
  }

  // ---------------------------------------------------------------- a known expression

  /** A type with a type and a text as its arguments. */
  function Pair(name: string, inner: string, text: string): Expr {
    Type(name, true, Cons(Type(inner, false, Nil), Cons(Str('"', text), Nil)))
  }

  lemma PairPrints(name: string, inner: string, text: string)
    requires forall c :: c in text ==> !Special(c)
    ensures Print(Pair(name, inner, text)) == name + ("(" + ((inner + ("," + ("\"" + (text + "\"")))) + ")"))
  {
    PlainEscape(text);
    var first, last := Type(inner, false, Nil), Cons(Str('"', text), Nil);
    assert Print(first) == inner + "" == inner;
    assert Print(last.head) == "\"" + (text + "\"");
    assert PrintAll(last) == Print(last.head);
    var both := Cons(first, last);
    assert PrintAll(both) == inner + ("," + PrintAll(last));
    assert Print(Pair(name, inner, text)) == name + ("(" + (PrintAll(both) + ")"));
  }

  lemma PairFlattens(env: Env, name: string, inner: string, text: string)
    ensures Flatten(env, Pair(name, inner, text)) == [Func(name), Args([Func(inner), NoArgs, Quoted(text)])]
  {
    var first, last := Type(inner, false, Nil), Cons(Str('"', text), Nil);
    assert FlattenAll(env, Nil) == [];
    assert FlattenAll(env, last) == [Quoted(text)] + [];
    var both := Cons(first, last);
    assert FlattenAll(env, both) == [Func(inner), NoArgs] + FlattenAll(env, last);
    assert FlattenAll(env, both) == [Func(inner), NoArgs, Quoted(text)];
    assert Flatten(env, Pair(name, inner, text)) == [Func(name), Args(FlattenAll(env, both))];
  }

  lemma StackOfPair(env: Env, name: string, inner: string, text: string)
    requires Good(env, Pair(name, inner, text)) && forall c :: c in text ==> !Special(c)
    ensures Compile(env, name + ("(" + ((inner + ("," + ("\"" + (text + "\"")))) + ")"))) ==
      Ok([Func(name), Args([Func(inner), NoArgs, Quoted(text)])])
  {
    CompilePrinted(env, Pair(name, inner, text));
    PairPrints(name, inner, text);
    PairFlattens(env, name, inner, text);
  }

  /** `or(port,"auto")` */
  lemma KnownStack(env: Env, name: string, inner: string, text: string, code: string)
    requires name == "or" && inner == "port" && text == "auto" && code == "or(port,\"auto\")"
    requires Good(env, Pair(name, inner, text))
    ensures Compile(env, code) == Ok([Func(name), Args([Func(inner), NoArgs, Quoted(text)])])
  {
    StackOfPair(env, name, inner, text);
    assert name + ("(" + ((inner + ("," + ("\"" + (text + "\"")))) + ")")) == code;
  }

  lemma {:induction false} PlainEscape(s: string)
    requires forall c :: c in s ==> !Special(c)
    ensures Escape(s) == s
  {
    if s != "" {
      assert s[0] in s && forall c :: c in s[1..] ==> c in s;
      PlainEscape(s[1..]);
      assert s == [s[0]] + s[1..];
    }
  }

  /** What `neg` takes off: an exclamation mark and the blanks on both sides of it. */
  lemma NegStrips(before: string, after: string, s: string)
    requires Blanks(before) && Blanks(after) && s != "" && s[0] != ' ' && s[0] != '\t'
    ensures StripNeg(before + ("!" + (after + s))) == s
    ensures s[0] != '!' ==> StripNeg(before + s) == before + s
  {
    StartTakes(before, "!" + (after + s));
    StartTakes(after, s);
    StartTakes(before, s);
    assert ("!" + (after + s))[1..] == after + s;
  }

  // ---------------------------------------------------------------- what is accepted

  /** The texts as literals. */
  function Literals(texts: seq<string>): (args: seq<Slot>)
    ensures |args| == |texts| && forall i :: 0 <= i < |texts| ==> args[i] == Quoted(texts[i])
  {
    seq(|texts|, i requires 0 <= i < |texts| => Quoted(texts[i]))
  }

  lemma {:induction false} WalkLiterals(env: Env, leaf: Leaf, stop: bool, texts: seq<string>, i: nat, value: string)
    requires i <= |texts|
    ensures Walk(env, leaf, stop, Literals(texts), i, value) ==
      (if exists k :: i <= k < |texts| && (texts[k] == value) == stop then stop else !stop, value)
    decreases |texts| - i
  {
    if i < |texts| && (texts[i] == value) != stop {
      WalkLiterals(env, leaf, stop, texts, i + 1, value);
      assert forall k :: i <= k < |texts| && (texts[k] == value) == stop ==> i + 1 <= k;
    }
  }

  /** `or` of texts accepts these texts and no others; `and` of texts accepts what equals all of them. */
  lemma TextsAccept(env: Env, leaf: Leaf, texts: seq<string>, value: string)
    ensures Apply(env, leaf, "or", Args(Literals(texts)), value).0 <==> value in texts
    ensures Apply(env, leaf, "and", Args(Literals(texts)), value).0 <==> forall t :: t in texts ==> t == value
  {
    WalkLiterals(env, leaf, true, texts, 0, value);
    WalkLiterals(env, leaf, false, texts, 0, value);
    assert forall k :: 0 <= k < |texts| ==> texts[k] in texts;
    if value in texts {
      var k :| 0 <= k < |texts| && texts[k] == value;
      assert (texts[k] == value) == true;
    }
    if t :| t in texts && t != value {
      var k :| 0 <= k < |texts| && texts[k] == t;
      assert (texts[k] == value) == false;
    }
  }

  /** A number accepts the texts that stand for it. */
  lemma NumberAccepts(env: Env, leaf: Leaf, n: real, value: string)
    ensures Apply(env, leaf, "or", Args([Number(n)]), value).0 <==> env.number(value) == Some(n)
  {
    var args := [Number(n)];
    assert Walk(env, leaf, true, args, 1, value) == (false, value);
  }

  /** Two validators that keep the value: `or` asks for one of them, and `and` for both. */
  lemma PairAccepts(env: Env, leaf: Leaf, a: string, b: string, value: string)
    requires a !in {"or", "and"} && b !in {"or", "and"}
    requires leaf(a, NoArgs, value).1 == value && leaf(b, NoArgs, value).1 == value
    ensures var args := Args([Func(a), NoArgs, Func(b), NoArgs]);
      var yes, no := leaf(a, NoArgs, value).0, leaf(b, NoArgs, value).0;
      && (Apply(env, leaf, "or", args, value).0 <==> yes || no)
      && (Apply(env, leaf, "and", args, value).0 <==> yes && no)
  {
    PairWalk(env, leaf, true, a, b, value);
    PairWalk(env, leaf, false, a, b, value);
  }

  lemma PairWalk(env: Env, leaf: Leaf, stop: bool, a: string, b: string, value: string)
    requires a !in {"or", "and"} && b !in {"or", "and"}
    requires leaf(a, NoArgs, value).1 == value && leaf(b, NoArgs, value).1 == value
    ensures var yes, no := leaf(a, NoArgs, value).0, leaf(b, NoArgs, value).0;
      Walk(env, leaf, stop, [Func(a), NoArgs, Func(b), NoArgs], 0, value).0 == if stop then yes || no else yes && no
  {
    var args := [Func(a), NoArgs, Func(b), NoArgs];
    assert Walk(env, leaf, stop, args, 4, value) == (!stop, value);
    var second := leaf(b, NoArgs, value);
    assert Apply(env, leaf, b, args[3], value) == second;
    assert Walk(env, leaf, stop, args, 2, value) == if second.0 == stop then (stop, value) else (!stop, value);
    assert Apply(env, leaf, a, args[1], value) == leaf(a, NoArgs, value);
  }
}
