/** The datatype expressions of `validation.js`: their compiler and the `or`/`and` evaluators. */
module Datatypes {
  import opened Base
  import opened Text

  /** One slot of a compiled stack. A validator takes two: its function and its argument list, or null. */
  datatype Slot = Number(value: real) | Quoted(text: string) | Func(name: string) | NoArgs | Args(args: seq<Slot>)

  /** What the compiler asks of its surroundings: the known types, `Number()` and `parseFloat()`. */
  datatype Env = Env(types: set<string>, number: string -> Option<real>, parseFloat: string -> real)

  datatype Result = Ok(stack: seq<Slot>) | SyntaxError

  // ---------------------------------------------------------------- labels

  predicate Blank(c: char) {
    c == ' ' || c == '\t'
  }

  function TrimStart(s: string): string {
    if s != "" && Blank(s[0]) then TrimStart(s[1..]) else s
  }

  function TrimEnd(s: string): string {
    if s != "" && Blank(s[|s| - 1]) then TrimEnd(s[..|s| - 1]) else s
  }

  predicate IsQuote(c: char) {
    c == '\'' || c == '"'
  }

  /** `/^(['"]).*\1$/` */
  predicate IsQuoted(s: string) {
    |s| >= 2 && IsQuote(s[0]) && s[|s| - 1] == s[0] && forall i :: 1 <= i < |s| - 1 ==> !LineBreak(s[i])
  }

  /** The slots of one label. */
  function Label(env: Env, raw: string): Result {
    Read(env, TrimEnd(TrimStart(Unescape(raw))))
  }

  /** A label without blanks around it. */
  function Read(env: Env, text: string): Result {
    if text != "" && env.number(text).Some? then Ok([Number(env.parseFloat(text))])
    else if IsQuoted(text) then Ok([Quoted(text[1..|text| - 1])])
    else if text in env.types then Ok([Func(text), NoArgs])
    else SyntaxError
  }

  // ---------------------------------------------------------------- the compiler

  function Compile(env: Env, code: string): Result
    decreases |code|, 1
  {
    CompileFrom(env, code, "", false, 0, [])
  }

  /**
   The loop, with the code still to come; a comma is appended to it. `cur` is the text
   since `pos`.
   */
  function CompileFrom(env: Env, rest: string, cur: string, esc: bool, depth: int, stack: seq<Slot>): Result
    decreases |rest| + |cur|, 0, |rest|
  {
    if rest == "" then
      if esc || depth > 0 || cur == "" then Ok(stack)
      else Append(stack, Label(env, cur))
    else
      var ch, tail := rest[0], rest[1..];
      if esc then CompileFrom(env, tail, cur + [ch], false, depth, stack)
      else if ch == '\\' then CompileFrom(env, tail, cur + [ch], true, depth, stack)
      else if ch == '(' || ch == ',' then
        var deeper := if ch == '(' then depth + 1 else depth;
        if depth > 0 then CompileFrom(env, tail, cur + [ch], false, deeper, stack)
        else if cur == "" then CompileFrom(env, tail, "", false, deeper, stack)
        else
          var r := Append(stack, Label(env, cur));
          if r.SyntaxError? then r else CompileFrom(env, tail, "", false, deeper, r.stack)
      else if ch == ')' then
        if depth > 1 then CompileFrom(env, tail, cur + [ch], false, depth - 1, stack)
        else if |stack| < 2 || !stack[|stack| - 2].Func? then SyntaxError
        else
          var inner := Compile(env, cur);
          if inner.SyntaxError? then inner
          else CompileFrom(env, tail, "", false, depth - 1, stack[..|stack| - 1] + [Args(inner.stack)])
      else CompileFrom(env, tail, cur + [ch], false, depth, stack)
  }

  function Append(stack: seq<Slot>, r: Result): Result {
    if r.Ok? then Ok(stack + r.stack) else r
  }

  // ---------------------------------------------------------------- expressions

  /** A datatype expression, independently of how it is written down. */
  datatype Expr =
    | Num(lexeme: string)
    | Str(quote: char, text: string)
    | Type(name: string, hasArgs: bool, args: Exprs)

  datatype Exprs = Nil | Cons(head: Expr, tail: Exprs)

  predicate Special(c: char) {
    c == '(' || c == ')' || c == ',' || c == '\\'
  }

  function Escape(s: string): string {
    if s == "" then "" else (if Special(s[0]) then ['\\', s[0]] else [s[0]]) + Escape(s[1..])
  }

  function Print(e: Expr): string
    decreases e, 0
  {
    match e
    case Num(lexeme) => lexeme
    case Str(quote, text) => [quote] + (Escape(text) + [quote])
    case Type(name, hasArgs, args) => name + if hasArgs then "(" + (PrintAll(args) + ")") else ""
  }

  function PrintAll(es: Exprs): string
    decreases es, 0
  {
    match es
    case Nil => ""
    case Cons(e, Nil) => Print(e)
    case Cons(e, more) => Print(e) + ("," + PrintAll(more))
  }

  /** The slots an expression compiles to: literals take one, validators two. */
  function Flatten(env: Env, e: Expr): seq<Slot>
    decreases e, 0
  {
    match e
    case Num(lexeme) => [Number(env.parseFloat(lexeme))]
    case Str(_, text) => [Quoted(text)]
    case Type(name, hasArgs, args) => [Func(name), if hasArgs then Args(FlattenAll(env, args)) else NoArgs]
  }

  function FlattenAll(env: Env, es: Exprs): seq<Slot>
    decreases es, 0
  {
    match es
    case Nil => []
    case Cons(e, more) => Flatten(env, e) + FlattenAll(env, more)
  }

  /** A text without special characters or blanks at its ends. */
  predicate Bare(s: string) {
    s != "" && !Blank(s[0]) && !Blank(s[|s| - 1]) && forall c :: c in s ==> !Special(c)
  }

  predicate Good(env: Env, e: Expr)
    decreases e, 0
  {
    match e
    case Num(lexeme) => Bare(lexeme) && env.number(lexeme).Some?
    case Str(quote, text) =>
      IsQuote(quote) && env.number([quote] + text + [quote]).None? &&
      forall i :: 0 <= i < |text| ==> !LineBreak(text[i])
    case Type(name, _, args) =>
      Bare(name) && name in env.types && env.number(name).None? && !IsQuoted(name) && AllGood(env, args)
  }

  predicate AllGood(env: Env, es: Exprs)
    decreases es, 0
  {
    match es
    case Nil => true
    case Cons(e, more) => Good(env, e) && AllGood(env, more)
  }

  // ---------------------------------------------------------------- labels that were printed

  lemma {:induction false} UnescapePlain(s: string)
    requires forall c :: c in s ==> !Special(c)
    ensures Unescape(s) == s
  {
    if s != "" {
      assert s[0] in s;
      UnescapePlain(s[1..]);
      assert s == [s[0]] + s[1..];
    }
  }

  lemma {:induction false} UnescapeEscape(s: string, after: string)
    ensures Unescape(Escape(s) + after) == s + Unescape(after)
  {
    if s == "" {
      assert Escape(s) + after == after && s + Unescape(after) == Unescape(after);
    } else {
      UnescapeEscape(s[1..], after);
      var more := Escape(s[1..]) + after;
      Associative(if Special(s[0]) then ['\\', s[0]] else [s[0]], Escape(s[1..]), after);
      assert (['\\', s[0]] + more)[2..] == more && ([s[0]] + more)[1..] == more;
      assert s == [s[0]] + s[1..];
      Associative([s[0]], s[1..], Unescape(after));
    }
  }

  /** A literal or a bare type name is its own label. */
  lemma LabelOf(env: Env, e: Expr)
    requires Good(env, e) && (e.Type? ==> !e.hasArgs)
    ensures Label(env, Print(e)) == Ok(Flatten(env, e)) && Print(e) != ""
  {
    match e
    case Num(lexeme) => BareLabel(env, lexeme);
    case Type(name, _, _) =>
      BareLabel(env, name);
      assert name + "" == name;
    case Str(quote, text) =>
      QuotedLabel(quote, text);
      var q := [quote] + text + [quote];
      assert q[1..|q| - 1] == text;
  }

  lemma BareLabel(env: Env, text: string)
    requires Bare(text)
    ensures Label(env, text) == Read(env, text)
  {
    UnescapePlain(text);
  }

  lemma QuotedLabel(quote: char, text: string)
    requires IsQuote(quote)
    ensures Unescape([quote] + (Escape(text) + [quote])) == [quote] + text + [quote]
    ensures var q := [quote] + text + [quote]; TrimEnd(TrimStart(q)) == q
  {
    var inner := Escape(text) + [quote];
    UnescapeEscape(text, [quote]);
    var whole := [quote] + inner;
    assert whole[0] == quote && whole[1..] == inner;
    assert Unescape(whole) == [quote] + Unescape(inner);
    assert [quote][1..] == "" && Unescape([quote]) == [quote];
    Associative([quote], text, [quote]);
    var q := [quote] + text + [quote];
    assert !Blank(quote) && q[0] == quote && q[|q| - 1] == quote;
    assert TrimStart(q) == q;
  }

  // ---------------------------------------------------------------- scanning printed text

  /** Inside of an argument list, or anywhere, the loop reads `x` as it stands and is then where it was. */
  ghost predicate Transparent(env: Env, x: string, anywhere: bool) {
    forall rest: string, cur: string, depth: int, stack: seq<Slot> :: anywhere || depth > 0 ==>
      CompileFrom(env, x + rest, cur, false, depth, stack) == CompileFrom(env, rest, cur + x, false, depth, stack)
  }

  lemma TransparentNothing(env: Env, anywhere: bool)
    ensures Transparent(env, "", anywhere)
  {
    forall rest: string, cur: string, depth: int, stack: seq<Slot> | anywhere || depth > 0
      ensures CompileFrom(env, "" + rest, cur, false, depth, stack) ==
        CompileFrom(env, rest, cur + "", false, depth, stack)
    {
      assert "" + rest == rest && cur + "" == cur;
    }
  }

  lemma TransparentBoth(env: Env, x: string, y: string, anywhere: bool)
    requires Transparent(env, x, anywhere) && Transparent(env, y, anywhere)
    ensures Transparent(env, x + y, anywhere)
  {
    forall rest: string, cur: string, depth: int, stack: seq<Slot> | anywhere || depth > 0
      ensures CompileFrom(env, x + y + rest, cur, false, depth, stack) ==
        CompileFrom(env, rest, cur + (x + y), false, depth, stack)
    {
      Associative(x, y, rest);
      Associative(cur, x, y);
      assert CompileFrom(env, x + (y + rest), cur, false, depth, stack) ==
        CompileFrom(env, y + rest, cur + x, false, depth, stack);
    }
  }

  lemma TransparentChar(env: Env, ch: char, anywhere: bool)
    requires ch != '(' && ch != ')' && ch != '\\' && (ch == ',' ==> !anywhere)
    ensures Transparent(env, [ch], anywhere)
  {
    forall rest: string, cur: string, depth: int, stack: seq<Slot> | anywhere || depth > 0
      ensures CompileFrom(env, [ch] + rest, cur, false, depth, stack) ==
        CompileFrom(env, rest, cur + [ch], false, depth, stack)
    {
      assert ([ch] + rest)[1..] == rest;
    }
  }

  lemma TransparentEscape(env: Env, ch: char, anywhere: bool)
    ensures Transparent(env, ['\\', ch], anywhere)
  {
    forall rest: string, cur: string, depth: int, stack: seq<Slot> | anywhere || depth > 0
      ensures CompileFrom(env, ['\\', ch] + rest, cur, false, depth, stack) ==
        CompileFrom(env, rest, cur + ['\\', ch], false, depth, stack)
    {
      assert (['\\', ch] + rest)[1..] == [ch] + rest && ([ch] + rest)[1..] == rest;
      assert cur + ['\\'] + [ch] == cur + ['\\', ch];
    }
  }

  lemma {:induction false} TransparentPlain(env: Env, s: string, anywhere: bool)
    requires forall c :: c in s ==> !Special(c)
    ensures Transparent(env, s, anywhere)
  {
    if s == "" {
      TransparentNothing(env, anywhere);
    } else {
      assert s[0] in s && s == [s[0]] + s[1..];
      TransparentChar(env, s[0], anywhere);
      TransparentPlain(env, s[1..], anywhere);
      TransparentBoth(env, [s[0]], s[1..], anywhere);
    }
  }

  lemma {:induction false} TransparentText(env: Env, text: string, anywhere: bool)
    ensures Transparent(env, Escape(text), anywhere)
  {
    if text == "" {
      TransparentNothing(env, anywhere);
    } else {
      var c := text[0];
      if Special(c) { TransparentEscape(env, c, anywhere); } else { TransparentChar(env, c, anywhere); }
      TransparentText(env, text[1..], anywhere);
      TransparentBoth(env, if Special(c) then ['\\', c] else [c], Escape(text[1..]), anywhere);
    }
  }

  /** Parentheses around something transparent are transparent. */
  lemma TransparentParens(env: Env, x: string)
    requires Transparent(env, x, false)
    ensures Transparent(env, "(" + (x + ")"), false)
  {
    var y := "(" + (x + ")");
    forall rest: string, cur: string, depth: int, stack: seq<Slot> | depth > 0
      ensures CompileFrom(env, y + rest, cur, false, depth, stack) ==
        CompileFrom(env, rest, cur + y, false, depth, stack)
    {
      var tail := x + (")" + rest);
      assert y + rest == "(" + tail;
      assert ("(" + tail)[1..] == tail && (")" + rest)[1..] == rest;
      assert CompileFrom(env, tail, cur + "(", false, depth + 1, stack) ==
        CompileFrom(env, ")" + rest, cur + "(" + x, false, depth + 1, stack);
      assert cur + "(" + x + ")" == cur + y;
    }
  }

  lemma {:induction false} TransparentExpr(env: Env, e: Expr)
    requires Good(env, e)
    ensures Transparent(env, Print(e), !(e.Type? && e.hasArgs))
    decreases e, 1
  {
    match e
    case Num(lexeme) => TransparentPlain(env, lexeme, true);
    case Str(quote, text) =>
      TransparentChar(env, quote, true);
      TransparentText(env, text, true);
      TransparentBoth(env, Escape(text), [quote], true);
      TransparentBoth(env, [quote], Escape(text) + [quote], true);
    case Type(name, hasArgs, args) =>
      TransparentPlain(env, name, true);
      if hasArgs {
        TransparentPlain(env, name, false);
        TransparentExprs(env, args);
        TransparentParens(env, PrintAll(args));
        TransparentBoth(env, name, "(" + (PrintAll(args) + ")"), false);
      } else {
        assert name + "" == name;
      }
  }

  lemma {:induction false} TransparentExprs(env: Env, es: Exprs)
    requires AllGood(env, es)
    ensures Transparent(env, PrintAll(es), false)
    decreases es, 1
  {
    match es
    case Nil => TransparentNothing(env, false);
    case Cons(e, more) =>
      TransparentExpr(env, e);
      if more.Cons? {
        TransparentChar(env, ',', false);
        TransparentExprs(env, more);
        TransparentBoth(env, ",", PrintAll(more), false);
        TransparentBoth(env, Print(e), "," + PrintAll(more), false);
      }
  }

  // ---------------------------------------------------------------- compiling printed text

  /** A literal or a type without arguments, at the top level. */
  lemma CompileSimple(env: Env, e: Expr, rest: string, stack: seq<Slot>)
    requires Good(env, e) && !(e.Type? && e.hasArgs) && (rest != "" ==> rest[0] == ',')
    ensures CompileFrom(env, Print(e) + rest, "", false, 0, stack) ==
      if rest == "" then Ok(stack + Flatten(env, e))
      else CompileFrom(env, rest[1..], "", false, 0, stack + Flatten(env, e))
  {
    TransparentExpr(env, e);
    LabelOf(env, e);
    assert CompileFrom(env, Print(e) + rest, "", false, 0, stack) ==
      CompileFrom(env, rest, "" + Print(e), false, 0, stack);
    assert "" + Print(e) == Print(e);
  }

  lemma OpenCall(env: Env, name: string, tail: string, stack: seq<Slot>)
    requires name != "" && Label(env, name) == Ok([Func(name), NoArgs])
    ensures CompileFrom(env, "(" + tail, name, false, 0, stack) ==
      CompileFrom(env, tail, "", false, 1, stack + [Func(name), NoArgs])
  {
    assert ("(" + tail)[1..] == tail;
  }

  lemma CloseCall(env: Env, name: string, args: string, slots: seq<Slot>, rest: string, stack: seq<Slot>)
    requires Compile(env, args) == Ok(slots)
    ensures CompileFrom(env, ")" + rest, args, false, 1, stack + [Func(name), NoArgs]) ==
      CompileFrom(env, rest, "", false, 0, stack + [Func(name), Args(slots)])
  {
    var pushed := stack + [Func(name), NoArgs];
    assert (")" + rest)[1..] == rest;
    assert pushed[|pushed| - 2] == Func(name);
    assert pushed[..|pushed| - 1] + [Args(slots)] == stack + [Func(name), Args(slots)];
  }

  /** After the closing parenthesis nothing is pending: the next comma adds no slot. */
  lemma NothingPending(env: Env, rest: string, stack: seq<Slot>)
    requires rest != "" ==> rest[0] == ','
    ensures CompileFrom(env, rest, "", false, 0, stack) ==
      if rest == "" then Ok(stack) else CompileFrom(env, rest[1..], "", false, 0, stack)
  {
  }

  /** A type with arguments: its slots are pushed at the opening parenthesis, and filled at the closing one. */
  lemma CallCompiles(env: Env, name: string, args: string, slots: seq<Slot>, rest: string, stack: seq<Slot>)
    requires Transparent(env, name, true) && Transparent(env, args, false) && name != ""
    requires Label(env, name) == Ok([Func(name), NoArgs]) && Compile(env, args) == Ok(slots)
    ensures CompileFrom(env, name + ("(" + (args + (")" + rest))), "", false, 0, stack) ==
      CompileFrom(env, rest, "", false, 0, stack + [Func(name), Args(slots)])
  {
    var close := ")" + rest;
    var tail := args + close;
    var pushed := stack + [Func(name), NoArgs];
    TransparentFromStart(env, name, "(" + tail, true, 0, stack);
    OpenCall(env, name, tail, stack);
    TransparentFromStart(env, args, close, false, 1, pushed);
    CloseCall(env, name, args, slots, rest, stack);
  }

  lemma TransparentFromStart(env: Env, x: string, rest: string, anywhere: bool, depth: int, stack: seq<Slot>)
    requires Transparent(env, x, anywhere) && (anywhere || depth > 0)
    ensures CompileFrom(env, x + rest, "", false, depth, stack) == CompileFrom(env, rest, x, false, depth, stack)
  {
    assert "" + x == x;
    assert CompileFrom(env, x + rest, "", false, depth, stack) == CompileFrom(env, rest, "" + x, false, depth, stack);
  }

  lemma CompileCall(env: Env, e: Expr, rest: string, stack: seq<Slot>)
    requires Good(env, e) && e.Type? && e.hasArgs && (rest != "" ==> rest[0] == ',')
    requires Compile(env, PrintAll(e.args)) == Ok(FlattenAll(env, e.args))
    ensures CompileFrom(env, Print(e) + rest, "", false, 0, stack) ==
      if rest == "" then Ok(stack + Flatten(env, e))
      else CompileFrom(env, rest[1..], "", false, 0, stack + Flatten(env, e))
  {
    LabelOf(env, Type(e.name, false, Nil));
    assert e.name + "" == e.name;
    TransparentPlain(env, e.name, true);
    TransparentExprs(env, e.args);
    CallCompiles(env, e.name, PrintAll(e.args), FlattenAll(env, e.args), rest, stack);
    CallText(e.name, PrintAll(e.args), rest);
    NothingPending(env, rest, stack + Flatten(env, e));
  }

  lemma CallText(name: string, args: string, rest: string)
    ensures name + ("(" + (args + ")")) + rest == name + ("(" + (args + (")" + rest)))
  {
    Associative(args, ")", rest);
    Associative("(", args + ")", rest);
    Associative(name, "(" + (args + ")"), rest);
  }

  /** The compiler turns a printed list of expressions into their slots. */
  lemma {:induction false} CompileAll(env: Env, es: Exprs, stack: seq<Slot>)
    requires AllGood(env, es)
    ensures CompileFrom(env, PrintAll(es), "", false, 0, stack) == Ok(stack + FlattenAll(env, es))
    decreases es
  {
    match es
    case Nil => EmptyIsUnit(stack);
    case Cons(e, more) =>
      var rest := if more.Nil? then "" else "," + PrintAll(more);
      assert PrintAll(es) == Print(e) + rest;
      if e.Type? && e.hasArgs {
        CompileAll(env, e.args, []);
        EmptyIsUnit(FlattenAll(env, e.args));
        CompileCall(env, e, rest, stack);
      } else {
        CompileSimple(env, e, rest, stack);
      }
      if more.Nil? {
        EmptyIsUnit(Flatten(env, e));
      } else {
        assert rest[1..] == PrintAll(more);
        CompileAll(env, more, stack + Flatten(env, e));
        Associative(stack, Flatten(env, e), FlattenAll(env, more));
      }
  }

  /** Compiling a printed expression gives its flattened form. */
  lemma CompilePrinted(env: Env, e: Expr)
    requires Good(env, e)
    ensures Compile(env, Print(e)) == Ok(Flatten(env, e))
  {
    CompileAll(env, Cons(e, Nil), []);
    EmptyIsUnit(Flatten(env, e));
  }

  // ---------------------------------------------------------------- the loop

  /** One round of the loop, in terms of positions. */
  lemma RoundUnfolds(env: Env, code: string, pos: nat, i: nat, esc: bool, depth: int, stack: seq<Slot>)
    requires pos <= i < |code|
    ensures var ch, tail, cur := code[i], code[i + 1..], code[pos..i + 1];
      var r := CompileFrom(env, code[i..], code[pos..i], esc, depth, stack);
      if esc then r == CompileFrom(env, tail, cur, false, depth, stack)
      else if ch == '\\' then r == CompileFrom(env, tail, cur, true, depth, stack)
      else if ch == '(' || ch == ',' then
        var deeper := if ch == '(' then depth + 1 else depth;
        if depth > 0 then r == CompileFrom(env, tail, cur, false, deeper, stack)
        else if pos == i then r == CompileFrom(env, tail, code[i + 1..i + 1], false, deeper, stack)
        else
          var pushed := Append(stack, Label(env, code[pos..i]));
          r == if pushed.SyntaxError? then pushed
            else CompileFrom(env, tail, code[i + 1..i + 1], false, deeper, pushed.stack)
      else if ch == ')' then
        if depth > 1 then r == CompileFrom(env, tail, cur, false, depth - 1, stack)
        else if |stack| < 2 || !stack[|stack| - 2].Func? then r == SyntaxError
        else
          var inner := Compile(env, code[pos..i]);
          r == if inner.SyntaxError? then inner
          else CompileFrom(env, tail, code[i + 1..i + 1], false, depth - 1, stack[..|stack| - 1] + [Args(inner.stack)])
      else r == CompileFrom(env, tail, cur, false, depth, stack)
  {
    var rest := code[i..];
    assert rest != "" && rest[0] == code[i] && rest[1..] == code[i + 1..];
    assert code[pos..i] + [code[i]] == code[pos..i + 1] && code[i + 1..i + 1] == "";
  }

  method CompileCode(env: Env, code: string) returns (r: Result)
    ensures r == Compile(env, code)
    decreases |code|
  {
    var pos: nat, esc, depth, stack := 0, false, 0, [];
    var i: nat := 0;
    assert code[0..] == code && code[0..0] == "";
    while i < |code|
      invariant pos <= i <= |code|
      invariant Compile(env, code) == CompileFrom(env, code[i..], code[pos..i], esc, depth, stack)
    {
      RoundUnfolds(env, code, pos, i, esc, depth, stack);
      var ch := code[i];
      if esc {
        esc := false;
      } else if ch == '\\' {
        esc := true;
      } else if ch == '(' || ch == ',' {
        if depth <= 0 {
          if pos < i {
            var slots := Label(env, code[pos..i]);
            if slots.SyntaxError? {
              return SyntaxError;
            }
            stack := stack + slots.stack;
          }
          pos := i + 1;
        }
        depth := depth + if ch == '(' then 1 else 0;
      } else if ch == ')' {
        depth := depth - 1;
        if depth <= 0 {
          if |stack| < 2 || !stack[|stack| - 2].Func? {
            return SyntaxError;
          }
          var inner := CompileCode(env, code[pos..i]);
          if inner.SyntaxError? {
            return SyntaxError;
          }
          stack := stack[..|stack| - 1] + [Args(inner.stack)];
          pos := i + 1;
        }
      }
      i := i + 1;
    }
    // the appended comma
    assert code[i..] == "";
    if !esc && depth <= 0 && pos < i {
      var slots := Label(env, code[pos..i]);
      if slots.SyntaxError? {
        return SyntaxError;
      }
      stack := stack + slots.stack;
    }
    r := Ok(stack);
  }

  // ---------------------------------------------------------------- evaluation

  /**
   A validator other than `or` and `and`: whether it accepts, and what it leaves in
   `this.value`.
   */
  type Leaf = (string, Slot, string) -> (bool, string)

  /** A literal against the value, with JavaScript's `==`. */
  predicate Equals(env: Env, slot: Slot, value: string) {
    match slot
    case Number(r) => env.number(value) == Some(r)
    case Quoted(s) => s == value
    case _ => false
  }

  /** `func.apply(this, null)` */
  function ApplyBare(leaf: Leaf, name: string, value: string): (bool, string) {
    if name == "or" then (false, value)
    else if name == "and" then (true, value)
    else leaf(name, NoArgs, value)
  }

  /** `func.apply(this, args)`: the outcome, and the value afterwards. */
  function Apply(env: Env, leaf: Leaf, name: string, args: Slot, value: string): (bool, string)
    decreases args, 0
  {
    if !args.Args? then ApplyBare(leaf, name, value)
    else if name == "or" then Walk(env, leaf, true, args.args, 0, value)
    else if name == "and" then Walk(env, leaf, false, args.args, 0, value)
    else leaf(name, args, value)
  }

  /**
   The loops of `or` (`stop` is true) and `and`: the first argument with the outcome
   `stop` decides. A literal takes one slot, a validator two.
   */
  function Walk(env: Env, leaf: Leaf, stop: bool, args: seq<Slot>, i: nat, value: string): (bool, string)
    decreases args, |args| - i
  {
    if i >= |args| then (!stop, value)
    else if !args[i].Func? then
      if Equals(env, args[i], value) == stop then (stop, value) else Walk(env, leaf, stop, args, i + 1, value)
    else
      var r := if i + 1 < |args| then Apply(env, leaf, args[i].name, args[i + 1], value)
               else ApplyBare(leaf, args[i].name, value);
      if r.0 == stop then (stop, r.1) else Walk(env, leaf, stop, args, i + 2, r.1)
  }

  /** The loop itself, for one validator's arguments. */
  method WalkLoop(env: Env, leaf: Leaf, stop: bool, args: seq<Slot>, value0: string)
    returns (outcome: bool, value: string)
    ensures (outcome, value) == Walk(env, leaf, stop, args, 0, value0)
    decreases args
  {
    value := value0;
    var i: nat := 0;
    while i < |args|
      invariant Walk(env, leaf, stop, args, 0, value0) == Walk(env, leaf, stop, args, i, value)
    {
      if !args[i].Func? {
        if Equals(env, args[i], value) == stop {
          return stop, value;
        }
        i := i + 1;
      } else {
        var r := if i + 1 < |args| then Apply(env, leaf, args[i].name, args[i + 1], value)
                 else ApplyBare(leaf, args[i].name, value);
        value := r.1;
        if r.0 == stop {
          return stop, value;
        }
        i := i + 2;
      }
    }
    outcome := !stop;
  }

  // ---------------------------------------------------------------- what an expression means

  /** Whether a value is of the type that the expression describes: the leaves are all asked about that value. */
  predicate Meaning(env: Env, leaf: Leaf, e: Expr, value: string)
    decreases e, 0
  {
    match e
    case Num(lexeme) => env.number(value) == Some(env.parseFloat(lexeme))
    case Str(_, text) => text == value
    case Type(name, hasArgs, args) =>
      if name == "or" then hasArgs && AnyOf(env, leaf, args, value)
      else if name == "and" then hasArgs ==> AllOf(env, leaf, args, value)
      else leaf(name, if hasArgs then Args(FlattenAll(env, args)) else NoArgs, value).0
  }

  predicate AnyOf(env: Env, leaf: Leaf, es: Exprs, value: string)
    decreases es, 0
  {
    es.Cons? && (Meaning(env, leaf, es.head, value) || AnyOf(env, leaf, es.tail, value))
  }

  predicate AllOf(env: Env, leaf: Leaf, es: Exprs, value: string)
    decreases es, 0
  {
    es.Cons? ==> Meaning(env, leaf, es.head, value) && AllOf(env, leaf, es.tail, value)
  }

  /** The compiled validator, run as `validate` does. */
  function Run(env: Env, leaf: Leaf, e: Expr, value: string): (bool, string)
    requires e.Type?
  {
    Apply(env, leaf, e.name, Flatten(env, e)[1], value)
  }

  /** A validator of its own: neither a literal nor `or` nor `and`. */
  predicate IsLeaf(e: Expr) {
    e.Type? && e.name != "or" && e.name != "and"
  }

  /** No validator that the expression asks changes the value: those below its `or`s and `and`s. */
  predicate Keeps(env: Env, leaf: Leaf, e: Expr, value: string)
    decreases e, 0
  {
    e.Type? ==>
      if IsLeaf(e) then Run(env, leaf, e, value).1 == value else e.hasArgs ==> KeepsAll(env, leaf, e.args, value)
  }

  predicate KeepsAll(env: Env, leaf: Leaf, es: Exprs, value: string)
    decreases es, 0
  {
    es.Cons? ==> Keeps(env, leaf, es.head, value) && KeepsAll(env, leaf, es.tail, value)
  }

  /** The walk over the slots from `i` on, when they are those of the expressions `es`. */
  lemma {:induction false} WalkMeans(env: Env, leaf: Leaf, stop: bool, args: seq<Slot>, i: nat, es: Exprs,
                                     value: string)
    requires KeepsAll(env, leaf, es, value) && i <= |args| && args[i..] == FlattenAll(env, es)
    ensures Walk(env, leaf, stop, args, i, value) ==
      ((if stop then AnyOf(env, leaf, es, value) else AllOf(env, leaf, es, value)), value)
    decreases es, 1
  {
    if es.Cons? {
      var own, more := Flatten(env, es.head), FlattenAll(env, es.tail);
      assert args[i..][0] == own[0];
      assert args[i..][|own|..] == more && args[i..][|own|..] == args[i + |own|..];
      if es.head.Type? {
        assert args[i..][1] == own[1];
        ApplyMeans(env, leaf, es.head, value);
      }
      WalkMeans(env, leaf, stop, args, i + |own|, es.tail, value);
    }
  }

  /** Running a compiled expression computes its meaning, when none of its own validators changes the value. */
  lemma {:induction false} ApplyMeans(env: Env, leaf: Leaf, e: Expr, value: string)
    requires Keeps(env, leaf, e, value) && e.Type?
    ensures Run(env, leaf, e, value) == (Meaning(env, leaf, e, value), value)
    decreases e, 0
  {
    if e.hasArgs && !IsLeaf(e) {
      var args := FlattenAll(env, e.args);
      assert args[0..] == args;
      WalkMeans(env, leaf, e.name == "or", args, 0, e.args, value);
    }
  }

  /** The field's own functions all return true. */
  predicate Agree(own: seq<string -> bool>, value: string) {
    forall i :: 0 <= i < |own| ==> own[i](value)
  }

  /** The loop over the field's own functions, which stops at the first that does not return true. */
  method AskOwn(own: seq<string -> bool>, value: string) returns (valid: bool)
    ensures valid <==> Agree(own, value)
    ensures valid <==> forall f :: f in own ==> f(value)
  {
    valid := true;
    for i := 0 to |own|
      invariant valid && Agree(own[..i], value)
    {
      valid := own[i](value);
      if !valid {
        break;
      }
      assert own[..i + 1] == own[..i] + [own[i]];
    }
    assert own[..|own|] == own;
  }

  /**
   The outcome of `validate` for a field of the datatype `code` with functions of its own,
   which are asked about the value as the validators have left it. None: the compiler
   raises an error, or there is no validator to call.
   */
  function Validate(env: Env, leaf: Leaf, own: seq<string -> bool>, optional: bool, code: string, value: string)
    : Option<bool>
  {
    var compiled := Compile(env, code);
    if compiled.SyntaxError? then None
    else if value == "" then Some(optional && Agree(own, value))
    else if compiled.stack == [] || !compiled.stack[0].Func? then None
    else
      var args := if |compiled.stack| > 1 then compiled.stack[1] else NoArgs;
      var r := Apply(env, leaf, compiled.stack[0].name, args, value);
      Some(r.0 && Agree(own, r.1))
  }

  /** With a printed datatype a field accepts what the datatype describes and its own functions agree to. */
  lemma ValidatesPrinted(env: Env, leaf: Leaf, own: seq<string -> bool>, optional: bool, e: Expr, value: string)
    requires Good(env, e) && e.Type? && Keeps(env, leaf, e, value)
    ensures Validate(env, leaf, own, optional, Print(e), value) ==
      Some((if value == "" then optional else Meaning(env, leaf, e, value)) && Agree(own, value))
    ensures Agree(own, value) <==> forall f :: f in own ==> f(value)
  {
    CompilePrinted(env, e);
    ApplyMeans(env, leaf, e, value);
  }

  // ---------------------------------------------------------------- validators that change the value

  predicate OneLine(s: string) {
    forall i :: 0 <= i < |s| ==> !LineBreak(s[i])
  }

  /** `or` and `and` are types, and no text in quotes is a number. */
  ghost predicate HasConnectives(env: Env) {
    && Good(env, Type("or", false, Nil)) && Good(env, Type("and", false, Nil))
    && forall s: string :: s != "" && IsQuote(s[0]) ==> env.number(s).None?
  }

  /** A validator joined with a literal, so that the literal decides. */
  function Telltale(e: Expr, accepted: bool, text: string): Expr {
    Type(if accepted then "and" else "or", true, Cons(e, Cons(Str('"', text), Nil)))
  }

  lemma TelltaleIsGood(env: Env, e: Expr, accepted: bool, text: string)
    requires HasConnectives(env) && Good(env, e) && OneLine(text)
    ensures Good(env, Telltale(e, accepted, text))
  {
    var quoted := ['"'] + text + ['"'];
    assert quoted[0] == '"';
    assert Good(env, Str('"', text));
    assert AllGood(env, Cons(Str('"', text), Nil));
    assert AllGood(env, Cons(e, Cons(Str('"', text), Nil)));
  }

  /** Behind a validator that changes the value, a literal is compared with the changed value and not with the value. */
  lemma TelltaleDiffers(env: Env, leaf: Leaf, e: Expr, value: string, text: string)
    requires IsLeaf(e)
    ensures var r := Run(env, leaf, e, value);
      var t := Telltale(e, r.0, text);
      Run(env, leaf, t, value).0 == (text == r.1) && Meaning(env, leaf, t, value) == (text == value)
  {
    var r := Run(env, leaf, e, value);
    var own := Flatten(env, e);
    var second := Str('"', text);
    assert FlattenAll(env, Cons(second, Nil)) == [Quoted(text)] + FlattenAll(env, Nil);
    var args := FlattenAll(env, Cons(e, Cons(second, Nil)));
    assert args == own + [Quoted(text)];
    assert args == [own[0], own[1], Quoted(text)];
    assert Apply(env, leaf, args[0].name, args[1], value) == r;
    assert Walk(env, leaf, !r.0, args, 0, value) == Walk(env, leaf, !r.0, args, 2, r.1);
    LastSlot(env, leaf, !r.0, args, 2, r.1);
    TelltaleMeaning(env, leaf, e, r.0, text, value);
  }

  lemma LastSlot(env: Env, leaf: Leaf, stop: bool, args: seq<Slot>, i: nat, value: string)
    requires i + 1 == |args| && args[i].Quoted?
    ensures Walk(env, leaf, stop, args, i, value) == (args[i].text == value, value)
  {
    assert Walk(env, leaf, stop, args, i + 1, value) == (!stop, value);
  }

  lemma TelltaleMeaning(env: Env, leaf: Leaf, e: Expr, accepted: bool, text: string, value: string)
    requires Meaning(env, leaf, e, value) == accepted
    ensures Meaning(env, leaf, Telltale(e, accepted, text), value) == (text == value)
  {
    var second := Str('"', text);
    assert Meaning(env, leaf, second, value) == (text == value);
    assert !AnyOf(env, leaf, Nil, value) && AllOf(env, leaf, Nil, value);
    var last := Cons(second, Nil);
    assert AnyOf(env, leaf, last, value) == AllOf(env, leaf, last, value) == (text == value);
    var es := Cons(e, last);
    assert if accepted then AllOf(env, leaf, es, value) == (text == value)
      else AnyOf(env, leaf, es, value) == (text == value);
  }

  /** Every validator that can be written leaves the value as it is. */
  ghost predicate NoneChanges(env: Env, leaf: Leaf, value: string) {
    forall e: Expr :: Good(env, e) && IsLeaf(e) ==> Run(env, leaf, e, value).1 == value
  }

  /** Every expression that can be written is evaluated to its meaning. */
  ghost predicate AllMean(env: Env, leaf: Leaf, value: string) {
    forall e: Expr :: Good(env, e) && e.Type? ==> Run(env, leaf, e, value).0 == Meaning(env, leaf, e, value)
  }

  lemma {:induction false} NoneChangesKeeps(env: Env, leaf: Leaf, e: Expr, value: string)
    requires NoneChanges(env, leaf, value) && Good(env, e)
    ensures Keeps(env, leaf, e, value)
    decreases e, 0
  {
    if e.Type? && !IsLeaf(e) {
      NoneChangesKeepsAll(env, leaf, e.args, value);
    }
  }

  lemma {:induction false} NoneChangesKeepsAll(env: Env, leaf: Leaf, es: Exprs, value: string)
    requires NoneChanges(env, leaf, value) && AllGood(env, es)
    ensures KeepsAll(env, leaf, es, value)
    decreases es, 0
  {
    if es.Cons? {
      NoneChangesKeeps(env, leaf, es.head, value);
      NoneChangesKeepsAll(env, leaf, es.tail, value);
    }
  }

  /**
   For a value on one line, the evaluators agree with the meaning of all expressions that
   can be written if and only if none of the validators changes the value. A value with
   line breaks cannot be written as a literal; there a change goes unnoticed at most if the
   changed value has line breaks too.
   */
  lemma EvaluatorsMeanExpressions(env: Env, leaf: Leaf, value: string)
    requires HasConnectives(env)
    ensures NoneChanges(env, leaf, value) ==> AllMean(env, leaf, value)
    ensures OneLine(value) && AllMean(env, leaf, value) ==> NoneChanges(env, leaf, value)
    ensures AllMean(env, leaf, value) ==> forall e: Expr :: Good(env, e) && IsLeaf(e) ==>
      Run(env, leaf, e, value).1 == value || !(OneLine(value) || OneLine(Run(env, leaf, e, value).1))
  {
    if NoneChanges(env, leaf, value) {
      forall e: Expr | Good(env, e) && e.Type? ensures Run(env, leaf, e, value).0 == Meaning(env, leaf, e, value) {
        NoneChangesKeeps(env, leaf, e, value);
        ApplyMeans(env, leaf, e, value);
      }
    }
    if AllMean(env, leaf, value) {
      forall e: Expr | Good(env, e) && IsLeaf(e) && (OneLine(value) || OneLine(Run(env, leaf, e, value).1))
        ensures Run(env, leaf, e, value).1 == value
      {
        ToldApart(env, leaf, e, value);
      }
    }
  }

  lemma ToldApart(env: Env, leaf: Leaf, e: Expr, value: string)
    requires HasConnectives(env) && AllMean(env, leaf, value) && Good(env, e) && IsLeaf(e)
    requires OneLine(value) || OneLine(Run(env, leaf, e, value).1)
    ensures Run(env, leaf, e, value).1 == value
  {
    var r := Run(env, leaf, e, value);
    var text := if OneLine(value) then value else r.1;
    TelltaleIsGood(env, e, r.0, text);
    TelltaleDiffers(env, leaf, e, value, text);
    var t := Telltale(e, r.0, text);
    assert t.Type? && Run(env, leaf, t, value).0 == Meaning(env, leaf, t, value);
  }

  /** The value without an exclamation mark at its start, and without the blanks around that. */
  function StripNeg(value: string): string {
    var t := TrimStart(value);
    if t != "" && t[0] == '!' then TrimStart(t[1..]) else value
  }

  /** The validators `inner`, and `neg` in front of one of them: it writes the stripped value to `this.value`. */
  function WithNeg(inner: Leaf): Leaf {
    (name: string, args: Slot, value: string) =>
      if name == "neg" && args.Args? && |args.args| == 2 && args.args[0].Func?
      then inner(args.args[0].name, args.args[1], StripNeg(value))
      else inner(name, args, value)
  }

  /** `neg` is such a validator: with it an `and` or an `or` comes to accept a value that it does not describe. */
  lemma NegMisleads(env: Env, inner: Leaf, name: string, value: string)
    requires StripNeg(value) != value && inner(name, NoArgs, StripNeg(value)).1 == StripNeg(value)
    ensures var e := Type("neg", true, Cons(Type(name, false, Nil), Nil));
      var t := Telltale(e, inner(name, NoArgs, StripNeg(value)).0, StripNeg(value));
      && Run(env, WithNeg(inner), t, value).0 && !Meaning(env, WithNeg(inner), t, value)
      && (HasConnectives(env) && Good(env, e) && OneLine(StripNeg(value)) ==> Good(env, t))
  {
    var e := Type("neg", true, Cons(Type(name, false, Nil), Nil));
    assert FlattenAll(env, Nil) == [];
    EmptyIsUnit(Flatten(env, Type(name, false, Nil)));
    assert FlattenAll(env, e.args) == [Func(name), NoArgs];
    var stripped := StripNeg(value);
    assert Run(env, WithNeg(inner), e, value) == inner(name, NoArgs, stripped);
    TelltaleDiffers(env, WithNeg(inner), e, value, stripped);
    if HasConnectives(env) && Good(env, e) && OneLine(stripped) {
      TelltaleIsGood(env, e, inner(name, NoArgs, stripped).0, stripped);
    }
  }
}
