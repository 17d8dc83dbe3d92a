/** Characters: white space, line breaks, digits and letters, one by one. */
module TextRules {
  import opened Base
  import opened Text
  import opened SvcValues
  import opened SvcParams

  /** The white space of section 12.2 of ECMA-262, and its line terminators of section 12.3. */
  lemma WhiteSpace(c: char)
    ensures LineBreak(c) <==> c in "\n\r\U{2028}\U{2029}"
    ensures IsSpace(c) <==>
      LineBreak(c) || c in "\t\U{B}\U{C} \U{A0}\U{1680}\U{202F}\U{205F}\U{3000}\U{FEFF}" ||
      c in "\U{2000}\U{2001}\U{2002}\U{2003}\U{2004}\U{2005}\U{2006}\U{2007}\U{2008}\U{2009}\U{200A}"
  {
  }

  /** Trimming takes white space off both ends, and nothing else. */
  lemma {:induction false} TrimTakesSpace(left: string, s: string, right: string)
    requires (forall c :: c in left ==> IsSpace(c)) && (forall c :: c in right ==> IsSpace(c)) && Trimmed(s) && s != ""
    ensures Trim(left + s + right) == s
  {
    TrimLeftTakes(left, s + right);
    Associative(left, s, right);
    TrimRightTakes(s, right);
  }

  lemma {:induction false} TrimLeftTakes(left: string, s: string)
    requires (forall c :: c in left ==> IsSpace(c)) && s != "" && !IsSpace(s[0])
    ensures TrimLeft(left + s) == s
  {
    if left == "" {
      assert left + s == s;
    } else {
      assert left[0] in left && (left + s)[1..] == left[1..] + s;
      TrimLeftTakes(left[1..], s);
    }
  }

  lemma {:induction false} TrimRightTakes(s: string, right: string)
    requires (forall c :: c in right ==> IsSpace(c)) && s != "" && !IsSpace(s[|s| - 1])
    ensures TrimRight(s + right) == s
  {
    if right == "" {
      assert s + right == s;
    } else {
      var front := right[..|right| - 1];
      assert right[|right| - 1] in right && (s + right)[..|s + right| - 1] == s + front;
      TrimRightTakes(s, front);
    }
  }

  /** Hex digits count up to fifteen, in either case. */
  lemma DigitsCount(c: char)
    ensures IsDigit(c) <==> c in "0123456789"
    ensures IsHex(c) <==> c in "0123456789abcdefABCDEF"
    ensures DigitValue('0') == 0 && DigitValue('9') == 9
    ensures DigitValue('a') == DigitValue('A') == 10 && DigitValue('f') == DigitValue('F') == 15
    ensures IsHex(c) ==> DigitValue(LowerChar(c)) == DigitValue(c)
  {
  }

  /** Lower case, letter by letter. */
  lemma LowerCase(upper: string, lower: string)
    requires upper == "ABCDEFGHIJKLMNOPQRSTUVWXYZ" && lower == "abcdefghijklmnopqrstuvwxyz"
    ensures Lower(upper) == lower && Lower(lower) == lower
  {
    forall i | 0 <= i < |upper| ensures LowerChar(upper[i]) == lower[i] == LowerChar(lower[i]) {
      assert upper[i] == 'A' + i as char && lower[i] == 'a' + i as char;
    }
  }

  /** Everything else is not changed. */
  lemma LowerKeepsOthers(c: char)
    ensures LowerChar(c) != c ==> 'A' <= c <= 'Z'
  {
  }

  lemma {:induction false} DigitsLead(digits: string, rest: string)
    requires AllDigits(digits) && (rest != "" ==> !IsDigit(rest[0]))
    ensures LeadingDigits(digits + rest) == digits
  {
    if digits == "" {
      assert digits + rest == rest;
    } else {
      assert digits[0] in digits && forall c :: c in digits[1..] ==> c in digits;
      assert (digits + rest)[1..] == digits[1..] + rest;
      DigitsLead(digits[1..], rest);
      assert digits == [digits[0]] + digits[1..];
    }
  }

  lemma {:induction false} SkipsSpace(left: string, s: string)
    requires (forall c :: c in left ==> IsSpace(c)) && (s != "" ==> !IsSpace(s[0]))
    ensures TrimLeft(left + s) == s
  {
    if left == "" {
      assert left + s == s;
    } else {
      assert left[0] in left && (left + s)[1..] == left[1..] + s && forall c :: c in left[1..] ==> c in left;
      SkipsSpace(left[1..], s);
    }
  }

  /** `parseInt` skips white space, takes a sign and the digits behind it, and does not look at the rest. */
  lemma LeadingNumber(left: string, digits: string, rest: string)
    requires forall c :: c in left ==> IsSpace(c)
    requires digits != "" && AllDigits(digits) && (rest != "" ==> !IsDigit(rest[0]))
    ensures ParseInt(left + (digits + rest)) == Value(digits, 10)
    ensures ParseInt(left + ("+" + (digits + rest))) == Value(digits, 10)
    ensures ParseInt(left + ("-" + (digits + rest))) == 0 as int - Value(digits, 10)
  {
    var s := digits + rest;
    assert digits[0] in digits && s[0] == digits[0] && !IsSpace('+') && !IsSpace('-');
    assert !IsSpace(s[0]) && s[0] != '+' && s[0] != '-';
    DigitsLead(digits, rest);
    SkipsSpace(left, s);
    SkipsSpace(left, "+" + s);
    SkipsSpace(left, "-" + s);
    assert ("+" + s)[1..] == s && ("-" + s)[1..] == s;
  }

  /** The registered keys, of section 14.3.2 of RFC 9460. */
  lemma RegisteredKeys()
    ensures KeyName(0) == "mandatory" && KeyName(1) == "alpn" && KeyName(2) == "no-default-alpn" && KeyName(3) == "port"
    ensures KeyName(4) == "ipv4hint" && KeyName(5) == "ech" && KeyName(6) == "ipv6hint"
    ensures KeyName(7) == "key7" && KeyName(65535) == "key65535"
  {
    assert Show(7, 10) == "7";
    assert Show(6, 10) == "6" && Show(65, 10) == "6" + "5" && Show(655, 10) == "65" + "5";
    assert Show(6553, 10) == "655" + "3" && Show(65535, 10) == "6553" + "5";
  }

  /** Values may stand in quotes, and white space around keys and values does not count. */
  lemma QuotedValue(name: string, value: string, a: string, b: string, c: string, d: string)
    requires NameText(name) && Kept(value) && forall i :: 0 <= i < |value| ==> !LineBreak(value[i])
    requires forall ch :: ch in a + b + c + d ==> IsSpace(ch)
    ensures SplitLine((a + name + b) + ("=" + (c + ("\"" + value + "\"") + d))) == (name, value)
    ensures SplitLine((a + name + b) + ("=" + (c + value + d))) == (name, value)
  {
    var quoted := "\"" + value + "\"";
    assert !IsSpace('=') && !IsSpace('"') && !IsSpace('\\');
    assert forall ch :: ch in a || ch in b || ch in c || ch in d ==> ch in a + b + c + d;
    NameTextIsPlain(name);
    assert name[0] in name && name[|name| - 1] in name;
    TrimTakesSpace(a, name, b);
    TrimTakesSpace(c, quoted, d);
    TrimTakesSpace(c, value, d);
    TwoParts(a + name + b, c + quoted + d);
    TwoParts(a + name + b, c + value + d);
    assert quoted[1..|quoted| - 1] == value;
    assert Unquote(quoted) == value;
  }

  lemma TwoParts(key: string, value: string)
    requires '=' !in key && '=' !in value
    ensures SplitLine(key + ("=" + value)) == (Unquote(Trim(key)), Unquote(Trim(value)))
  {
    SplitAt(key, value, '=');
    SplitPlain(key, '=');
    SplitPlain(value, '=');
  }
}
