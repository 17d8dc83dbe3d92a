/** The keys that a record calls mandatory, against those that are sent. */
module SvcbMandatory {
  import opened Base
  import opened Text
  import opened Sorting
  import opened SvcValues
  import opened SvcParams
  import opened SvcRoundTrip
  import opened SvcSpelling
  import opened Svcb
  import opened SvcbRoundTrip

  /** The keys that count as seen, although their first line is left out for lack of a value. */
  function DroppedKeys(lines: seq<string>): set<string> {
    if lines == [] then {}
    else
      var front, line := lines[..|lines| - 1], lines[|lines| - 1];
      var key, seen := SplitLine(line).0, KeysOf(front);
      DroppedKeys(front) + if Keyed(line) && key !in seen && !Counts(seen, line) then {key} else {}
  }

  /** One name of the number is that of a line that is sent. */
  predicate Provided(lines: seq<string>, n: nat) {
    exists key :: key in KeysOf(lines) && key !in DroppedKeys(lines) && KeyNumber(key) == Some(n)
  }

  lemma {:induction false} DroppedAreSeen(lines: seq<string>)
    ensures DroppedKeys(lines) <= KeysOf(lines)
  {
    if lines != [] {
      DroppedAreSeen(lines[..|lines| - 1]);
    }
  }

  lemma {:induction false} ProvidedNumbers(lines: seq<string>, n: nat)
    ensures n in NumbersOf(lines) <==> Provided(lines, n)
  {
    if lines != [] {
      var front, line := lines[..|lines| - 1], lines[|lines| - 1];
      var key := SplitLine(line).0;
      ProvidedNumbers(front, n);
      DroppedAreSeen(front);
      if Counts(KeysOf(front), line) {
        assert KeysOf(lines) == KeysOf(front) + {key} && DroppedKeys(lines) == DroppedKeys(front);
        assert n in NumbersOf(lines) <==> n in NumbersOf(front) || KeyNumber(key) == Some(n);
      } else {
        assert KeysOf(lines) - DroppedKeys(lines) == KeysOf(front) - DroppedKeys(front);
        assert forall other :: other in KeysOf(lines) && other !in DroppedKeys(lines) <==>
          other in KeysOf(lines) - DroppedKeys(lines);
        assert NumbersOf(lines) == NumbersOf(front);
      }
    }
  }

  /** The record has a parameter with this key. */
  predicate IsSent(b64: Base64, lines: seq<string>, n: nat) {
    exists e :: e in SentEntries(b64, lines) && e.num == n
  }

  lemma SentNumbers(b64: Base64, lines: seq<string>, n: nat)
    ensures IsSent(b64, lines, n) <==> n in NumbersOf(lines)
  {
    var entries := ScanAll(b64, lines).entries;
    SortMembers(entries, EntryNum);
    ScanIsOnLines(b64, lines);
    var ns := Map(entries, EntryNum);
    if n in ns {
      var i :| 0 <= i < |ns| && ns[i] == n;
      assert entries[i] in SentEntries(b64, lines);
    }
    if IsSent(b64, lines, n) {
      var e :| e in entries && e.num == n;
      var i :| 0 <= i < |entries| && entries[i] == e;
      assert ns[i] == n;
    }
  }

  /**
   A record that is built sends every key that its list calls mandatory (section 8 of RFC
   9460) exactly when each name on the list, other than `mandatory`, has a number of
   which some name was not dropped.
   */
  lemma MandatoryIsSent(b64: Base64, priority: Option<int>, target: string, lines: seq<string>, value: string)
    requires priority != Some(0) && Build(b64, priority, target, lines).Hex?
    requires ScanAll(b64, lines).mandatory == Items(value)
    ensures Items(value) <= KeysOf(lines)
    ensures (forall n :: n in MandatoryNumbers(Split(value, ','), {}) ==> IsSent(b64, lines, n)) <==>
      forall name :: name in Items(value) && KeyNumber(name) != Some(0) ==> Provided(lines, KeyNumber(name).GetOr(0))
  {
    ScanIsOnLines(b64, lines);
    KeysAreKnown(lines);
    forall n ensures IsSent(b64, lines, n) <==> Provided(lines, n) {
      SentNumbers(b64, lines, n);
      ProvidedNumbers(lines, n);
    }
    forall n ensures n in MandatoryNumbers(Split(value, ','), {}) <==> Listed(value, n) {
      ListedNumbers(value, n);
    }
    forall name | name in Items(value) && KeyNumber(name) != Some(0) ensures Listed(value, KeyNumber(name).GetOr(0)) {
      assert KeyNumber(name).Some?;
    }
  }

  lemma {:induction false} KeysAreKnown(lines: seq<string>)
    ensures forall key :: key in KeysOf(lines) ==> KeyNumber(key).Some?
  {
    if lines != [] {
      KeysAreKnown(lines[..|lines| - 1]);
    }
  }

  /** The list has a name of this number, other than 0. */
  predicate Listed(value: string, n: nat) {
    n != 0 && exists name :: name in Items(value) && KeyNumber(name) == Some(n)
  }

  lemma ListedNumbers(value: string, n: nat)
    requires forall name :: name in Items(value) ==> KeyNumber(name).Some?
    ensures n in MandatoryNumbers(Split(value, ','), {}) <==> Listed(value, n)
  {
    var names := Split(value, ',');
    MandatoryMembers(names, {}, n);
    forall name | name in names ensures Means(name, {}, n) <==>
      name in Items(value) && n != 0 && KeyNumber(name) == Some(n) {
      if name == "" {
        TrimKeeps(name);
      } else {
        KnownIsPlain(name);
      }
    }
  }

  /** The value of the line that is sent under the name `mandatory` itself. */
  function MandatoryText(lines: seq<string>): Option<string> {
    if lines == [] then None
    else
      var front, line := lines[..|lines| - 1], lines[|lines| - 1];
      if Counts(KeysOf(front), line) && SplitLine(line).0 == KeyName(0) then Some(SplitLine(line).1)
      else MandatoryText(front)
  }

  function NumbersIn(value: string): seq<nat> {
    Sort(MandatoryNumbers(Split(value, ','), {}), Same)
  }

  /** That line is the only one of this name among the entries, and it is encoded as a list. */
  lemma {:induction false} MandatoryEntry(b64: Base64, lines: seq<string>, e: Entry)
    ensures e in ScanAll(b64, lines).entries && e.name == KeyName(0) <==>
      MandatoryText(lines).Some? && e == Entry(0, KeyName(0), EncodeNumbers(NumbersIn(MandatoryText(lines).value)))
  {
    if lines != [] {
      var front, line := lines[..|lines| - 1], lines[|lines| - 1];
      MandatoryEntry(b64, front, e);
      LinesAreNamed(b64, front);
      ScanIsOnLines(b64, front);
      EntryOfStep(b64, ScanAll(b64, front), line, e);
    }
  }

  lemma EntryOfStep(b64: Base64, s: Scan, line: string, e: Entry)
    ensures e in Step(b64, s, line).entries <==> e in s.entries || (Counts(s.seen, line) && e == NewEntry(b64, line))
    ensures Counts(s.seen, line) && SplitLine(line).0 == KeyName(0) ==>
      NewEntry(b64, line) == Entry(0, KeyName(0), EncodeNumbers(NumbersIn(SplitLine(line).1)))
  {
    KeyNameIsRead(0);
    KindOfName(0);
  }

  /** The entry of a line with a known key. */
  function NewEntry(b64: Base64, line: string): Entry {
    var (key, value) := SplitLine(line);
    Entry(KeyNumber(key).GetOr(0), key, Encode(b64, key, value).GetOr([]))
  }

  lemma NumbersAreSmall(value: string)
    ensures DecodeNumbers(EncodeNumbers(NumbersIn(value))) == NumbersIn(value)
    ensures forall n :: n in NumbersIn(value) <==> n in MandatoryNumbers(Split(value, ','), {})
  {
    var names := Split(value, ',');
    SortMembers(MandatoryNumbers(names, {}), Same);
    forall n | n in NumbersIn(value) ensures n <= 65535 {
      MandatoryMembers(names, {}, n);
    }
    NumbersAreDecoded(NumbersIn(value));
  }

  /**
   On the wire, for any lines: each number in the list that is sent under the name
   `mandatory` is also sent as a key, exactly when each known name in the list of that
   line, other than `mandatory`, has a number of which some name was not dropped. A line
   such as `MANDATORY=port` is no such line, and sends no list.
   */
  lemma ListIsSent(b64: Base64, lines: seq<string>)
    ensures (forall e, n :: e in SentEntries(b64, lines) && e.name == KeyName(0) && n in DecodeNumbers(e.bytes) ==>
        IsSent(b64, lines, n)) <==>
      (MandatoryText(lines).Some? ==>
        forall name, n :: name in Split(MandatoryText(lines).value, ',') && Means(name, {}, n) ==> Provided(lines, n))
  {
    SortMembers(ScanAll(b64, lines).entries, EntryNum);
    forall n ensures IsSent(b64, lines, n) <==> Provided(lines, n) {
      SentNumbers(b64, lines, n);
      ProvidedNumbers(lines, n);
    }
    forall e: Entry ensures e in SentEntries(b64, lines) && e.name == KeyName(0) <==>
      MandatoryText(lines).Some? && e == Entry(0, KeyName(0), EncodeNumbers(NumbersIn(MandatoryText(lines).value))) {
      MandatoryEntry(b64, lines, e);
    }
    if MandatoryText(lines).Some? {
      var value := MandatoryText(lines).value;
      NumbersAreSmall(value);
      forall n ensures n in NumbersIn(value) <==> exists name :: name in Split(value, ',') && Means(name, {}, n) {
        MandatoryMembers(Split(value, ','), {}, n);
      }
      var e := Entry(0, KeyName(0), EncodeNumbers(NumbersIn(value)));
      assert e in SentEntries(b64, lines);
    }
  }

  /** A list that names a key in two ways sends its number twice: `alpn` and `key1`, for example. */
  lemma NamedTwice(names: seq<string>)
    requires names == ["alpn", "key1"]
    ensures !Increasing(Sort(MandatoryNumbers(names, {}), Same), Same)
  {
    KeyOneIsAlpn();
    KeyNameIsRead(1);
    NameTextIsPlain(names[0]);
    NameTextIsPlain(names[1]);
    assert names[0] in names && names[1] in names && Clash(names[0], names[1], {});
    MandatoryIncreases(names, {});
  }

  /** A line with a key and no value. */
  lemma EmptyLine(name: string)
    requires NameText(name)
    ensures var line := name + "="; SplitLine(line) == (name, "") && Trim(line) != ""
  {
    var nothing := "";
    NameTextIsPlain(name);
    SplitAt(name, nothing, '=');
    SplitPlain(name, '=');
    SplitPlain(nothing, '=');
    assert name + ("=" + nothing) == name + "=";
    TrimKeepsSome(name + "=");
    TrimKeeps(nothing);
  }

  /** For every key other than 2: it is called mandatory and has no value, and the record is built without it. */
  lemma MandatoryIsMissing(b64: Base64, priority: Option<int>, target: string, n: nat)
    requires priority != Some(0) && 1 <= n <= 65535 && n != 2
    ensures var lines := [Line(b64, Mandatory([n])), KeyName(n) + "="];
      Build(b64, priority, target, lines).Hex? && IsSent(b64, lines, 0) && !IsSent(b64, lines, n)
  {
    var keys, name := [n], KeyName(n);
    var first, second := Line(b64, Mandatory(keys)), name + "=";
    var lines := [first, second];
    var nothing := ScanAll(b64, []);
    assert Good(b64, Mandatory(keys));
    KeyNameIsRead(n);
    EmptyLine(name);
    StepOf(b64, nothing, Mandatory(keys));
    ItemsOfNames(b64, keys);
    assert Names(keys) == [name];
    assert lines[..1] == [first] && [first][..0] == [];
    var s := ScanAll(b64, [first]);
    assert s == Step(b64, nothing, first);
    MissingIsBuilt(b64, priority, target, lines, s, name, n);
  }

  lemma MissingIsBuilt(b64: Base64, priority: Option<int>, target: string, lines: seq<string>, s: Scan, name: string,
                       n: nat)
    requires priority != Some(0) && KeyNumber(name) == Some(n) && n != 2 && n != 0
    requires |lines| == 2 && s == ScanAll(b64, lines[..1])
    requires Trim(lines[1]) != "" && SplitLine(lines[1]) == (name, "")
    requires |s.entries| == 1 && s.entries[0].num == 0 && s.mandatory <= {name}
    requires !s.noAlpn && !s.malformed
    ensures Build(b64, priority, target, lines).Hex? && IsSent(b64, lines, 0) && !IsSent(b64, lines, n)
  {
    StepDrops(b64, s, lines[1], name, n);
    var t := ScanAll(b64, lines);
    assert t == Step(b64, s, lines[1]);
    ScanIsBuilt(b64, priority, target, lines);
    SortMembers(t.entries, EntryNum);
    assert t.entries[0] in SentEntries(b64, lines);
  }

  lemma StepDrops(b64: Base64, s: Scan, line: string, name: string, n: nat)
    requires KeyNumber(name) == Some(n) && n != 2 && Trim(line) != "" && SplitLine(line) == (name, "")
    ensures Step(b64, s, line) == s.(seen := s.seen + {name})
  {
    assert name in s.seen ==> s.seen + {name} == s.seen;
  }

  lemma ScanIsBuilt(b64: Base64, priority: Option<int>, target: string, lines: seq<string>)
    requires var s := ScanAll(b64, lines); !s.noAlpn && !s.malformed && s.mandatory <= s.seen
    requires priority != Some(0)
    ensures Build(b64, priority, target, lines).Hex?
  {
  }
}
