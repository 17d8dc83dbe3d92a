/** `Array.prototype.sort` by a number: stable. */
module Sorting {

  function Insert<T>(s: seq<T>, x: T, key: T -> nat): seq<T> {
    if s == [] || key(s[|s| - 1]) <= key(x) then s + [x]
    else Insert(s[..|s| - 1], x, key) + [s[|s| - 1]]
  }

  function Sort<T>(s: seq<T>, key: T -> nat): seq<T> {
    if s == [] then [] else Insert(Sort(s[..|s| - 1], key), s[|s| - 1], key)
  }

  ghost predicate Ordered<T>(s: seq<T>, key: T -> nat) {
    forall i, j :: 0 <= i < j < |s| ==> key(s[i]) <= key(s[j])
  }

  ghost predicate Increasing<T>(s: seq<T>, key: T -> nat) {
    forall i, j :: 0 <= i < j < |s| ==> key(s[i]) < key(s[j])
  }

  /** No two elements have the same key. */
  ghost predicate DistinctKeys<T>(s: seq<T>, key: T -> nat) {
    forall i, j :: 0 <= i < j < |s| ==> key(s[i]) != key(s[j])
  }

  ghost predicate Below<T>(s: seq<T>, key: T -> nat, k: nat) {
    forall y :: y in s ==> key(y) <= k
  }

  ghost predicate Avoids<T>(s: seq<T>, key: T -> nat, k: nat) {
    forall y :: y in s ==> key(y) != k
  }

  lemma OrderedSnoc<T>(s: seq<T>, front: seq<T>, last: T, key: T -> nat)
    requires s == front + [last]
    ensures Ordered(s, key) <==> Ordered(front, key) && Below(front, key, key(last))
  {
    if Ordered(s, key) {
      forall i, j | 0 <= i < j < |front| ensures key(front[i]) <= key(front[j]) {
        assert key(s[i]) <= key(s[j]);
      }
      forall y | y in front ensures key(y) <= key(last) {
        var i :| 0 <= i < |front| && front[i] == y;
        assert key(s[i]) <= key(s[|front|]);
      }
    } else {
      var i, j :| 0 <= i < j < |s| && !(key(s[i]) <= key(s[j]));
      assert s[i] in front;
      assert j < |front| ==> front[j] == s[j];
    }
  }

  lemma DistinctSnoc<T>(s: seq<T>, front: seq<T>, last: T, key: T -> nat)
    requires s == front + [last]
    ensures DistinctKeys(s, key) <==> DistinctKeys(front, key) && Avoids(front, key, key(last))
  {
    if DistinctKeys(s, key) {
      forall i, j | 0 <= i < j < |front| ensures key(front[i]) != key(front[j]) {
        assert key(s[i]) != key(s[j]);
      }
      forall y | y in front ensures key(y) != key(last) {
        var i :| 0 <= i < |front| && front[i] == y;
        assert key(s[i]) != key(s[|front|]);
      }
    } else {
      var i, j :| 0 <= i < j < |s| && !(key(s[i]) != key(s[j]));
      assert s[i] in front;
      assert j < |front| ==> front[j] == s[j];
    }
  }

  lemma {:induction false} InsertElements<T>(s: seq<T>, x: T, key: T -> nat)
    ensures multiset(Insert(s, x, key)) == multiset(s) + multiset{x}
  {
    if s != [] && key(s[|s| - 1]) > key(x) {
      InsertElements(s[..|s| - 1], x, key);
      assert s == s[..|s| - 1] + [s[|s| - 1]];
    }
  }

  /** Whatever holds of the elements of a sequence and of `x` holds of those of the insertion. */
  lemma InsertMembers<T>(s: seq<T>, x: T, key: T -> nat)
    ensures forall y :: y in Insert(s, x, key) <==> y == x || y in s
  {
    InsertElements(s, x, key);
    var r := Insert(s, x, key);
    forall y ensures y in r <==> y == x || y in s {
      assert y in r <==> y in multiset(r);
    }
  }

  lemma InsertBelow<T>(s: seq<T>, x: T, key: T -> nat, k: nat)
    ensures Below(Insert(s, x, key), key, k) <==> Below(s, key, k) && key(x) <= k
    ensures Avoids(Insert(s, x, key), key, k) <==> Avoids(s, key, k) && key(x) != k
  {
    InsertMembers(s, x, key);
    var r := Insert(s, x, key);
    assert x in r && forall y :: y in s ==> y in r;
  }

  lemma AvoidsSnoc<T>(s: seq<T>, front: seq<T>, last: T, key: T -> nat, k: nat)
    requires s == front + [last]
    ensures Avoids(s, key, k) <==> Avoids(front, key, k) && key(last) != k
    ensures Below(s, key, k) <==> Below(front, key, k) && key(last) <= k
  {
    assert last in s && forall y :: y in front ==> y in s;
    assert forall y :: y in s ==> y == last || y in front;
  }

  lemma {:induction false} InsertOrdered<T>(s: seq<T>, x: T, key: T -> nat)
    requires Ordered(s, key)
    ensures Ordered(Insert(s, x, key), key)
  {
    var r := Insert(s, x, key);
    if s == [] {
    } else if key(s[|s| - 1]) <= key(x) {
      var front, last := s[..|s| - 1], s[|s| - 1];
      assert s == front + [last];
      OrderedSnoc(s, front, last, key);
      assert Below(s, key, key(x)) by {
        AvoidsSnoc(s, front, last, key, key(x));
      }
      OrderedSnoc(r, s, x, key);
    } else {
      var front, last := s[..|s| - 1], s[|s| - 1];
      assert s == front + [last];
      OrderedSnoc(s, front, last, key);
      InsertOrdered(front, x, key);
      InsertBelow(front, x, key, key(last));
      OrderedSnoc(r, Insert(front, x, key), last, key);
    }
  }

  lemma {:induction false} InsertDistinct<T>(s: seq<T>, x: T, key: T -> nat)
    ensures DistinctKeys(Insert(s, x, key), key) <==> DistinctKeys(s, key) && Avoids(s, key, key(x))
  {
    var r := Insert(s, x, key);
    if s == [] || key(s[|s| - 1]) <= key(x) {
      DistinctSnoc(r, s, x, key);
    } else {
      var front, last := s[..|s| - 1], s[|s| - 1];
      assert s == front + [last];
      InsertDistinct(front, x, key);
      InsertBelow(front, x, key, key(last));
      AvoidsSnoc(s, front, last, key, key(x));
      DistinctSnoc(r, Insert(front, x, key), last, key);
      DistinctSnoc(s, front, last, key);
    }
  }

  /** The result is ordered and has the same elements. */
  lemma {:induction false} SortKeeps<T>(s: seq<T>, key: T -> nat)
    ensures Ordered(Sort(s, key), key) && multiset(Sort(s, key)) == multiset(s)
  {
    if s != [] {
      var front := s[..|s| - 1];
      SortKeeps(front, key);
      InsertElements(Sort(front, key), s[|s| - 1], key);
      InsertOrdered(Sort(front, key), s[|s| - 1], key);
      assert s == front + [s[|s| - 1]];
    }
  }

  lemma SortMembers<T>(s: seq<T>, key: T -> nat)
    ensures |Sort(s, key)| == |s| && forall y :: y in Sort(s, key) <==> y in s
  {
    SortKeeps(s, key);
    var r := Sort(s, key);
    assert |multiset(r)| == |multiset(s)|;
    forall y ensures y in r <==> y in s {
      assert y in r <==> y in multiset(r);
    }
  }

  lemma {:induction false} SortDistinct<T>(s: seq<T>, key: T -> nat)
    ensures DistinctKeys(Sort(s, key), key) <==> DistinctKeys(s, key)
  {
    if s != [] {
      var front, last := s[..|s| - 1], s[|s| - 1];
      SortDistinct(front, key);
      SortMembers(front, key);
      InsertDistinct(Sort(front, key), last, key);
      assert s == front + [last];
      DistinctSnoc(s, front, last, key);
      assert Avoids(front, key, key(last)) <==> Avoids(Sort(front, key), key, key(last)) by {
        assert forall y :: y in front <==> y in Sort(front, key);
      }
    }
  }

  /** Sorted keys increase strictly exactly when there are no two equal ones. */
  lemma SortIncreases<T>(s: seq<T>, key: T -> nat)
    ensures Increasing(Sort(s, key), key) <==> DistinctKeys(s, key)
  {
    SortKeeps(s, key);
    SortDistinct(s, key);
    ghost var r := Sort(s, key);
    if DistinctKeys(r, key) {
      assert forall i, j :: 0 <= i < j < |r| ==> key(r[i]) <= key(r[j]) && key(r[i]) != key(r[j]);
    }
  }

  /** Sorting what increases changes nothing. */
  lemma {:induction false} SortOfIncreasing<T>(s: seq<T>, key: T -> nat)
    requires Increasing(s, key)
    ensures Sort(s, key) == s
  {
    if s != [] {
      var front := s[..|s| - 1];
      assert forall i :: 0 <= i < |front| ==> front[i] == s[i];
      SortOfIncreasing(front, key);
      assert front != [] ==> key(front[|front| - 1]) < key(s[|s| - 1]);
      assert s == front + [s[|s| - 1]];
    }
  }

  /** What is sorted may be mapped before or after, if that keeps the keys. */
  function Map<T, U>(s: seq<T>, f: T -> U): (r: seq<U>)
    ensures |r| == |s| && forall i :: 0 <= i < |s| ==> r[i] == f(s[i])
  {
    seq(|s|, i requires 0 <= i < |s| => f(s[i]))
  }

  lemma {:induction false} InsertOfMap<T, U>(s: seq<T>, x: T, key: T -> nat, f: T -> U, other: U -> nat)
    requires forall t :: t in s || t == x ==> other(f(t)) == key(t)
    ensures Insert(Map(s, f), f(x), other) == Map(Insert(s, x, key), f)
  {
    if s != [] {
      assert other(f(s[|s| - 1])) == key(s[|s| - 1]);
      if key(s[|s| - 1]) > key(x) {
        InsertOfMap(s[..|s| - 1], x, key, f, other);
        assert Map(s, f)[..|s| - 1] == Map(s[..|s| - 1], f);
      }
    }
  }

  lemma {:induction false} SortOfMap<T, U>(s: seq<T>, key: T -> nat, f: T -> U, other: U -> nat)
    requires forall t :: t in s ==> other(f(t)) == key(t)
    ensures Sort(Map(s, f), other) == Map(Sort(s, key), f)
  {
    if s != [] {
      var front := s[..|s| - 1];
      SortOfMap(front, key, f, other);
      SortMembers(front, key);
      assert Map(s, f)[..|s| - 1] == Map(front, f);
      InsertOfMap(Sort(front, key), s[|s| - 1], key, f, other);
    }
  }
}
