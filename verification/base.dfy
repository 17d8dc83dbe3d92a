/** Small shared datatypes and map helpers. */
module Base {

  /** A value that may be missing: JavaScript's null and undefined. */
  datatype Option<+T> = None | Some(value: T)
  {
    function GetOr(default: T): T {
      if Some? then value else default
    }
  }

  /** `m?.[k]` */
  function Lookup<K, V>(m: map<K, V>, k: K): Option<V> {
    if k in m then Some(m[k]) else None
  }

  /** `m.?[k] ?? {}` for a nested table. */
  function Inner<K, L, V>(m: map<K, map<L, V>>, k: K): map<L, V> {
    if k in m then m[k] else map[]
  }

  /** Assigns or removes a key. */
  function Put<K, V>(m: map<K, V>, k: K, v: Option<V>): map<K, V> {
    if v.Some? then m[k := v.value] else m - {k}
  }

  ghost predicate NoDuplicates<T>(s: seq<T>) {
    forall i, j :: 0 <= i < j < |s| ==> s[i] != s[j]
  }

  /** `s` lists every element of `elements` exactly once. */
  ghost predicate Enumerates<T(!new)>(s: seq<T>, elements: set<T>) {
    && NoDuplicates(s)
    && forall x :: x in s <==> x in elements
  }

  function Elements<T>(s: seq<T>): set<T> {
    set x | x in s
  }

  function Power(base: nat, n: nat): nat {
    if n == 0 then 1 else base * Power(base, n - 1)
  }

  lemma ElementsSnoc<T>(front: seq<T>, last: T)
    ensures Elements(front + [last]) == Elements(front) + {last}
  {
  }

  lemma Associative<T>(x: seq<T>, y: seq<T>, z: seq<T>)
    ensures (x + y) + z == x + (y + z)
  {
  }

  lemma EmptyIsUnit<T>(x: seq<T>)
    ensures x + [] == x && [] + x == x
  {
  }
}
