/** Ordering machinery shared by the three rankers: a two-level sort key
    compared in descending order, a stable descending insertion sort, and the
    "first n rows" selection that pandas calls `head`. */
module Ranking {

  /** A sort key compared lexicographically, both components descending.
      Single-column sorts put their column in `primary` and 0.0 in `secondary`. */
  datatype Key = Key(primary: real, secondary: real)

  /** `a` may stand before `b` in a descending order (a total preorder). */
  predicate AtLeast(a: Key, b: Key) {
    a.primary > b.primary || (a.primary == b.primary && a.secondary >= b.secondary)
  }

  /** No element is strictly outranked by an element after it. */
  predicate Descending<T>(s: seq<T>, key: T -> Key) {
    forall i, j :: 0 <= i < j < |s| ==> AtLeast(key(s[i]), key(s[j]))
  }

  /** Places `x` in front of the first element it ranks at least as high as,
      hence in front of every element it ties with. */
  function Insert<T>(x: T, s: seq<T>, key: T -> Key): (r: seq<T>)
    requires Descending(s, key)
    ensures |r| == |s| + 1
    ensures multiset(r) == multiset(s) + multiset{x}
    ensures forall y :: y in r ==> y == x || y in s
    ensures Descending(r, key)
  {
    if s == [] || AtLeast(key(x), key(s[0])) then
      [x] + s
    else
      var rest := Insert(x, s[1..], key);
      assert forall y :: y in s[1..] ==> AtLeast(key(s[0]), key(y));
      assert s == [s[0]] + s[1..];
      [s[0]] + rest
  }

  /** Stable descending sort: elements with equal keys keep their input order. */
  function SortDesc<T>(s: seq<T>, key: T -> Key): (r: seq<T>)
    ensures |r| == |s|
    ensures multiset(r) == multiset(s)
    ensures Descending(r, key)
  {
    if s == [] then []
    else
      assert s == [s[0]] + s[1..];
      Insert(s[0], SortDesc(s[1..], key), key)
  }

  /** The subsequence of `s` whose key is exactly `k`, in order. */
  function WithKey<T>(s: seq<T>, key: T -> Key, k: Key): seq<T> {
    if s == [] then []
    else (if key(s[0]) == k then [s[0]] else []) + WithKey(s[1..], key, k)
  }

  lemma {:induction false} InsertWithKey<T>(x: T, s: seq<T>, key: T -> Key, k: Key)
    requires Descending(s, key)
    ensures WithKey(Insert(x, s, key), key, k)
            == (if key(x) == k then [x] else []) + WithKey(s, key, k)
  {
    if s == [] || AtLeast(key(x), key(s[0])) {
      assert ([x] + s)[1..] == s;
    } else {
      var rest := Insert(x, s[1..], key);
      InsertWithKey(x, s[1..], key, k);
      assert ([s[0]] + rest)[1..] == rest;
      assert key(s[0]) != key(x);
    }
  }

  /** The sort is stable: for every key value, the elements carrying it
      appear in the output in the same order as in the input. */
  lemma {:induction false} SortDescStable<T>(s: seq<T>, key: T -> Key, k: Key)
    ensures WithKey(SortDesc(s, key), key, k) == WithKey(s, key, k)
  {
    if s != [] {
      SortDescStable(s[1..], key, k);
      InsertWithKey(s[0], SortDesc(s[1..], key), key, k);
    }
  }

  /** No two elements share the same `id`. */
  predicate UniqueBy<T, U(==)>(s: seq<T>, id: T -> U) {
    forall i, j :: 0 <= i < j < |s| ==> id(s[i]) != id(s[j])
  }

  lemma {:induction false} InsertUniqueBy<T, U>(x: T, s: seq<T>, key: T -> Key, id: T -> U)
    requires Descending(s, key)
    requires UniqueBy(s, id)
    requires forall y :: y in s ==> id(y) != id(x)
    ensures UniqueBy(Insert(x, s, key), id)
  {
    if s == [] || AtLeast(key(x), key(s[0])) {
    } else {
      var rest := Insert(x, s[1..], key);
      InsertUniqueBy(x, s[1..], key, id);
      forall y | y in rest ensures id(y) != id(s[0]) {
        if y != x {
          var j :| 1 <= j < |s| && s[j] == y;
        }
      }
    }
  }

  /** Sorting cannot create two elements with the same identity. */
  lemma {:induction false} SortDescUniqueBy<T, U>(s: seq<T>, key: T -> Key, id: T -> U)
    requires UniqueBy(s, id)
    ensures UniqueBy(SortDesc(s, key), id)
  {
    if s != [] {
      SortDescUniqueBy(s[1..], key, id);
      var t := SortDesc(s[1..], key);
      forall y | y in t ensures id(y) != id(s[0]) {
        assert y in multiset(t);
        assert y in s[1..];
      }
      InsertUniqueBy(s[0], t, key, id);
    }
  }

  lemma {:induction false} UniqueByOnce<T, U>(s: seq<T>, id: T -> U, x: T)
    requires UniqueBy(s, id)
    ensures multiset(s)[x] <= 1
  {
    if s != [] {
      UniqueByOnce(s[1..], id, x);
      assert s == [s[0]] + s[1..];
      if x == s[0] {
        forall k | 0 <= k < |s[1..]| ensures s[1..][k] != x {
          assert id(s[0]) != id(s[k + 1]);
        }
      }
    }
  }

  lemma RepeatedTwice<T>(t: seq<T>, i: nat, j: nat)
    requires i < j < |t| && t[i] == t[j]
    ensures multiset(t)[t[i]] >= 2
  {
    assert t == t[..j] + [t[j]] + t[j + 1..];
    assert t[i] in t[..j];
  }

  /** Any rearrangement of a sequence without repeated identities has none either. */
  lemma PermutationUniqueBy<T, U>(s: seq<T>, t: seq<T>, id: T -> U)
    requires multiset(s) == multiset(t)
    requires UniqueBy(s, id)
    ensures UniqueBy(t, id)
  {
    forall i, j | 0 <= i < j < |t| ensures id(t[i]) != id(t[j]) {
      assert t[i] in multiset(s) && t[j] in multiset(s);
      var a :| 0 <= a < |s| && s[a] == t[i];
      var b :| 0 <= b < |s| && s[b] == t[j];
      if a == b {
        RepeatedTwice(t, i, j);
        UniqueByOnce(s, id, t[i]);
      }
    }
  }

  /** pandas `head(n)`: the first `n` elements, or all of them when fewer. */
  function Take<T>(s: seq<T>, n: nat): (r: seq<T>)
    ensures |r| == if n < |s| then n else |s|
    ensures r == s[..|r|]
  {
    if n < |s| then s[..n] else s
  }
}
