/**
 * Python's `list.sort(key=...)`: a stable sort of a list, in place, by an
 * integer key. The specification is the functional insertion sort `SortBy`;
 * `SortInPlace` is the array algorithm proved equal to it, and the lemmas
 * show that `SortBy` returns a permutation, ordered by key, and stable.
 */
module Sorting {

  ghost predicate Sorted<T>(s: seq<T>, key: T -> int) {
    forall i, j :: 0 <= i < j < |s| ==> key(s[i]) <= key(s[j])
  }

  /** The elements of `s` whose key is `v`, in their order in `s`. */
  function WithKey<T>(s: seq<T>, key: T -> int, v: int): seq<T> {
    if s == [] then []
    else WithKey(s[..|s| - 1], key, v) + (if key(s[|s| - 1]) == v then [s[|s| - 1]] else [])
  }

  /** Places `x` after every element of `t`, from the back, whose key is not above it. */
  function Insert<T>(t: seq<T>, x: T, key: T -> int): (r: seq<T>)
    ensures |r| == |t| + 1
    decreases |t|
  {
    if t == [] || key(t[|t| - 1]) <= key(x) then t + [x]
    else Insert(t[..|t| - 1], x, key) + [t[|t| - 1]]
  }

  /** Stable sort by `key`, inserting each element in turn. */
  function SortBy<T>(s: seq<T>, key: T -> int): (r: seq<T>)
    ensures |r| == |s|
  {
    if s == [] then [] else Insert(SortBy(s[..|s| - 1], key), s[|s| - 1], key)
  }

  lemma {:induction false} InsertPermutes<T>(t: seq<T>, x: T, key: T -> int)
    ensures multiset(Insert(t, x, key)) == multiset(t) + multiset{x}
    decreases |t|
  {
    if t == [] || key(t[|t| - 1]) <= key(x) {
    } else {
      var u := t[..|t| - 1];
      InsertPermutes(u, x, key);
      assert t == u + [t[|t| - 1]];
    }
  }

  /** The sort returns a permutation of its input. */
  lemma {:induction false} SortByPermutes<T>(s: seq<T>, key: T -> int)
    ensures multiset(SortBy(s, key)) == multiset(s)
  {
    if s != [] {
      var u := s[..|s| - 1];
      SortByPermutes(u, key);
      InsertPermutes(SortBy(u, key), s[|s| - 1], key);
      assert s == u + [s[|s| - 1]];
    }
  }

  lemma {:induction false} InsertSorted<T>(t: seq<T>, x: T, key: T -> int)
    requires Sorted(t, key)
    ensures Sorted(Insert(t, x, key), key)
    decreases |t|
  {
    if t == [] || key(t[|t| - 1]) <= key(x) {
    } else {
      var u := t[..|t| - 1];
      var last := t[|t| - 1];
      InsertSorted(u, x, key);
      InsertPermutes(u, x, key);
      var w := Insert(u, x, key);
      forall y | y in w ensures key(y) <= key(last) {
        assert y in multiset(w);
        if y != x {
          assert y in multiset(u);
          var k :| 0 <= k < |u| && u[k] == y;
          assert t[k] == y;
        }
      }
      forall i, j | 0 <= i < j < |w| + 1
        ensures key((w + [last])[i]) <= key((w + [last])[j])
      {
        if j == |w| {
          assert w[i] in w;
        }
      }
    }
  }

  /** The sort orders its result by key. */
  lemma {:induction false} SortBySorted<T>(s: seq<T>, key: T -> int)
    ensures Sorted(SortBy(s, key), key)
  {
    if s != [] {
      SortBySorted(s[..|s| - 1], key);
      InsertSorted(SortBy(s[..|s| - 1], key), s[|s| - 1], key);
    }
  }

  lemma {:induction false} WithKeyAppend<T>(a: seq<T>, b: seq<T>, key: T -> int, v: int)
    ensures WithKey(a + b, key, v) == WithKey(a, key, v) + WithKey(b, key, v)
    decreases |b|
  {
    if b == [] {
      assert a + b == a;
    } else {
      var b' := b[..|b| - 1];
      WithKeyAppend(a, b', key, v);
      assert (a + b)[..|a + b| - 1] == a + b';
    }
  }

  lemma WithKeySingle<T>(y: T, key: T -> int, v: int)
    ensures WithKey([y], key, v) == if key(y) == v then [y] else []
  {
    assert [y][..0] == [];
  }

  lemma {:induction false} InsertStable<T>(t: seq<T>, x: T, key: T -> int, v: int)
    ensures WithKey(Insert(t, x, key), key, v) == WithKey(t, key, v) + WithKey([x], key, v)
    decreases |t|
  {
    if t == [] || key(t[|t| - 1]) <= key(x) {
      WithKeyAppend(t, [x], key, v);
    } else {
      var u, last := t[..|t| - 1], t[|t| - 1];
      assert u + [last] == t;
      InsertStable(u, x, key, v);
      WithKeyAppend(Insert(u, x, key), [last], key, v);
      WithKeyAppend(u, [last], key, v);
      WithKeySingle(x, key, v);
      WithKeySingle(last, key, v);
    }
  }

  /**
   * Stability: for every key value, the elements with that key appear in
   * the result in the same order as in the input.
   */
  lemma {:induction false} SortByStable<T>(s: seq<T>, key: T -> int, v: int)
    ensures WithKey(SortBy(s, key), key, v) == WithKey(s, key, v)
  {
    if s != [] {
      var u := s[..|s| - 1];
      SortByStable(u, key, v);
      InsertStable(SortBy(u, key), s[|s| - 1], key, v);
      WithKeyAppend(u, [s[|s| - 1]], key, v);
      assert u + [s[|s| - 1]] == s;
    }
  }

  lemma InsertSkip<T>(t: seq<T>, x: T, key: T -> int, j: nat)
    requires 0 < j <= |t| && key(t[j - 1]) > key(x)
    ensures Insert(t[..j], x, key) + t[j..] == Insert(t[..j - 1], x, key) + t[j - 1..]
  {
    assert t[..j][..j - 1] == t[..j - 1];
    assert t[j - 1..] == [t[j - 1]] + t[j..];
  }

  lemma InsertStop<T>(t: seq<T>, x: T, key: T -> int, j: nat)
    requires j <= |t| && (j == 0 || key(t[j - 1]) <= key(x))
    ensures Insert(t[..j], x, key) == t[..j] + [x]
  {
  }

  lemma SortByPrefix<T>(s: seq<T>, key: T -> int, i: nat)
    requires i < |s|
    ensures SortBy(s[..i + 1], key) == Insert(SortBy(s[..i], key), s[i], key)
  {
    assert s[..i + 1][..i] == s[..i];
  }

  /** The array after a pass: the prefix before `j`, then `x`, then the rest shifted up by one. */
  lemma Shifted<T>(b: seq<T>, t: seq<T>, x: T, j: nat)
    requires |b| == |t| + 1 && j <= |t|
    requires forall k :: 0 <= k < j ==> b[k] == t[k]
    requires b[j] == x
    requires forall k :: j < k < |b| ==> b[k] == t[k - 1]
    ensures b == t[..j] + [x] + t[j..]
  {
  }

  /** One pass of the insertion sort: moves `a[i]` left past every element whose key is above it. */
  method InsertAt<T>(a: array<T>, i: nat, key: T -> int)
    requires i < a.Length
    modifies a
    ensures a[..i + 1] == Insert(old(a[..i]), old(a[i]), key)
    ensures forall k :: i < k < a.Length ==> a[k] == old(a[k])
  {
    var x := a[i];
    ghost var t := a[..i];
    var j := i;
    assert t[..j] == t && t[j..] == [];
    while j > 0 && key(a[j - 1]) > key(x)
      invariant 0 <= j <= i
      invariant forall k :: 0 <= k < j ==> a[k] == t[k]
      invariant forall k :: j < k <= i ==> a[k] == t[k - 1]
      invariant forall k :: i < k < a.Length ==> a[k] == old(a[k])
      invariant Insert(t, x, key) == Insert(t[..j], x, key) + t[j..]
    {
      InsertSkip(t, x, key, j);
      a[j] := a[j - 1];
      j := j - 1;
    }
    InsertStop(t, x, key, j);
    a[j] := x;
    Shifted(a[..i + 1], t, x, j);
  }

  /** `a.sort(key=key)`: sorts the array in place. */
  method SortInPlace<T>(a: array<T>, key: T -> int)
    modifies a
    ensures a[..] == SortBy(old(a[..]), key)
  {
    ghost var s := a[..];
    var i := 0;
    while i < a.Length
      invariant 0 <= i <= a.Length
      invariant a[..i] == SortBy(s[..i], key)
      invariant forall k :: i <= k < a.Length ==> a[k] == s[k]
    {
      InsertAt(a, i, key);
      SortByPrefix(s, key, i);
      i := i + 1;
    }
    assert s[..a.Length] == s;
  }
}
