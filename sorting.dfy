/** `Array.prototype.sort` with a comparator. The language requires the sort
    to be stable, so for a consistent comparator its result is the stable
    insertion sort below: each element goes in front of the first element it
    does not compare after. */
module Sorting {

  function Insert<T>(cmp: (T, T) -> int, x: T, ys: seq<T>): seq<T> {
    if ys == [] then [x]
    else if cmp(x, ys[0]) <= 0 then [x] + ys
    else [ys[0]] + Insert(cmp, x, ys[1..])
  }

  function Sort<T>(cmp: (T, T) -> int, xs: seq<T>): seq<T> {
    if xs == [] then [] else Insert(cmp, xs[0], Sort(cmp, xs[1..]))
  }

  /** Of two elements, at least one does not compare after the other. */
  ghost predicate Total<T(!new)>(cmp: (T, T) -> int) {
    forall a, b :: cmp(a, b) > 0 ==> cmp(b, a) <= 0
  }

  ghost predicate Transitive<T(!new)>(cmp: (T, T) -> int) {
    forall a, b, c :: cmp(a, b) <= 0 && cmp(b, c) <= 0 ==> cmp(a, c) <= 0
  }

  /** Every neighbour pair is in order. */
  ghost predicate Sorted<T>(cmp: (T, T) -> int, s: seq<T>) {
    forall i :: 0 < i < |s| ==> cmp(s[i - 1], s[i]) <= 0
  }

  lemma {:induction false} InsertPermutes<T>(cmp: (T, T) -> int, x: T, ys: seq<T>)
    ensures multiset(Insert(cmp, x, ys)) == multiset{x} + multiset(ys)
  {
    if ys != [] && cmp(x, ys[0]) > 0 {
      InsertPermutes(cmp, x, ys[1..]);
      assert ys == [ys[0]] + ys[1..];
    }
  }

  lemma {:induction false} InsertSorted<T(!new)>(cmp: (T, T) -> int, x: T, ys: seq<T>)
    requires Total(cmp) && Sorted(cmp, ys)
    ensures Sorted(cmp, Insert(cmp, x, ys))
    ensures |Insert(cmp, x, ys)| == |ys| + 1
    ensures Insert(cmp, x, ys)[0] == x || (ys != [] && Insert(cmp, x, ys)[0] == ys[0])
  {
    if ys != [] && cmp(x, ys[0]) > 0 {
      InsertSorted(cmp, x, ys[1..]);
      var rest := Insert(cmp, x, ys[1..]);
      assert Insert(cmp, x, ys) == [ys[0]] + rest;
      assert cmp(ys[0], rest[0]) <= 0;
    }
  }

  /** The sort puts its input in order and only reorders it. */
  lemma {:induction false} SortCorrect<T(!new)>(cmp: (T, T) -> int, xs: seq<T>)
    requires Total(cmp)
    ensures Sorted(cmp, Sort(cmp, xs))
    ensures multiset(Sort(cmp, xs)) == multiset(xs)
  {
    if xs != [] {
      SortCorrect(cmp, xs[1..]);
      InsertSorted(cmp, xs[0], Sort(cmp, xs[1..]));
      InsertPermutes(cmp, xs[0], Sort(cmp, xs[1..]));
      assert xs == [xs[0]] + xs[1..];
    }
  }

  /** A list already in order is left as it is. */
  lemma {:induction false} SortKeepsSorted<T>(cmp: (T, T) -> int, xs: seq<T>)
    requires Sorted(cmp, xs)
    ensures Sort(cmp, xs) == xs
  {
    if xs != [] {
      assert Sorted(cmp, xs[1..]) by {
        forall i | 0 < i < |xs[1..]| ensures cmp(xs[1..][i - 1], xs[1..][i]) <= 0 {
          assert xs[1..][i - 1] == xs[i] && xs[1..][i] == xs[i + 1];
        }
      }
      SortKeepsSorted(cmp, xs[1..]);
    }
  }

  /** The elements of `s` whose key is `v`, in the order of `s`. */
  function WithKey<T, K(==)>(key: T -> K, v: K, s: seq<T>): seq<T> {
    if s == [] then []
    else (if key(s[0]) == v then [s[0]] else []) + WithKey(key, v, s[1..])
  }

  lemma {:induction false} WithKeyHasKey<T, K>(key: T -> K, v: K, s: seq<T>)
    ensures forall i :: 0 <= i < |WithKey(key, v, s)| ==> key(WithKey(key, v, s)[i]) == v
  {
    if s != [] {
      WithKeyHasKey(key, v, s[1..]);
      var h := if key(s[0]) == v then [s[0]] else [];
      assert WithKey(key, v, s) == h + WithKey(key, v, s[1..]);
      forall i | |h| <= i < |WithKey(key, v, s)|
        ensures WithKey(key, v, s)[i] == WithKey(key, v, s[1..])[i - |h|]
      {
      }
    }
  }

  /** The comparator returns 0 for elements with the same key. */
  ghost predicate TiesOn<T(!new), K>(cmp: (T, T) -> int, key: T -> K) {
    forall a, b :: key(a) == key(b) ==> cmp(a, b) == 0
  }

  lemma WithKeyCons<T, K>(key: T -> K, v: K, y: T, s: seq<T>)
    ensures WithKey(key, v, [y] + s) == (if key(y) == v then [y] else []) + WithKey(key, v, s)
  {
    assert ([y] + s)[1..] == s;
  }

  /** Insertion passes over elements of other keys only, so among the
      elements of one key the inserted one comes first. */
  lemma {:induction false} InsertStable<T(!new), K>(cmp: (T, T) -> int, key: T -> K, v: K, x: T, ys: seq<T>)
    requires TiesOn(cmp, key)
    ensures WithKey(key, v, Insert(cmp, x, ys))
      == (if key(x) == v then [x] else []) + WithKey(key, v, ys)
  {
    if ys == [] {
      WithKeyCons(key, v, x, ys);
    } else if cmp(x, ys[0]) <= 0 {
      WithKeyCons(key, v, x, ys);
    } else {
      var rest := Insert(cmp, x, ys[1..]);
      assert Insert(cmp, x, ys) == [ys[0]] + rest;
      InsertStable(cmp, key, v, x, ys[1..]);
      WithKeyCons(key, v, ys[0], rest);
      assert [ys[0]] + ys[1..] == ys;
      WithKeyCons(key, v, ys[0], ys[1..]);
      var hx := if key(x) == v then [x] else [];
      var hy := if key(ys[0]) == v then [ys[0]] else [];
      var tail := WithKey(key, v, ys[1..]);
      assert hx == [] || hy == [] by {
        assert key(ys[0]) != key(x);
      }
      assert hy + (hx + tail) == hx + (hy + tail);
    }
  }

  /** The sort is stable: elements that the comparator ties, because they
      share a key, keep the order they had in the input. */
  lemma {:induction false} SortStable<T(!new), K>(cmp: (T, T) -> int, key: T -> K, v: K, xs: seq<T>)
    requires TiesOn(cmp, key)
    ensures WithKey(key, v, Sort(cmp, xs)) == WithKey(key, v, xs)
  {
    if xs != [] {
      SortStable(cmp, key, v, xs[1..]);
      InsertStable(cmp, key, v, xs[0], Sort(cmp, xs[1..]));
    }
  }

  /** With a transitive comparator, order between neighbours is order
      between any two positions. */
  lemma {:induction false} SortedEverywhere<T(!new)>(cmp: (T, T) -> int, s: seq<T>, i: int, j: int)
    requires Transitive(cmp) && Sorted(cmp, s)
    requires 0 <= i < j < |s|
    ensures cmp(s[i], s[j]) <= 0
    decreases j - i
  {
    if i + 1 < j {
      SortedEverywhere(cmp, s, i, j - 1);
    }
  }
}
