/**
 * The order in which routes and guides are written:
 * `sorted(rows, key=lambda r: (r.get("route_number") is None,
 * r.get("route_number") or 9999))`.
 *
 * Python's `sorted` is stable, so the model is a stable insertion sort
 * over an explicit key, with its three promises proved: the output is
 * ordered by the key, it is a permutation of the input, and rows with
 * equal keys keep their input order.
 */
module RouteOrder {
  import opened Wrappers

  /** The key tuple: numbered rows (`missing` false) before unnumbered
      ones, then by number. */
  datatype SortKey = SortKey(missing: bool, n: int)

  /** `(number is None, number or 9999)`: 0 is falsy, so it sorts as
      9999. */
  function KeyOf(number: Option<int>): (k: SortKey)
    ensures k.missing <==> number.None?
    ensures number.Some? && number.value != 0 ==> k.n == number.value
  {
    SortKey(number.None?, if number.None? || number.value == 0 then 9999 else number.value)
  }

  /** Python's tuple comparison `a <= b`, with False < True. */
  predicate KeyLe(a: SortKey, b: SortKey) {
    (!a.missing && b.missing) || (a.missing == b.missing && a.n <= b.n)
  }

  /** Inserts `x` before the first element whose key is not below its
      own, so that it stays ahead of the equal keys that followed it in
      the input. */
  function Insert<T>(x: T, s: seq<T>, key: T -> SortKey): (r: seq<T>)
    ensures |r| == |s| + 1
    decreases |s|
  {
    if |s| == 0 || KeyLe(key(x), key(s[0])) then [x] + s
    else [s[0]] + Insert(x, s[1..], key)
  }

  /** `sorted(xs, key=key)`. */
  function SortBy<T>(xs: seq<T>, key: T -> SortKey): (r: seq<T>)
    ensures |r| == |xs|
    decreases |xs|
  {
    if |xs| == 0 then [] else Insert(xs[0], SortBy(xs[1..], key), key)
  }

  ghost predicate Sorted<T>(s: seq<T>, key: T -> SortKey) {
    forall i, j :: 0 <= i < j < |s| ==> KeyLe(key(s[i]), key(s[j]))
  }

  /** The elements of `s` whose key is `k`, in order. */
  function WithKey<T>(s: seq<T>, key: T -> SortKey, k: SortKey): seq<T>
    decreases |s|
  {
    if |s| == 0 then []
    else (if key(s[0]) == k then [s[0]] else []) + WithKey(s[1..], key, k)
  }

  lemma KeyLeTotal(a: SortKey, b: SortKey)
    ensures KeyLe(a, b) || KeyLe(b, a)
    ensures KeyLe(a, b) && KeyLe(b, a) ==> a == b
  {
  }

  lemma {:induction false} InsertSorted<T>(x: T, s: seq<T>, key: T -> SortKey)
    requires Sorted(s, key)
    ensures Sorted(Insert(x, s, key), key)
    ensures multiset(Insert(x, s, key)) == multiset(s) + multiset{x}
    decreases |s|
  {
    if |s| == 0 || KeyLe(key(x), key(s[0])) {
      InsertFront(x, s, key);
    } else {
      SortedTail(s, key);
      InsertSorted(x, s[1..], key);
      InsertBehind(x, s, key);
    }
  }

  lemma InsertFront<T>(x: T, s: seq<T>, key: T -> SortKey)
    requires Sorted(s, key) && (|s| == 0 || KeyLe(key(x), key(s[0])))
    ensures Sorted([x] + s, key)
  {
    var r := [x] + s;
    forall i, j | 0 <= i < j < |r| ensures KeyLe(key(r[i]), key(r[j])) {
      if i == 0 {
        assert r[j] == s[j - 1];
        assert KeyLe(key(s[0]), key(s[j - 1])) || j == 1;
      } else {
        assert r[i] == s[i - 1] && r[j] == s[j - 1];
      }
    }
  }

  lemma SortedTail<T>(s: seq<T>, key: T -> SortKey)
    requires Sorted(s, key) && |s| > 0
    ensures Sorted(s[1..], key)
  {
    forall i, j | 0 <= i < j < |s[1..]| ensures KeyLe(key(s[1..][i]), key(s[1..][j])) {
      assert s[1..][i] == s[i + 1] && s[1..][j] == s[j + 1];
    }
  }

  /** Inserting behind a smaller head keeps the head in front. */
  lemma InsertBehind<T>(x: T, s: seq<T>, key: T -> SortKey)
    requires Sorted(s, key) && |s| > 0 && !KeyLe(key(x), key(s[0]))
    requires Sorted(Insert(x, s[1..], key), key)
    requires multiset(Insert(x, s[1..], key)) == multiset(s[1..]) + multiset{x}
    ensures Sorted(Insert(x, s, key), key)
    ensures multiset(Insert(x, s, key)) == multiset(s) + multiset{x}
  {
    var tail := Insert(x, s[1..], key);
    assert Insert(x, s, key) == [s[0]] + tail;
    KeyLeTotal(key(x), key(s[0]));
    HeadBelowAll(x, s, tail, key);
    ConsSorted(s[0], tail, key);
    ConsMultiset(s[0], tail, s[1..], x);
    assert [s[0]] + s[1..] == s;
  }

  lemma ConsMultiset<T>(h: T, tail: seq<T>, rest: seq<T>, x: T)
    requires multiset(tail) == multiset(rest) + multiset{x}
    ensures multiset([h] + tail) == multiset([h] + rest) + multiset{x}
  {
  }

  /** The head of a sorted list is at most everything else, `x` included. */
  lemma HeadBelowAll<T>(x: T, s: seq<T>, tail: seq<T>, key: T -> SortKey)
    requires Sorted(s, key) && |s| > 0 && KeyLe(key(s[0]), key(x))
    requires multiset(tail) == multiset(s[1..]) + multiset{x}
    ensures forall j :: 0 <= j < |tail| ==> KeyLe(key(s[0]), key(tail[j]))
  {
    forall j | 0 <= j < |tail| ensures KeyLe(key(s[0]), key(tail[j])) {
      assert tail[j] in multiset(tail);
      if tail[j] != x {
        assert tail[j] in multiset(s[1..]);
        var m :| 0 <= m < |s[1..]| && s[1..][m] == tail[j];
        assert s[m + 1] == tail[j];
      }
    }
  }

  lemma ConsSorted<T>(h: T, tail: seq<T>, key: T -> SortKey)
    requires Sorted(tail, key)
    requires forall j :: 0 <= j < |tail| ==> KeyLe(key(h), key(tail[j]))
    ensures Sorted([h] + tail, key)
  {
    var r := [h] + tail;
    forall i, j | 0 <= i < j < |r| ensures KeyLe(key(r[i]), key(r[j])) {
      assert r[j] == tail[j - 1];
      if i > 0 {
        assert r[i] == tail[i - 1];
      }
    }
  }

  /** The output is ordered by the key and is a permutation of the input. */
  lemma {:induction false} SortBySorted<T>(xs: seq<T>, key: T -> SortKey)
    ensures Sorted(SortBy(xs, key), key)
    ensures multiset(SortBy(xs, key)) == multiset(xs)
    decreases |xs|
  {
    if |xs| > 0 {
      SortBySorted(xs[1..], key);
      InsertSorted(xs[0], SortBy(xs[1..], key), key);
      assert xs == [xs[0]] + xs[1..];
    }
  }

  /** Insertion puts `x` ahead of every element with the same key. */
  lemma {:induction false} InsertWithKey<T>(x: T, s: seq<T>, key: T -> SortKey, k: SortKey)
    ensures WithKey(Insert(x, s, key), key, k) == (if key(x) == k then [x] else []) + WithKey(s, key, k)
    decreases |s|
  {
    if |s| == 0 || KeyLe(key(x), key(s[0])) {
      assert ([x] + s)[1..] == s;
    } else {
      InsertWithKey(x, s[1..], key, k);
      var r := [s[0]] + Insert(x, s[1..], key);
      assert r[1..] == Insert(x, s[1..], key);
      // s[0]'s key is strictly below x's, so at most one of them has key k.
      assert key(s[0]) != key(x);
    }
  }

  /** Stability: for every key, the elements with that key appear in the
      output in the order they had in the input. */
  lemma {:induction false} SortByStable<T>(xs: seq<T>, key: T -> SortKey, k: SortKey)
    ensures WithKey(SortBy(xs, key), key, k) == WithKey(xs, key, k)
    decreases |xs|
  {
    if |xs| > 0 {
      SortByStable(xs[1..], key, k);
      InsertWithKey(xs[0], SortBy(xs[1..], key), key, k);
    }
  }

  /** Numbered rows come before unnumbered ones, and route 0 sorts as if
      it were route 9999. */
  lemma KeyFacts(a: int, b: Option<int>)
    ensures b.None? ==> KeyLe(KeyOf(Some(a)), KeyOf(b)) && !KeyLe(KeyOf(b), KeyOf(Some(a)))
    ensures KeyOf(Some(0)) == KeyOf(Some(9999))
    ensures a != 0 && b.Some? && b.value != 0 ==> (KeyLe(KeyOf(Some(a)), KeyOf(b)) <==> a <= b.value)
  {
  }
}
