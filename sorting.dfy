/** A stable sort into descending order of a numeric key. It stands for
    two orderings in the routes: `Array.prototype.sort` with a comparator
    `b.key - a.key` (which is stable), and the storage layer's
    `order(field, descending)`. */
module Sorting {

  predicate SortedDesc<T>(s: seq<T>, key: T -> real) {
    forall i, j :: 0 <= i < j < |s| ==> key(s[j]) <= key(s[i])
  }

  /** Inserts `x` in front of the first element whose key does not exceed
      its own, so that `x` stays ahead of the equal-keyed elements that
      followed it in the input. */
  function InsertDesc<T>(x: T, s: seq<T>, key: T -> real): (r: seq<T>)
    ensures multiset(r) == multiset(s) + multiset{x}
    ensures |r| == |s| + 1
  {
    if s == [] || key(s[0]) <= key(x) then [x] + s
    else
      assert s == [s[0]] + s[1..];
      [s[0]] + InsertDesc(x, s[1..], key)
  }

  /** Every key in `s` is at most `v`. */
  predicate KeysAtMost<T>(s: seq<T>, key: T -> real, v: real) {
    forall k :: 0 <= k < |s| ==> key(s[k]) <= v
  }

  /** Insertion brings in no key above the bound the input and `x` keep. */
  lemma {:induction false} InsertDescBounded<T>(x: T, s: seq<T>, key: T -> real, v: real)
    requires KeysAtMost(s, key, v) && key(x) <= v
    ensures KeysAtMost(InsertDesc(x, s, key), key, v)
  {
    if s != [] && key(x) < key(s[0]) {
      InsertDescBounded(x, s[1..], key, v);
      var r := InsertDesc(x, s, key);
      assert r == [s[0]] + InsertDesc(x, s[1..], key);
      assert forall k :: 1 <= k < |r| ==> r[k] == InsertDesc(x, s[1..], key)[k - 1];
    }
  }

  lemma {:induction false} InsertDescSorted<T>(x: T, s: seq<T>, key: T -> real)
    requires SortedDesc(s, key)
    ensures SortedDesc(InsertDesc(x, s, key), key)
    decreases |s|
  {
    var r := InsertDesc(x, s, key);
    if s == [] || key(s[0]) <= key(x) {
      assert r == [x] + s;
      forall i, j | 0 <= i < j < |r| ensures key(r[j]) <= key(r[i]) {
        assert r[j] == s[j - 1];
        if i > 0 {
          assert r[i] == s[i - 1];
        } else {
          assert key(s[j - 1]) <= key(s[0]);
        }
      }
    } else {
      var tail := InsertDesc(x, s[1..], key);
      InsertDescSorted(x, s[1..], key);
      assert r == [s[0]] + tail;
      assert KeysAtMost(s[1..], key, key(s[0])) by {
        forall k | 0 <= k < |s[1..]| ensures key(s[1..][k]) <= key(s[0]) {
          assert s[1..][k] == s[k + 1];
        }
      }
      InsertDescBounded(x, s[1..], key, key(s[0]));
      forall i, j | 0 <= i < j < |r| ensures key(r[j]) <= key(r[i]) {
        assert r[j] == tail[j - 1];
        if i > 0 {
          assert r[i] == tail[i - 1];
        }
      }
    }
  }

  /** The items ordered by descending key, ties in input order. */
  function SortDesc<T>(s: seq<T>, key: T -> real): (r: seq<T>)
    ensures multiset(r) == multiset(s)
    ensures |r| == |s|
  {
    if s == [] then []
    else
      assert s == [s[0]] + s[1..];
      InsertDesc(s[0], SortDesc(s[1..], key), key)
  }

  /** The result is ordered, and it is a permutation of the input. */
  lemma {:induction false} SortDescSorted<T>(s: seq<T>, key: T -> real)
    ensures SortedDesc(SortDesc(s, key), key)
    ensures multiset(SortDesc(s, key)) == multiset(s)
  {
    if s != [] {
      SortDescSorted(s[1..], key);
      InsertDescSorted(s[0], SortDesc(s[1..], key), key);
    }
  }

  /** The elements of `s` whose key is `v`, in their order in `s`. */
  function WithKey<T>(s: seq<T>, key: T -> real, v: real): seq<T> {
    if s == [] then []
    else (if key(s[0]) == v then [s[0]] else []) + WithKey(s[1..], key, v)
  }

  /** Insertion puts `x` ahead of every element with its key and leaves the
      order among the others alone. */
  lemma {:induction false} InsertDescWithKey<T>(x: T, s: seq<T>, key: T -> real, v: real)
    ensures WithKey(InsertDesc(x, s, key), key, v) ==
            (if key(x) == v then [x] else []) + WithKey(s, key, v)
  {
    var r := InsertDesc(x, s, key);
    if s == [] || key(s[0]) <= key(x) {
      assert r[0] == x && r[1..] == s;
    } else {
      var tail := InsertDesc(x, s[1..], key);
      InsertDescWithKey(x, s[1..], key, v);
      assert r[0] == s[0] && r[1..] == tail;
      var head := if key(s[0]) == v then [s[0]] else [];
      assert WithKey(r, key, v) == head + WithKey(tail, key, v);
      if key(x) == v {
        assert head == [];
      }
    }
  }

  /** The sort is stable: for every key, the elements carrying it come out
      in the order they went in. */
  lemma {:induction false} SortDescStable<T>(s: seq<T>, key: T -> real, v: real)
    ensures WithKey(SortDesc(s, key), key, v) == WithKey(s, key, v)
  {
    if s != [] {
      SortDescStable(s[1..], key, v);
      InsertDescWithKey(s[0], SortDesc(s[1..], key), key, v);
    }
  }

  /** Input that is already in order comes back unchanged: the sort moves
      nothing past an element with the same key. */
  lemma {:induction false} SortDescKeepsSorted<T>(s: seq<T>, key: T -> real)
    requires SortedDesc(s, key)
    ensures SortDesc(s, key) == s
  {
    if s != [] {
      assert SortedDesc(s[1..], key);
      SortDescKeepsSorted(s[1..], key);
      if |s| > 1 {
        assert key(s[1]) <= key(s[0]);
      }
    }
  }
}
