/**
 * `Array.prototype.sort` with a numeric comparator `(a, b) => key(a) - key(b)`.
 * Since ES2019 this sort is stable: the result is the permutation of the input that is
 * ordered by `key` and keeps elements with equal keys in their input order. The model is an
 * insertion sort, which has exactly that result; the lemmas below prove the three facts.
 */
module StableSort {

  /** `s` is in non-decreasing order of `key`. */
  ghost predicate SortedBy<T>(s: seq<T>, key: T -> int) {
    forall i, j :: 0 <= i < j < |s| ==> key(s[i]) <= key(s[j])
  }

  /** The elements of `s` whose key is `k`, in their order in `s`. */
  function WithKey<T>(s: seq<T>, key: T -> int, k: int): seq<T> {
    if s == [] then []
    else (if key(s[0]) == k then [s[0]] else []) + WithKey(s[1..], key, k)
  }

  /** Places `x` after every element of `s` whose key is at most `key(x)`. */
  function Insert<T>(x: T, s: seq<T>, key: T -> int): (r: seq<T>)
    ensures |r| == |s| + 1
    ensures multiset(r) == multiset(s) + multiset{x}
  {
    if s == [] || key(x) < key(s[0]) then [x] + s
    else
      assert s == [s[0]] + s[1..];
      [s[0]] + Insert(x, s[1..], key)
  }

  /** The sorted array: a permutation of `s` of the same length. */
  function SortBy<T>(s: seq<T>, key: T -> int): (r: seq<T>)
    ensures |r| == |s|
    ensures multiset(r) == multiset(s)
  {
    if s == [] then []
    else
      assert s == s[..|s| - 1] + [s[|s| - 1]];
      Insert(s[|s| - 1], SortBy(s[..|s| - 1], key), key)
  }

  /** The tail of a sorted sequence is sorted and no key in it is below the head's. */
  lemma SortedTail<T>(s: seq<T>, key: T -> int)
    requires SortedBy(s, key) && s != []
    ensures SortedBy(s[1..], key)
    ensures forall j :: 0 <= j < |s| - 1 ==> key(s[0]) <= key(s[1..][j])
  {
    forall i, j | 0 <= i < j < |s| - 1 ensures key(s[1..][i]) <= key(s[1..][j]) {
      assert s[1..][i] == s[i + 1] && s[1..][j] == s[j + 1];
    }
    forall j | 0 <= j < |s| - 1 ensures key(s[0]) <= key(s[1..][j]) {
      assert s[1..][j] == s[j + 1];
    }
  }

  /** Every element of the inserted sequence is `x` or an element of `s`. */
  lemma InsertFrom<T>(x: T, s: seq<T>, key: T -> int, j: nat)
    requires j < |s| + 1
    ensures Insert(x, s, key)[j] == x || exists m :: 0 <= m < |s| && s[m] == Insert(x, s, key)[j]
  {
    var r := Insert(x, s, key);
    assert r[j] in multiset(r);
    if r[j] != x {
      assert r[j] in multiset(s);
    }
  }

  lemma {:induction false} InsertSorted<T>(x: T, s: seq<T>, key: T -> int)
    requires SortedBy(s, key)
    ensures SortedBy(Insert(x, s, key), key)
  {
    if s == [] || key(x) < key(s[0]) {
      var r := [x] + s;
      assert r == Insert(x, s, key);
      forall i, j | 0 <= i < j < |r| ensures key(r[i]) <= key(r[j]) {
        if i == 0 {
          assert key(s[0]) <= key(s[j - 1]);
        } else {
          assert r[i] == s[i - 1] && r[j] == s[j - 1];
        }
      }
    } else {
      var rest := s[1..];
      SortedTail(s, key);
      var tail := Insert(x, rest, key);
      InsertSorted(x, rest, key);
      forall j | 0 <= j < |tail| ensures key(s[0]) <= key(tail[j]) {
        InsertFrom(x, rest, key, j);
      }
      var r := [s[0]] + tail;
      assert r == Insert(x, s, key);
      forall i, j | 0 <= i < j < |r| ensures key(r[i]) <= key(r[j]) {
        if i > 0 {
          assert r[i] == tail[i - 1] && r[j] == tail[j - 1];
        } else {
          assert r[j] == tail[j - 1];
        }
      }
    }
  }

  /** The sorted array is ordered by `key`. */
  lemma {:induction false} SortBySorted<T>(s: seq<T>, key: T -> int)
    ensures SortedBy(SortBy(s, key), key)
  {
    if s != [] {
      SortBySorted(s[..|s| - 1], key);
      InsertSorted(s[|s| - 1], SortBy(s[..|s| - 1], key), key);
    }
  }

  lemma {:induction false} WithKeyAppend<T>(a: seq<T>, b: seq<T>, key: T -> int, k: int)
    ensures WithKey(a + b, key, k) == WithKey(a, key, k) + WithKey(b, key, k)
  {
    if a == [] {
      assert a + b == b;
    } else {
      var t := a[1..];
      assert a == [a[0]] + t;
      assert a + b == [a[0]] + (t + b);
      WithKeyAppend(t, b, key, k);
      WithKeyCons(a[0], t + b, key, k);
      WithKeyCons(a[0], t, key, k);
    }
  }

  lemma {:induction false} WithKeyNone<T>(s: seq<T>, key: T -> int, k: int)
    requires forall i :: 0 <= i < |s| ==> key(s[i]) != k
    ensures WithKey(s, key, k) == []
  {
    if s != [] {
      WithKeyNone(s[1..], key, k);
    }
  }

  /** The elements with key `k` of `[y] + t`: `y` when its key is `k`, then those of `t`. */
  lemma WithKeyCons<T>(y: T, t: seq<T>, key: T -> int, k: int)
    ensures WithKey([y] + t, key, k) == (if key(y) == k then [y] else []) + WithKey(t, key, k)
  {
    assert ([y] + t)[0] == y && ([y] + t)[1..] == t;
  }

  /** Inserting in front: `x` precedes all of `s`, which has no key equal to a smaller one. */
  lemma InsertFrontWithKey<T>(x: T, s: seq<T>, key: T -> int, k: int)
    requires SortedBy(s, key)
    requires s == [] || key(x) < key(s[0])
    ensures WithKey([x] + s, key, k) == WithKey(s, key, k) + (if key(x) == k then [x] else [])
  {
    var r := [x] + s;
    assert r[0] == x && r[1..] == s;
    if key(x) == k {
      forall i | 0 <= i < |s| ensures key(s[i]) != k {
        assert key(s[0]) <= key(s[i]);
      }
      WithKeyNone(s, key, k);
    }
  }

  /** Putting `y` in front of both sides of a filter equation keeps it. */
  lemma ConsWithKey<T>(y: T, t: seq<T>, u: seq<T>, extra: seq<T>, key: T -> int, k: int)
    requires WithKey(t, key, k) == WithKey(u, key, k) + extra
    ensures WithKey([y] + t, key, k) == WithKey([y] + u, key, k) + extra
  {
    WithKeyCons(y, t, key, k);
    WithKeyCons(y, u, key, k);
  }

  lemma {:induction false} InsertWithKey<T>(x: T, s: seq<T>, key: T -> int, k: int)
    requires SortedBy(s, key)
    ensures WithKey(Insert(x, s, key), key, k)
         == WithKey(s, key, k) + (if key(x) == k then [x] else [])
  {
    if s == [] || key(x) < key(s[0]) {
      assert Insert(x, s, key) == [x] + s;
      InsertFrontWithKey(x, s, key, k);
    } else {
      var rest := s[1..];
      SortedTail(s, key);
      InsertWithKey(x, rest, key, k);
      ConsWithKey(s[0], Insert(x, rest, key), rest, if key(x) == k then [x] else [], key, k);
      assert Insert(x, s, key) == [s[0]] + Insert(x, rest, key);
      assert s == [s[0]] + rest;
    }
  }

  /**
   * Stability: for every key, the elements carrying it appear in the sorted array in the
   * same order as in the input.
   */
  lemma {:induction false} SortByStable<T>(s: seq<T>, key: T -> int, k: int)
    ensures WithKey(SortBy(s, key), key, k) == WithKey(s, key, k)
  {
    if s != [] {
      var init, last := s[..|s| - 1], s[|s| - 1];
      var tailPart := if key(last) == k then [last] else [];
      SortBySorted(init, key);
      calc {
        WithKey(SortBy(s, key), key, k);
        WithKey(Insert(last, SortBy(init, key), key), key, k);
        { InsertWithKey(last, SortBy(init, key), key, k); }
        WithKey(SortBy(init, key), key, k) + tailPart;
        { SortByStable(init, key, k); }
        WithKey(init, key, k) + tailPart;
        { assert WithKey([last], key, k) == tailPart + WithKey([last][1..], key, k);
          assert [last][1..] == []; }
        WithKey(init, key, k) + WithKey([last], key, k);
        { WithKeyAppend(init, [last], key, k); }
        WithKey(init + [last], key, k);
        { assert s == init + [last]; }
        WithKey(s, key, k);
      }
    }
  }

  lemma {:induction false} InsertAfterAll<T>(x: T, s: seq<T>, key: T -> int)
    requires forall i :: 0 <= i < |s| ==> key(s[i]) <= key(x)
    ensures Insert(x, s, key) == s + [x]
  {
    if s != [] {
      InsertAfterAll(x, s[1..], key);
      assert s == [s[0]] + s[1..];
    }
  }

  /** An input that is already ordered by `key` is returned as it is. */
  lemma {:induction false} SortByOrderedInput<T>(s: seq<T>, key: T -> int)
    requires SortedBy(s, key)
    ensures SortBy(s, key) == s
  {
    if s != [] {
      var init, x := s[..|s| - 1], s[|s| - 1];
      assert SortedBy(init, key) by {
        forall i, j | 0 <= i < j < |init| ensures key(init[i]) <= key(init[j]) {
          assert init[i] == s[i] && init[j] == s[j];
        }
      }
      forall i | 0 <= i < |init| ensures key(init[i]) <= key(x) {
        assert init[i] == s[i];
      }
      calc {
        SortBy(s, key);
        Insert(x, SortBy(init, key), key);
        { SortByOrderedInput(init, key); }
        Insert(x, init, key);
        { InsertAfterAll(x, init, key); }
        init + [x];
        s;
      }
    }
  }
}
