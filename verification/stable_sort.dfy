/**
 * Python's `list.sort(key=k, reverse=True)`: a stable sort into non-increasing key
 * order, where elements with equal keys keep their original relative order.
 * Modelled as an insertion sort over sequences.
 */
module StableSort {

  /** Keys never increase from left to right. */
  predicate SortedDesc<T>(s: seq<T>, key: T -> int) {
    forall i, j :: 0 <= i < j < |s| ==> key(s[i]) >= key(s[j])
  }

  /** The elements of `s` whose key is `k`, in their order in `s`. */
  function WithKey<T>(s: seq<T>, key: T -> int, k: int): seq<T> {
    if |s| == 0 then []
    else (if key(s[0]) == k then [s[0]] else []) + WithKey(s[1..], key, k)
  }

  /** `r` lists, for every key, the same elements in the same order as `s`. */
  ghost predicate StableWrt<T>(r: seq<T>, s: seq<T>, key: T -> int) {
    forall k :: WithKey(r, key, k) == WithKey(s, key, k)
  }

  /**
   * Places `x` in front of the first element whose key is not greater than its own,
   * so that `x` precedes every element of `s` with the same key.
   */
  function Insert<T(==)>(x: T, s: seq<T>, key: T -> int): (r: seq<T>)
    ensures multiset(r) == multiset(s) + multiset{x}
    ensures |r| > 0 && (r[0] == x || (|s| > 0 && r[0] == s[0]))
  {
    if |s| == 0 || key(s[0]) <= key(x) then [x] + s
    else
      assert s == [s[0]] + s[1..];
      [s[0]] + Insert(x, s[1..], key)
  }

  /** Inserting into a sorted sequence keeps it sorted. */
  lemma {:induction false} InsertSorted<T>(x: T, s: seq<T>, key: T -> int)
    requires SortedDesc(s, key)
    ensures SortedDesc(Insert(x, s, key), key)
  {
    if |s| == 0 || key(s[0]) <= key(x) {
    } else {
      var rest := Insert(x, s[1..], key);
      InsertSorted(x, s[1..], key);
      assert key(s[0]) >= key(rest[0]);
      var r := [s[0]] + rest;
      forall i, j | 0 <= i < j < |r|
        ensures key(r[i]) >= key(r[j])
      {
        if i == 0 {
          assert r[j] == rest[j - 1];
          if j > 1 {
            assert key(rest[0]) >= key(rest[j - 1]);
          }
        } else {
          assert r[i] == rest[i - 1] && r[j] == rest[j - 1];
        }
      }
    }
  }

  /** Among the elements sharing its key, the inserted element comes first. */
  lemma {:induction false} InsertWithKey<T>(x: T, s: seq<T>, key: T -> int, k: int)
    ensures WithKey(Insert(x, s, key), key, k) == (if key(x) == k then [x] else []) + WithKey(s, key, k)
  {
    if |s| == 0 || key(s[0]) <= key(x) {
      assert ([x] + s)[1..] == s;
    } else {
      var rest := Insert(x, s[1..], key);
      var r := [s[0]] + rest;
      assert r[0] == s[0] && r[1..] == rest;
      assert WithKey(r, key, k) == (if key(s[0]) == k then [s[0]] else []) + WithKey(rest, key, k);
      InsertWithKey(x, s[1..], key, k);
      assert WithKey(s, key, k) == (if key(s[0]) == k then [s[0]] else []) + WithKey(s[1..], key, k);
      if key(x) == k {
        assert key(s[0]) != k;
      }
    }
  }

  /** The stable non-increasing sort of `s`. */
  function SortDesc<T(==)>(s: seq<T>, key: T -> int): (r: seq<T>)
    ensures multiset(r) == multiset(s)
    ensures |r| == |s|
    ensures SortedDesc(r, key)
    ensures StableWrt(r, s, key)
  {
    if |s| == 0 then []
    else
      assert s == [s[0]] + s[1..];
      var rest := SortDesc(s[1..], key);
      InsertSorted(s[0], rest, key);
      SortDescStableStep(s, rest, key);
      Insert(s[0], rest, key)
  }

  /** The stability step of `SortDesc`: inserting the head into the sorted tail. */
  lemma SortDescStableStep<T>(s: seq<T>, rest: seq<T>, key: T -> int)
    requires |s| > 0 && StableWrt(rest, s[1..], key)
    ensures StableWrt(Insert(s[0], rest, key), s, key)
  {
    forall k {
      InsertWithKey(s[0], rest, key, k);
    }
  }

  /** Every element of `WithKey(s, key, k)` is an element of `s` with key `k`, and conversely. */
  lemma {:induction false} WithKeyMembers<T>(s: seq<T>, key: T -> int, k: int, x: T)
    ensures x in WithKey(s, key, k) <==> x in s && key(x) == k
  {
    if |s| > 0 {
      WithKeyMembers(s[1..], key, k, x);
      assert s == [s[0]] + s[1..];
    }
  }

  /** `WithKey` keeps every occurrence of the elements carrying the selected key. */
  lemma {:induction false} WithKeyCount<T>(s: seq<T>, key: T -> int, x: T)
    ensures multiset(WithKey(s, key, key(x)))[x] == multiset(s)[x]
  {
    if |s| > 0 {
      WithKeyCount(s[1..], key, x);
      assert s == [s[0]] + s[1..];
    }
  }

  /** Sequences that agree on every key hold the same elements, so have the same length. */
  lemma SameKeysSameLength<T>(r1: seq<T>, r2: seq<T>, key: T -> int)
    requires forall k :: WithKey(r1, key, k) == WithKey(r2, key, k)
    ensures |r1| == |r2|
  {
    assert multiset(r1) == multiset(r2) by {
      forall x
        ensures multiset(r1)[x] == multiset(r2)[x]
      {
        WithKeyCount(r1, key, x);
        WithKeyCount(r2, key, x);
      }
    }
    assert |r1| == |multiset(r1)| == |multiset(r2)| == |r2|;
  }

  /** The head of a non-increasing sequence carries its greatest key. */
  lemma SortedHeadMax<T>(r: seq<T>, key: T -> int, x: T)
    requires SortedDesc(r, key) && x in r
    ensures key(r[0]) >= key(x)
  {
  }

  /** Removing the same head from both sides of a per-key agreement leaves agreeing tails. */
  lemma TailAgreesAt<T>(r1: seq<T>, r2: seq<T>, key: T -> int, k: int)
    requires |r1| > 0 && |r2| > 0 && r1[0] == r2[0]
    requires WithKey(r1, key, k) == WithKey(r2, key, k)
    ensures WithKey(r1[1..], key, k) == WithKey(r2[1..], key, k)
  {
    var head := if key(r1[0]) == k then [r1[0]] else [];
    assert WithKey(r1, key, k) == head + WithKey(r1[1..], key, k);
    assert WithKey(r2, key, k) == head + WithKey(r2[1..], key, k);
    assert WithKey(r1[1..], key, k) == WithKey(r1, key, k)[|head|..];
    assert WithKey(r2[1..], key, k) == WithKey(r2, key, k)[|head|..];
  }

  /** Removing equal heads from sequences that agree on every key leaves tails that agree. */
  lemma TailsAgree<T>(r1: seq<T>, r2: seq<T>, key: T -> int)
    requires |r1| > 0 && |r2| > 0 && r1[0] == r2[0]
    requires forall k :: WithKey(r1, key, k) == WithKey(r2, key, k)
    ensures forall k :: WithKey(r1[1..], key, k) == WithKey(r2[1..], key, k)
  {
    forall k
      ensures WithKey(r1[1..], key, k) == WithKey(r2[1..], key, k)
    {
      TailAgreesAt(r1, r2, key, k);
    }
  }

  /** Sorted sequences that agree on every key start with the same element. */
  lemma SameHead<T>(r1: seq<T>, r2: seq<T>, key: T -> int)
    requires SortedDesc(r1, key) && SortedDesc(r2, key) && |r1| > 0 && |r2| > 0
    requires forall k :: WithKey(r1, key, k) == WithKey(r2, key, k)
    ensures r1[0] == r2[0]
  {
    var k1, k2 := key(r1[0]), key(r2[0]);
    WithKeyMembers(r1, key, k1, r1[0]);
    WithKeyMembers(r2, key, k1, r1[0]);
    SortedHeadMax(r2, key, r1[0]);
    WithKeyMembers(r2, key, k2, r2[0]);
    WithKeyMembers(r1, key, k2, r2[0]);
    SortedHeadMax(r1, key, r2[0]);
    assert k1 == k2;
    assert WithKey(r1, key, k1) == [r1[0]] + WithKey(r1[1..], key, k1);
    assert WithKey(r2, key, k1) == [r2[0]] + WithKey(r2[1..], key, k1);
  }

  /**
   * A non-increasing arrangement is determined by its per-key subsequences: two sorted
   * sequences that agree on every key are equal.
   */
  lemma {:induction false} SortedDeterminedByKeys<T>(r1: seq<T>, r2: seq<T>, key: T -> int)
    requires SortedDesc(r1, key) && SortedDesc(r2, key)
    requires forall k :: WithKey(r1, key, k) == WithKey(r2, key, k)
    ensures r1 == r2
  {
    SameKeysSameLength(r1, r2, key);
    if |r1| > 0 {
      SameHead(r1, r2, key);
      TailsAgree(r1, r2, key);
      assert SortedDesc(r1[1..], key) && SortedDesc(r2[1..], key);
      SortedDeterminedByKeys(r1[1..], r2[1..], key);
      assert r1 == [r1[0]] + r1[1..];
      assert r2 == [r2[0]] + r2[1..];
    }
  }

  /** `SortDesc` is the only stable non-increasing rearrangement of its input. */
  lemma SortDescUnique<T>(s: seq<T>, r: seq<T>, key: T -> int)
    requires SortedDesc(r, key) && StableWrt(r, s, key)
    ensures r == SortDesc(s, key)
  {
    var t := SortDesc(s, key);
    assert forall k :: WithKey(r, key, k) == WithKey(t, key, k) by {
      forall k ensures WithKey(r, key, k) == WithKey(t, key, k) {
        assert WithKey(r, key, k) == WithKey(s, key, k);
      }
    }
    SortedDeterminedByKeys(r, t, key);
  }
}
