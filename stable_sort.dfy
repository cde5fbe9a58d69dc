/**
 * `slice::sort_by_key` as window.rs uses it: a stable sort by a key function.
 * `SortByKey` is the reference definition (insert each element after every
 * earlier element whose key is not greater); `StableSortByKey` computes it
 * with a loop, and the lemmas show that the result is ordered by key, is a
 * permutation of the input, keeps elements with equal keys in their prior
 * order, and is the only sequence with those properties.
 */
module StableSort {

  /** Nondecreasing by key. */
  predicate SortedByKey<T>(key: T -> nat, s: seq<T>) {
    forall i, j :: 0 <= i < j < |s| ==> key(s[i]) <= key(s[j])
  }

  /** The elements of `s` whose key is `k`, in their order in `s`. */
  function WithKey<T>(key: T -> nat, s: seq<T>, k: nat): (r: seq<T>)
    ensures |r| <= |s|
    ensures forall i :: 0 <= i < |r| ==> key(r[i]) == k
  {
    if |s| == 0 then []
    else (if key(s[0]) == k then [s[0]] else []) + WithKey(key, s[1..], k)
  }

  /** `s` and `t` list the same elements in the same order within every key. */
  ghost predicate SameOrderPerKey<T>(key: T -> nat, s: seq<T>, t: seq<T>) {
    forall k: nat :: WithKey(key, s, k) == WithKey(key, t, k)
  }

  /** Inserts `x` in front of the first element whose key exceeds `x`'s. */
  function Insert<T>(key: T -> nat, x: T, t: seq<T>): (r: seq<T>)
    ensures |r| == |t| + 1
  {
    if |t| == 0 then [x]
    else if key(x) < key(t[0]) then [x] + t
    else [t[0]] + Insert(key, x, t[1..])
  }

  /** Insertion sort placing each element after the equal-key elements before it. */
  function SortByKey<T>(key: T -> nat, s: seq<T>): (r: seq<T>)
    ensures |r| == |s|
  {
    if |s| == 0 then []
    else Insert(key, s[|s| - 1], SortByKey(key, s[..|s| - 1]))
  }

  lemma {:induction false} InsertPermutes<T>(key: T -> nat, x: T, t: seq<T>)
    ensures multiset(Insert(key, x, t)) == multiset(t) + multiset{x}
  {
    if t != [] && key(t[0]) <= key(x) {
      InsertPermutes(key, x, t[1..]);
      assert t == [t[0]] + t[1..];
    }
  }

  /** The reference sort is a permutation of its input. */
  lemma {:induction false} SortByKeyPermutes<T>(key: T -> nat, s: seq<T>)
    ensures multiset(SortByKey(key, s)) == multiset(s)
  {
    if s != [] {
      var init := s[..|s| - 1];
      SortByKeyPermutes(key, init);
      InsertPermutes(key, s[|s| - 1], SortByKey(key, init));
      assert s == init + [s[|s| - 1]];
    }
  }

  lemma {:induction false} WithKeyAppend<T>(key: T -> nat, a: seq<T>, b: seq<T>, k: nat)
    ensures WithKey(key, a + b, k) == WithKey(key, a, k) + WithKey(key, b, k)
  {
    if a != [] {
      assert (a + b)[0] == a[0];
      assert (a + b)[1..] == a[1..] + b;
      WithKeyAppend(key, a[1..], b, k);
    } else {
      assert a + b == b;
    }
  }

  lemma {:induction false} InsertSorted<T>(key: T -> nat, x: T, t: seq<T>)
    requires SortedByKey(key, t)
    ensures SortedByKey(key, Insert(key, x, t))
  {
    if t != [] && key(t[0]) <= key(x) {
      InsertSorted(key, x, t[1..]);
      var r := Insert(key, x, t[1..]);
      InsertPermutes(key, x, t[1..]);
      forall i | 0 <= i < |r|
        ensures key(t[0]) <= key(r[i])
      {
        assert r[i] in multiset(r);
        assert r[i] == x || r[i] in multiset(t[1..]);
        if r[i] != x {
          var j :| 0 <= j < |t[1..]| && t[1..][j] == r[i];
          assert t[j + 1] == r[i];
        }
      }
      assert Insert(key, x, t) == [t[0]] + r;
    }
  }

  lemma {:induction false} NoneWithKey<T>(key: T -> nat, t: seq<T>, k: nat)
    requires forall i :: 0 <= i < |t| ==> key(t[i]) != k
    ensures WithKey(key, t, k) == []
  {
    if t != [] {
      NoneWithKey(key, t[1..], k);
    }
  }

  lemma {:induction false} InsertWithKey<T>(key: T -> nat, x: T, t: seq<T>, k: nat)
    requires SortedByKey(key, t)
    ensures WithKey(key, Insert(key, x, t), k)
         == WithKey(key, t, k) + (if key(x) == k then [x] else [])
  {
    if t == [] {
    } else if key(x) < key(t[0]) {
      var r := [x] + t;
      assert r[0] == x && r[1..] == t;
      if key(x) == k {
        NoneWithKey(key, t, k);
      }
    } else {
      var r := [t[0]] + Insert(key, x, t[1..]);
      assert r[0] == t[0] && r[1..] == Insert(key, x, t[1..]);
      InsertWithKey(key, x, t[1..], k);
    }
  }

  /** The reference sort orders its result by key. */
  lemma {:induction false} SortByKeySorted<T>(key: T -> nat, s: seq<T>)
    ensures SortedByKey(key, SortByKey(key, s))
  {
    if s != [] {
      SortByKeySorted(key, s[..|s| - 1]);
      InsertSorted(key, s[|s| - 1], SortByKey(key, s[..|s| - 1]));
    }
  }

  /** The reference sort is stable: within each key, the input order is kept. */
  lemma {:induction false} SortByKeyStable<T>(key: T -> nat, s: seq<T>)
    ensures SameOrderPerKey(key, SortByKey(key, s), s)
  {
    if s != [] {
      var init, last := s[..|s| - 1], s[|s| - 1];
      SortByKeySorted(key, init);
      SortByKeyStable(key, init);
      forall k: nat
        ensures WithKey(key, SortByKey(key, s), k) == WithKey(key, s, k)
      {
        InsertWithKey(key, last, SortByKey(key, init), k);
        assert s == init + [last];
        WithKeyAppend(key, init, [last], k);
        assert WithKey(key, [last], k) == (if key(last) == k then [last] else []) + WithKey(key, [], k);
      }
    }
  }

  lemma WithKeyCons<T>(key: T -> nat, x: T, s: seq<T>, k: nat)
    ensures WithKey(key, [x] + s, k) == (if key(x) == k then [x] else []) + WithKey(key, s, k)
  {
    assert ([x] + s)[0] == x && ([x] + s)[1..] == s;
  }

  /** The first element of a sequence heads the elements with its key. */
  lemma HeadWithKey<T>(key: T -> nat, s: seq<T>)
    requires s != []
    ensures WithKey(key, s, key(s[0])) == [s[0]] + WithKey(key, s[1..], key(s[0]))
  {
  }

  /** In a key-sorted sequence, no element has a key below the first one's. */
  lemma {:induction false} SortedKeyLowerBound<T>(key: T -> nat, s: seq<T>, k: nat)
    requires s != [] && SortedByKey(key, s) && WithKey(key, s, k) != []
    ensures key(s[0]) <= k
  {
    if k < key(s[0]) {
      NoneWithKey(key, s, k);
    }
  }

  /** Two key-sorted sequences that agree on the order within every key are equal. */
  lemma {:induction false} SortedSameOrderUnique<T>(key: T -> nat, a: seq<T>, b: seq<T>)
    requires SortedByKey(key, a) && SortedByKey(key, b) && SameOrderPerKey(key, a, b)
    ensures a == b
    decreases |a| + |b|
  {
    if a != [] && b != [] {
      var ka, kb := key(a[0]), key(b[0]);
      HeadWithKey(key, a);
      HeadWithKey(key, b);
      assert WithKey(key, a, kb) == WithKey(key, b, kb);
      SortedKeyLowerBound(key, a, kb);
      assert WithKey(key, a, ka) == WithKey(key, b, ka);
      SortedKeyLowerBound(key, b, ka);
      assert ([a[0]] + WithKey(key, a[1..], ka))[0] == a[0];
      assert a[0] == b[0];
      forall k: nat
        ensures WithKey(key, a[1..], k) == WithKey(key, b[1..], k)
      {
        var head := if key(a[0]) == k then [a[0]] else [];
        assert WithKey(key, a, k) == head + WithKey(key, a[1..], k);
        assert WithKey(key, b, k) == head + WithKey(key, b[1..], k);
        assert WithKey(key, a, k) == WithKey(key, b, k);
        assert (head + WithKey(key, a[1..], k))[|head|..] == WithKey(key, a[1..], k);
        assert (head + WithKey(key, b[1..], k))[|head|..] == WithKey(key, b[1..], k);
      }
      SortedSameOrderUnique(key, a[1..], b[1..]);
      assert a == [a[0]] + a[1..] && b == [b[0]] + b[1..];
    } else if a != [] {
      HeadWithKey(key, a);
    } else if b != [] {
      HeadWithKey(key, b);
    }
  }

  /**
   * Any ordering by key that keeps the order within every key is the
   * reference sort, so the result does not depend on the sorting algorithm.
   */
  lemma SortByKeyCharacterized<T>(key: T -> nat, s: seq<T>, r: seq<T>)
    ensures (SortedByKey(key, r) && SameOrderPerKey(key, r, s)) <==> r == SortByKey(key, s)
  {
    SortByKeySorted(key, s);
    SortByKeyStable(key, s);
    if SortedByKey(key, r) && SameOrderPerKey(key, r, s) {
      SortedSameOrderUnique(key, r, SortByKey(key, s));
    }
  }

  /** The reference sort of one more element inserts it into the sort of the rest. */
  lemma SortByKeySnoc<T>(key: T -> nat, s: seq<T>, i: nat)
    requires i < |s|
    ensures SortByKey(key, s[..i + 1]) == Insert(key, s[i], SortByKey(key, s[..i]))
  {
    assert s[..i + 1][..i] == s[..i];
  }

  /**
   * The stable sort: an insertion sort that places each element after every
   * earlier element whose key is not greater.
   */
  method StableSortByKey<T>(key: T -> nat, s: seq<T>) returns (r: seq<T>)
    ensures r == SortByKey(key, s)
    ensures SortedByKey(key, r)
    ensures multiset(r) == multiset(s)
    ensures SameOrderPerKey(key, r, s)
  {
    r := [];
    var i := 0;
    while i < |s|
      invariant i <= |s|
      invariant r == SortByKey(key, s[..i])
    {
      SortByKeySnoc(key, s, i);
      r := Insert(key, s[i], r);
      i := i + 1;
    }
    assert s[..|s|] == s;
    SortByKeySorted(key, s);
    SortByKeyPermutes(key, s);
    SortByKeyStable(key, s);
  }
}
