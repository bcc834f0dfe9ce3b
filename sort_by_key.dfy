/** `slice::sort_by_key`: a stable in-place sort by a natural-number key.
    `StableSort` is the specification (insertion of each element, left to
    right, after every element whose key is not larger); the lemmas prove it
    sorted, a permutation, stable, and the only sequence with those three
    properties, so any stable sorting algorithm yields exactly it. `SortInPlace`
    is the in-place algorithm proved to produce it. */
module SortByKey {

  predicate SortedBy<T>(s: seq<T>, key: T -> nat)
  {
    forall i, j :: 0 <= i < j < |s| ==> key(s[i]) <= key(s[j])
  }

  /** The elements of `s` whose key is `k`, in their order in `s`. */
  function WithKey<T>(s: seq<T>, key: T -> nat, k: nat): seq<T>
  {
    if s == [] then []
    else WithKey(s[..|s| - 1], key, k) + (if key(s[|s| - 1]) == k then [s[|s| - 1]] else [])
  }

  /** Stability: every key class keeps its relative order. */
  ghost predicate StableFor<T>(r: seq<T>, s: seq<T>, key: T -> nat)
  {
    forall k :: WithKey(r, key, k) == WithKey(s, key, k)
  }

  /** Inserts `x` after the last element whose key is not larger than its own. */
  function Insert<T>(t: seq<T>, x: T, key: T -> nat): seq<T>
  {
    if t == [] || key(t[|t| - 1]) <= key(x) then t + [x]
    else Insert(t[..|t| - 1], x, key) + [t[|t| - 1]]
  }

  function StableSort<T>(s: seq<T>, key: T -> nat): seq<T>
  {
    if s == [] then [] else Insert(StableSort(s[..|s| - 1], key), s[|s| - 1], key)
  }

  // ----- Insert -----

  lemma {:induction false} InsertPermutes<T>(t: seq<T>, x: T, key: T -> nat)
    ensures multiset(Insert(t, x, key)) == multiset(t) + multiset{x}
  {
    if !(t == [] || key(t[|t| - 1]) <= key(x)) {
      InsertPermutes(t[..|t| - 1], x, key);
      assert t == t[..|t| - 1] + [t[|t| - 1]];
    }
  }

  lemma {:induction false} InsertSorted<T>(t: seq<T>, x: T, key: T -> nat)
    requires SortedBy(t, key)
    ensures SortedBy(Insert(t, x, key), key)
  {
    if !(t == [] || key(t[|t| - 1]) <= key(x)) {
      var init, last := t[..|t| - 1], t[|t| - 1];
      InsertSorted(init, x, key);
      InsertPermutes(init, x, key);
      var u := Insert(init, x, key);
      forall i | 0 <= i < |u| ensures key(u[i]) <= key(last) {
        assert u[i] in multiset(u);
        assert u[i] in multiset(init) || u[i] == x;
        if u[i] != x {
          var m :| 0 <= m < |init| && init[m] == u[i];
          assert t[m] == init[m];
        }
      }
    }
  }

  lemma {:induction false} InsertWithKey<T>(t: seq<T>, x: T, key: T -> nat, k: nat)
    ensures WithKey(Insert(t, x, key), key, k)
         == WithKey(t, key, k) + (if key(x) == k then [x] else [])
  {
    var r := Insert(t, x, key);
    if t == [] || key(t[|t| - 1]) <= key(x) {
      assert r[..|r| - 1] == t;
    } else {
      var init, last := t[..|t| - 1], t[|t| - 1];
      InsertWithKey(init, x, key, k);
      assert r[..|r| - 1] == Insert(init, x, key);
    }
  }

  /** `Insert` into `t` lands at position `j` when everything from `j` on has
      a larger key and the element before `j` does not. */
  lemma {:induction false} InsertAt<T>(t: seq<T>, x: T, key: T -> nat, j: nat)
    requires j <= |t|
    requires j > 0 ==> key(t[j - 1]) <= key(x)
    requires forall m :: j <= m < |t| ==> key(t[m]) > key(x)
    ensures Insert(t, x, key) == t[..j] + [x] + t[j..]
    decreases |t|
  {
    if j < |t| {
      var init := t[..|t| - 1];
      InsertAt(init, x, key, j);
      assert init[..j] == t[..j];
      assert init[j..] + [t[|t| - 1]] == t[j..];
    } else {
      assert t[..j] == t;
    }
  }

  // ----- StableSort -----

  /** The specification is sorted, a permutation of its input and stable. */
  lemma StableSortCorrect<T>(s: seq<T>, key: T -> nat)
    ensures SortedBy(StableSort(s, key), key)
    ensures multiset(StableSort(s, key)) == multiset(s)
    ensures |StableSort(s, key)| == |s|
    ensures StableFor(StableSort(s, key), s, key)
  {
    StableSortSorted(s, key);
    StableSortPermutes(s, key);
    assert |multiset(StableSort(s, key))| == |multiset(s)|;
    forall k ensures WithKey(StableSort(s, key), key, k) == WithKey(s, key, k) {
      StableSortKeepsKeyClass(s, key, k);
    }
  }

  lemma {:induction false} StableSortSorted<T>(s: seq<T>, key: T -> nat)
    ensures SortedBy(StableSort(s, key), key)
  {
    if s != [] {
      StableSortSorted(s[..|s| - 1], key);
      InsertSorted(StableSort(s[..|s| - 1], key), s[|s| - 1], key);
    }
  }

  lemma {:induction false} StableSortPermutes<T>(s: seq<T>, key: T -> nat)
    ensures multiset(StableSort(s, key)) == multiset(s)
  {
    if s != [] {
      var init, last := s[..|s| - 1], s[|s| - 1];
      StableSortPermutes(init, key);
      InsertPermutes(StableSort(init, key), last, key);
      assert s == init + [last];
    }
  }

  lemma {:induction false} StableSortKeepsKeyClass<T>(s: seq<T>, key: T -> nat, k: nat)
    ensures WithKey(StableSort(s, key), key, k) == WithKey(s, key, k)
  {
    if s != [] {
      var init, last := s[..|s| - 1], s[|s| - 1];
      StableSortKeepsKeyClass(init, key, k);
      InsertWithKey(StableSort(init, key), last, key, k);
    }
  }

  lemma WithKeyMember<T>(s: seq<T>, key: T -> nat, k: nat, x: T)
    requires x in WithKey(s, key, k)
    ensures x in s && key(x) == k
  {
    if s != [] {
      if x in WithKey(s[..|s| - 1], key, k) {
        WithKeyMember(s[..|s| - 1], key, k, x);
      }
    }
  }

  lemma WithKeyOfLast<T>(s: seq<T>, key: T -> nat)
    requires s != []
    ensures WithKey(s, key, key(s[|s| - 1])) != []
  {
  }

  lemma SortedBoundedByLast<T>(s: seq<T>, key: T -> nat, x: T)
    requires SortedBy(s, key) && x in s
    ensures key(x) <= key(s[|s| - 1])
  {
    var i :| 0 <= i < |s| && s[i] == x;
  }

  /** Two sorted sequences with the same key classes end with the same element. */
  lemma LastsAgree<T>(r1: seq<T>, r2: seq<T>, key: T -> nat)
    requires r1 != [] && r2 != []
    requires SortedBy(r1, key) && SortedBy(r2, key) && StableFor(r1, r2, key)
    ensures r1[|r1| - 1] == r2[|r2| - 1]
  {
    var l1, l2 := r1[|r1| - 1], r2[|r2| - 1];
    var k1, k2 := key(l1), key(l2);
    WithKeyOfLast(r1, key);
    WithKeyOfLast(r2, key);
    var w1 := WithKey(r2, key, k1);
    var w2 := WithKey(r1, key, k2);
    assert w1 == WithKey(r1, key, k1) && w2 == WithKey(r2, key, k2);
    WithKeyMember(r2, key, k1, w1[0]);
    WithKeyMember(r1, key, k2, w2[0]);
    SortedBoundedByLast(r2, key, w1[0]);
    SortedBoundedByLast(r1, key, w2[0]);
    assert k1 == k2;
    var e := WithKey(r1, key, k1);
    assert e == WithKey(r1[..|r1| - 1], key, k1) + [l1];
    assert e == WithKey(r2, key, k1) == WithKey(r2[..|r2| - 1], key, k1) + [l2];
    assert e[|e| - 1] == l1 && e[|e| - 1] == l2;
  }

  /** Dropping a common last element keeps the key classes equal. */
  lemma InitsStable<T>(r1: seq<T>, r2: seq<T>, key: T -> nat)
    requires r1 != [] && r2 != [] && r1[|r1| - 1] == r2[|r2| - 1]
    requires StableFor(r1, r2, key)
    ensures StableFor(r1[..|r1| - 1], r2[..|r2| - 1], key)
  {
    var i1, i2, l := r1[..|r1| - 1], r2[..|r2| - 1], r1[|r1| - 1];
    forall k ensures WithKey(i1, key, k) == WithKey(i2, key, k) {
      assert WithKey(r1, key, k) == WithKey(r2, key, k);
      if k == key(l) {
        assert WithKey(i1, key, k) + [l] == WithKey(i2, key, k) + [l];
        assert WithKey(i1, key, k) == (WithKey(i1, key, k) + [l])[..|WithKey(i1, key, k)|];
        assert WithKey(i2, key, k) == (WithKey(i2, key, k) + [l])[..|WithKey(i2, key, k)|];
      } else {
        assert WithKey(r1, key, k) == WithKey(i1, key, k);
        assert WithKey(r2, key, k) == WithKey(i2, key, k);
      }
    }
  }

  /** Two sorted sequences with the same key classes are equal. */
  lemma {:induction false} SortedStableUnique<T>(r1: seq<T>, r2: seq<T>, key: T -> nat)
    requires SortedBy(r1, key) && SortedBy(r2, key)
    requires StableFor(r1, r2, key)
    ensures r1 == r2
    decreases |r1| + |r2|
  {
    if r1 == [] && r2 == [] {
    } else if r1 == [] {
      WithKeyOfLast(r2, key);
      assert false;
    } else if r2 == [] {
      WithKeyOfLast(r1, key);
      assert false;
    } else {
      var i1, i2 := r1[..|r1| - 1], r2[..|r2| - 1];
      LastsAgree(r1, r2, key);
      InitsStable(r1, r2, key);
      assert SortedBy(i1, key) && SortedBy(i2, key);
      SortedStableUnique(i1, i2, key);
      assert r1 == i1 + [r1[|r1| - 1]] && r2 == i2 + [r2[|r2| - 1]];
    }
  }

  /** Any sorted, stable rearrangement of `s` is `StableSort(s, key)`. */
  lemma StableSortUnique<T>(s: seq<T>, r: seq<T>, key: T -> nat)
    requires SortedBy(r, key) && StableFor(r, s, key)
    ensures r == StableSort(s, key)
  {
    StableSortCorrect(s, key);
    SortedStableUnique(r, StableSort(s, key), key);
  }

  // ----- key classes and distinct keys -----

  predicate DistinctKeys<T>(s: seq<T>, key: T -> nat)
  {
    forall i, j :: 0 <= i < j < |s| ==> key(s[i]) != key(s[j])
  }

  lemma WithKeyOfMember<T>(s: seq<T>, key: T -> nat, i: nat)
    requires i < |s|
    ensures WithKey(s, key, key(s[i])) != []
  {
    if i < |s| - 1 {
      WithKeyOfMember(s[..|s| - 1], key, i);
    }
  }

  lemma {:induction false} WithKeyAbsent<T>(s: seq<T>, key: T -> nat, k: nat)
    requires forall m :: 0 <= m < |s| ==> key(s[m]) != k
    ensures WithKey(s, key, k) == []
  {
    if s != [] {
      WithKeyAbsent(s[..|s| - 1], key, k);
    }
  }

  /** When keys are distinct, each key class has at most one element. */
  lemma {:induction false} WithKeyAtMostOne<T>(s: seq<T>, key: T -> nat, k: nat)
    requires DistinctKeys(s, key)
    ensures |WithKey(s, key, k)| <= 1
  {
    if s != [] {
      var init := s[..|s| - 1];
      if key(s[|s| - 1]) == k {
        WithKeyAbsent(init, key, k);
      } else {
        WithKeyAtMostOne(init, key, k);
      }
    }
  }

  /** Two positions with the same key put two elements in that key's class. */
  lemma {:induction false} WithKeyAtLeastTwo<T>(s: seq<T>, key: T -> nat, i: nat, j: nat)
    requires i < j < |s|
    ensures key(s[i]) == key(s[j]) ==> |WithKey(s, key, key(s[i]))| >= 2
  {
    var init := s[..|s| - 1];
    if j == |s| - 1 {
      assert init[i] == s[i];
      WithKeyOfMember(init, key, i);
    } else {
      assert init[i] == s[i] && init[j] == s[j];
      WithKeyAtLeastTwo(init, key, i, j);
    }
  }

  /** A stable rearrangement keeps keys distinct. */
  lemma StablePreservesDistinctKeys<T>(r: seq<T>, s: seq<T>, key: T -> nat)
    requires StableFor(r, s, key) && DistinctKeys(s, key)
    ensures DistinctKeys(r, key)
  {
    forall i, j | 0 <= i < j < |r| ensures key(r[i]) != key(r[j]) {
      WithKeyAtLeastTwo(r, key, i, j);
      WithKeyAtMostOne(s, key, key(r[i]));
      assert WithKey(r, key, key(r[i])) == WithKey(s, key, key(r[i]));
    }
  }

  lemma {:induction false} KeyAtLeastPosition<T>(s: seq<T>, key: T -> nat, i: nat)
    requires SortedBy(s, key) && DistinctKeys(s, key) && i < |s|
    ensures key(s[i]) >= i
  {
    if i > 0 {
      KeyAtLeastPosition(s, key, i - 1);
    }
  }

  lemma {:induction false} KeyAtMostPosition<T>(s: seq<T>, key: T -> nat, i: nat)
    requires SortedBy(s, key) && DistinctKeys(s, key) && i < |s|
    requires forall m :: 0 <= m < |s| ==> key(s[m]) < |s|
    ensures key(s[i]) <= i
    decreases |s| - i
  {
    if i < |s| - 1 {
      KeyAtMostPosition(s, key, i + 1);
    }
  }

  /** A sorted sequence of distinct keys below its length has the key of
      every element equal to that element's position. */
  lemma SortedDistinctKeysArePositions<T>(s: seq<T>, key: T -> nat)
    requires SortedBy(s, key) && DistinctKeys(s, key)
    requires forall m :: 0 <= m < |s| ==> key(s[m]) < |s|
    ensures forall i :: 0 <= i < |s| ==> key(s[i]) == i
  {
    forall i | 0 <= i < |s| ensures key(s[i]) == i {
      KeyAtLeastPosition(s, key, i);
      KeyAtMostPosition(s, key, i);
    }
  }

  /** When the keys are distinct and all below the length, sorting puts
      every element at the position its key names. */
  lemma StableSortPlacesByKey<T>(s: seq<T>, key: T -> nat)
    requires DistinctKeys(s, key)
    requires forall m :: 0 <= m < |s| ==> key(s[m]) < |s|
    ensures |StableSort(s, key)| == |s|
    ensures forall i :: 0 <= i < |s| ==> StableSort(s, key)[key(s[i])] == s[i]
  {
    var r := StableSort(s, key);
    StableSortCorrect(s, key);
    StablePreservesDistinctKeys(r, s, key);
    forall m | 0 <= m < |r| ensures key(r[m]) < |r| {
      assert r[m] in multiset(s);
    }
    SortedDistinctKeysArePositions(r, key);
    forall i | 0 <= i < |s| ensures r[key(s[i])] == s[i] {
      assert s[i] in multiset(r);
      var j :| 0 <= j < |r| && r[j] == s[i];
      assert key(r[j]) == j;
    }
  }

  // ----- the in-place algorithm -----

  /** One step of insertion sort: moves `a[i]` left past the larger keys
      of the sorted prefix `a[..i]`. */
  method InsertLast<T>(a: array<T>, i: nat, key: T -> nat)
    requires i < a.Length
    modifies a
    ensures a[..i + 1] == Insert(old(a[..i]), old(a[i]), key)
    ensures a[i + 1..] == old(a[i + 1..])
  {
    var x := a[i];
    ghost var t := a[..i];
    var j := i;
    while j > 0 && key(a[j - 1]) > key(x)
      invariant 0 <= j <= i
      invariant forall m :: 0 <= m < j ==> a[m] == t[m]
      invariant forall m :: j < m <= i ==> a[m] == t[m - 1]
      invariant forall m :: j <= m < i ==> key(t[m]) > key(x)
      invariant forall m :: i < m < a.Length ==> a[m] == old(a[m])
    {
      a[j] := a[j - 1];
      j := j - 1;
    }
    a[j] := x;
    InsertAt(t, x, key, j);
    assert a[..i + 1] == t[..j] + [x] + t[j..];
  }

  /** Insertion sort over the array, as `sort_by_key` sorts a `Vec` in place. */
  method SortInPlace<T>(a: array<T>, key: T -> nat)
    modifies a
    ensures a[..] == StableSort(old(a[..]), key)
  {
    ghost var s := a[..];
    var i := 0;
    while i < a.Length
      invariant 0 <= i <= a.Length
      invariant a[..i] == StableSort(s[..i], key)
      invariant a[i..] == s[i..]
    {
      InsertLast(a, i, key);
      assert s[..i + 1][..i] == s[..i];
      assert s[..i + 1][i] == s[i];
      i := i + 1;
    }
    assert s[..a.Length] == s;
  }
}
