/** Orders and stable sorting by key. */
module Ordering {
  ghost predicate StrictTotal<K(!new)>(less: (K, K) -> bool) {
    && (forall x :: !less(x, x))
    && (forall x, y, z :: less(x, y) && less(y, z) ==> less(x, z))
    && (forall x, y :: x == y || less(x, y) || less(y, x))
  }

  // The order of strings: code units left to right, a prefix first.
  predicate StringLess(a: string, b: string)
    decreases |a|
  {
    if b == [] then false
    else if a == [] then true
    else a[0] < b[0] || (a[0] == b[0] && StringLess(a[1..], b[1..]))
  }

  lemma {:induction false} StringIrreflexive(a: string)
    ensures !StringLess(a, a)
  {
    if a != [] {
      StringIrreflexive(a[1..]);
    }
  }

  lemma {:induction false} StringTransitive(a: string, b: string, c: string)
    requires StringLess(a, b) && StringLess(b, c)
    ensures StringLess(a, c)
  {
    if a != [] && a[0] == b[0] == c[0] {
      StringTransitive(a[1..], b[1..], c[1..]);
    }
  }

  lemma {:induction false} StringTotal(a: string, b: string)
    ensures a == b || StringLess(a, b) || StringLess(b, a)
  {
    if a != [] && b != [] && a[0] == b[0] {
      StringTotal(a[1..], b[1..]);
      assert a == [a[0]] + a[1..] && b == [b[0]] + b[1..];
    }
  }

  lemma StringOrder()
    ensures StrictTotal(StringLess)
  {
    forall x: string ensures !StringLess(x, x) { StringIrreflexive(x); }
    forall x: string, y: string, z: string | StringLess(x, y) && StringLess(y, z) ensures StringLess(x, z) {
      StringTransitive(x, y, z);
    }
    forall x: string, y: string ensures x == y || StringLess(x, y) || StringLess(y, x) { StringTotal(x, y); }
  }

  // ---------- stable sorting ----------

  // Puts x behind every element that does not come after it.
  function Insert<T, K>(x: T, s: seq<T>, key: T -> K, less: (K, K) -> bool): (r: seq<T>)
    ensures |r| == |s| + 1
  {
    if s == [] then [x]
    else if less(key(x), key(s[0])) then [x] + s
    else [s[0]] + Insert(x, s[1..], key, less)
  }

  function SortBy<T, K>(s: seq<T>, key: T -> K, less: (K, K) -> bool): (r: seq<T>)
    ensures |r| == |s|
  {
    if s == [] then [] else Insert(s[|s| - 1], SortBy(s[..|s| - 1], key, less), key, less)
  }

  ghost predicate InOrder<T, K>(s: seq<T>, key: T -> K, less: (K, K) -> bool) {
    forall i, j :: 0 <= i < j < |s| ==> !less(key(s[j]), key(s[i]))
  }

  lemma InOrderCons<T, K>(x: T, s: seq<T>, key: T -> K, less: (K, K) -> bool)
    requires InOrder(s, key, less) && forall y :: y in s ==> !less(key(y), key(x))
    ensures InOrder([x] + s, key, less)
  {
    var r := [x] + s;
    forall i, j | 0 <= i < j < |r| ensures !less(key(r[j]), key(r[i])) {
      assert r[j] == s[j - 1] && (i > 0 ==> r[i] == s[i - 1]);
    }
  }

  lemma {:induction false} InsertInOrder<T, K(!new)>(x: T, s: seq<T>, key: T -> K, less: (K, K) -> bool)
    requires StrictTotal(less) && InOrder(s, key, less)
    ensures InOrder(Insert(x, s, key, less), key, less)
    ensures multiset(Insert(x, s, key, less)) == multiset(s) + multiset{x}
  {
    if s != [] {
      assert s == [s[0]] + s[1..];
      if less(key(x), key(s[0])) {
        InOrderCons(x, s, key, less);
      } else {
        var rest := Insert(x, s[1..], key, less);
        InsertInOrder(x, s[1..], key, less);
        forall y | y in rest ensures !less(key(y), key(s[0])) {
          assert y in multiset(rest);
          assert y == x || y in s[1..];
        }
        InOrderCons(s[0], rest, key, less);
      }
    }
  }

  lemma {:induction false} SortSorts<T, K(!new)>(s: seq<T>, key: T -> K, less: (K, K) -> bool)
    requires StrictTotal(less)
    ensures InOrder(SortBy(s, key, less), key, less)
    ensures multiset(SortBy(s, key, less)) == multiset(s)
  {
    if s != [] {
      var front := s[..|s| - 1];
      SortSorts(front, key, less);
      InsertInOrder(s[|s| - 1], SortBy(front, key, less), key, less);
      assert s == front + [s[|s| - 1]];
    }
  }

  lemma FirstAgrees<T, K(!new)>(a: seq<T>, b: seq<T>, key: T -> K, less: (K, K) -> bool)
    requires StrictTotal(less) && InOrder(a, key, less) && InOrder(b, key, less)
    requires a != [] && b != [] && a[0] in b && b[0] in a
    ensures key(a[0]) == key(b[0])
  {
    var i :| 0 <= i < |b| && b[i] == a[0];
    var j :| 0 <= j < |a| && a[j] == b[0];
    assert !less(key(a[0]), key(b[0])) && !less(key(b[0]), key(a[0]));
  }

  // No two elements have one key.
  ghost predicate Identifies<T, K>(s: seq<T>, key: T -> K) {
    forall x, y :: x in s && y in s && key(x) == key(y) ==> x == y
  }

  lemma FirstSame<T, K(!new)>(a: seq<T>, b: seq<T>, key: T -> K, less: (K, K) -> bool)
    requires StrictTotal(less) && InOrder(a, key, less) && InOrder(b, key, less)
    requires a != [] && b != [] && multiset(a) == multiset(b) && Identifies(a, key)
    ensures a[0] == b[0]
  {
    assert a[0] in multiset(b) && b[0] in multiset(a);
    FirstAgrees(a, b, key, less);
  }

  lemma TailElements<T>(s: seq<T>)
    requires s != []
    ensures multiset(s[1..]) == multiset(s) - multiset{s[0]}
  {
    assert s == [s[0]] + s[1..];
  }

  lemma InOrderTail<T, K>(s: seq<T>, key: T -> K, less: (K, K) -> bool)
    requires s != [] && InOrder(s, key, less)
    ensures InOrder(s[1..], key, less)
  {
  }

  // Elements in order, without two of one key, are determined by their multiset.
  lemma {:induction false} OrderIsUnique<T, K(!new)>(a: seq<T>, b: seq<T>, key: T -> K, less: (K, K) -> bool)
    requires StrictTotal(less) && InOrder(a, key, less) && InOrder(b, key, less)
    requires multiset(a) == multiset(b) && Identifies(a, key)
    ensures a == b
  {
    assert |multiset(a)| == |a| && |multiset(b)| == |b|;
    if a != [] {
      FirstSame(a, b, key, less);
      TailElements(a);
      TailElements(b);
      InOrderTail(a, key, less);
      InOrderTail(b, key, less);
      OrderIsUnique(a[1..], b[1..], key, less);
      assert a == [a[0]] + a[1..] && b == [b[0]] + b[1..];
    }
  }

  // Sorting does not depend on the order in which the elements are given.
  lemma SortIgnoresOrder<T, K(!new)>(a: seq<T>, b: seq<T>, key: T -> K, less: (K, K) -> bool)
    requires StrictTotal(less) && multiset(a) == multiset(b) && Identifies(a, key)
    ensures SortBy(a, key, less) == SortBy(b, key, less)
  {
    SortSorts(a, key, less);
    SortSorts(b, key, less);
    var sorted := SortBy(a, key, less);
    forall x | x in sorted ensures x in a {
      assert x in multiset(sorted);
    }
    OrderIsUnique(sorted, SortBy(b, key, less), key, less);
  }

  // ---------- element-wise images ----------

  function Map<T, U>(s: seq<T>, f: T -> U): (r: seq<U>)
    ensures |r| == |s| && forall i :: 0 <= i < |s| ==> r[i] == f(s[i])
  {
    if s == [] then [] else [f(s[0])] + Map(s[1..], f)
  }

  function RemoveAt<T>(s: seq<T>, i: nat): seq<T>
    requires i < |s|
  {
    s[..i] + s[i + 1..]
  }

  lemma RemoveAtElements<T>(s: seq<T>, i: nat)
    requires i < |s|
    ensures multiset(RemoveAt(s, i)) == multiset(s) - multiset{s[i]}
    ensures multiset(s) == multiset(RemoveAt(s, i)) + multiset{s[i]}
  {
    assert s == s[..i] + [s[i]] + s[i + 1..];
  }

  lemma MapRemoveAt<T, U>(s: seq<T>, i: nat, f: T -> U)
    requires i < |s|
    ensures Map(RemoveAt(s, i), f) == RemoveAt(Map(s, f), i)
  {
    var left, right := Map(RemoveAt(s, i), f), RemoveAt(Map(s, f), i);
    forall k | 0 <= k < |s| - 1 ensures left[k] == right[k] {
      assert left[k] == f(RemoveAt(s, i)[k]);
    }
  }

  // Images of permutations are permutations.
  lemma {:induction false} MapPermutes<T, U>(a: seq<T>, b: seq<T>, f: T -> U)
    requires multiset(a) == multiset(b)
    ensures multiset(Map(a, f)) == multiset(Map(b, f))
  {
    assert |multiset(a)| == |a| && |multiset(b)| == |b|;
    if a != [] {
      assert a[0] in multiset(b);
      var i :| 0 <= i < |b| && b[i] == a[0];
      RemoveAtElements(a, 0);
      RemoveAtElements(b, i);
      MapPermutes(RemoveAt(a, 0), RemoveAt(b, i), f);
      MapRemoveAt(a, 0, f);
      MapRemoveAt(b, i, f);
      RemoveAtElements(Map(a, f), 0);
      RemoveAtElements(Map(b, f), i);
    }
  }

  predicate Distinct<T(==)>(s: seq<T>) {
    forall i, j :: 0 <= i < j < |s| ==> s[i] != s[j]
  }

  lemma {:induction false} DistinctCounts<T>(s: seq<T>, x: T)
    requires Distinct(s)
    ensures multiset(s)[x] <= 1
  {
    if s != [] {
      assert s == [s[0]] + s[1..];
      DistinctCounts(s[1..], x);
      assert x == s[0] ==> x !in s[1..];
    }
  }

  lemma DistinctPermutes<T>(a: seq<T>, b: seq<T>)
    requires multiset(a) == multiset(b) && Distinct(a)
    ensures Distinct(b)
  {
    forall i, j | 0 <= i < j < |b| ensures b[i] != b[j] {
      DistinctCounts(a, b[i]);
      RemoveAtElements(b, i);
      assert RemoveAt(b, i)[j - 1] == b[j];
    }
  }

  lemma {:induction false} InsertMap<T, U, K>(x: T, s: seq<T>, f: T -> U, key: T -> K, key': U -> K, less: (K, K) -> bool)
    requires forall y :: y in s || y == x ==> key'(f(y)) == key(y)
    ensures Insert(f(x), Map(s, f), key', less) == Map(Insert(x, s, key, less), f)
  {
    if s != [] {
      assert Map(s, f)[1..] == Map(s[1..], f);
      InsertMap(x, s[1..], f, key, key', less);
    }
  }

  // Sorting commutes with a map that keeps the sort key.
  lemma {:induction false} SortMap<T, U, K>(s: seq<T>, f: T -> U, key: T -> K, key': U -> K, less: (K, K) -> bool)
    requires forall y :: y in s ==> key'(f(y)) == key(y)
    ensures SortBy(Map(s, f), key', less) == Map(SortBy(s, key, less), f)
  {
    if s != [] {
      var n := |s| - 1;
      SortMap(s[..n], f, key, key', less);
      assert Map(s, f)[..n] == Map(s[..n], f);
      forall y | y in SortBy(s[..n], key, less) ensures y in s {
        SortMembers(s[..n], key, less, y);
      }
      InsertMap(s[n], SortBy(s[..n], key, less), f, key, key', less);
    }
  }

  lemma {:induction false} SortMembers<T, K>(s: seq<T>, key: T -> K, less: (K, K) -> bool, y: T)
    requires y in SortBy(s, key, less)
    ensures y in s
  {
    var n := |s| - 1;
    InsertMembers(s[n], SortBy(s[..n], key, less), key, less, y);
    if y != s[n] {
      SortMembers(s[..n], key, less, y);
    }
  }

  lemma {:induction false} InsertMembers<T, K>(x: T, s: seq<T>, key: T -> K, less: (K, K) -> bool, y: T)
    requires y in Insert(x, s, key, less)
    ensures y == x || y in s
  {
    if s != [] && !less(key(x), key(s[0])) && y != s[0] {
      InsertMembers(x, s[1..], key, less, y);
    }
  }
}
