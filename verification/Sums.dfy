/** Totals over finite maps and sizes of index sets. */
module Sums {
  // The total weight of a map's values.
  ghost function Sum<K, V>(m: map<K, V>, w: V -> int): int
    decreases |m|
  {
    if m == map[] then 0
    else
      var k :| k in m;
      w(m[k]) + Sum(m - {k}, w)
  }

  lemma {:induction false} SumRemove<K, V>(m: map<K, V>, w: V -> int, k: K)
    requires k in m
    ensures Sum(m, w) == w(m[k]) + Sum(m - {k}, w)
    decreases |m|
  {
    var c :| c in m && Sum(m, w) == w(m[c]) + Sum(m - {c}, w);
    if c != k {
      SumRemove(m - {c}, w, k);
      SumRemove(m - {k}, w, c);
      assert m - {c} - {k} == m - {k} - {c};
    }
  }

  lemma SumUpdate<K, V>(m: map<K, V>, w: V -> int, k: K, v: V)
    ensures Sum(m[k := v], w) == w(v) + Sum(m - {k}, w)
    ensures Sum(m, w) == Sum(m - {k}, w) + if k in m then w(m[k]) else 0
  {
    SumRemove(m[k := v], w, k);
    assert m[k := v] - {k} == m - {k};
    if k in m {
      SumRemove(m, w, k);
    } else {
      assert m - {k} == m;
    }
  }

  // The total splits over any set of keys.
  lemma {:induction false} SumSplit<K, V>(m: map<K, V>, w: V -> int, part: set<K>)
    requires part <= m.Keys
    ensures Sum(m, w) == Sum(m - part, w) + Sum(map k | k in part :: m[k], w)
    decreases |part|
  {
    if part == {} {
      assert m - part == m;
    } else {
      var k :| k in part;
      var inside := map k | k in part :: m[k];
      SumSplit(m, w, part - {k});
      SumRemove(m - (part - {k}), w, k);
      assert m - (part - {k}) - {k} == m - part;
      SumRemove(inside, w, k);
      assert inside - {k} == map k' | k' in part - {k} :: m[k'];
    }
  }

  lemma {:induction false} SumNonNegative<K, V>(m: map<K, V>, w: V -> int)
    requires forall k :: k in m ==> 0 <= w(m[k])
    ensures 0 <= Sum(m, w)
    decreases |m|
  {
    if m != map[] {
      var k :| k in m;
      SumRemove(m, w, k);
      SumNonNegative(m - {k}, w);
    }
  }

  lemma {:induction false} SumBounds<K, V>(m: map<K, V>, w: V -> int, low: int, high: int)
    requires forall k :: k in m ==> low <= w(m[k]) <= high
    ensures low * |m| <= Sum(m, w) <= high * |m|
    decreases |m|
  {
    if m != map[] {
      var k :| k in m;
      SumRemove(m, w, k);
      SumBounds(m - {k}, w, low, high);
      assert (m - {k}).Keys == m.Keys - {k};
      assert |m - {k}| == |m| - 1;
      OneLess(low, |m|);
      OneLess(high, |m|);
    }
  }

  lemma OneLess(x: int, n: nat)
    requires n > 0
    ensures x * (n - 1) == x * n - x
  {
  }

  // The indices below n.
  ghost function Below(n: nat): (s: set<nat>)
    ensures forall i: nat :: i in s <==> i < n
    ensures |s| == n
  {
    if n == 0 then {} else Below(n - 1) + {n - 1}
  }

  // Pigeonhole: n distinct indices below n are all the indices below n.
  lemma {:induction false} AllBelow(s: set<nat>, n: nat)
    requires s <= Below(n)
    ensures |s| <= n
    ensures |s| == n <==> s == Below(n)
  {
    SubsetSize(s, Below(n));
  }

  lemma {:induction false} SubsetSize<T>(a: set<T>, b: set<T>)
    requires a <= b
    ensures |a| <= |b|
    ensures |a| == |b| <==> a == b
  {
    if a != {} {
      var x :| x in a;
      SubsetSize(a - {x}, b - {x});
    }
  }
}
