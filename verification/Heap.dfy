/** The replay memory's binary heap, ordered by completion time: the sift
    procedures of Go's container/heap over a slice of entries. */
module CompletedHeap {
  import opened Bytes

  datatype FlowKey = FlowKey(flowID: u64, sequence: u32)

  datatype Entry = Entry(key: FlowKey, at: int)

  function Swap(h: seq<Entry>, i: nat, j: nat): (r: seq<Entry>)
    requires i < |h| && j < |h|
    ensures |r| == |h|
  {
    h[i := h[j]][j := h[i]]
  }

  function Parent(k: nat): (p: nat)
    requires k > 0
    ensures p < k
  {
    (k - 1) / 2
  }

  function Up(h: seq<Entry>, j: nat): (r: seq<Entry>)
    requires j < |h|
    ensures |r| == |h|
    decreases j
  {
    if j == 0 then h
    else
      var i := Parent(j);
      if h[j].at < h[i].at then Up(Swap(h, i, j), i) else h
  }

  // The smaller child of i, the left one on a tie.
  function Child(h: seq<Entry>, i: nat, n: nat): nat
    requires 2 * i + 1 < n <= |h|
  {
    if 2 * i + 2 < n && h[2 * i + 2].at < h[2 * i + 1].at then 2 * i + 2 else 2 * i + 1
  }

  function Down(h: seq<Entry>, i: nat, n: nat): (r: seq<Entry>)
    requires n <= |h|
    ensures |r| == |h|
    decreases n - i
  {
    if 2 * i + 1 >= n then h
    else
      var c := Child(h, i, n);
      if h[c].at < h[i].at then Down(Swap(h, i, c), c, n) else h
  }

  function Push(h: seq<Entry>, e: Entry): (r: seq<Entry>) {
    Up(h + [e], |h|)
  }

  // The popped entry and the remaining heap.
  function Pop(h: seq<Entry>): (r: (Entry, seq<Entry>))
    requires |h| > 0
  {
    var n := |h| - 1;
    var sifted := Down(Swap(h, 0, n), 0, n);
    (sifted[n], sifted[..n])
  }

  ghost predicate Edge(h: seq<Entry>, k: nat)
    requires 0 < k < |h|
  {
    h[Parent(k)].at <= h[k].at
  }

  // No entry among the first n is older than its parent.
  ghost predicate Ordered(h: seq<Entry>, n: nat)
    requires n <= |h|
  {
    forall k: nat :: 0 < k < n ==> Edge(h, k)
  }

  // Ordered but for the edge above j.
  ghost predicate OrderedBut(h: seq<Entry>, j: nat) {
    && (forall k: nat :: 0 < k < |h| && k != j ==> Edge(h, k))
    && (forall k: nat {:trigger Edge(h, k)} :: 0 < k < |h| && Parent(k) == j && j > 0 ==> h[Parent(j)].at <= h[k].at)
  }

  // Ordered among the first n but for the edges below i.
  ghost predicate OrderedBelowBut(h: seq<Entry>, i: nat, n: nat)
    requires n <= |h|
  {
    && (forall k: nat :: 0 < k < n && Parent(k) != i ==> Edge(h, k))
    && (forall k: nat {:trigger Edge(h, k)} :: 0 < k < n && Parent(k) == i && i > 0 ==> h[Parent(i)].at <= h[k].at)
  }

  lemma SwapPermutes(h: seq<Entry>, i: nat, j: nat)
    requires i < |h| && j < |h|
    ensures multiset(Swap(h, i, j)) == multiset(h)
  {
  }

  lemma UpStep(h: seq<Entry>, j: nat)
    requires 0 < j < |h| && OrderedBut(h, j) && h[j].at < h[Parent(j)].at
    ensures OrderedBut(Swap(h, Parent(j), j), Parent(j))
  {
    var i := Parent(j);
    var s := Swap(h, i, j);
    assert i > 0 ==> Edge(h, i);
    forall k: nat | 0 < k < |h| && k != i ensures Edge(s, k) {
      assert Edge(h, k) || k == j;
    }
    forall k: nat | 0 < k < |h| && Parent(k) == i && i > 0 ensures s[Parent(i)].at <= s[k].at {
      assert Edge(h, k) || k == j;
    }
  }

  lemma {:induction false} UpRestores(h: seq<Entry>, j: nat)
    requires j < |h| && OrderedBut(h, j)
    ensures Ordered(Up(h, j), |h|)
    ensures multiset(Up(h, j)) == multiset(h)
    decreases j
  {
    if j > 0 && h[j].at < h[Parent(j)].at {
      SwapPermutes(h, Parent(j), j);
      UpStep(h, j);
      UpRestores(Swap(h, Parent(j), j), Parent(j));
    } else {
      assert j > 0 ==> Edge(h, j);
    }
  }

  lemma DownStep(h: seq<Entry>, i: nat, n: nat)
    requires 2 * i + 1 < n <= |h| && OrderedBelowBut(h, i, n) && h[Child(h, i, n)].at < h[i].at
    ensures OrderedBelowBut(Swap(h, i, Child(h, i, n)), Child(h, i, n), n)
  {
    var c := Child(h, i, n);
    var s := Swap(h, i, c);
    forall k: nat | 0 < k < n && Parent(k) != c ensures Edge(s, k) {
      assert Parent(k) == i ==> k == 2 * i + 1 || k == 2 * i + 2;
      assert Parent(k) != i ==> Edge(h, k);
      assert Parent(c) == i && (Edge(h, c) || h[c].at < h[i].at);
    }
    forall k: nat | 0 < k < n && Parent(k) == c ensures s[Parent(c)].at <= s[k].at {
      assert Edge(h, k);
    }
  }

  lemma {:induction false} DownRestores(h: seq<Entry>, i: nat, n: nat)
    requires n <= |h| && OrderedBelowBut(h, i, n)
    ensures Ordered(Down(h, i, n), n)
    ensures multiset(Down(h, i, n)) == multiset(h)
    ensures Down(h, i, n)[n..] == h[n..]
    decreases n - i
  {
    if 2 * i + 1 < n && h[Child(h, i, n)].at < h[i].at {
      var c := Child(h, i, n);
      SwapPermutes(h, i, c);
      DownStep(h, i, n);
      assert Swap(h, i, c)[n..] == h[n..];
      DownRestores(Swap(h, i, c), c, n);
    } else {
      forall k: nat | 0 < k < n ensures Edge(h, k) {
        assert Parent(k) != i || k == 2 * i + 1 || k == 2 * i + 2;
      }
    }
  }

  lemma {:induction false} RootIsOldest(h: seq<Entry>, k: nat)
    requires k < |h| && Ordered(h, |h|)
    ensures h[0].at <= h[k].at
  {
    if k > 0 {
      assert Edge(h, k);
      RootIsOldest(h, Parent(k));
    }
  }

  lemma PushKeeps(h: seq<Entry>, e: Entry)
    requires Ordered(h, |h|)
    ensures Ordered(Push(h, e), |h| + 1)
    ensures multiset(Push(h, e)) == multiset(h) + multiset{e}
  {
    var g := h + [e];
    forall k: nat | 0 < k < |h| ensures Edge(g, k) {
      assert Edge(h, k);
    }
    forall k: nat | 0 < k < |g| ensures Parent(k) < |h| {
    }
    UpRestores(g, |h|);
  }

  // Popping takes the root out and leaves a heap of everything else.
  lemma PopTakesRoot(h: seq<Entry>)
    requires |h| > 0 && Ordered(h, |h|)
    ensures Pop(h).0 == h[0]
    ensures Ordered(Pop(h).1, |h| - 1)
    ensures multiset(Pop(h).1) == multiset(h) - multiset{h[0]}
  {
    var n := |h| - 1;
    var s := Swap(h, 0, n);
    forall k: nat | 0 < k < n && Parent(k) != 0 ensures Edge(s, k) {
      assert Edge(h, k);
    }
    SwapPermutes(h, 0, n);
    DownRestores(s, 0, n);
    var d := Down(s, 0, n);
    assert d[n] == d[n..][0] == s[n..][0];
    assert d == d[..n] + [d[n]];
    forall k: nat | 0 < k < n ensures Edge(d[..n], k) {
      assert Edge(d, k);
    }
  }

  // The sift loops as they run over the slice.
  method HeapPush(h: seq<Entry>, e: Entry) returns (r: seq<Entry>)
    ensures r == Push(h, e)
  {
    r := h + [e];
    var j: nat := |h|;
    while j > 0 && r[j].at < r[(j - 1) / 2].at
      invariant |r| == |h| + 1 && j <= |h|
      invariant Up(r, j) == Push(h, e)
    {
      var i := (j - 1) / 2;
      r, j := r[i := r[j]][j := r[i]], i;
    }
  }

  method HeapPop(h: seq<Entry>) returns (e: Entry, r: seq<Entry>)
    requires |h| > 0
    ensures (e, r) == Pop(h)
  {
    var n := |h| - 1;
    r := Swap(h, 0, n);
    var i: nat := 0;
    while 2 * i + 1 < n
      invariant |r| == |h|
      invariant Down(r, i, n) == Down(Swap(h, 0, n), 0, n)
      decreases n - i
    {
      var c := 2 * i + 1;
      if c + 1 < n && r[c + 1].at < r[c].at {
        c := c + 1;
      }
      if r[c].at >= r[i].at {
        break;
      }
      r, i := r[i := r[c]][c := r[i]], c;
    }
    e, r := r[n], r[..n];
  }
}
