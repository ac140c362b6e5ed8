/**
 Binary heaps in a slice, with the sift operations of Go's container/heap, which the pool's
 nonce and price heaps are built on.  `leq(a, b)` says that `b` is not less than `a`.
 */
module Heaps {
  import opened Basics

  ghost predicate TotalOrder<T(!new)>(leq: (T, T) -> bool) {
    && (forall a, b :: leq(a, b) || leq(b, a))
    && (forall a, b, c {:trigger leq(a, b), leq(b, c)} :: leq(a, b) && leq(b, c) ==> leq(a, c))
  }

  function Parent(j: nat): nat
    requires j > 0
  {
    (j - 1) / 2
  }

  /** Position `j` is not less than its parent. */
  predicate Edge<T>(leq: (T, T) -> bool, h: seq<T>, j: nat)
    requires 0 < j < |h|
  {
    leq(h[Parent(j)], h[j])
  }

  /** The first `n` positions are in heap order. */
  predicate Heap<T>(leq: (T, T) -> bool, h: seq<T>, n: nat) {
    n <= |h| && forall j: nat {:trigger Edge(leq, h, j)} :: 0 < j < n ==> Edge(leq, h, j)
  }

  /** The top of a heap is least. */
  lemma {:induction false} TopLeast<T(!new)>(leq: (T, T) -> bool, h: seq<T>, n: nat, j: nat)
    requires TotalOrder(leq) && Heap(leq, h, n) && j < n
    ensures leq(h[0], h[j])
  {
    if j > 0 {
      assert Edge(leq, h, j);
      TopLeast(leq, h, n, Parent(j));
    }
  }

  /** All edges hold except the one into `i`; children of `i` are not less than its parent. */
  ghost predicate HeapButInto<T>(leq: (T, T) -> bool, h: seq<T>, n: nat, i: nat) {
    && i < n <= |h|
    && (forall j: nat {:trigger Edge(leq, h, j)} :: 0 < j < n && j != i ==> Edge(leq, h, j))
    && (forall j: nat {:trigger h[j]} :: 0 < j < n && i > 0 && Parent(j) == i ==> leq(h[Parent(i)], h[j]))
  }

  /** Sifts position `i0` up. */
  method Up<T(!new)>(leq: (T, T) -> bool, h0: seq<T>, i0: nat) returns (h: seq<T>)
    requires TotalOrder(leq) && HeapButInto(leq, h0, |h0|, i0)
    ensures Heap(leq, h, |h|) && multiset(h) == multiset(h0)
  {
    h := h0;
    var j := i0;
    while j > 0 && !leq(h[Parent(j)], h[j])
      invariant |h| == |h0| && multiset(h) == multiset(h0)
      invariant HeapButInto(leq, h, |h|, j)
      decreases j
    {
      var i := Parent(j);
      UpStep(leq, h, j);
      SwapSame(h, i, j);
      h := Swap(h, i, j);
      j := i;
    }
  }

  lemma UpStep<T(!new)>(leq: (T, T) -> bool, h: seq<T>, j: nat)
    requires TotalOrder(leq) && HeapButInto(leq, h, |h|, j) && j > 0 && !leq(h[Parent(j)], h[j])
    ensures HeapButInto(leq, Swap(h, Parent(j), j), |h|, Parent(j))
  {
    var i := Parent(j);
    var r := Swap(h, i, j);
    assert leq(h[j], h[i]);
    forall k: nat | 0 < k < |h| && k != i ensures Edge(leq, r, k) {
      if k == j {
      } else if Parent(k) == i {
        assert Edge(leq, h, k);
      } else if Parent(k) == j {
        assert leq(h[Parent(j)], h[k]);
      } else {
        assert Edge(leq, h, k);
      }
    }
    if i > 0 {
      assert Edge(leq, h, i);
      forall k: nat | 0 < k < |h| && Parent(k) == i ensures leq(r[Parent(i)], r[k]) {
        if k != j {
          assert Edge(leq, h, k);
        }
      }
    }
  }

  /** All edges below `lo` hold except those out of `i`, and possibly the one into `i0`;
      the children of `i` are not less than the parent of `i`. */
  ghost predicate HeapButFrom<T>(leq: (T, T) -> bool, h: seq<T>, n: nat, lo: nat, i0: nat, i: nat) {
    && lo <= i0 <= i && n <= |h|
    && (forall j: nat {:trigger Edge(leq, h, j)} :: 0 < j < n && Parent(j) >= lo && Parent(j) != i && (j != i0 || i > i0) ==> Edge(leq, h, j))
    && (forall j: nat {:trigger h[j]} :: 0 < j < n && i > 0 && Parent(i) >= lo && Parent(j) == i ==> leq(h[Parent(i)], h[j]))
  }

  /** Sifts position `i0` down within the first `n` positions, and says whether it moved. */
  method Down<T(!new)>(leq: (T, T) -> bool, h0: seq<T>, i0: nat, n: nat, ghost lo: nat) returns (h: seq<T>, moved: bool)
    requires TotalOrder(leq) && HeapButFrom(leq, h0, n, lo, i0, i0) && (i0 < n || n == i0)
    ensures |h| == |h0| && multiset(h) == multiset(h0) && h[n..] == h0[n..]
    ensures forall j: nat {:trigger Edge(leq, h, j)} :: 0 < j < n && Parent(j) >= lo && (j != i0 || moved) ==>
      Edge(leq, h, j)
    ensures !moved ==> h == h0
  {
    h := h0;
    var i := i0;
    while 2 * i + 1 < n
      invariant |h| == |h0| && multiset(h) == multiset(h0) && h[n..] == h0[n..]
      invariant HeapButFrom(leq, h, n, lo, i0, i) && (i < n || i == i0)
      invariant i == i0 ==> h == h0
      decreases n - i
    {
      var j := 2 * i + 1;
      if j + 1 < n && !leq(h[j], h[j + 1]) {
        j := j + 1;
      }
      if leq(h[i], h[j]) {
        Settled(leq, h, n, lo, i0, i, j);
        return h, i > i0;
      }
      DownStep(leq, h, n, lo, i0, i, j);
      SwapSame(h, i, j);
      h := Swap(h, i, j);
      i := j;
    }
    moved := i > i0;
  }

  /** `j` is a least child of `i`. */
  predicate LeastChild<T>(leq: (T, T) -> bool, h: seq<T>, n: nat, i: nat, j: nat) {
    && n <= |h| && (j == 2 * i + 1 || j == 2 * i + 2) && j < n
    && forall k: nat {:trigger h[k]} :: (k == 2 * i + 1 || k == 2 * i + 2) && k < n ==> leq(h[j], h[k])
  }

  lemma Settled<T(!new)>(leq: (T, T) -> bool, h: seq<T>, n: nat, lo: nat, i0: nat, i: nat, j: nat)
    requires TotalOrder(leq) && HeapButFrom(leq, h, n, lo, i0, i) && LeastChild(leq, h, n, i, j) && leq(h[i], h[j])
    ensures forall k: nat {:trigger Edge(leq, h, k)} :: 0 < k < n && Parent(k) >= lo && (k != i0 || i > i0) ==>
      Edge(leq, h, k)
  {
    forall k: nat | 0 < k < n && Parent(k) == i ensures Edge(leq, h, k) {
      assert k == 2 * i + 1 || k == 2 * i + 2;
      assert leq(h[j], h[k]);
    }
  }

  lemma DownStep<T(!new)>(leq: (T, T) -> bool, h: seq<T>, n: nat, lo: nat, i0: nat, i: nat, j: nat)
    requires TotalOrder(leq) && HeapButFrom(leq, h, n, lo, i0, i) && LeastChild(leq, h, n, i, j) && !leq(h[i], h[j])
    ensures HeapButFrom(leq, Swap(h, i, j), n, lo, i0, j)
  {
    var r := Swap(h, i, j);
    assert leq(h[j], h[i]);
    forall k: nat | 0 < k < n && Parent(k) >= lo && Parent(k) != j ensures Edge(leq, r, k) {
      if Parent(k) == i {
        assert k == 2 * i + 1 || k == 2 * i + 2;
        assert leq(h[j], h[k]);
      } else if k == i {
        assert leq(h[Parent(i)], h[j]);
      } else {
        assert Edge(leq, h, k);
      }
    }
    forall k: nat | 0 < k < n && Parent(k) == j ensures leq(r[Parent(j)], r[k]) {
      assert Edge(leq, h, k);
    }
  }

  /** Turns a slice into a heap. */
  method Init<T(!new)>(leq: (T, T) -> bool, h0: seq<T>) returns (h: seq<T>)
    requires TotalOrder(leq)
    ensures Heap(leq, h, |h|) && multiset(h) == multiset(h0)
  {
    h := h0;
    var n := |h|;
    var i := n / 2 - 1;
    while i >= 0
      invariant -1 <= i < n && |h| == n && multiset(h) == multiset(h0)
      invariant forall j: nat {:trigger Edge(leq, h, j)} :: 0 < j < n && Parent(j) > i ==> Edge(leq, h, j)
      decreases i
    {
      var moved;
      h, moved := Down(leq, h, i, n, i);
      i := i - 1;
    }
  }

  method Push<T(!new)>(leq: (T, T) -> bool, h0: seq<T>, x: T) returns (h: seq<T>)
    requires TotalOrder(leq) && Heap(leq, h0, |h0|)
    ensures Heap(leq, h, |h|) && multiset(h) == multiset(h0) + multiset{x}
  {
    h := h0 + [x];
    forall j: nat | 0 < j < |h| && j != |h0| ensures Edge(leq, h, j) {
      assert Edge(leq, h0, j);
    }
    h := Up(leq, h, |h0|);
  }

  /** Removes the top of the heap. */
  method Pop<T(!new)>(leq: (T, T) -> bool, h0: seq<T>) returns (h: seq<T>, x: T)
    requires TotalOrder(leq) && Heap(leq, h0, |h0|) && h0 != []
    ensures x == h0[0] && Heap(leq, h, |h|) && multiset(h) == multiset(h0) - multiset{x} && |h| == |h0| - 1
    ensures forall y :: y in h0 ==> leq(x, y)
  {
    h, x := RemoveAt(leq, h0, 0);
    forall y | y in h0 ensures leq(x, y) {
      var j :| 0 <= j < |h0| && h0[j] == y;
      TopLeast(leq, h0, |h0|, j);
    }
  }

  lemma LastOff<T>(leq: (T, T) -> bool, h: seq<T>)
    requires h != [] && Heap(leq, h, |h|)
    ensures Heap(leq, h[..|h| - 1], |h| - 1)
  {
    var r := h[..|h| - 1];
    forall j: nat | 0 < j < |r| ensures Edge(leq, r, j) {
      assert Edge(leq, h, j);
    }
  }

  /** Removes the element at a position. */
  method RemoveAt<T(!new)>(leq: (T, T) -> bool, h0: seq<T>, i: nat) returns (h: seq<T>, x: T)
    requires TotalOrder(leq) && Heap(leq, h0, |h0|) && i < |h0|
    ensures x == h0[i] && Heap(leq, h, |h|) && multiset(h) == multiset(h0) - multiset{x} && |h| == |h0| - 1
  {
    hide Edge, TotalOrder;
    var n := |h0| - 1;
    h := h0;
    if n != i {
      Displaced(leq, h0, i);
      SwapSame(h, i, n);
      var moved;
      h, moved := Down(leq, Swap(h, i, n), i, n, 0);
      x := h[n];
      assert h == h[..n] + [x];
      Shorter(leq, h, n, i, moved);
      h := h[..n];
      if !moved {
        AfterSwap(leq, h0, i);
        h := Up(leq, h, i);
      }
    } else {
      x := h[n];
      assert h == h[..n] + [x];
      LastOff(leq, h);
      h := h[..n];
    }
  }

  /** Putting the last element at `i` breaks edges at `i` only. */
  lemma Displaced<T(!new)>(leq: (T, T) -> bool, h: seq<T>, i: nat)
    requires TotalOrder(leq) && Heap(leq, h, |h|) && i < |h| - 1
    ensures HeapButFrom(leq, Swap(h, i, |h| - 1), |h| - 1, 0, i, i)
  {
    var n := |h| - 1;
    var r := Swap(h, i, n);
    forall j: nat | 0 < j < n && Parent(j) != i && j != i ensures Edge(leq, r, j) {
      assert Edge(leq, h, j);
    }
    forall j: nat | 0 < j < n && i > 0 && Parent(j) == i ensures leq(r[Parent(i)], r[j]) {
      assert Edge(leq, h, j) && Edge(leq, h, i);
    }
  }

  lemma Shorter<T(!new)>(leq: (T, T) -> bool, h: seq<T>, n: nat, i: nat, moved: bool)
    requires n == |h| - 1 && i < n
    requires forall j: nat {:trigger Edge(leq, h, j)} :: 0 < j < n && (j != i || moved) ==> Edge(leq, h, j)
    ensures forall j: nat {:trigger Edge(leq, h[..n], j)} :: 0 < j < n && (j != i || moved) ==> Edge(leq, h[..n], j)
  {
    forall j: nat | 0 < j < n && (j != i || moved) ensures Edge(leq, h[..n], j) {
      assert Edge(leq, h, j);
    }
  }

  /** When nothing moved down, sifting up may start at `i`. */
  lemma AfterSwap<T(!new)>(leq: (T, T) -> bool, h0: seq<T>, i: nat)
    requires TotalOrder(leq) && Heap(leq, h0, |h0|) && i < |h0| - 1
    requires forall j: nat {:trigger Edge(leq, Swap(h0, i, |h0| - 1)[..|h0| - 1], j)} :: 0 < j < |h0| - 1 && j != i ==>
      Edge(leq, Swap(h0, i, |h0| - 1)[..|h0| - 1], j)
    ensures HeapButInto(leq, Swap(h0, i, |h0| - 1)[..|h0| - 1], |h0| - 1, i)
  {
    var n := |h0| - 1;
    var r := Swap(h0, i, n)[..n];
    forall j: nat | 0 < j < n && i > 0 && Parent(j) == i ensures leq(r[Parent(i)], r[j]) {
      assert Edge(leq, h0, j) && Edge(leq, h0, i);
    }
  }
}
