/**
 The nonce-sorted transaction map of core/tx_list.go: a map, a heap of its nonces, and a cache
 of the sorted contents that some operations keep and others drop.
 */
module SortedMaps {
  import opened Basics
  import opened Transactions
  import Heaps

  predicate NonceLeq(a: nat, b: nat) {
    a <= b
  }

  lemma NonceOrder()
    ensures Heaps.TotalOrder(NonceLeq)
  {
  }

  // ---------- sorting ----------

  function InsertNonce(s: seq<nat>, n: nat): seq<nat> {
    if s == [] then [n] else if n <= s[0] then [n] + s else [s[0]] + InsertNonce(s[1..], n)
  }

  function SortNonces(s: seq<nat>): seq<nat> {
    if s == [] then [] else InsertNonce(SortNonces(s[1..]), s[0])
  }

  predicate Increasing(s: seq<nat>) {
    forall i, j :: 0 <= i < j < |s| ==> s[i] <= s[j]
  }

  predicate AtLeast(s: seq<nat>, x: nat) {
    forall i :: 0 <= i < |s| ==> x <= s[i]
  }

  lemma {:induction false} InsertNonceBag(s: seq<nat>, n: nat)
    ensures multiset(InsertNonce(s, n)) == multiset(s) + multiset{n}
  {
    if s != [] && n > s[0] {
      InsertNonceBag(s[1..], n);
      assert s == [s[0]] + s[1..];
    }
  }

  lemma {:induction false} InsertNonceAtLeast(s: seq<nat>, n: nat, x: nat)
    requires AtLeast(s, x) && x <= n
    ensures AtLeast(InsertNonce(s, n), x)
  {
    if s != [] && n > s[0] {
      InsertNonceAtLeast(s[1..], n, x);
    }
  }

  lemma {:induction false} InsertNonceSorted(s: seq<nat>, n: nat)
    requires Increasing(s)
    ensures Increasing(InsertNonce(s, n))
  {
    if s != [] && n > s[0] {
      InsertNonceSorted(s[1..], n);
      InsertNonceAtLeast(s[1..], n, s[0]);
    }
  }

  lemma {:induction false} SortNoncesSorted(s: seq<nat>)
    ensures Increasing(SortNonces(s)) && multiset(SortNonces(s)) == multiset(s)
  {
    if s != [] {
      SortNoncesSorted(s[1..]);
      InsertNonceSorted(SortNonces(s[1..]), s[0]);
      InsertNonceBag(SortNonces(s[1..]), s[0]);
      assert s == [s[0]] + s[1..];
    }
  }

  function Picked(items: Items, ns: seq<nat>): seq<Tx>
    requires forall i :: 0 <= i < |ns| ==> ns[i] in items
  {
    seq(|ns|, i requires 0 <= i < |ns| => items[ns[i]])
  }

  /** A listing of the nonces in increasing order gives the sorted contents. */
  lemma PickedSorted(items: Items, ns: seq<nat>)
    requires Keyed(items) && Increasing(ns) && multiset(ns) == multiset(items.Keys)
    ensures forall i :: 0 <= i < |ns| ==> ns[i] in items
    ensures forall i, j :: 0 <= i < j < |ns| ==> ns[i] < ns[j]
    ensures Sorted(items, Picked(items, ns))
  {
    forall i | 0 <= i < |ns| ensures ns[i] in items {
      assert ns[i] in multiset(ns);
    }
    forall i, j | 0 <= i < j < |ns| ensures ns[i] < ns[j] {
      Distinct(ns, i, j, items.Keys);
    }
    var r := Picked(items, ns);
    forall n <- items ensures HasNonce(r, n) {
      assert n in multiset(ns);
      var i :| 0 <= i < |ns| && ns[i] == n;
      assert r[i].nonce == n;
    }
  }

  lemma Distinct(ns: seq<nat>, i: nat, j: nat, keys: set<nat>)
    requires multiset(ns) == multiset(keys) && i < j < |ns|
    ensures ns[i] != ns[j]
  {
    if ns[i] == ns[j] {
      CountTwo(ns, i, j);
    }
  }

  lemma CountTwo(ns: seq<nat>, i: nat, j: nat)
    requires i < j < |ns| && ns[i] == ns[j]
    ensures multiset(ns)[ns[i]] >= 2
  {
    assert ns == ns[..i] + [ns[i]] + ns[i + 1..j] + [ns[j]] + ns[j + 1..];
  }

  // ---------- the sorted map ----------

  /** The heap holds exactly the nonces of the map, each once. */
  ghost predicate Indexes(index: seq<nat>, items: Items) {
    multiset(index) == multiset(items.Keys) && Heaps.Heap(NonceLeq, index, |index|)
  }

  /** The top of the heap is the least nonce. */
  lemma IndexTop(index: seq<nat>, items: Items)
    requires Indexes(index, items)
    ensures |index| == |items|
    ensures index != [] ==> index[0] in items && forall n <- items :: index[0] <= n
  {
    NonceOrder();
    assert |multiset(index)| == |index|;
    if index != [] {
      assert index[0] in multiset(index);
      forall n <- items ensures index[0] <= n {
        assert n in multiset(index);
        var j :| 0 <= j < |index| && index[j] == n;
        Heaps.TopLeast(NonceLeq, index, |index|, j);
      }
    }
  }

  /** Taking the least nonce extends the sorted list of what was below. */
  lemma TakeLeast(items: Items, c: nat, m: nat, low: seq<Tx>)
    requires Keyed(items) && Sorted(Below(items, c), low)
    requires m in From(items, c) && forall n <- From(items, c) :: m <= n
    ensures From(items, c) - {m} == From(items, m + 1)
    ensures Sorted(Below(items, m + 1), low + [items[m]])
  {
    var r := low + [items[m]];
    assert forall n <- items :: n >= c ==> n in From(items, c);
    assert Below(items, m + 1) == Below(items, c)[m := items[m]];
    forall n <- Below(items, m + 1) ensures HasNonce(r, n) {
      if n == m {
        assert r[|low|].nonce == n;
      } else {
        assert HasNonce(low, n);
        var i :| 0 <= i < |low| && low[i].nonce == n;
        assert r[i].nonce == n;
      }
    }
  }

  /** With nothing between two cuts, they are the same cut. */
  lemma CutAgrees(items: Items, c: nat, d: nat)
    requires c <= d && forall n <- From(items, c) :: n >= d
    ensures From(items, c) == From(items, d) && Below(items, c) == Below(items, d)
  {
    assert forall n <- items :: n >= c ==> n in From(items, c);
  }

  /** `run` is the transactions at the consecutive nonces from `from` up to `upto`. */
  ghost predicate IsRun(items: Items, from: nat, upto: nat, run: seq<Tx>) {
    from <= upto && |run| == upto - from && forall n: nat :: from <= n < upto ==> n in items && run[n - from] == items[n]
  }

  function Outside(items: Items, from: nat, upto: nat): Items {
    map n | n in items && !(from <= n < upto) :: items[n]
  }

  lemma RunGrows(all: Items, from: nat, next: nat, run: seq<Tx>)
    requires IsRun(all, from, next, run) && next in Outside(all, from, next)
    ensures IsRun(all, from, next + 1, run + [all[next]])
    ensures Outside(all, from, next) - {next} == Outside(all, from, next + 1)
  {
  }

  function Without(items: Items, drop: Tx -> bool): Items {
    map n | n in items && !drop(items[n]) :: items[n]
  }

  function Only(items: Items, drop: Tx -> bool): Items {
    map n | n in items && drop(items[n]) :: items[n]
  }

  lemma HasMore(txs: seq<Tx>, t: Tx)
    ensures HasNonce(txs + [t], t.nonce)
    ensures forall n: nat :: HasNonce(txs, n) ==> HasNonce(txs + [t], n)
  {
    assert (txs + [t])[|txs|] == t;
    forall n: nat | HasNonce(txs, n) ensures HasNonce(txs + [t], n) {
      var i :| 0 <= i < |txs| && txs[i].nonce == n;
      assert (txs + [t])[i].nonce == n;
    }
  }

  lemma NothingDropped(items: Items, drop: Tx -> bool, removed: seq<Tx>)
    requires Lists(Only(items, drop), removed) && removed == []
    ensures Without(items, drop) == items
  {
    ListsLength(Only(items, drop), removed);
    assert forall n <- items :: drop(items[n]) ==> n in Only(items, drop);
  }

  /** The nonces of the map in strictly increasing order. */
  ghost predicate Enumerates(ns: seq<nat>, items: Items) {
    && multiset(ns) == multiset(items.Keys)
    && (forall i :: 0 <= i < |ns| ==> ns[i] in items)
    && (forall n <- items :: n in ns)
    && (forall i, j :: 0 <= i < j < |ns| ==> ns[i] < ns[j])
  }

  lemma Enumerated(items: Items, ns: seq<nat>)
    requires multiset(ns) == multiset(items.Keys)
    requires forall i :: 0 <= i < |ns| ==> ns[i] in items
    requires forall i, j :: 0 <= i < j < |ns| ==> ns[i] < ns[j]
    ensures Enumerates(ns, items) && |ns| == |items|
  {
    forall n <- items ensures n in ns {
      assert n in multiset(ns);
    }
    assert |multiset(ns)| == |ns|;
  }

  /** The first `size` of the increasing nonces are those below `c`. */
  predicate CutAt(ns: seq<nat>, size: nat, c: nat) {
    size <= |ns| && (forall i :: 0 <= i < size ==> ns[i] < c) && (forall i :: size <= i < |ns| ==> ns[i] >= c)
  }

  /** Between the highest kept nonce and the cut there is nothing. */
  lemma DropCut(all: Items, ns: seq<nat>, size: nat, c: nat)
    requires Enumerates(ns, all) && CutAt(ns, size, c) && size > 0
    ensures var m := ns[size - 1];
      && m in all && m < c && CutAt(ns, size - 1, m)
      && Below(all, c) - {m} == Below(all, m) && From(all, m) == From(all, c)[m := all[m]]
  {
    var m := ns[size - 1];
    forall n <- all ensures n < c ==> n <= m {
      assert n in ns;
    }
  }

  /** One more dropped transaction, below the ones dropped before. */
  lemma DropList(high: Items, drops: seq<Tx>, t: Tx)
    requires Lists(high, drops) && Descending(drops) && forall n <- high :: t.nonce < n
    ensures Lists(high[t.nonce := t], drops + [t]) && Descending(drops + [t])
  {
    HasMore(drops, t);
    forall n <- high[t.nonce := t] ensures HasNonce(drops + [t], n) {
      if n != t.nonce {
        assert HasNonce(drops, n);
      }
    }
  }

  lemma DropStart(all: Items, ns: seq<nat>, c: nat)
    requires Enumerates(ns, all) && forall n <- all :: n < c
    ensures CutAt(ns, |ns|, c) && Below(all, c) == all && Lists(From(all, c), []) && Descending([])
  {
    assert From(all, c) == map[];
  }

  /** Dropping the highest kept transaction. */
  lemma DropStep(all: Items, ns: seq<nat>, size: nat, c: nat, drops: seq<Tx>)
    requires Keyed(all) && Enumerates(ns, all) && CutAt(ns, size, c) && size > 0 && Lists(From(all, c), drops)
    requires Descending(drops)
    ensures var m := ns[size - 1];
      && m in Below(all, c) && CutAt(ns, size - 1, m) && Below(all, c) - {m} == Below(all, m) && Keyed(Below(all, m))
      && Lists(From(all, m), drops + [Below(all, c)[m]]) && Descending(drops + [Below(all, c)[m]])
  {
    hide Lists, Descending;
    DropCut(all, ns, size, c);
    DropList(From(all, c), drops, all[ns[size - 1]]);
  }

  /** The first positions of the increasing nonces index what is below the next one. */
  lemma KeptIndex(all: Items, ns: seq<nat>, k: nat)
    requires Enumerates(ns, all) && k < |ns|
    ensures multiset(ns[..k]) == multiset(Below(all, ns[k]).Keys) && |Below(all, ns[k])| == k
  {
    var low := ns[..k];
    var keys := Below(all, ns[k]).Keys;
    forall n ensures multiset(low)[n] == multiset(keys)[n] {
      if n in keys {
        assert n in ns;
        var i :| 0 <= i < |ns| && ns[i] == n;
        assert low[i] == n;
        OnlyOnce(low, i);
      }
    }
    assert multiset(low) == multiset(keys);
    assert |multiset(low)| == |low|;
  }

  lemma OnlyOnce(ns: seq<nat>, i: nat)
    requires i < |ns| && forall i, j :: 0 <= i < j < |ns| ==> ns[i] < ns[j]
    ensures multiset(ns)[ns[i]] == 1
  {
    var a, b := ns[..i], ns[i + 1..];
    assert ns == a + [ns[i]] + b;
    assert ns[i] !in a && ns[i] !in b;
  }

  /** A cached order loses as many from its back as were dropped. */
  lemma CapCache(all: Items, txs: seq<Tx>, cut: nat, drops: seq<Tx>)
    requires Sorted(all, txs) && Lists(From(all, cut), drops)
    ensures |drops| <= |txs| && Sorted(Below(all, cut), txs[..|txs| - |drops|])
  {
    var k := CutPoint(txs, cut);
    SortedCut(all, txs, cut, k);
    ListsLength(From(all, cut), txs[k..]);
    ListsLength(From(all, cut), drops);
  }

  /** A number above all of a set. */
  ghost function Beyond(s: set<nat>): (b: nat)
    ensures forall n <- s :: n < b
  {
    if s == {} then 0
    else
      var x :| x in s;
      var b := Beyond(s - {x});
      assert forall n <- s :: n == x || n in s - {x};
      if x < b then b else x + 1
  }

  /** The nonces of a map, in some order. */
  method KeyList(items: Items) returns (keys: seq<nat>)
    ensures multiset(keys) == multiset(items.Keys)
  {
    keys := [];
    var todo := items.Keys;
    while todo != {}
      invariant todo <= items.Keys && multiset(keys) == multiset(items.Keys - todo)
      decreases todo
    {
      var n :| n in todo;
      assert items.Keys - (todo - {n}) == (items.Keys - todo) + {n};
      keys, todo := keys + [n], todo - {n};
    }
    assert items.Keys - {} == items.Keys;
  }

  class SortedMap {
    var items: Items
    var index: seq<nat>
    var cache: Option<seq<Tx>>

    ghost predicate Valid()
      reads this
    {
      && Keyed(items)
      && Indexes(index, items)
      && (cache.Some? ==> Sorted(items, cache.value))
    }

    constructor ()
      ensures Valid() && items == map[]
    {
      items, index, cache := map[], [], None;
    }

    method Put(tx: Tx)
      requires Valid()
      modifies this
      ensures Valid() && items == old(items)[tx.nonce := tx]
    {
      NonceOrder();
      if tx.nonce !in items {
        index := Heaps.Push(NonceLeq, index, tx.nonce);
      }
      items, cache := items[tx.nonce := tx], None;
      assert items.Keys == old(items).Keys + {tx.nonce};
    }

    /** Pops the least nonce off heap and map. */
    method PopLeast() returns (tx: Tx)
      requires Keyed(items) && Indexes(index, items) && index != []
      modifies this`items, this`index
      ensures Keyed(items) && Indexes(index, items)
      ensures tx.nonce == old(index)[0] && tx.nonce in old(items) && old(items)[tx.nonce] == tx
      ensures items == old(items) - {tx.nonce}
      ensures |index| == |old(index)| - 1
    {
      NonceOrder();
      IndexTop(index, items);
      var n;
      index, n := Heaps.Pop(NonceLeq, index);
      tx := items[n];
      items := items - {n};
      assert items.Keys == old(items).Keys - {n};
    }

    /** Removes everything below `threshold`, in nonce order. */
    method Forward(threshold: nat) returns (removed: seq<Tx>)
      requires Valid()
      modifies this
      ensures Valid()
      ensures items == From(old(items), threshold) && Sorted(Below(old(items), threshold), removed)
      ensures old(cache).Some? ==> |removed| <= |old(cache).value| && cache == Some(old(cache).value[|removed|..])
    {
      removed := [];
      ghost var all, c: nat := items, 0;
      assert From(all, 0) == all && Below(all, 0) == map[];
      while |index| > 0 && index[0] < threshold
        invariant Keyed(items) && Indexes(index, items) && cache == old(cache)
        invariant c <= threshold && items == From(all, c) && Sorted(Below(all, c), removed)
        decreases |index|
      {
        IndexTop(index, items);
        TakeLeast(all, c, index[0], removed);
        c := index[0] + 1;
        var tx := PopLeast();
        removed := removed + [tx];
        IndexTop(index, items);
      }
      IndexTop(index, items);
      CutAgrees(all, c, threshold);
      if cache.Some? {
        SortedSplit(all, cache.value, threshold, removed);
        cache := Some(cache.value[|removed|..]);
      }
    }

    /** Removes and returns the maximal run of consecutive nonces from the least one, if that one
        is not above `start`. */
    method Ready(start: nat) returns (ready: seq<Tx>, ghost from: nat, ghost upto: nat)
      requires Valid()
      modifies this
      ensures Valid()
      ensures ready == [] <==> forall n <- old(items) :: n > start
      ensures ready != [] ==>
        from in old(items) && from <= start && (forall n <- old(items) :: from <= n) && upto !in old(items)
      ensures IsRun(old(items), from, upto, ready) && items == Outside(old(items), from, upto)
    {
      IndexTop(index, items);
      if |index| == 0 || index[0] > start {
        from, upto, ready := 0, 0, [];
        assert items == Outside(items, 0, 0);
        return;
      }
      from := index[0];
      ready, upto := TakeRun();
      cache := None;
    }

    /** The loop of Ready. */
    method TakeRun() returns (ready: seq<Tx>, ghost upto: nat)
      requires Keyed(items) && Indexes(index, items) && index != []
      modifies this`items, this`index
      ensures Keyed(items) && Indexes(index, items)
      ensures old(index)[0] < upto && upto !in old(items)
      ensures IsRun(old(items), old(index)[0], upto, ready) && items == Outside(old(items), old(index)[0], upto)
    {
      ghost var all, from := items, index[0];
      var next := index[0];
      ready := [];
      IndexTop(index, items);
      assert items == Outside(items, from, from);
      while |index| > 0 && index[0] == next
        invariant Keyed(items) && Indexes(index, items)
        invariant from <= next && (next == from ==> |index| > 0 && index[0] == next)
        invariant IsRun(all, from, next, ready) && items == Outside(all, from, next)
        invariant forall n <- items :: next <= n
        decreases |index|
      {
        IndexTop(index, items);
        RunGrows(all, from, next, ready);
        var tx := PopLeast();
        ready := ready + [tx];
        next := next + 1;
      }
      IndexTop(index, items);
      assert next in all ==> next in items;
      upto := next;
    }

    /** Rebuilds the heap from the map. */
    method Reheap()
      requires Keyed(items)
      modifies this`index, this`cache
      ensures Valid() && cache == None
    {
      NonceOrder();
      index := KeyList(items);
      index := Heaps.Init(NonceLeq, index);
      cache := None;
    }

    /** The sorted contents, cached. */
    method Flatten() returns (txs: seq<Tx>)
      requires Valid()
      modifies this`cache
      ensures Valid() && Sorted(items, txs) && cache == Some(txs)
    {
      if cache.None? {
        var keys := KeyList(items);
        SortNoncesSorted(keys);
        PickedSorted(items, SortNonces(keys));
        cache := Some(Picked(items, SortNonces(keys)));
      }
      txs := cache.value;
    }

    /** The transaction with the highest nonce. */
    method LastElement() returns (tx: Tx)
      requires Valid() && items != map[]
      modifies this`cache
      ensures Valid() && tx.nonce in items && items[tx.nonce] == tx && forall n <- items :: n <= tx.nonce
    {
      var txs := Flatten();
      ListsLength(items, txs);
      tx := txs[|txs| - 1];
      forall n <- items ensures n <= tx.nonce {
        assert HasNonce(txs, n);
      }
    }

    /** Removes one nonce. */
    method Remove(nonce: nat) returns (found: bool)
      requires Valid()
      modifies this
      ensures Valid() && found == (nonce in old(items)) && items == old(items) - {nonce}
    {
      if nonce !in items {
        return false;
      }
      NonceOrder();
      assert nonce in multiset(index);
      var i := 0;
      while index[i] != nonce
        invariant 0 <= i < |index| && nonce in index[i..]
        decreases |index| - i
      {
        i := i + 1;
      }
      var n;
      index, n := Heaps.RemoveAt(NonceLeq, index, i);
      items, cache := items - {nonce}, None;
      assert items.Keys == old(items).Keys - {nonce};
      found := true;
    }

    /** Removes everything that satisfies `drop`, without rebuilding the heap. */
    method FilterItems(drop: Tx -> bool) returns (removed: seq<Tx>)
      requires Keyed(items)
      modifies this`items
      ensures Keyed(items) && items == Without(old(items), drop) && Lists(Only(old(items), drop), removed)
    {
      removed := [];
      ghost var all := items;
      var todo := items.Keys;
      while todo != {}
        invariant todo <= all.Keys
        invariant forall n :: n in items <==> n in all && (n in todo || !drop(all[n]))
        invariant forall n <- items :: items[n] == all[n]
        invariant forall i :: 0 <= i < |removed| ==>
          removed[i].nonce in all && removed[i].nonce !in todo && drop(removed[i]) && all[removed[i].nonce] == removed[i]
        invariant forall i, j :: 0 <= i < j < |removed| ==> removed[i].nonce != removed[j].nonce
        invariant forall n :: n in all && n !in todo && drop(all[n]) ==> HasNonce(removed, n)
        decreases todo
      {
        var n :| n in todo;
        todo := todo - {n};
        var tx := items[n];
        if drop(tx) {
          items := items - {n};
          HasMore(removed, tx);
          removed := removed + [tx];
        }
      }
    }

    /** Removes everything that satisfies `drop`. */
    method Filter(drop: Tx -> bool) returns (removed: seq<Tx>)
      requires Valid()
      modifies this
      ensures Valid() && items == Without(old(items), drop) && Lists(Only(old(items), drop), removed)
    {
      removed := FilterItems(drop);
      if |removed| > 0 {
        Reheap();
      } else {
        NothingDropped(old(items), drop, removed);
      }
    }

    /** Deletes the transactions from position `threshold` of the sorted index on, highest first. */
    method DropHighest(threshold: nat) returns (drops: seq<Tx>)
      requires Keyed(items) && Enumerates(index, items) && threshold < |index|
      modifies this`items
      ensures Keyed(items) && items == Below(old(items), index[threshold])
      ensures Lists(From(old(items), index[threshold]), drops) && Descending(drops)
    {
      hide Lists, Descending, CutAt, Enumerates, Below, From, Keyed;
      ghost var all := items;
      drops := [];
      var size := |index|;
      ghost var c := Beyond(items.Keys);
      DropStart(all, index, c);
      while size > threshold
        invariant threshold <= size <= |index| && (size < |index| ==> c == index[size])
        invariant CutAt(index, size, c) && Keyed(items) && items == Below(all, c)
        invariant Lists(From(all, c), drops) && Descending(drops)
      {
        DropStep(all, index, size, c, drops);
        drops := drops + [items[index[size - 1]]];
        items := items - {index[size - 1]};
        c := index[size - 1];
        size := size - 1;
      }
    }

    /** Cap when the map is over the limit. */
    method CapOver(threshold: nat) returns (drops: seq<Tx>, ghost cut: nat)
      requires Valid() && |items| > threshold
      modifies this
      ensures Keyed(items) && Indexes(index, items) && items == Below(old(items), cut) && |items| == threshold
      ensures Lists(From(old(items), cut), drops) && Descending(drops)
      ensures cache == old(cache)
    {
      ghost var all := items;
      SortNoncesSorted(index);
      index := SortNonces(index);
      PickedSorted(items, index);
      Enumerated(items, index);
      cut := index[threshold];
      drops := DropHighest(threshold);
      KeptIndex(all, index, threshold);
      NonceOrder();
      index := Heaps.Init(NonceLeq, index[..threshold]);
    }

    /** Keeps the `threshold` lowest nonces and returns the rest, highest first. */
    method Cap(threshold: nat) returns (drops: seq<Tx>, ghost cut: nat)
      requires Valid()
      modifies this
      ensures Valid() && items == Below(old(items), cut)
      ensures |items| == if |old(items)| <= threshold then |old(items)| else threshold
      ensures Lists(From(old(items), cut), drops) && Descending(drops)
    {
      if |items| <= threshold {
        cut := Beyond(items.Keys);
        assert Below(items, cut) == items && From(items, cut) == map[];
        return [], cut;
      }
      drops, cut := CapOver(threshold);
      if cache.Some? {
        CapCache(old(items), cache.value, cut, drops);
        cache := Some(cache.value[..|cache.value| - |drops|]);
      }
    }
  }
}
