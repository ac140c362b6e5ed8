/**
 What the pool does to one account's list: the executable run at its front, and cutting it down
 to a size.
 */
module PoolLists {
  import opened Basics
  import opened Transactions
  import opened SortedMaps
  import opened TxLists
  import opened PoolBooks

  predicate IsHighest(s: set<nat>, n: nat) {
    n in s && forall m <- s :: m <= n
  }

  lemma {:induction false} HighestExists(s: set<nat>)
    requires s != {}
    ensures exists n :: IsHighest(s, n)
  {
    var k :| k in s;
    if s == {k} {
      assert IsHighest(s, k);
    } else {
      HighestExists(s - {k});
      var r :| IsHighest(s - {k}, r);
      assert s == (s - {k}) + {k};
      assert IsHighest(s, if k >= r then k else r);
    }
  }

  function Highest(items: Items): (n: nat)
    requires items != map[]
    ensures IsHighest(items.Keys, n)
  {
    HighestExists(items.Keys);
    var n :| n in items.Keys && IsHighest(items.Keys, n);
    n
  }

  // ---------- capping ----------

  /** Drops the highest nonces until at most `k` transactions are left. */
  function Capped(items: Items, k: nat): Items
    decreases |items|
  {
    if |items| <= k then
      items
    else
      LessItems(items, Highest(items));
      Capped(items - {Highest(items)}, k)
  }

  lemma LessItems(items: Items, n: nat)
    requires n in items
    ensures |items - {n}| == |items| - 1
  {
    assert (items - {n}).Keys == items.Keys - {n};
    assert |(items - {n}).Keys| == |items - {n}|;
    assert |items.Keys| == |items|;
  }

  /** Capping keeps the lowest nonces, as many as allowed. */
  lemma {:induction false} CappedShape(items: Items, k: nat)
    ensures |Capped(items, k)| == if |items| <= k then |items| else k
    ensures SubItems(Capped(items, k), items)
    ensures forall n <- Capped(items, k), m <- items :: m <= n ==> m in Capped(items, k)
    decreases |items|
  {
    if |items| > k {
      var h := Highest(items);
      LessItems(items, h);
      CappedShape(items - {h}, k);
    }
  }

  /** A list that was cut down, if at all, to its lowest nonces. */
  ghost predicate CutShort(before: Items, after: Items) {
    after == Capped(before, |after|)
  }

  lemma CutShortSub(before: Items, after: Items)
    requires CutShort(before, after)
    ensures SubItems(after, before)
  {
    CappedShape(before, |after|);
  }

  /** What `TxLists.TxList.Cap` leaves is what capping leaves. */
  lemma CapIsCapped(items: Items, k: nat, cut: nat)
    requires |Below(items, cut)| == if |items| <= k then |items| else k
    ensures Below(items, cut) == Capped(items, k)
  {
    hide Capped;
    CappedShape(items, k);
    var below, capped := Below(items, cut), Capped(items, k);
    assert |below.Keys| == |below| && |capped.Keys| == |capped|;
    if forall n <- below :: n in capped {
      SameSize(below.Keys, capped.Keys);
    } else {
      var n :| n in below && n !in capped;
      assert forall m <- capped :: m < n;
      SameSize(capped.Keys, below.Keys);
    }
  }

  lemma SameSize(a: set<nat>, b: set<nat>)
    requires a <= b && |a| == |b|
    ensures a == b
  {
    assert b == a + (b - a);
  }

  /** Cutting down further. */
  lemma {:induction false} CappedTwice(items: Items, k: nat, j: nat)
    requires j <= k
    ensures Capped(Capped(items, k), j) == Capped(items, j)
    decreases |items|
  {
    if |items| > k {
      LessItems(items, Highest(items));
      CappedTwice(items - {Highest(items)}, k, j);
    }
  }

  /** Whatever is kept of a non-empty list includes its lowest nonce. */
  lemma CappedFront(items: Items, k: nat, n: nat)
    requires k > 0 && n in items && forall m <- items :: n <= m
    ensures n in Capped(items, k)
  {
    CappedShape(items, k);
    var kept := Capped(items, k);
    assert items != map[] && |kept| > 0 && kept != map[];
    assert Lowest(kept) in kept && n <= Lowest(kept);
  }

  // ---------- the executable run ----------

  /** From the lowest nonce, if that is not above `start`, up to the first one missing. */
  ghost predicate IsReady(items: Items, start: nat, from: nat, upto: nat) {
    if exists n <- items :: n <= start then
      from < upto && Contiguous(Between(items, from, upto), from, upto) && (forall n <- items :: from <= n) && upto !in items
    else
      from == upto
  }

  function Between(items: Items, from: nat, upto: nat): Items {
    map n | n in items && from <= n < upto :: items[n]
  }

  method Ready(items: Items, start: nat) returns (from: nat, upto: nat)
    ensures from <= upto && IsReady(items, start, from, upto) && Contiguous(Between(items, from, upto), from, upto)
  {
    if items == map[] || Lowest(items) > start {
      return start, start;
    }
    from := Lowest(items);
    upto := from;
    while upto in items
      invariant from <= upto && forall n :: from <= n < upto ==> n in items
      invariant upto <= Highest(items) + 1
      decreases Highest(items) + 1 - upto
    {
      upto := upto + 1;
    }
  }

  // ---------- the parts of a list ----------

  lemma SplitTxs(items: Items, a: Addr, kept: Items, rest: Items)
    requires Owned(items, a) && Split(items, kept, rest)
    ensures Txs(items) - Txs(kept) == Txs(rest)
    ensures Txs(kept) <= Txs(items) && |Txs(kept)| == |kept|
  {
    assert Owned(kept, a) && Owned(rest, a);
    forall t ensures t in Txs(items) - Txs(kept) <==> t in Txs(rest) {
      TxsHas(items, a, t);
      TxsHas(kept, a, t);
      TxsHas(rest, a, t);
    }
    TxsCount(kept, a);
  }

  lemma {:induction false} TxsCount(items: Items, a: Addr)
    requires Owned(items, a)
    ensures |Txs(items)| == |items|
    decreases |items|
  {
    if items == map[] {
      assert Txs(items) == {};
    } else {
      var n := Lowest(items);
      LessItems(items, n);
      TxsCount(items - {n}, a);
      forall t ensures t in Txs(items) <==> t in Txs(items - {n}) || t == items[n] {
        TxsHas(items, a, t);
        TxsHas(items - {n}, a, t);
      }
      assert Txs(items) == Txs(items - {n}) + {items[n]};
      TxsHas(items - {n}, a, items[n]);
    }
  }

  lemma SplitAll(items: Items)
    ensures Split(items, items, map[]) && Txs(map[]) == {}
  {
  }

  /** A queue falls into old, too dear and payable transactions. */
  lemma QueueParts(list: Items, nonce: nat, costLimit: nat, smokeLimit: nat)
    ensures Split(list, From(list, nonce), Below(list, nonce))
    ensures var current := From(list, nonce);
      Split(current, Affordable(current, false, costLimit, smokeLimit), Dear(current, costLimit, smokeLimit))
  {
  }

  lemma RunParts(items: Items, from: nat, upto: nat)
    ensures Split(items, Outside(items, from, upto), Between(items, from, upto))
  {
  }

  lemma CapParts(items: Items, k: nat)
    ensures Split(items, Capped(items, k), Unkept(items, Capped(items, k)))
  {
    CappedShape(items, k);
  }

  function Unkept(items: Items, kept: Items): Items {
    map n | n in items && n !in kept :: items[n]
  }

  /** A pending list falls into old, executable, too dear and invalidated transactions. */
  lemma PendingParts(list: Items, nonce: nat, costLimit: nat, smokeLimit: nat)
    ensures Split(list, From(list, nonce), Below(list, nonce)) && Split(Below(list, nonce), Below(list, nonce), map[])
    ensures Txs(map[]) == {}
    ensures var current := From(list, nonce);
      var kept := Affordable(current, true, costLimit, smokeLimit);
      && Split(current, kept, Unkept(current, kept))
      && Split(Unkept(current, kept), Dear(current, costLimit, smokeLimit),
               Invalidated(current, true, costLimit, smokeLimit))
  {
  }

  lemma SplitNone(items: Items)
    ensures Split(items, map[], items)
  {
  }

  lemma SplitFree(pending: Shelf, queue: Shelf, a: Addr, rest: Items, gone: Items, left: Items)
    requires Split(rest, gone, left)
    ensures Free(pending, queue, a, rest) ==> Free(pending, queue, a, left)
    ensures Owned(rest, a) ==> Owned(left, a)
  {
  }

  /** Dropping the highest nonce caps a list by one. */
  lemma CapOneParts(list: Items, h: nat)
    requires |list| > 1 && h == Highest(list)
    ensures var kept, gone := Capped(list, |list| - 1), map[h := list[h]];
      && Split(list, kept, gone) && Split(gone, gone, map[]) && kept != map[] && |kept| == |list| - 1 && |gone| == 1
    ensures Txs(map[]) == {}
  {
    LessItems(list, h);
    assert Capped(list, |list| - 1) == list - {h};
  }

  /** Capping further by one. */
  lemma CapMore(list: Items, k: nat)
    requires 0 < k <= |list|
    ensures Capped(list, k) != map[] && Capped(list, k) - {Highest(Capped(list, k))} == Capped(list, k - 1)
  {
    CappedShape(list, k);
    CappedTwice(list, k, k - 1);
    var c := Capped(list, k);
    LessItems(c, Highest(c));
  }

  lemma CapWhole(list: Items)
    ensures Capped(list, |list|) == list && Capped(list, 0) == map[]
  {
    CappedShape(list, 0);
  }

  // ---------- gaps ----------

  /** Exactly the nonces from the state nonce up to the pending nonce. */
  ghost predicate Gapless(list: Items, nonce: nat, next: nat) {
    nonce <= next && Contiguous(list, nonce, next)
  }

  /** Consecutive nonces from `lo` on, wherever they end. */
  ghost predicate Solid(list: Items, lo: nat) {
    && (forall n <- list :: lo <= n)
    && (forall n, m: nat :: n in list && lo <= m < n ==> m in list)
  }

  /** The pending nonce once it is set to follow the last transaction of a list. */
  function NextAfter(list: Items, next: nat): nat {
    if list == map[] then next else Highest(list) + 1
  }

  /** A list has no gap if it is consecutive and the pending nonce follows it. */
  lemma GaplessIs(list: Items, nonce: nat, next: nat)
    ensures Gapless(list, nonce, next) ==> Solid(list, nonce) && NextAfter(list, next) == next
    ensures Gapless(list, nonce, NextAfter(list, next)) <==> Solid(list, nonce) && (list == map[] ==> next == nonce)
    ensures Gapless(list, nonce, next) ==> (list == map[] <==> next == nonce)
    ensures list == map[] ==> Solid(list, nonce)
  {
    if list == map[] && Gapless(list, nonce, next) {
      assert nonce < next ==> nonce in list;
    }
    if list != map[] && Gapless(list, nonce, next) {
      assert Highest(list) in list && next - 1 in list;
    }
    if list != map[] && Solid(list, nonce) {
      assert Contiguous(list, nonce, Highest(list) + 1);
    }
  }

  lemma CappedSolid(list: Items, k: nat, lo: nat)
    requires Solid(list, lo)
    ensures Solid(Capped(list, k), lo)
  {
    CappedShape(list, k);
  }
}
