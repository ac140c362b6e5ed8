/**
 The per-account transaction list of core/tx_list.go: a nonce-sorted map plus two cached caps
 that let Filter decide quickly that nothing is too dear.
 */
module TxLists {
  import opened Basics
  import opened Transactions
  import opened SortedMaps

  // ---------- what the operations mean ----------

  /** A replacement must be strictly dearer and beat the old price by the bump percentage. */
  predicate Outbids(prior: Tx, tx: Tx, priceBump: nat) {
    tx.price > prior.price && tx.price >= prior.price * (100 + priceBump) / 100
  }

  /** In numbers: a higher price, and by the percentage up to less than one unit. */
  predicate Raises(before: nat, price: nat, priceBump: nat) {
    price > before && 100 * (price + 1) > before * (100 + priceBump)
  }

  lemma OutbidsRaises(prior: Tx, tx: Tx, priceBump: nat)
    ensures Outbids(prior, tx, priceBump) <==> Raises(prior.price, tx.price, priceBump)
  {
    var x := prior.price * (100 + priceBump);
    assert x == 100 * (x / 100) + x % 100;
  }

  predicate Accepts(items: Items, tx: Tx, priceBump: nat) {
    tx.nonce in items ==> Outbids(items[tx.nonce], tx, priceBump)
  }

  /** A transaction that costs more than the balance or needs more smoke than a block has. */
  predicate TooDear(tx: Tx, costLimit: nat, smokeLimit: nat) {
    tx.smoke > smokeLimit || tx.Cost() > costLimit
  }

  function Dear(items: Items, costLimit: nat, smokeLimit: nat): Items {
    map n | n in items && TooDear(items[n], costLimit, smokeLimit) :: items[n]
  }

  predicate IsLowest(s: set<nat>, n: nat) {
    n in s && forall m <- s :: n <= m
  }

  /** The least nonce of a non-empty collection. */
  function Lowest(items: Items): (n: nat)
    requires items != map[]
    ensures IsLowest(items.Keys, n)
  {
    LowestExists(items.Keys);
    var n :| n in items.Keys && IsLowest(items.Keys, n);
    n
  }

  lemma {:induction false} LowestExists(s: set<nat>)
    requires s != {}
    ensures exists n :: IsLowest(s, n)
  {
    var k :| k in s;
    if s == {k} {
      assert IsLowest(s, k);
    } else {
      LowestExists(s - {k});
      var r :| IsLowest(s - {k}, r);
      assert s == (s - {k}) + {k};
      assert IsLowest(s, if k <= r then k else r);
    }
  }

  /** What Filter keeps: everything affordable and, in a strict list, below the first that is not. */
  function Affordable(items: Items, strict: bool, costLimit: nat, smokeLimit: nat): Items {
    var dear := Dear(items, costLimit, smokeLimit);
    map n | n in items && n !in dear && (strict && dear != map[] ==> n < Lowest(dear)) :: items[n]
  }

  /** What Filter returns as invalidated: affordable, but after a dropped one in a strict list. */
  function Invalidated(items: Items, strict: bool, costLimit: nat, smokeLimit: nat): Items {
    var dear := Dear(items, costLimit, smokeLimit);
    map n | n in items && n !in dear && strict && dear != map[] && n > Lowest(dear) :: items[n]
  }

  /** The nonces are exactly those from `lo` up to `hi`. */
  ghost predicate Contiguous(items: Items, lo: nat, hi: nat) {
    forall n: nat :: n in items <==> lo <= n < hi
  }

  /** In a strict list Filter removes exactly the suffix from the lowest offending nonce. */
  lemma StrictFilterIsPrefix(items: Items, costLimit: nat, smokeLimit: nat)
    requires Dear(items, costLimit, smokeLimit) != map[]
    ensures Affordable(items, true, costLimit, smokeLimit) == Below(items, Lowest(Dear(items, costLimit, smokeLimit)))
  {
  }

  /** Forward, Cap, Remove and Filter of a contiguous strict list leave it contiguous. */
  lemma StaysContiguous(items: Items, lo: nat, hi: nat, n: nat, costLimit: nat, smokeLimit: nat)
    requires lo <= hi && Contiguous(items, lo, hi)
    ensures Contiguous(From(items, n), if n <= lo then lo else n, if hi <= n then n else hi)
    ensures Contiguous(Below(items, n), lo, if n <= hi then n else hi)
    ensures exists m: nat :: Contiguous(Affordable(items, true, costLimit, smokeLimit), lo, m)
  {
    var kept := Affordable(items, true, costLimit, smokeLimit);
    var dear := Dear(items, costLimit, smokeLimit);
    if dear == map[] {
      assert kept == items;
      assert Contiguous(kept, lo, hi);
    } else {
      StrictFilterIsPrefix(items, costLimit, smokeLimit);
      assert Contiguous(kept, lo, Lowest(dear));
    }
  }

  lemma NoneDear(items: Items, costLimit: nat, smokeLimit: nat)
    requires forall n <- items :: items[n].Cost() <= costLimit && items[n].smoke <= smokeLimit
    ensures Dear(items, costLimit, smokeLimit) == map[]
  {
  }

  lemma AffordableFits(items: Items, strict: bool, costLimit: nat, smokeLimit: nat)
    ensures forall n <- Affordable(items, strict, costLimit, smokeLimit) :: items[n].Cost() <= costLimit && items[n].smoke <= smokeLimit
    ensures SubMap(Affordable(items, strict, costLimit, smokeLimit), items)
  {
  }

  ghost predicate SubMap(part: Items, items: Items) {
    forall n <- part :: n in items && part[n] == items[n]
  }

  /** Filtering by predicates gives the parts. */
  lemma FilterParts(items: Items, costLimit: nat, smokeLimit: nat, dearer: Tx -> bool)
    requires forall t :: dearer(t) == TooDear(t, costLimit, smokeLimit)
    ensures Only(items, dearer) == Dear(items, costLimit, smokeLimit)
    ensures Without(items, dearer) == Affordable(items, false, costLimit, smokeLimit)
    ensures Invalidated(items, false, costLimit, smokeLimit) == map[] && Lists(map[], [])
    ensures Dear(items, costLimit, smokeLimit) == map[] ==>
      items == Affordable(items, true, costLimit, smokeLimit) == Affordable(items, false, costLimit, smokeLimit) && Invalidated(items, true, costLimit, smokeLimit) == map[]
  {
  }

  lemma StrictParts(items: Items, costLimit: nat, smokeLimit: nat, dearer: Tx -> bool, later: Tx -> bool)
    requires Keyed(items) && Dear(items, costLimit, smokeLimit) != map[]
    requires forall t :: dearer(t) == TooDear(t, costLimit, smokeLimit)
    requires forall t :: later(t) == (t.nonce > Lowest(Dear(items, costLimit, smokeLimit)))
    ensures Without(Without(items, dearer), later) == Affordable(items, true, costLimit, smokeLimit)
    ensures Only(Without(items, dearer), later) == Invalidated(items, true, costLimit, smokeLimit)
  {
  }

  lemma RemoveParts(items: Items, nonce: nat, later: Tx -> bool)
    requires Keyed(items) && forall t :: later(t) == (t.nonce > nonce)
    ensures Without(items - {nonce}, later) == Below(items, nonce)
    ensures Only(items - {nonce}, later) == From(items, nonce + 1)
  {
  }

  class TxList {
    const strict: bool
    const txs: SortedMap
    var costcap: nat
    var smokecap: nat

    /** The caps bound every transaction in the list. */
    ghost predicate Valid()
      reads this, txs
    {
      txs.Valid() && forall n <- txs.items :: txs.items[n].Cost() <= costcap && txs.items[n].smoke <= smokecap
    }

    constructor (strict: bool)
      ensures Valid() && this.strict == strict && fresh(txs) && txs.items == map[]
    {
      this.strict := strict;
      txs := new SortedMap();
      costcap, smokecap := 0, 0;
    }

    method Add(tx: Tx, priceBump: nat) returns (inserted: bool, prior: Option<Tx>)
      requires Valid()
      modifies this, txs
      ensures Valid() && inserted == Accepts(old(txs.items), tx, priceBump)
      ensures inserted <==> (tx.nonce in old(txs.items) ==> Raises(old(txs.items)[tx.nonce].price, tx.price, priceBump))
      ensures inserted ==> txs.items == old(txs.items)[tx.nonce := tx]
      ensures inserted ==> prior == if tx.nonce in old(txs.items) then Some(old(txs.items)[tx.nonce]) else None
      ensures !inserted ==> txs.items == old(txs.items) && prior == None
    {
      hide Raises;
      prior := if tx.nonce in txs.items then Some(txs.items[tx.nonce]) else None;
      if prior.Some? {
        OutbidsRaises(prior.value, tx, priceBump);
        var threshold := (100 + priceBump) * prior.value.price / 100;
        if prior.value.price >= tx.price || tx.price < threshold {
          return false, None;
        }
      }
      txs.Put(tx);
      if costcap < tx.Cost() {
        costcap := tx.Cost();
      }
      if smokecap < tx.smoke {
        smokecap := tx.smoke;
      }
      inserted := true;
    }

    method Forward(threshold: nat) returns (removed: seq<Tx>)
      requires Valid()
      modifies txs
      ensures Valid() && txs.items == From(old(txs.items), threshold)
      ensures Sorted(Below(old(txs.items), threshold), removed)
    {
      removed := txs.Forward(threshold);
    }

    method Cap(threshold: nat) returns (drops: seq<Tx>, ghost cut: nat)
      requires Valid()
      modifies txs
      ensures Valid() && txs.items == Below(old(txs.items), cut)
      ensures |txs.items| == if |old(txs.items)| <= threshold then |old(txs.items)| else threshold
      ensures Lists(From(old(txs.items), cut), drops)
    {
      drops, cut := txs.Cap(threshold);
    }

    method Ready(start: nat) returns (ready: seq<Tx>, ghost from: nat, ghost upto: nat)
      requires Valid()
      modifies txs
      ensures Valid() && IsRun(old(txs.items), from, upto, ready) && txs.items == Outside(old(txs.items), from, upto)
      ensures ready == [] <==> forall n <- old(txs.items) :: n > start
      ensures ready != [] ==> (forall n <- old(txs.items) :: from <= n) && upto !in old(txs.items)
    {
      ready, from, upto := txs.Ready(start);
    }

    /** Drops what is too dear; the cached caps never change the outcome. */
    method Filter(costLimit: nat, smokeLimit: nat) returns (removed: seq<Tx>, invalids: seq<Tx>)
      requires Valid()
      modifies this, txs
      ensures Valid()
      ensures txs.items == Affordable(old(txs.items), strict, costLimit, smokeLimit)
      ensures Lists(Dear(old(txs.items), costLimit, smokeLimit), removed)
      ensures Lists(Invalidated(old(txs.items), strict, costLimit, smokeLimit), invalids)
    {
      hide Affordable, Invalidated, Dear, TooDear, Lists, Lowest, Only, Without, Tx.Cost;
      ghost var all := txs.items;
      removed, invalids := [], [];
      var dearer := (tx: Tx) => TooDear(tx, costLimit, smokeLimit);
      FilterParts(all, costLimit, smokeLimit, dearer);
      if costcap <= costLimit && smokecap <= smokeLimit {
        NoneDear(all, costLimit, smokeLimit);
        return;
      }
      costcap, smokecap := costLimit, smokeLimit;
      removed := txs.Filter(dearer);
      ListsLength(Dear(all, costLimit, smokeLimit), removed);
      AffordableFits(all, strict, costLimit, smokeLimit);
      if |removed| > 0 && strict {
        invalids := DropLater(removed, all, costLimit, smokeLimit, dearer);
      }
    }

    /** Drops what comes after the lowest of the removed transactions. */
    method DropLater(removed: seq<Tx>, ghost all: Items, costLimit: nat, smokeLimit: nat,
                     ghost dearer: Tx -> bool) returns (invalids: seq<Tx>)
      requires txs.Valid() && Keyed(all) && removed != [] && Lists(Dear(all, costLimit, smokeLimit), removed)
      requires (forall t :: dearer(t) == TooDear(t, costLimit, smokeLimit)) && txs.items == Without(all, dearer)
      modifies txs
      ensures txs.Valid() && txs.items == Affordable(all, true, costLimit, smokeLimit)
      ensures Lists(Invalidated(all, true, costLimit, smokeLimit), invalids)
    {
      hide Affordable, Invalidated, Dear, TooDear, Lists, Lowest, Only, Without, Tx.Cost;
      ListsLength(Dear(all, costLimit, smokeLimit), removed);
      var lowest := LowestOf(removed);
      LowestListed(Dear(all, costLimit, smokeLimit), removed, lowest);
      var later := (tx: Tx) => tx.nonce > lowest;
      StrictParts(all, costLimit, smokeLimit, dearer, later);
      invalids := txs.FilterItems(later);
      txs.Reheap();
    }

    /** Removes a nonce; in a strict list everything after it is invalidated too. */
    method Remove(tx: Tx) returns (found: bool, invalids: seq<Tx>)
      requires Valid()
      modifies this, txs
      ensures Valid() && found == (tx.nonce in old(txs.items))
      ensures !found ==> txs.items == old(txs.items) && invalids == []
      ensures found && !strict ==> txs.items == old(txs.items) - {tx.nonce} && invalids == []
      ensures found && strict ==>
        txs.items == Below(old(txs.items), tx.nonce) && Lists(From(old(txs.items), tx.nonce + 1), invalids)
    {
      ghost var all := txs.items;
      invalids := [];
      found := txs.Remove(tx.nonce);
      if !found {
        assert all - {tx.nonce} == all;
        return;
      }
      if strict {
        var later := (t: Tx) => t.nonce > tx.nonce;
        RemoveParts(all, tx.nonce, later);
        invalids := txs.Filter(later);
      }
    }
  }

  /** The least nonce of a list. */
  method LowestOf(txs: seq<Tx>) returns (lowest: nat)
    requires txs != []
    ensures (exists i :: 0 <= i < |txs| && txs[i].nonce == lowest)
    ensures forall i :: 0 <= i < |txs| ==> lowest <= txs[i].nonce
  {
    lowest := txs[0].nonce;
    for k := 1 to |txs|
      invariant exists i :: 0 <= i < |txs| && txs[i].nonce == lowest
      invariant forall i :: 0 <= i < k ==> lowest <= txs[i].nonce
    {
      if lowest > txs[k].nonce {
        lowest := txs[k].nonce;
      }
    }
  }

  lemma LowestListed(items: Items, txs: seq<Tx>, lowest: nat)
    requires Lists(items, txs) && items != map[]
    requires (exists i :: 0 <= i < |txs| && txs[i].nonce == lowest)
    requires forall i :: 0 <= i < |txs| ==> lowest <= txs[i].nonce
    ensures Lowest(items) == lowest
  {
    assert HasNonce(txs, Lowest(items));
  }
}
