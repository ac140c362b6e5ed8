/**
 The transaction pool of core/tx_pool.go: pending and queued lists, the global lookup and the
 price heap, kept in agreement by every operation.
 */
module TxPools {
  import opened Basics
  import opened Transactions
  import opened SortedMaps
  import opened TxLists
  import opened PricedLists
  import opened PoolBooks
  import opened PoolLists
  import opened Fairness
  import opened PoolSpecs
  import opened PoolGaps
  import Sums

  datatype Config = Config(priceBump: nat, accountSlots: Positive, globalSlots: nat, accountQueue: nat,
                           globalQueue: nat)

  /** The books agree, apart from `loose` transactions that are known but on no shelf; the price
      heap covers the remotes, apart from `popped` ones and up to `removals` unreported removals;
      no transaction of a local account counts as remote. */
  ghost predicate Sound(pending: Shelf, queue: Shelf, localTxs: set<Tx>, remoteTxs: set<Tx>, heap: seq<Tx>, stales: int,
                        accounts: set<Addr>, loose: set<Tx>, removals: int, popped: set<Tx>)
  {
    && Coherent(pending, queue, localTxs + remoteTxs, loose)
    && Tracked(heap, stales, remoteTxs, popped, removals)
    && (forall t <- remoteTxs :: t.sender !in accounts)
  }

  class TxPool {
    const config: Config
    const all: Lookup
    const priced: PricedList
    var pending: Shelf
    var queue: Shelf
    var locals: set<Addr>
    var virtual: map<Addr, nat>  // pending nonces that differ from the state
    var nonceOf: Addr -> nat     // state at the current head
    var balanceOf: Addr -> nat
    var maxSmoke: nat

    ghost function Known(): set<Tx>
      reads all
    {
      all.locals + all.remotes
    }

    ghost predicate Inv(loose: set<Tx>, removals: int, popped: set<Tx>)
      reads this`pending, this`queue, this`locals, all, priced
    {
      && priced.all == all && all.Valid()
      && Sound(pending, queue, all.locals, all.remotes, priced.heap, priced.stales, locals, loose, removals, popped)
    }

    ghost predicate Valid()
      reads this`pending, this`queue, this`locals, all, priced
    {
      Inv({}, 0, {})
    }

    constructor (config: Config, locals: set<Addr>, nonceOf: Addr -> nat, balanceOf: Addr -> nat, maxSmoke: nat)
      ensures Valid() && fresh(all) && fresh(priced) && pending == map[] && queue == map[] && virtual == map[]
      ensures all.locals == {} && all.remotes == {} && all.slots == 0 && priced.heap == [] && priced.stales == 0
      ensures this.config == config && this.locals == locals
      ensures this.nonceOf == nonceOf && this.balanceOf == balanceOf && this.maxSmoke == maxSmoke
      ensures forall a :: GaplessAt(a)
    {
      this.config := config;
      var lookup := new Lookup();
      all := lookup;
      priced := new PricedList(lookup);
      pending, queue, virtual := map[], map[], map[];
      this.locals, this.nonceOf, this.balanceOf, this.maxSmoke := locals, nonceOf, balanceOf, maxSmoke;
    }

    function PendingNonce(a: Addr): nat
      reads this`virtual, this`nonceOf
    {
      NonceIn(virtual, nonceOf, a)
    }

    /** The shelves and pending nonces. */
    ghost function Shelved(): Shelves
      reads this`pending, this`queue, this`virtual
    {
      Books(pending, queue, virtual)
    }

    ghost function HeadTerms(): Terms
      reads this`nonceOf, this`balanceOf, this`maxSmoke, this`locals
    {
      Terms(nonceOf, balanceOf, maxSmoke, locals, config.accountQueue)
    }

    /** An account's pending transactions are exactly those from its state nonce up to its pending
        nonce. */
    ghost predicate GaplessAt(a: Addr)
      reads this`pending, this`virtual, this`nonceOf
    {
      Gapless(ListOf(pending, a), nonceOf(a), PendingNonce(a))
    }

    /** Pending nonces become the least of their old value and `n`, for one account. */
    method LowerNonce(a: Addr, n: nat)
      modifies this`virtual
      ensures virtual == Lowered(old(virtual), nonceOf, a, n)
      ensures PendingNonce(a) == if n <= old(PendingNonce(a)) then n else old(PendingNonce(a))
      ensures forall b :: b != a ==> PendingNonce(b) == old(PendingNonce(b))
    {
      if PendingNonce(a) > n {
        virtual := virtual[a := n];
      }
    }

    // ---------- moving single transactions ----------

    /** Removes some of an account's loose transactions from the lookup, where they are always found. */
    method RemovePart(a: Addr, rest: Items, gone: Items, ghost left: Items, ghost removals: int) returns (found: bool)
      requires Inv(Txs(rest), removals, {}) && Owned(rest, a) && Split(rest, gone, left)
      modifies all
      ensures found && Inv(Txs(left), removals + |gone|, {}) && Known() == old(Known()) - Txs(gone)
    {
      hide Sound, Split, Owned, Txs;
      SoundRemovePart(pending, queue, all.locals, all.remotes, priced.heap, priced.stales, locals, removals, a, rest,
                      gone, left);
      found := Drop(Txs(gone));
    }

    method RemoveRest(a: Addr, rest: Items, ghost removals: int) returns (found: bool)
      requires Inv(Txs(rest), removals, {}) && Owned(rest, a)
      modifies all
      ensures found && Inv({}, removals + |rest|, {}) && Known() == old(Known()) - Txs(rest)
    {
      hide Inv, Known, Txs, Owned, Split;
      SplitAll(rest);
      found := RemovePart(a, rest, rest, map[], removals);
    }

    method Drop(gone: set<Tx>) returns (found: bool)
      requires all.Valid()
      modifies all
      ensures all.Valid() && all.locals == old(all.locals) - gone && all.remotes == old(all.remotes) - gone
      ensures found == (gone <= old(all.locals + all.remotes))
    {
      found := true;
      var todo := gone;
      while todo != {}
        invariant all.Valid() && todo <= gone
        invariant all.locals == old(all.locals) - (gone - todo) && all.remotes == old(all.remotes) - (gone - todo)
        invariant found == (gone - todo <= old(all.locals + all.remotes))
        decreases todo
      {
        var tx :| tx in todo;
        var ok := all.Remove(tx);
        found, todo := found && ok, todo - {tx};
      }
    }

    /** Takes an account's queue down to `kept`. */
    method ShrinkQueue(a: Addr, kept: Items, ghost rest: Items, ghost removals: int)
      requires Inv({}, removals, {}) && Split(ListOf(queue, a), kept, rest)
      modifies this`queue
      ensures queue == WithList(old(queue), a, kept) && Inv(Txs(rest), removals, {}) && Free(pending, queue, a, rest)
    {
      hide Coherent, Tracked, Txs, WithList, Split, Free;
      TakeQueued(pending, queue, Known(), a, kept, rest);
      queue := WithList(queue, a, kept);
    }

    /** Takes an account's pending list down to `kept`. */
    method ShrinkPending(a: Addr, kept: Items, ghost rest: Items, ghost removals: int)
      requires Inv({}, removals, {}) && Split(ListOf(pending, a), kept, rest)
      modifies this`pending
      ensures pending == WithList(old(pending), a, kept) && Inv(Txs(rest), removals, {})
      ensures Free(pending, queue, a, rest)
    {
      hide Coherent, Tracked, Txs, WithList, Split, Free;
      TakePending(pending, queue, Known(), a, kept, rest);
      pending := WithList(pending, a, kept);
    }

    /** Queues a transaction that is already known: the mode of enqueueTx for internal moves. */
    method EnqueueKnown(tx: Tx) returns (inserted: bool, replaced: bool, missing: bool)
      modifies this`queue
      ensures inserted == Accepts(ListOf(old(queue), tx.sender), tx, config.priceBump)
      ensures replaced == (inserted && HasSlot(old(queue), tx.sender, tx.nonce))
      ensures missing == (inserted && tx !in Known())
      ensures queue == if inserted then WithList(old(queue), tx.sender, ListOf(old(queue), tx.sender)[tx.nonce := tx]) else old(queue)
    {
      var list := ListOf(queue, tx.sender);
      inserted := Accepts(list, tx, config.priceBump);
      if !inserted {
        return false, false, false;
      }
      replaced := tx.nonce in list;
      missing := tx !in all.locals && tx !in all.remotes;
      queue := WithList(queue, tx.sender, list[tx.nonce := tx]);
    }

    /** Queues known transactions of one account under free nonces.  Every one is inserted, none
        replaces another, and none is missing from the lookup. */
    method EnqueueEach(a: Addr, part: Items) returns (clean: bool)
      requires Tidy(queue) && Owned(part, a) && Txs(part) <= Known() && part.Keys !! ListOf(queue, a).Keys
      modifies this`queue
      ensures clean && queue == WithList(old(queue), a, ListOf(old(queue), a) + part)
    {
      clean := true;
      ghost var base := ListOf(queue, a);
      var todo := part.Keys;
      GrowStart(queue, a, part);
      while todo != {}
        invariant clean && todo <= part.Keys
        invariant queue == WithList(old(queue), a, base + (part - todo))
        decreases todo
      {
        var n :| n in todo;
        GrowStep(old(queue), a, base, part, todo, n);
        assert part[n] in Txs(part);
        var inserted, replaced, missing := EnqueueKnown(part[n]);
        clean := clean && inserted && !replaced && !missing;
        todo := todo - {n};
      }
      assert part - {} == part;
    }

    /** Moves an account's loose transactions into its queue. */
    method RequeueEach(a: Addr, part: Items, ghost removals: int) returns (clean: bool)
      requires Inv(Txs(part), removals, {}) && Owned(part, a) && Free(pending, queue, a, part)
      modifies this`queue
      ensures clean && queue == WithList(old(queue), a, ListOf(old(queue), a) + part) && Inv({}, removals, {})
    {
      hide Coherent, Tracked, Txs, WithList, Owned, Free;
      PlaceQueued(pending, queue, Known(), a, part);
      clean := EnqueueEach(a, part);
    }

    /** Adds a transaction to the pending list, unless an older one there is better. */
    method PromoteTx(tx: Tx) returns (inserted: bool, replaced: bool)
      modifies this`pending, this`virtual
      ensures inserted == Accepts(ListOf(old(pending), tx.sender), tx, config.priceBump)
      ensures replaced == (inserted && HasSlot(old(pending), tx.sender, tx.nonce))
      ensures pending == if inserted then WithList(old(pending), tx.sender, ListOf(old(pending), tx.sender)[tx.nonce := tx]) else old(pending)
      ensures virtual == if inserted then old(virtual)[tx.sender := tx.nonce + 1] else old(virtual)
    {
      var list := ListOf(pending, tx.sender);
      inserted := Accepts(list, tx, config.priceBump);
      if !inserted {
        return false, false;
      }
      replaced := tx.nonce in list;
      pending := WithList(pending, tx.sender, list[tx.nonce := tx]);
      virtual := virtual[tx.sender := tx.nonce + 1];
    }

    /** Promotes a run of one account's transactions to free pending nonces, lowest first: none
        meets an older one. */
    method PromoteRun(a: Addr, part: Items, from: nat, upto: nat) returns (clean: bool)
      requires Tidy(pending) && Owned(part, a) && part.Keys !! ListOf(pending, a).Keys
      requires from <= upto && Contiguous(part, from, upto)
      modifies this`pending, this`virtual
      ensures clean && pending == WithList(old(pending), a, ListOf(old(pending), a) + part)
      ensures from < upto ==> PendingNonce(a) == upto
      ensures from == upto ==> virtual == old(virtual)
      ensures forall b :: b != a ==> PendingNonce(b) == old(PendingNonce(b))
    {
      clean := true;
      ghost var base := ListOf(pending, a);
      ghost var todo := part.Keys;
      GrowStart(pending, a, part);
      for n := from to upto
        invariant clean && todo <= part.Keys && forall m <- part :: m in todo <==> m >= n
        invariant pending == WithList(old(pending), a, base + (part - todo))
        invariant from < n ==> PendingNonce(a) == n
        invariant from == n ==> virtual == old(virtual)
        invariant forall b :: b != a ==> PendingNonce(b) == old(PendingNonce(b))
      {
        GrowStep(old(pending), a, base, part, todo, n);
        var inserted, replaced := PromoteTx(part[n]);
        clean := clean && inserted && !replaced;
        todo := todo - {n};
      }
      assert part - todo == part;
    }

    // ---------- removing ----------

    /** Reports removals to the price heap. */
    method Settle(count: nat, ghost loose: set<Tx>)
      requires Inv(loose, count, {})
      modifies priced
      ensures Inv(loose, 0, {}) && 3 * |priced.heap| <= 4 * |all.remotes|
    {
      priced.Removed(count);
    }

    /** Takes a transaction out of the lookup, and reports it unless it was popped off the heap. */
    method Unlist(tx: Tx, outofbound: bool, ghost rest: set<Tx>)
      requires all.Valid() && priced.all == all
      requires Tracked(priced.heap, priced.stales, all.remotes, if outofbound then {} else rest + {tx}, 0)
      modifies all, priced
      ensures all.Valid() && all.locals == old(all.locals) - {tx} && all.remotes == old(all.remotes) - {tx}
      ensures !outofbound ==> priced.heap == old(priced.heap)
      ensures outofbound ==> Reported(old(priced.heap), old(priced.stales), priced.heap, priced.stales, all.remotes, 1)
      ensures Tracked(priced.heap, priced.stales, all.remotes, if outofbound then {} else rest, 0)
    {
      hide Tracked, Reported;
      ForgetPopped(priced.heap, priced.stales, all.remotes, rest, tx);
      var found := all.Remove(tx);
      if outofbound {
        priced.Removed(1);
      }
    }

    /** Takes a transaction that just left the lookup off its shelf. */
    method Unshelve(tx: Tx, ghost known: set<Tx>) returns (clean: bool)
      requires Coherent(pending, queue, known, {}) && tx in known && Known() == known - {tx}
      modifies this`pending, this`queue, this`virtual
      ensures clean && Coherent(pending, queue, Known(), {})
      ensures pending == Kept(old(pending), tx) && queue == Requeued(old(pending), old(queue), tx)
      ensures virtual == Renonced(old(pending), old(virtual), nonceOf, tx)
    {
      hide Coherent, Owned, WithList;
      var a := tx.sender;
      var list := ListOf(pending, a);
      if tx.nonce in list {
        ErasePending(pending, queue, known, tx);
        pending := WithList(pending, a, Below(list, tx.nonce));
        clean := EnqueueEach(a, From(list, tx.nonce + 1));
        LowerNonce(a, tx.nonce);
      } else {
        EraseQueued(pending, queue, known, tx);
        clean := tx.nonce in ListOf(queue, a);
        queue := WithList(queue, a, ListOf(queue, a) - {tx.nonce});
      }
    }

    /** Removes one transaction.  A pending one sends the higher nonces of its account back to the
        queue.  The list entry removed is always the transaction's own. */
    method RemoveTx(tx: Tx, outofbound: bool, ghost rest: set<Tx>) returns (clean: bool)
      requires Inv({}, 0, if outofbound then {} else rest + {tx}) && (outofbound ==> rest == {})
      modifies this`pending, this`queue, this`virtual, all, priced
      ensures clean && Inv({}, 0, rest)
      ensures all.locals == old(all.locals) - {tx} && all.remotes == old(all.remotes) - {tx}
      ensures !outofbound ==> priced.heap == old(priced.heap)
      ensures outofbound && tx in old(Known()) ==>
        Reported(old(priced.heap), old(priced.stales), priced.heap, priced.stales, all.remotes, 1)
      ensures tx !in old(Known()) ==> pending == old(pending) && queue == old(queue) && virtual == old(virtual)
      ensures tx in old(Known()) ==>
        pending == Kept(old(pending), tx) && queue == Requeued(old(pending), old(queue), tx)
      ensures tx in old(Known()) ==> virtual == Renonced(old(pending), old(virtual), nonceOf, tx)
      ensures forall a :: old(GaplessAt(a)) ==> GaplessAt(a)
    {
      hide Coherent, Tracked, Reported, Kept, Requeued, Renonced, Gapless, ListOf, NonceIn, Erased;
      ghost var before := Shelved();
      clean := true;
      ghost var known := Known();
      if tx !in all.locals && tx !in all.remotes {
        assert all.locals - {tx} == all.locals && all.remotes - {tx} == all.remotes;
        ForgetPopped(priced.heap, priced.stales, all.remotes, rest, tx);
        return;
      }
      Unlist(tx, outofbound, rest);
      assert Known() == known - {tx};
      clean := Unshelve(tx, known);
      ErasedIs(before, nonceOf, tx);
      forall a ensures old(GaplessAt(a)) ==> GaplessAt(a) {
        ErasedGapless(before, nonceOf, tx, a, 0);
      }
    }

    /** Removes transactions popped off the price heap, one after the other. */
    method RemoveDrops(drop: seq<Tx>) returns (clean: bool)
      requires Inv({}, 0, Elements(drop))
      modifies this`pending, this`queue, this`virtual, all, priced
      ensures clean && Valid() && priced.heap == old(priced.heap)
      ensures all.locals == old(all.locals) - Elements(drop) && all.remotes == old(all.remotes) - Elements(drop)
      ensures Shelved() == Dropped(old(Shelved()), nonceOf, old(Known()), drop, |drop|)
      ensures forall a :: old(GaplessAt(a)) ==> GaplessAt(a)
    {
      hide Sound, Erased, Elements, Gapless;
      clean := true;
      ElementsEnds(drop, all.locals, all.remotes);
      for i := 0 to |drop|
        invariant clean && Inv({}, 0, Elements(drop[i..])) && priced.heap == old(priced.heap)
        invariant all.locals == old(all.locals) - Elements(drop[..i])
        invariant all.remotes == old(all.remotes) - Elements(drop[..i])
        invariant Shelved() == Dropped(old(Shelved()), nonceOf, old(Known()), drop, i)
        invariant forall a :: old(GaplessAt(a)) ==> GaplessAt(a)
      {
        ElementsStep(drop, i);
        ghost var before := Shelved();
        assert drop[i] in Known() <==> drop[i] in old(Known()) && drop[i] !in Elements(drop[..i]);
        var ok := RemoveTx(drop[i], false, Elements(drop[i + 1..]));
        ErasedIs(before, nonceOf, drop[i]);
        clean := clean && ok;
      }
    }

    /** Raises the minimum price for remotes: the cheaper ones leave. */
    method SetSmokePrice(price: nat) returns (clean: bool, ghost drop: seq<Tx>)
      requires Valid()
      modifies this`pending, this`queue, this`virtual, all, priced
      ensures clean && Valid() && all.locals == old(all.locals)
      ensures all.remotes == set t | t in old(all.remotes) && t.price >= price
      ensures forall t <- all.remotes :: multiset(priced.heap)[t] == multiset(old(priced.heap))[t]
      ensures Elements(drop) == old(all.remotes) - all.remotes
      ensures Shelved() == Dropped(old(Shelved()), nonceOf, old(Known()), drop, |drop|)
      ensures forall a :: old(GaplessAt(a)) ==> GaplessAt(a)
    {
      hide Coherent, Tracked, Dropped, Gapless;
      var cheap := priced.Cap(price);
      clean := RemoveDrops(cheap);
      drop := cheap;
    }

    // ---------- inserting ----------

    /** The lookup and the price heap have one transaction more. */
    twostate predicate Enlisted(tx: Tx, local: bool)
      reads all, priced
    {
      && all.locals == old(all.locals) + (if local then {tx} else {})
      && all.remotes == old(all.remotes) + (if local then {} else {tx})
      && Listed(old(priced.heap), priced.heap, tx, local) && priced.stales == old(priced.stales)
    }

    /** Adds a new transaction to the lookup and the price heap. */
    method ListNew(tx: Tx, local: bool)
      requires all.Valid() && priced.all == all && priced.Valid() && tx !in Known()
      modifies all, priced
      ensures all.Valid() && priced.Valid()
      ensures Enlisted(tx, local)
    {
      hide Tracked, Listed;
      all.Add(tx, local);
      assert !local ==> all.remotes - {tx} == old(all.remotes);
      priced.Put(tx, local);
    }

    /** Exchanges an older transaction, if any, for a new one in the lookup and the price heap. */
    method Register(tx: Tx, local: bool, list: Items)
      requires all.Valid() && priced.all == all && priced.Valid() && tx !in Known() && Prior(list, tx.nonce) <= Known()
      modifies all, priced
      ensures all.Valid() && priced.Valid()
      ensures all.locals == old(all.locals) - Prior(list, tx.nonce) + if local then {tx} else {}
      ensures all.remotes == old(all.remotes) - Prior(list, tx.nonce) + if local then {} else {tx}
      ensures tx.nonce !in list ==> Enlisted(tx, local)
    {
      hide Tracked, Listed, Reported;
      if tx.nonce in list {
        Unlist(list[tx.nonce], true, {});
      }
      ListNew(tx, local);
    }

    /** Queues a new transaction, unless an older one with its nonce is better. */
    method EnqueueNew(tx: Tx, local: bool) returns (inserted: bool)
      requires Valid() && tx !in Known() && !HasSlot(pending, tx.sender, tx.nonce) && (tx.sender in locals ==> local)
      modifies this`queue, all, priced
      ensures Valid() && inserted == Accepts(ListOf(old(queue), tx.sender), tx, config.priceBump)
      ensures !inserted ==> queue == old(queue) && all.locals == old(all.locals) && all.remotes == old(all.remotes)
      ensures inserted ==> queue == WithList(old(queue), tx.sender, ListOf(old(queue), tx.sender)[tx.nonce := tx])
      ensures inserted ==>
        all.locals == old(all.locals) - Prior(ListOf(old(queue), tx.sender), tx.nonce) + if local then {tx} else {}
      ensures inserted ==>
        all.remotes == old(all.remotes) - Prior(ListOf(old(queue), tx.sender), tx.nonce) + if local then {} else {tx}
      ensures tx.nonce !in ListOf(old(queue), tx.sender) ==> Enlisted(tx, local)
    {
      hide Coherent, Tracked, Outbids, Listed;
      var list := ListOf(queue, tx.sender);
      inserted := Accepts(list, tx, config.priceBump);
      if !inserted {
        return;
      }
      InsertQueued(pending, queue, Known(), tx);
      PriorKnown(pending, queue, Known(), tx.sender, tx.nonce);
      Register(tx, local, list);
      queue := WithList(queue, tx.sender, list[tx.nonce := tx]);
      assert Known() == old(Known()) - Prior(list, tx.nonce) + {tx};
    }

    /** Replaces a pending transaction, unless it is better. */
    method ReplacePending(tx: Tx, local: bool) returns (inserted: bool)
      requires Valid() && tx !in Known() && HasSlot(pending, tx.sender, tx.nonce) && (tx.sender in locals ==> local)
      modifies this`pending, all, priced
      ensures Valid() && inserted == Outbids(old(pending)[tx.sender][tx.nonce], tx, config.priceBump)
      ensures !inserted ==> pending == old(pending) && all.locals == old(all.locals) && all.remotes == old(all.remotes)
      ensures inserted ==> pending == WithList(old(pending), tx.sender, ListOf(old(pending), tx.sender)[tx.nonce := tx])
      ensures inserted ==>
        all.locals == old(all.locals) - Prior(ListOf(old(pending), tx.sender), tx.nonce) + if local then {tx} else {}
      ensures inserted ==>
        all.remotes == old(all.remotes) - Prior(ListOf(old(pending), tx.sender), tx.nonce) + if local then {} else {tx}
    {
      hide Coherent, Tracked, Outbids;
      var list := ListOf(pending, tx.sender);
      inserted := Accepts(list, tx, config.priceBump);
      if !inserted {
        return;
      }
      InsertPending(pending, queue, Known(), tx);
      PriorKnown(pending, queue, Known(), tx.sender, tx.nonce);
      Register(tx, local, list);
      pending := WithList(pending, tx.sender, list[tx.nonce := tx]);
      assert Known() == old(Known()) - Prior(list, tx.nonce) + {tx};
    }

    function Capacity(): nat {
      config.globalSlots + config.globalQueue
    }

    /** The pool counts as full for a transaction: by number of transactions, not by their slots. */
    predicate Full(tx: Tx)
      reads all
    {
      |all.locals| + |all.remotes| + tx.Slots() > Capacity()
    }

    /** Drops the cheapest remotes until `need` slots are free, or nothing if that is not enough and
        not forced. */
    method DropCheapest(need: int, force: bool) returns (ok: bool, drop: seq<Tx>)
      requires Valid()
      modifies this`pending, this`queue, this`virtual, all, priced
      ensures Valid() && all.locals == old(all.locals) && all.remotes == old(all.remotes) - Elements(drop)
      ensures Elements(drop) <= old(all.remotes) && WorseThan(drop, all.remotes) && WorstFirst(drop)
      ensures Shelved() == Dropped(old(Shelved()), nonceOf, old(Known()), drop, |drop|)
      ensures forall a, price: nat :: OnePrice(ListOf(old(pending), a), old(all.remotes), price) ==>
        LosesEnd(ListOf(old(pending), a), ListOf(old(queue), a), ListOf(pending, a), ListOf(queue, a), Elements(drop))
      ensures !ok ==> drop == []
      ensures drop != [] ==> SlotsOf(Front(drop)) < need
      ensures ok ==> SlotsOf(drop) >= need || (force && all.remotes == {})
      ensures ok <==> force || LiveSlots(old(priced.heap), old(all.remotes)) >= need
      ensures ok && LiveOnce(old(priced.heap), old(all.remotes)) ==>
        all.slots <= old(all.slots) - need || (force && all.remotes == {})
    {
      hide Coherent, Tracked, SlotsOf, Front, NoneTwice, LiveOnce, LiveSlots, Sums.Sum, WorseThan, WorstFirst, Elements,
           Erased, OnePrice, LosesEnd, ListOf;
      ghost var b0, known, remotes := Shelved(), Known(), all.remotes;
      drop, ok := priced.Discard(need, force);
      RoomMade(all.locals, all.remotes, drop);
      forall a, price: nat | OnePrice(ListOf(pending, a), remotes, price) {
        DropsLoseEnd(b0, nonceOf, known, drop, remotes, price, a);
      }
      if !ok {
        return;
      }
      var clean := RemoveDrops(drop);
      Survivors(priced.heap, priced.stales, all.remotes);
    }

    /** Makes room for a transaction by dropping the cheapest remotes, or refuses it. */
    method MakeRoom(tx: Tx, isLocal: bool) returns (refused: Option<AddResult>, drop: seq<Tx>)
      requires Valid()
      modifies this`pending, this`queue, this`virtual, all, priced
      ensures Valid() && all.locals == old(all.locals) && all.remotes == old(all.remotes) - Elements(drop)
      ensures Elements(drop) <= old(all.remotes) && WorseThan(drop, all.remotes) && WorstFirst(drop)
      ensures Shelved() == Dropped(old(Shelved()), nonceOf, old(Known()), drop, |drop|)
      ensures refused.Some? ==> drop == [] && !isLocal && refused.value in {Underpriced, Overflow}
      ensures refused.Some? || drop != [] ==> old(Full(tx))
      ensures drop != [] ==> SlotsOf(Front(drop)) < old(all.slots) - Capacity() + tx.Slots()
      ensures refused.None? && old(Full(tx)) ==>
        SlotsOf(drop) >= old(all.slots) - Capacity() + tx.Slots() || (isLocal && all.remotes == {})
      ensures !old(Full(tx)) ==> unchanged(all, priced)
      ensures refused == Some(Underpriced) <==> !isLocal && old(Full(tx)) && PricedOut(tx, old(all.remotes))
      ensures refused == Some(Overflow) <==>
        (&& !isLocal && old(Full(tx)) && !PricedOut(tx, old(all.remotes))
         && LiveSlots(old(priced.heap), old(all.remotes)) < old(all.slots) - Capacity() + tx.Slots())
      ensures refused.None? && old(Full(tx)) && LiveOnce(old(priced.heap), old(all.remotes)) ==>
        all.slots + tx.Slots() <= Capacity() || (isLocal && all.remotes == {})
    {
      hide Coherent, Tracked, LiveOnce, LiveSlots, PricedOut, Sums.Sum, WorseThan, WorstFirst, Tx.Slots, SlotsOf, Front,
           Elements, Erased;
      ghost var heap0 := priced.heap;
      refused, drop := None, [];
      NoElements(all.remotes);
      NothingWorse(all.remotes);
      if |all.locals| + |all.remotes| + tx.Slots() <= Capacity() {
        return;
      }
      if !isLocal {
        var cheap := priced.Underpriced(tx);
        LiveOnceLess(heap0, priced.heap, all.remotes);
        if cheap {
          return Some(Underpriced), [];
        }
      }
      var ok;
      ok, drop := DropCheapest(all.slots - Capacity() + tx.Slots(), isLocal);
      if !isLocal && !ok {
        return Some(Overflow), [];
      }
    }

    /** Marks an account as local and moves its remote transactions over. */
    method MarkLocal(a: Addr)
      requires Valid()
      modifies this`locals, all, priced
      ensures Valid() && locals == old(locals) + {a} && Known() == old(Known())
      ensures all.remotes == set t | t in old(all.remotes) && t.sender !in locals
    {
      hide Coherent, Tracked, Sums.Sum;
      locals := locals + {a};
      var migrated := all.RemoteToLocals(locals);
      TrackedLess(priced.heap, priced.stales, old(all.remotes), all.remotes);
      priced.Removed(migrated);
    }

    /** Places a new transaction: in pending if it replaces one there, else in the queue. */
    method Insert(tx: Tx, local: bool) returns (r: AddResult)
      requires Valid() && tx !in Known()
      modifies this`pending, this`queue, this`locals, all, priced
      ensures r.Added? || r == ReplaceUnderpriced
      ensures Valid() && Inserted(old(pending), old(queue), pending, queue, tx, config.priceBump, r)
      ensures Known() == KnownAfter(old(pending), old(queue), old(Known()), tx, r)
      ensures r.Added? ==> (tx in all.locals <==> local || tx.sender in old(locals))
      ensures all.remotes <= old(all.remotes) + {tx}
      ensures r == Added(false) && (local ==> tx.sender in old(locals)) ==>
        Enlisted(tx, local || tx.sender in old(locals))
      ensures locals == if r.Added? && local && !HasSlot(old(pending), tx.sender, tx.nonce) then old(locals) + {tx.sender} else old(locals)
    {
      hide Coherent, Tracked, Outbids, Listed;
      var isLocal := local || tx.sender in locals;
      if HasSlot(pending, tx.sender, tx.nonce) {
        var inserted := ReplacePending(tx, isLocal);
        return if inserted then Added(true) else ReplaceUnderpriced;
      }
      var replaced := HasSlot(queue, tx.sender, tx.nonce);
      var inserted := EnqueueNew(tx, isLocal);
      if !inserted {
        return ReplaceUnderpriced;
      }
      if local && tx.sender !in locals {
        MarkLocal(tx.sender);
      }
      r := Added(replaced);
    }

    /** A new and valid remote transaction meets a full pool. */
    ghost predicate Contends(tx: Tx, local: bool, valid: bool)
      reads this`locals, all
    {
      tx !in Known() && valid && !local && tx.sender !in locals && Full(tx)
    }

    /** Every known transaction takes up at most one slot. */
    ghost predicate AllSmall()
      reads all
    {
      forall t <- Known() :: t.Slots() <= 1
    }

    lemma SmallCount(tx: Tx)
      requires all.Valid() && AllSmall() && !Full(tx)
      ensures all.slots + tx.Slots() <= Capacity()
    {
      hide Tx.Slots;
      SmallSlots(Known());
      assert |all.locals + all.remotes| == |all.locals| + |all.remotes|;
    }

    /** When a transaction is turned away, and for which reason.  Too few slots can be freed if the
        live entries of the price heap, with repetitions, do not take up what is needed. */
    twostate predicate Decided(tx: Tx, local: bool, valid: bool, r: AddResult)
      reads this, all, priced
    {
      && (r == AlreadyKnown <==> tx in old(Known()))
      && (r == Rejected <==> tx !in old(Known()) && !valid)
      && (r == Underpriced <==> old(Contends(tx, local, valid)) && PricedOut(tx, old(all.remotes)))
      && (r == Overflow <==>
            && old(Contends(tx, local, valid)) && !PricedOut(tx, old(all.remotes))
            && LiveSlots(old(priced.heap), old(all.remotes)) < old(all.slots) - Capacity() + tx.Slots())
    }

    /** What adding a transaction does to the pool: nothing if it is turned away; otherwise the cheapest
        remotes are dropped, with the shelves `mid` after that, and it is placed. */
    twostate predicate Entered(tx: Tx, local: bool, valid: bool, r: AddResult, drop: seq<Tx>, mid: Shelves)
      reads this, all, priced
    {
      var isLocal := local || tx.sender in old(locals);
      var rest := old(Known()) - Elements(drop);
      var need := old(all.slots) - Capacity() + tx.Slots();
      && Decided(tx, local, valid, r)
      && mid == Dropped(old(Shelved()), nonceOf, old(Known()), drop, |drop|) && virtual == mid.virtual
      && (if r.Added? || r == ReplaceUnderpriced then
            && Inserted(mid.pending, mid.queue, pending, queue, tx, config.priceBump, r)
            && Known() == KnownAfter(mid.pending, mid.queue, rest, tx, r)
            && Replaced(mid.pending, mid.queue, tx) <= rest
          else
            drop == [] && pending == old(pending) && queue == old(queue) && Known() == old(Known()) && all.slots == old(all.slots))
      && Elements(drop) <= old(all.remotes) && Elements(drop) !! Known() && (!old(Full(tx)) ==> drop == [])
      && WorseThan(drop, old(all.remotes) - Elements(drop)) && WorstFirst(drop)
      && (drop != [] ==> SlotsOf(Front(drop)) < need)
      && ((r.Added? || r == ReplaceUnderpriced) && old(Full(tx)) ==>
            SlotsOf(drop) >= need || (isLocal && old(all.remotes) == Elements(drop)))
      && (r.Added? ==> tx in Known() && (tx in all.locals <==> isLocal))
      && all.remotes <= old(all.remotes) - Elements(drop) + {tx}
      && (locals == old(locals) || (local && r.Added? && locals == old(locals) + {tx.sender}))
      && (r == Added(false) && !old(Full(tx)) && (local ==> tx.sender in old(locals)) ==> Enlisted(tx, isLocal))
      && (r.Added? && old(Full(tx)) && LiveOnce(old(priced.heap), old(all.remotes)) ==>
            all.slots <= Capacity() || (isLocal && all.remotes == {}))
    }

    /** Makes room for a new and valid transaction and places it. */
    method Admit(tx: Tx, local: bool) returns (r: AddResult, drop: seq<Tx>, ghost mid: Shelves)
      requires Valid() && tx !in Known()
      modifies this`pending, this`queue, this`locals, this`virtual, all, priced
      ensures Valid() && Entered(tx, local, true, r, drop, mid)
    {
      hide Coherent, Tracked, Listed, Inserted, KnownAfter, LiveOnce, LiveSlots, PricedOut, WorseThan, WorstFirst,
           Elements, Sums.Sum,
           SlotsOf, Front, Tx.Slots, Full, HasSlot, Dropped, Replaced;
      NoElements(all.remotes);
      DroppedNone(Shelved(), nonceOf, Known());
      var refused;
      refused, drop := MakeRoom(tx, local || tx.sender in locals);
      mid := Shelved();
      if refused.Some? {
        r := refused.value;
        return;
      }
      ghost var known := Known();
      assert known == old(Known()) - Elements(drop);
      KnownMeans(pending, queue, known, tx);
      ReplacedKnown(pending, queue, known, tx);
      r := Insert(tx, local);
      SlotsMove(known, Known(), tx);
    }

    lemma FullMeans(tx: Tx)
      requires Valid()
      ensures Full(tx) <==> |Known()| + tx.Slots() > Capacity()
    {
      hide Tx.Slots, Sums.Sum;
      assert |all.locals + all.remotes| == |all.locals| + |all.remotes|;
    }

    ghost function EntryGate(): Gate
      reads this`nonceOf, this`locals
    {
      Gate(nonceOf, config.priceBump, locals, Capacity())
    }

    lemma RemotesForeign()
      requires Valid()
      ensures forall t <- all.remotes :: t.sender !in locals
    {
    }

    /** Turns away transactions that are known or not valid, and admits the others. */
    method Check(tx: Tx, local: bool, valid: bool) returns (r: AddResult, drop: seq<Tx>, ghost mid: Shelves)
      requires Valid()
      modifies this`pending, this`queue, this`locals, this`virtual, all, priced
      ensures Valid() && Entered(tx, local, valid, r, drop, mid)
    {
      hide Coherent, Tracked, Listed, Inserted, KnownAfter, LiveOnce, LiveSlots, PricedOut, WorseThan, WorstFirst,
           Elements, Sums.Sum,
           SlotsOf, Front, Tx.Slots, Full, HasSlot, Dropped, Replaced;
      r, drop, mid := AlreadyKnown, [], Shelved();
      NoElements(all.remotes);
      NothingWorse(all.remotes);
      DroppedNone(mid, nonceOf, Known());
      if tx in all.locals || tx in all.remotes {
        return;
      }
      if !valid {
        r := Rejected;
        return;
      }
      r, drop, mid := Admit(tx, local);
    }

    /** Adds a transaction, one step of the shelves that opens no gap. */
    method Take(tx: Tx, local: bool, valid: bool) returns (r: AddResult, drop: seq<Tx>, ghost mid: Shelves)
      requires Valid()
      modifies this`pending, this`queue, this`locals, this`virtual, all, priced
      ensures Valid() && Entered(tx, local, valid, r, drop, mid)
      ensures AddStep(old(Shelved()), Shelved(), old(EntryGate()), tx, valid, local)
      ensures forall a :: old(GaplessAt(a)) ==> GaplessAt(a)
    {
      hide Coherent, Tracked, Listed, Inserted, KnownAfter, LiveOnce, LiveSlots, PricedOut, WorseThan, WorstFirst,
           Elements, Sums.Sum,
           SlotsOf, Front, Tx.Slots, Full, HasSlot, Dropped, Replaced, AddStep, Gapless, ListOf, NonceIn, Enlisted;
      ghost var b0, known, gate := Shelved(), Known(), EntryGate();
      RemotesForeign();
      DroppedNone(b0, nonceOf, known);
      FullMeans(tx);
      r, drop, mid := Check(tx, local, valid);
      if r.Added? || r == ReplaceUnderpriced {
        DropsForeign(drop, old(all.remotes), old(locals));
        AddStepIs(b0, Shelved(), gate, tx, local, known, drop, r);
      } else {
        assert Shelved() == b0;
        NoStep(b0, gate, tx, valid, local, known);
      }
      forall a ensures old(GaplessAt(a)) ==> GaplessAt(a) {
        AddStepGapless(b0, Shelved(), gate, tx, valid, local, a, 0);
      }
    }

    /** Adds a transaction to the pool; `valid` is the verdict of validateTx. */
    method Add(tx: Tx, local: bool, valid: bool) returns (r: AddResult, drop: seq<Tx>, ghost mid: Shelves)
      requires Valid()
      modifies this`pending, this`queue, this`locals, this`virtual, all, priced
      ensures Valid() && Entered(tx, local, valid, r, drop, mid)
      ensures r == Underpriced <==>
        old(Contends(tx, local, valid)) && old(all.remotes) != {} && forall t <- old(all.remotes) :: t.price >= tx.price
      ensures drop != [] && !local && tx.sender !in old(locals) ==> drop[0].price < tx.price
      ensures r == Overflow ==> Sums.Sum(old(all.locals), SLOTS) + tx.Slots() > Capacity()
      ensures LiveOnce(old(priced.heap), old(all.remotes)) ==>
        (r == Overflow <==>
         && old(Contends(tx, local, valid)) && !PricedOut(tx, old(all.remotes))
         && Sums.Sum(old(all.locals), SLOTS) + tx.Slots() > Capacity())
      ensures r.Added? ==>
        var replaced := Sums.Sum(Replaced(mid.pending, mid.queue, tx), SLOTS);
        all.slots == old(all.slots) - Sums.Sum(Elements(drop), SLOTS) - replaced + tx.Slots()
      ensures old(AllSmall() && all.slots <= Capacity() && !local && tx.sender !in locals) && tx.Slots() <= 1 ==>
        LiveOnce(old(priced.heap), old(all.remotes)) ==> all.slots <= Capacity()
      ensures AddStep(old(Shelved()), Shelved(), old(EntryGate()), tx, valid, local)
      ensures forall a :: old(GaplessAt(a)) ==> GaplessAt(a)
    {
      hide Coherent, Tracked, Listed, Inserted, KnownAfter, LiveOnce, LiveSlots, PricedOut, WorseThan, WorstFirst,
           Elements, Sums.Sum,
           SlotsOf, Front, Tx.Slots, Full, HasSlot, Dropped, Replaced, AddStep, GaplessAt, AllSmall, Enlisted;
      TooFewSlots(all.locals, all.remotes, priced.heap, priced.stales, all.slots, Capacity(), tx);
      if AllSmall() && !Full(tx) {
        SmallCount(tx);
      }
      ghost var known := Known();
      PricedOutMeans(tx, all.remotes);
      r, drop, mid := Take(tx, local, valid);
      FirstIsCheaper(tx, old(all.remotes), drop);
      if drop != [] {
        DropsSome(old(all.remotes), drop);
      }
      if r.Added? || r == ReplaceUnderpriced {
        SlotsAdded(known, Elements(drop), mid, tx, r, Known());
      }
    }

    // ---------- promotion and demotion ----------

    lemma InvOwned(a: Addr, loose: set<Tx>, removals: int, kept: Items, rest: Items)
      requires Inv(loose, removals, {})
      ensures Split(ListOf(pending, a), kept, rest) ==> Owned(kept, a) && Owned(rest, a)
      ensures Split(ListOf(queue, a), kept, rest) ==> Owned(kept, a) && Owned(rest, a)
    {
      ListOwned(pending, a);
      ListOwned(queue, a);
    }

    /** Cuts an account's queue down to `kept` and forgets the rest. */
    method RetireQueued(a: Addr, kept: Items, rest: Items, ghost removals: int)
      requires Inv({}, removals, {}) && Split(ListOf(queue, a), kept, rest)
      modifies this`queue, all
      ensures queue == WithList(old(queue), a, kept)
      ensures Inv({}, removals + |rest|, {})
    {
      hide Inv, Known, Txs, WithList, Split, Owned;
      InvOwned(a, {}, removals, kept, rest);
      ShrinkQueue(a, kept, rest, removals);
      var found := RemoveRest(a, rest, removals);
    }

    /** Moves a run of an account's queue to its pending list. */
    method PromoteReady(a: Addr, run: Items, waiting: Items, from: nat, upto: nat,
                        ghost removals: int) returns (clean: bool)
      requires Inv({}, removals, {}) && Split(ListOf(queue, a), waiting, run) && from <= upto
      requires Contiguous(run, from, upto)
      modifies this`pending, this`queue, this`virtual
      ensures clean && Inv({}, removals, {})
      ensures queue == WithList(old(queue), a, waiting)
      ensures pending == WithList(old(pending), a, ListOf(old(pending), a) + run)
      ensures PendingNonce(a) == if from < upto then upto else old(PendingNonce(a))
      ensures forall b :: b != a ==> PendingNonce(b) == old(PendingNonce(b))
    {
      hide Coherent, Tracked, Txs, WithList, Owned, Free, Split, Contiguous;
      InvOwned(a, {}, removals, waiting, run);
      ShrinkQueue(a, waiting, run, removals);
      PlacePending(pending, queue, Known(), a, run);
      clean := PromoteRun(a, run, from, upto);
    }

    /** Drops first `olds`, then `dear` from an account's queue. */
    method DropTwo(a: Addr, current: Items, olds: Items, payable: Items, dear: Items)
      requires Valid() && Split(ListOf(queue, a), current, olds) && Split(current, payable, dear)
      modifies this`queue, all
      ensures Inv({}, |olds| + |dear|, {}) && queue == WithList(old(queue), a, payable)
    {
      hide Inv, Known, Split, WithList, ListOf;
      WithListTwice(queue, a, current, payable);
      RetireQueued(a, current, olds, 0);
      RetireQueued(a, payable, dear, |olds|);
    }

    /** Cuts an account's queue down to the allowance, unless it is local. */
    method CapQueue(a: Addr, waiting: Items, count: nat) returns (kept: Items, total: nat)
      requires Inv({}, count, {}) && waiting == ListOf(queue, a) && Tidy(queue)
      modifies this`queue, all
      ensures kept == (if a in locals then waiting else Capped(waiting, config.accountQueue))
      ensures Inv({}, total, {}) && queue == WithList(old(queue), a, kept)
    {
      hide Inv, Split, WithList, Capped, Tidy;
      kept, total := waiting, count;
      if a in locals {
        WithListTwice(queue, a, waiting, waiting);
      } else {
        kept := Capped(waiting, config.accountQueue);
        var over := Unkept(waiting, kept);
        CapParts(waiting, config.accountQueue);
        RetireQueued(a, kept, over, count);
        total := count + |over|;
      }
    }

    /** Promotes the executable run of an account's queue, whose transactions are all payable, and
        caps what is left. */
    method PromotePayable(a: Addr, payable: Items, count: nat) returns (clean: bool, from: nat, upto: nat)
      requires Inv({}, count, {}) && payable == ListOf(queue, a)
      modifies this`pending, this`queue, this`virtual, all, priced
      ensures clean && Valid() && IsReady(payable, old(PendingNonce(a)), from, upto)
      ensures pending == WithList(old(pending), a, ListOf(old(pending), a) + Between(payable, from, upto))
      ensures queue == WithList(old(queue), a, Waiting(payable, from, upto, a in locals, config.accountQueue))
      ensures PendingNonce(a) == if from < upto then upto else old(PendingNonce(a))
      ensures forall b :: b != a ==> PendingNonce(b) == old(PendingNonce(b))
    {
      hide Inv, Known, Split, WithList, IsReady, Contiguous, Capped, Between, Outside, Tidy;
      from, upto := Ready(payable, PendingNonce(a));
      var run, waiting := Between(payable, from, upto), Outside(payable, from, upto);
      RunParts(payable, from, upto);
      clean := PromoteReady(a, run, waiting, from, upto, count);
      WithListTwice(old(queue), a, waiting, Waiting(payable, from, upto, a in locals, config.accountQueue));
      InvTidy(count);
      var kept, total := CapQueue(a, waiting, count);
      Settle(total, {});
    }

    /** Promotes what has become executable in one account's queue, and drops what is too old, too
        dear or too much. */
    method PromoteAccount(a: Addr) returns (clean: bool, from: nat, upto: nat)
      requires Valid()
      modifies this`pending, this`queue, this`virtual, all, priced
      ensures clean && Valid()
      ensures a !in old(queue) ==> pending == old(pending) && queue == old(queue) && virtual == old(virtual)
      ensures a in old(queue) ==>
        var payable := Affordable(From(old(queue)[a], nonceOf(a)), false, balanceOf(a), maxSmoke);
        && IsReady(payable, old(PendingNonce(a)), from, upto)
        && pending == WithList(old(pending), a, ListOf(old(pending), a) + Between(payable, from, upto))
        && queue == WithList(old(queue), a, Waiting(payable, from, upto, a in locals, config.accountQueue))
        && PendingNonce(a) == if from < upto then upto else old(PendingNonce(a))
      ensures forall b :: b != a ==> PendingNonce(b) == old(PendingNonce(b))
    {
      hide Inv, Known, Split, WithList, Affordable, IsReady, Waiting, From, Between, Below, Dear;
      clean, from, upto := true, 0, 0;
      if a !in queue {
        return;
      }
      var list := queue[a];
      var olds, current := Below(list, nonceOf(a)), From(list, nonceOf(a));
      var payable, dear := Affordable(current, false, balanceOf(a), maxSmoke), Dear(current, balanceOf(a), maxSmoke);
      QueueParts(list, nonceOf(a), balanceOf(a), maxSmoke);
      DropTwo(a, current, olds, payable, dear);
      WithListTwice(old(queue), a, payable, payable);
      clean, from, upto := PromotePayable(a, payable, |olds| + |dear|);
      WithListTwice(old(queue), a, payable, Waiting(payable, from, upto, a in locals, config.accountQueue));
    }

    /** Drops first `olds`, then `dear` from an account's pending list; the rest but `kept` is left
        loose. */
    method DropThree(a: Addr, current: Items, olds: Items, kept: Items, rest: Items, dear: Items, ghost invalids: Items)
      requires Valid() && Split(ListOf(pending, a), current, olds) && Split(current, kept, rest)
      requires Split(rest, dear, invalids)
      modifies this`pending, all, priced
      ensures Inv(Txs(invalids), 0, {}) && pending == WithList(old(pending), a, kept)
      ensures Owned(invalids, a) && Free(pending, queue, a, invalids)
    {
      hide Inv, Known, Split, WithList, Txs, Owned, Free, ListOf;
      SplitAll(olds);
      WithListTwice(pending, a, current, kept);
      RetirePending(a, current, olds, olds, map[], 0);
      RetirePending(a, kept, rest, dear, invalids, |olds|);
      Settle(|olds| + |dear|, Txs(invalids));
    }

    /** Takes an account's pending list down to `kept` and forgets `gone`; the rest is left loose. */
    method RetirePending(a: Addr, kept: Items, rest: Items, gone: Items, ghost left: Items, ghost removals: int)
      requires Inv({}, removals, {}) && Split(ListOf(pending, a), kept, rest) && Split(rest, gone, left)
      modifies this`pending, all
      ensures pending == WithList(old(pending), a, kept)
      ensures Inv(Txs(left), removals + |gone|, {}) && Owned(left, a) && Free(pending, queue, a, left)
    {
      hide Inv, Known, Txs, WithList, Split, Owned, Free;
      InvOwned(a, {}, removals, kept, rest);
      ShrinkPending(a, kept, rest, removals);
      SplitFree(pending, queue, a, rest, gone, left);
      var found := RemovePart(a, rest, gone, left, removals);
    }

    lemma InvApart(a: Addr)
      requires Valid()
      ensures Apart(ListOf(pending, a), ListOf(queue, a), a)
    {
      ListOwned(pending, a);
      ListOwned(queue, a);
      forall n <- ListOf(pending, a) ensures n !in ListOf(queue, a) {
        assert HasSlot(pending, a, n);
      }
    }

    lemma InvTidy(removals: int)
      requires Inv({}, removals, {})
      ensures Tidy(pending) && Tidy(queue)
    {
    }

    /** Demotes one account: what can no longer be executed is dropped, what followed it is queued
        again, and a list that does not start at the state nonce is queued altogether. */
    method DemoteAccount(a: Addr) returns (clean: bool)
      requires Valid()
      modifies this`pending, this`queue, all, priced
      ensures clean && Valid()
      ensures var kept := Affordable(From(ListOf(old(pending), a), nonceOf(a)), true, balanceOf(a), maxSmoke);
        var invalids := Invalidated(From(ListOf(old(pending), a), nonceOf(a)), true, balanceOf(a), maxSmoke);
        var gapped := if nonceOf(a) in kept then map[] else kept;
        && pending == WithList(old(pending), a, if nonceOf(a) in kept then kept else map[])
        && queue == WithList(old(queue), a, ListOf(old(queue), a) + invalids + gapped)
    {
      hide Inv, Known, Split, WithList, Affordable, Invalidated, From, Txs, Owned, Free, Tidy, Below, Dear, Unkept;
      var list := ListOf(pending, a);
      var olds, current := Below(list, nonceOf(a)), From(list, nonceOf(a));
      var kept := Affordable(current, true, balanceOf(a), maxSmoke);
      var invalids := Invalidated(current, true, balanceOf(a), maxSmoke);
      PendingParts(list, nonceOf(a), balanceOf(a), maxSmoke);
      DropThree(a, current, olds, kept, Unkept(current, kept), Dear(current, balanceOf(a), maxSmoke), invalids);
      WithListTwice(old(pending), a, kept, map[]);
      clean := RequeueEach(a, invalids, 0);
      ghost var mid := ListOf(old(queue), a) + invalids;
      WithListTwice(old(queue), a, mid, mid + kept);
      assert mid + map[] == mid;
      if kept != map[] && nonceOf(a) !in kept {
        SplitNone(kept);
        InvOwned(a, {}, 0, map[], kept);
        ShrinkPending(a, map[], kept, 0);
        var ok := RequeueEach(a, kept, 0);
        clean := clean && ok;
      }
    }

    // ---------- truncation ----------

    /** Drops the highest pending transaction of an account. */
    method CapOne(a: Addr)
      requires Valid() && a in pending && |pending[a]| > 1
      modifies this`pending, this`virtual, all, priced
      ensures Valid() && pending == old(pending)[a := Capped(old(pending)[a], |old(pending)[a]| - 1)]
      ensures Total(pending) == old(Total(pending)) - 1
      ensures Followed(old(pending), old(virtual), pending, virtual, nonceOf)
    {
      hide Inv, Known, Split, Txs, Free, Owned, Capped, Total, Followed, Lowered;
      var list := pending[a];
      var h := Highest(list);
      var kept, gone := Capped(list, |list| - 1), map[h := list[h]];
      CapOneParts(list, h);
      TotalUpdate(pending, a, kept);
      RetirePending(a, kept, gone, gone, map[], 0);
      LowerNonce(a, h);
      CappedFollowed(old(pending), old(virtual), nonceOf, a, h);
      Settle(1, {});
    }

    /** Takes one transaction from each of the first `k` accounts of `offs`. */
    method Round(offs: seq<Addr>, k: nat, ghost level: nat)
      requires Valid() && k <= |offs| && level > 1 && NoRepeats(offs) && AllAt(pending, offs, k, level)
      modifies this`pending, this`virtual, all, priced
      ensures Valid() && pending == CapAll(old(pending), Firsts(offs, k), level - 1)
      ensures Total(pending) == old(Total(pending)) - k
      ensures Followed(old(pending), old(virtual), pending, virtual, nonceOf)
    {
      hide Inv, CapAll, Firsts, NoRepeats, Capped, Total, Followed;
      CapAllStart(pending, offs, level - 1);
      FollowedSame(pending, virtual, nonceOf);
      for i := 0 to k
        invariant Followed(old(pending), old(virtual), pending, virtual, nonceOf)
        invariant Valid() && pending == CapAll(old(pending), Firsts(offs, i), level - 1)
        invariant Total(pending) == old(Total(pending)) - i
      {
        CapAllOneMore(old(pending), offs, i, level - 1);
        ghost var p1, v1 := pending, virtual;
        CapOne(offs[i]);
        FollowedOn(old(pending), old(virtual), p1, v1, pending, virtual, nonceOf);
      }
    }

    /** Repeats rounds over the first `k` accounts of `offs` until the pool fits or they are down to
        `threshold`. */
    method Equalize(offs: seq<Addr>, k: nat, threshold: nat, count0: int, ghost p0: Shelf, ghost offenders: set<Addr>,
                    ghost level0: nat)
      returns (count: int, ghost level: nat)
      requires Valid() && 0 < k && 0 < threshold <= level0 && count0 == Total(pending)
      requires Standing(p0, offenders, pending, level0, offs, k, config.globalSlots)
      requires OthersBelow(pending, offenders, Firsts(offs, k), threshold)
      modifies this`pending, this`virtual, all, priced
      ensures Valid() && count == Total(pending) && threshold <= level <= level0
      ensures Standing(p0, offenders, pending, level, offs, k, config.globalSlots)
      ensures OthersBelow(pending, offenders, Firsts(offs, k), threshold)
      ensures count > config.globalSlots ==> level == threshold
      ensures Followed(old(pending), old(virtual), pending, virtual, nonceOf)
    {
      hide Inv, CapAll, Firsts, NoRepeats, Total, Followed, OthersBelow;
      count, level := count0, level0;
      FollowedSame(pending, virtual, nonceOf);
      while count > config.globalSlots && |pending[offs[k - 1]]| > threshold
        invariant Valid() && count == Total(pending) && threshold <= level <= level0
        invariant Standing(p0, offenders, pending, level, offs, k, config.globalSlots)
        invariant OthersBelow(pending, offenders, Firsts(offs, k), threshold)
        invariant Followed(old(pending), old(virtual), pending, virtual, nonceOf)
        decreases level
      {
        RoundLowers(p0, offenders, pending, level, offs, k, threshold, config.globalSlots);
        ghost var p1, v1 := pending, virtual;
        Round(offs, k, level);
        FollowedOn(old(pending), old(virtual), p1, v1, pending, virtual, nonceOf);
        count, level := count - k, level - 1;
      }
    }

    /** Takes up one more offender, the one with the longest list. */
    method TakeOffender(offs0: seq<Addr>, o: Addr, count0: int, ghost p0: Shelf, ghost offenders: set<Addr>,
                        ghost spam: set<Addr>, ghost level0: nat)
      returns (offs: seq<Addr>, count: int, ghost level: nat)
      requires Valid() && count0 == Total(pending) > config.globalSlots && IsLongest(pending, spam, o)
      requires Progress(p0, offenders, pending, level0, offs0, spam, config.accountSlots, config.globalSlots)
      modifies this`pending, this`virtual, all, priced
      ensures Valid() && offs == offs0 + [o] && count == Total(pending)
      ensures Progress(p0, offenders, pending, level, offs, spam - {o}, config.accountSlots, config.globalSlots)
      ensures Followed(old(pending), old(virtual), pending, virtual, nonceOf)
    {
      hide Inv, CapAll, Firsts, NoRepeats, Total, IsLongest, OthersBelow, Followed;
      FollowedSame(pending, virtual, nonceOf);
      offs, count := offs0 + [o], count0;
      if |offs| == 1 {
        TakeFirst(p0, offenders, level0, spam, o, config.accountSlots, config.globalSlots);
        level := |p0[o]|;
        assert offs == [o];
        return;
      }
      TakeNext(p0, offenders, pending, level0, offs0, spam, o, config.accountSlots, config.globalSlots);
      var threshold := |pending[o]|;
      LongestIn(pending, spam, o);
      CapAllAt(p0, offenders, level0, o);
      count, level := Equalize(offs, |offs| - 1, threshold, count0, p0, offenders, level0);
      TookNext(p0, offenders, pending, level0, level, offs0, spam, o, threshold, config.accountSlots,
               config.globalSlots);
    }

    /** Truncates pending max-min fairly. */
    method TruncatePending() returns (ghost level: nat)
      requires Valid()
      modifies this`pending, this`virtual, all, priced
      ensures Valid()
      ensures old(Total(pending)) <= config.globalSlots ==> pending == old(pending)
      ensures old(Total(pending)) > config.globalSlots ==>
        Fair(old(pending), Offenders(old(pending), locals, config.accountSlots), pending, level, config.accountSlots,
             config.globalSlots)
      ensures Followed(old(pending), old(virtual), pending, virtual, nonceOf)
    {
      hide Inv, CapAll, Firsts, NoRepeats, Total, OthersBelow, Standing, Followed;
      FollowedSame(pending, virtual, nonceOf);
      level := config.accountSlots;
      var count := CountAll(pending);
      if count <= config.globalSlots {
        return;
      }
      ghost var p0 := pending;
      var spam, offs: seq<Addr> := Offenders(pending, locals, config.accountSlots), [];
      ghost var offenders := spam;
      ProgressStart(p0, offenders, level, config.accountSlots, config.globalSlots);
      while count > config.globalSlots && spam != {}
        invariant Valid() && count == Total(pending)
        invariant Progress(p0, offenders, pending, level, offs, spam, config.accountSlots, config.globalSlots)
        invariant Followed(old(pending), old(virtual), pending, virtual, nonceOf)
        decreases spam
      {
        LongestExists(pending, spam);
        var o :| o in spam && IsLongest(pending, spam, o);
        ghost var p1, v1 := pending, virtual;
        offs, count, level := TakeOffender(offs, o, count, p0, offenders, spam, level);
        FollowedOn(old(pending), old(virtual), p1, v1, pending, virtual, nonceOf);
        spam := spam - {o};
      }
      if count > config.globalSlots && |offs| > 0 {
        LastPhase(p0, offenders, pending, level, offs, config.accountSlots, config.globalSlots);
        ghost var p1, v1 := pending, virtual;
        count, level := Equalize(offs, |offs|, config.accountSlots, count, p0, offenders, level);
        FollowedOn(old(pending), old(virtual), p1, v1, pending, virtual, nonceOf);
        PhaseFair(p0, offenders, pending, level, offs, config.accountSlots, config.globalSlots);
      } else {
        LoopFair(p0, offenders, pending, level, offs, spam, config.accountSlots, config.globalSlots);
        if |offs| == 0 {
          level := config.accountSlots;
        }
      }
    }

    /** Removes one queued transaction. */
    method RemoveQueued(a: Addr, n: nat)
      requires Valid() && a in queue && n in queue[a]
      modifies this`pending, this`queue, this`virtual, all, priced
      ensures Valid() && pending == old(pending) && virtual == old(virtual)
      ensures queue == WithList(old(queue), a, old(queue)[a] - {n})
    {
      hide Coherent, Tracked, WithList;
      SlotIsOwn(pending, queue, Known(), a, n);
      var clean := RemoveTx(queue[a][n], true, {});
    }

    /** Removes an account's whole queue. */
    method RemoveQueue(a: Addr)
      requires Valid() && a in queue
      modifies this`pending, this`queue, this`virtual, all, priced
      ensures Valid() && pending == old(pending) && virtual == old(virtual) && queue == WithList(old(queue), a, map[])
    {
      hide Inv, Known, WithList, Tidy;
      InvTidy(0);
      WithListTwice(queue, a, map[], map[]);
      while a in queue
        invariant Valid() && pending == old(pending) && virtual == old(virtual)
        invariant queue == WithList(old(queue), a, ListOf(queue, a))
        decreases |ListOf(queue, a)|
      {
        var list := queue[a];
        InvTidy(0);
        var n := LowestNonce(queue, a);
        LessItems(list, n);
        WithListTwice(old(queue), a, list, list - {n});
        WithListTwice(queue, a, list - {n}, map[]);
        RemoveQueued(a, n);
      }
    }

    /** Removes the `k` highest transactions of an account's queue. */
    method RemoveHighest(a: Addr, k: nat)
      requires Valid() && a in queue && k <= |queue[a]|
      modifies this`pending, this`queue, this`virtual, all, priced
      ensures Valid() && pending == old(pending) && virtual == old(virtual)
      ensures queue == WithList(old(queue), a, Capped(old(queue)[a], |old(queue)[a]| - k))
    {
      hide Inv, Known, WithList, Capped, Tidy;
      var list := queue[a];
      CapWhole(list);
      InvTidy(0);
      WithListTwice(queue, a, map[], map[]);
      for i := 0 to k
        invariant Valid() && pending == old(pending) && virtual == old(virtual)
        invariant queue == WithList(old(queue), a, Capped(list, |list| - i))
      {
        var rest := Capped(list, |list| - i);
        CapMore(list, |list| - i);
        WithListTwice(old(queue), a, rest, rest - {Highest(rest)});
        HasList(queue, a, rest);
        RemoveQueued(a, Highest(rest));
      }
    }

    /** Removes queued transactions of the accounts in `order`, last account first, until the queue
        fits. */
    method TruncateQueue(order: seq<Addr>) returns (ghost from: nat)
      requires Valid() && NoRepeats(order) && forall a :: a in order <==> a in queue && a !in locals
      modifies this`pending, this`queue, this`virtual, all, priced
      ensures Valid() && pending == old(pending) && virtual == old(virtual) && from <= |order|
      ensures old(Total(queue)) <= config.globalQueue ==> queue == old(queue)
      ensures old(Total(queue)) > config.globalQueue ==> Total(queue) >= config.globalQueue
      ensures Total(queue) <= config.globalQueue || forall a <- queue :: a in locals
      ensures forall a <- queue :: a in old(queue) && queue[a] == Capped(old(queue)[a], |queue[a]|)
      ensures forall a <- old(queue) :: a !in order[from..] ==> a in queue && queue[a] == old(queue)[a]
      ensures forall i :: from < i < |order| ==> order[i] !in queue
    {
      hide Inv, Known, WithList, Capped, Total, NoRepeats, Truncated;
      TruncatedStart(queue, order);
      from := |order|;
      var total := CountAll(queue);
      if total <= config.globalQueue {
        TruncatedMeans(queue, queue, order, |order|, 0);
        return;
      }
      var drop := total - config.globalQueue;
      var i := |order|;
      while drop > 0 && i > 0
        invariant Valid() && pending == old(pending) && virtual == old(virtual) && 0 <= i <= |order| && drop >= 0
        invariant Total(queue) == config.globalQueue + drop
        invariant Truncated(old(queue), queue, order, i, drop)
      {
        i := i - 1;
        var a := order[i];
        TruncatedHas(old(queue), queue, order, i + 1, drop);
        var size := |queue[a]|;
        var left := if size <= drop then 0 else size - drop;
        TruncatedNext(old(queue), queue, order, i, drop, left);
        TotalWithList(queue, a, Capped(queue[a], left));
        CappedShape(queue[a], left);
        if size <= drop {
          CapWhole(queue[a]);
          RemoveQueue(a);
          drop := drop - size;
        } else {
          RemoveHighest(a, drop);
          drop := 0;
        }
      }
      TruncatedMeans(old(queue), queue, order, i, drop);
      from := i;
    }

    // ---------- a whole reorganisation run ----------

    /** An account's queue holds nothing old, nothing unpayable, nothing up to its pending nonce, and
        no more than a remote account may have. */
    ghost predicate QueueSettled(a: Addr)
      reads this
    {
      Settled(ListOf(queue, a), nonceOf(a), balanceOf(a), maxSmoke, PendingNonce(a), a in locals, config.accountQueue)
    }

    method PromoteOne(a: Addr) returns (clean: bool)
      requires Valid()
      modifies this`pending, this`queue, this`virtual, all, priced
      ensures clean && Valid() && QueueSettled(a)
      ensures PromotedTo(ListOf(old(pending), a), ListOf(old(queue), a), old(PendingNonce(a)), ListOf(pending, a), ListOf(queue, a), PendingNonce(a),
                         nonceOf(a), balanceOf(a), maxSmoke, a in locals, config.accountQueue)
      ensures forall b :: b != a ==>
        PendingNonce(b) == old(PendingNonce(b)) && ListOf(queue, b) == ListOf(old(queue), b) && ListOf(pending, b) == ListOf(old(pending), b)
    {
      hide Inv, Known, Settled, IsReady, Affordable, Waiting, From, Between, PromotedTo;
      var from, upto;
      clean, from, upto := PromoteAccount(a);
      PromotedIs(ListOf(old(pending), a), ListOf(old(queue), a), old(PendingNonce(a)), from, upto, nonceOf(a),
                 balanceOf(a), maxSmoke, a in locals, config.accountQueue);
    }

    /** Promotes the given accounts, each as the specification of one account says; the others are
        left alone. */
    method PromoteExecutables(accounts: seq<Addr>) returns (clean: bool)
      requires Valid() && NoRepeats(accounts)
      modifies this`pending, this`queue, this`virtual, all, priced
      ensures clean && Valid() && forall a <- accounts :: QueueSettled(a)
      ensures forall a <- accounts ::
        PromotedTo(ListOf(old(pending), a), ListOf(old(queue), a), old(PendingNonce(a)), ListOf(pending, a), ListOf(queue, a), PendingNonce(a),
                   nonceOf(a), balanceOf(a), maxSmoke, a in locals, config.accountQueue)
      ensures forall a :: a !in accounts ==>
        PendingNonce(a) == old(PendingNonce(a)) && ListOf(queue, a) == ListOf(old(queue), a) && ListOf(pending, a) == ListOf(old(pending), a)
    {
      hide Inv, Settled, PromotedTo, ListOf, PendingNonce;
      clean := true;
      for i := 0 to |accounts|
        invariant clean && Valid() && forall k :: 0 <= k < i ==> QueueSettled(accounts[k])
        invariant forall k :: 0 <= k < i ==>
          var a := accounts[k];
          PromotedTo(ListOf(old(pending), a), ListOf(old(queue), a), old(PendingNonce(a)), ListOf(pending, a), ListOf(queue, a), PendingNonce(a),
                     nonceOf(a), balanceOf(a), maxSmoke, a in locals, config.accountQueue)
        invariant forall a :: (forall k :: 0 <= k < i ==> accounts[k] != a) ==>
          PendingNonce(a) == old(PendingNonce(a)) && ListOf(queue, a) == ListOf(old(queue), a) && ListOf(pending, a) == ListOf(old(pending), a)
      {
        var ok := PromoteOne(accounts[i]);
        clean := clean && ok;
      }
    }

    /** An account's pending list starts at its state nonce and every transaction is payable; there
        may be gaps. */
    ghost predicate PendingStarted(a: Addr)
      reads this`pending, this`nonceOf, this`balanceOf, this`maxSmoke
    {
      Started(ListOf(pending, a), nonceOf(a), balanceOf(a), maxSmoke)
    }

    ghost predicate AllStarted()
      reads this`pending, this`nonceOf, this`balanceOf, this`maxSmoke
    {
      forall a :: PendingStarted(a)
    }

    method DemoteOne(a: Addr) returns (clean: bool)
      requires Valid()
      modifies this`pending, this`queue, all, priced
      ensures clean && Valid() && PendingStarted(a)
      ensures DemotedTo(ListOf(old(pending), a), ListOf(old(queue), a), ListOf(pending, a), ListOf(queue, a),
                        nonceOf(a), balanceOf(a), maxSmoke)
      ensures forall b :: b != a ==>
        ListOf(pending, b) == ListOf(old(pending), b) && ListOf(queue, b) == ListOf(old(queue), b)
    {
      hide Inv, Started, Affordable, Invalidated, From;
      DemotedStarted(ListOf(pending, a), nonceOf(a), balanceOf(a), maxSmoke);
      clean := DemoteAccount(a);
    }

    /** Demotes all accounts, each as the specification of one account says. */
    method DemoteUnexecutables() returns (clean: bool)
      requires Valid()
      modifies this`pending, this`queue, all, priced
      ensures clean && Valid() && AllStarted()
      ensures forall a ::
        DemotedTo(ListOf(old(pending), a), ListOf(old(queue), a), ListOf(pending, a), ListOf(queue, a), nonceOf(a),
                  balanceOf(a), maxSmoke)
    {
      hide Inv, Started, DemotedTo, ListOf;
      clean := true;
      var todo := pending.Keys;
      DemoteNothing(pending, queue, nonceOf, balanceOf, maxSmoke);
      while todo != {}
        invariant clean && Valid() && forall a :: a in todo || PendingStarted(a)
        invariant forall a <- todo :: ListOf(pending, a) == ListOf(old(pending), a) && ListOf(queue, a) == ListOf(old(queue), a)
        invariant forall a :: a !in todo ==>
          DemotedTo(ListOf(old(pending), a), ListOf(old(queue), a), ListOf(pending, a), ListOf(queue, a), nonceOf(a),
                    balanceOf(a), maxSmoke)
        decreases todo
      {
        var a :| a in todo;
        var ok := DemoteOne(a);
        clean, todo := clean && ok, todo - {a};
      }
    }

    /** Moves to a new head state, from which pending nonces start again, and adds the transactions a
        reorganisation of the chain dropped, one after the other.  Consecutive pending lists stay
        consecutive, and no pending nonce is above the state nonce. */
    method Reset(nonces: Addr -> nat, balances: Addr -> nat, smoke: nat, reinject: seq<Tx>,
                 valid: Tx -> bool) returns (ghost trace: seq<Shelves>)
      requires Valid()
      modifies this, all, priced
      ensures Valid() && nonceOf == nonces && balanceOf == balances && maxSmoke == smoke && locals == old(locals)
      ensures Reinjects(trace, EntryGate(), reinject, valid)
      ensures trace[0] == Books(old(pending), old(queue), map[]) && trace[|reinject|] == Shelved()
      ensures forall a :: PendingNonce(a) <= nonces(a)
      ensures forall a, lo: nat :: Solid(ListOf(old(pending), a), lo) ==> Solid(ListOf(pending, a), lo)
    {
      hide Inv, AddStep, Reinjects, Inserted, KnownAfter, Dropped, Elements, LiveOnce, LiveSlots, PricedOut, WorseThan,
           WorstFirst,
           Gapless, Solid, ListOf, AllSmall;
      nonceOf, balanceOf, maxSmoke, virtual := nonces, balances, smoke, map[];
      trace := [Shelved()];
      ReinjectsNone(Shelved(), EntryGate(), valid);
      for i := 0 to |reinject|
        invariant Valid() && nonceOf == nonces && balanceOf == balances && maxSmoke == smoke && locals == old(locals)
        invariant |trace| == i + 1
        invariant Reinjects(trace, EntryGate(), reinject[..i], valid)
        invariant trace[0] == Books(old(pending), old(queue), map[]) && trace[i] == Shelved()
      {
        var r, drop, mid := Add(reinject[i], false, valid(reinject[i]));
        ReinjectsMore(trace, Shelved(), EntryGate(), reinject, i, valid);
        trace := trace + [Shelved()];
      }
      assert reinject[..|reinject|] == reinject;
      forall a ensures PendingNonce(a) <= nonces(a) {
        ReinjectsGapless(trace, EntryGate(), reinject, valid, |reinject|, a, 0);
      }
      forall a, lo: nat ensures Solid(ListOf(old(pending), a), lo) ==> Solid(ListOf(pending, a), lo) {
        ReinjectsGapless(trace, EntryGate(), reinject, valid, |reinject|, a, lo);
      }
    }

    /** Sets every account's pending nonce to follow its last pending transaction. */
    method SetNonces()
      modifies this`virtual
      requires Valid()
      ensures forall a <- pending :: pending[a] != map[] && PendingNonce(a) == Highest(pending[a]) + 1
      ensures forall a :: a !in pending ==> PendingNonce(a) == old(PendingNonce(a))
    {
      hide Inv;
      InvTidy(0);
      var todo := pending.Keys;
      while todo != {}
        invariant todo <= pending.Keys && forall a <- pending :: a in todo || PendingNonce(a) == Highest(pending[a]) + 1
        invariant forall a :: a !in pending ==> PendingNonce(a) == old(PendingNonce(a))
        decreases todo
      {
        var a :| a in todo;
        virtual := virtual[a := Highest(pending[a]) + 1];
        todo := todo - {a};
      }
    }

    /** Pending is cut only if there is too much of it, and then max-min fairly. */
    ghost predicate FairlyCut(p0: Shelf, p: Shelf, level: nat)
      reads this`locals
    {
      if Total(p0) <= config.globalSlots then
        p == p0
      else
        Fair(p0, Offenders(p0, locals, config.accountSlots), p, level, config.accountSlots, config.globalSlots)
    }

    /** Brings pending within its limit, cutting lists at their end. */
    method TrimPending() returns (ghost level: nat)
      requires Valid()
      modifies this`pending, this`virtual, all, priced
      ensures Valid() && (old(AllStarted()) ==> AllStarted())
      ensures LocalsKept(old(pending), queue, pending, queue, locals, nonceOf, balanceOf, maxSmoke)
      ensures Total(pending) <= config.globalSlots || forall a <- pending :: a !in locals ==>
        |pending[a]| <= config.accountSlots
      ensures forall a :: CutTo(ListOf(old(pending), a), old(PendingNonce(a)), ListOf(pending, a), PendingNonce(a),
                                nonceOf(a))
      ensures FairlyCut(old(pending), pending, level)
    {
      hide Inv, Started, Fair, Total, Offenders, LocalsKept, Followed, CutTo;
      ghost var p0, v0 := pending, virtual;
      level := TruncatePending();
      if Total(p0) > config.globalSlots {
        FairMeans(p0, locals, pending, level, config.accountSlots, config.globalSlots);
      }
      forall a
        ensures CutTo(ListOf(p0, a), NonceIn(v0, nonceOf, a), ListOf(pending, a), PendingNonce(a), nonceOf(a))
        ensures Started(ListOf(p0, a), nonceOf(a), balanceOf(a), maxSmoke) ==> PendingStarted(a)
      {
        FairCut(p0, v0, pending, virtual, locals, level, config.accountSlots, config.globalSlots, nonceOf, a);
        if Started(ListOf(p0, a), nonceOf(a), balanceOf(a), maxSmoke) {
          CutStarted(ListOf(p0, a), NonceIn(v0, nonceOf, a), ListOf(pending, a), PendingNonce(a), nonceOf(a),
                     balanceOf(a), maxSmoke);
        }
      }
      assert forall a :: old(PendingStarted(a)) ==> PendingStarted(a);
      LocalsUntouched(p0, pending, locals, config.accountSlots);
      LocalsSame(p0, queue, pending, queue, locals, nonceOf, balanceOf, maxSmoke);
    }

    /** Brings the queue within its limit. */
    method TrimQueue(beats: Addr -> int)
      requires Valid()
      modifies this`pending, this`queue, this`virtual, all, priced
      ensures Valid() && pending == old(pending) && virtual == old(virtual)
      ensures forall a :: CutShort(ListOf(old(queue), a), ListOf(queue, a))
      ensures LocalsKept(pending, old(queue), pending, queue, locals, nonceOf, balanceOf, maxSmoke)
      ensures Total(queue) <= config.globalQueue || forall a <- queue :: a in locals
      ensures if old(Total(queue)) <= config.globalQueue then queue == old(queue) else Total(queue) >= config.globalQueue
      ensures ByBeat(old(queue), queue, locals, beats)
    {
      hide Inv, NoRepeats, Total, Capped, LocalsKept, ByBeat;
      var order := SortByBeat(queue.Keys - locals, beats);
      ghost var from := TruncateQueue(order);
      TruncatedByBeat(old(queue), queue, order, from, locals, beats);
      forall a ensures CutShort(ListOf(old(queue), a), ListOf(queue, a)) {
        CapWhole(ListOf(old(queue), a));
      }
      forall a <- locals ensures ListOf(queue, a) == ListOf(old(queue), a) {
        assert a !in order;
        assert a in old(queue) ==> a !in order[from..];
      }
      LocalsSame(pending, old(queue), pending, queue, locals, nonceOf, balanceOf, maxSmoke);
    }

    lemma AllApart()
      requires Valid()
      ensures forall a :: ApartIn(Shelved(), a)
    {
      hide Inv, ListOf, Apart;
      forall a ensures ApartIn(Shelved(), a) {
        InvApart(a);
      }
    }

    /** Promotes and, after a reset, demotes, each account as specified; no local account loses a
        current transaction. */
    method Rearrange(reset: bool, accounts: seq<Addr>) returns (clean: bool)
      requires Valid() && NoRepeats(accounts) && (reset ==> forall a <- queue :: a in accounts)
      modifies this`pending, this`queue, this`virtual, all, priced
      ensures clean && Valid() && (reset ==> AllStarted())
      ensures forall a :: ArrangedIn(old(Shelved()), Shelved(), Treated(reset, accounts, a), reset, HeadTerms(), a)
      ensures LocalsKept(old(pending), old(queue), pending, queue, locals, nonceOf, balanceOf, maxSmoke)
    {
      hide Inv, AllStarted, Settled, PromotedTo, DemotedTo, ArrangedIn, ListOf, Apart, NoRepeats, LocalsKept;
      AllApart();
      ghost var b0 := Shelved();
      clean := PromoteExecutables(accounts);
      ghost var b1 := Shelved();
      if reset {
        var ok := DemoteUnexecutables();
        clean := clean && ok;
      }
      forall a ensures ArrangedIn(b0, Shelved(), Treated(reset, accounts, a), reset, HeadTerms(), a) {
        if reset && a !in accounts {
          NoList(b0.queue, a);
          IdlePromoted(b0, b1, HeadTerms(), a);
        }
        ArrangedIs(b0, b1, Shelved(), Treated(reset, accounts, a), reset, HeadTerms(), a);
      }
      ArrangedLocals(b0, Shelved(), accounts, reset, HeadTerms());
    }

    /** The pool after a run without a reset: no gap opened in a gapless account.  The next transaction
        of an account that was treated is never queued; of another account only if it was before. */
    ghost predicate PlainOutcome(b0: Shelves, dirty: seq<Addr>, a: Addr)
      reads this`pending, this`queue, this`virtual, this`nonceOf
    {
      && GaplessAt(a)
      && (PendingNonce(a) in ListOf(queue, a) <==>
          a !in dirty && Uncut(b0, Shelved(), a) && NonceIn(b0.virtual, nonceOf, a) in ListOf(queue, a))
    }

    /** The pool after a run whose reset was given up. */
    ghost predicate GivenUpOutcome(b0: Shelves, a: Addr)
      reads this`pending, this`queue, this`virtual, this`nonceOf, this`balanceOf, this`maxSmoke, this`locals
    {
      (GaplessAt(a) <==> HeadPayable(b0, HeadTerms(), a)) && !NextQueued(Shelved(), nonceOf, a)
    }

    /** The pool after a run with a reset, from the shelves `b0` after the reset and `b1` before
        truncation: a list that began at the nonce `was` has no gap exactly if it is bridged, or was cut
        below that nonce; the next transaction is queued only if it is stranded and nothing was cut
        off, and then it is unless it was truncated from the queue. */
    ghost predicate ResetOutcome(b0: Shelves, b1: Shelves, was: nat, a: Addr)
      reads this`pending, this`queue, this`virtual, this`nonceOf, this`balanceOf, this`maxSmoke, this`locals
    {
      && (GaplessAt(a) <==> BridgedIn(b0, was, HeadTerms(), a) || (!Uncut(b1, Shelved(), a) && was !in ListOf(pending, a)))
      && (NextQueued(Shelved(), nonceOf, a) ==> Uncut(b1, Shelved(), a) && StrandedIn(b0, HeadTerms(), a))
      && (Uncut(b1, Shelved(), a) && ListOf(queue, a) == ListOf(b1.queue, a) ==>
            (NextQueued(Shelved(), nonceOf, a) <==> StrandedIn(b0, HeadTerms(), a)))
    }

    lemma RunOutcome(s: Shelves, was: Addr -> nat, b0: Shelves, b1: Shelves, reset: bool, proceeds: bool,
                     dirty: seq<Addr>, a: Addr)
      requires GaplessIn(s, was, a) && ApartIn(b0, a)
      requires if reset && proceeds then
          NonceIn(b0.virtual, nonceOf, a) <= nonceOf(a) && forall lo: nat :: Solid(ListOf(s.pending, a), lo) ==> Solid(ListOf(b0.pending, a), lo)
        else
          b0 == s && nonceOf == was
      requires ArrangedIn(b0, b1, Treated(reset, dirty, a), reset, HeadTerms(), a)
      requires TrimmedTo(b1, Shelved(), nonceOf, a)
      ensures if !reset then PlainOutcome(s, dirty, a)
              else if !proceeds then GivenUpOutcome(s, a)
              else ResetOutcome(b0, b1, was(a), a)
    {
      hide ArrangedIn, TrimmedTo, ListOf, NonceIn, Apart, Gapless, Solid, BridgedIn, StrandedIn, NextQueued,
           HeadPayable;
      if !reset {
        PlainRunIn(b0, b1, Shelved(), a in dirty, HeadTerms(), a);
      } else if !proceeds {
        GivenUpRunIn(b0, b1, Shelved(), HeadTerms(), a);
      } else {
        GaplessIs(ListOf(s.pending, a), was(a), NonceIn(s.virtual, was, a));
        ResetRunIn(b0, b1, Shelved(), was(a), HeadTerms(), a);
      }
    }

    /** Started lists without a gap are executable. */
    lemma StartedExecutable()
      requires AllStarted()
      ensures forall a :: GaplessAt(a) ==> Executable(ListOf(pending, a), nonceOf(a), balanceOf(a), maxSmoke)
    {
      hide TooDear, ListOf, Solid, Contiguous;
      forall a | GaplessAt(a) ensures Executable(ListOf(pending, a), nonceOf(a), balanceOf(a), maxSmoke) {
        assert PendingStarted(a);
        GaplessIs(ListOf(pending, a), nonceOf(a), PendingNonce(a));
      }
    }

    /** Truncates and sets the pending nonces. */
    method Trim(beats: Addr -> int) returns (ghost level: nat)
      requires Valid()
      modifies this`pending, this`queue, this`virtual, all, priced
      ensures Valid() && (old(AllStarted()) ==> AllStarted())
      ensures LocalsKept(old(pending), old(queue), pending, queue, locals, nonceOf, balanceOf, maxSmoke)
      ensures Total(pending) <= config.globalSlots || forall a <- pending :: a !in locals ==>
        |pending[a]| <= config.accountSlots
      ensures Total(queue) <= config.globalQueue || forall a <- queue :: a in locals
      ensures FairlyCut(old(pending), pending, level)
      ensures if old(Total(queue)) <= config.globalQueue then queue == old(queue) else Total(queue) >= config.globalQueue
      ensures ByBeat(old(queue), queue, locals, beats)
      ensures forall a :: TrimmedTo(old(Shelved()), Shelved(), nonceOf, a)
      ensures forall a <- pending :: pending[a] != map[] && PendingNonce(a) == Highest(pending[a]) + 1
    {
      hide Inv, AllStarted, Total, LocalsKept, CutTo, CutShort, FairlyCut, ByBeat;
      ghost var p0, q0 := pending, queue;
      level := TrimPending();
      ghost var p1, v1 := pending, virtual;
      TrimQueue(beats);
      LocalsKeptOn(p0, q0, p1, q0, pending, queue, locals, nonceOf, balanceOf, maxSmoke);
      SetNonces();
      forall a ensures TrimmedTo(old(Shelved()), Shelved(), nonceOf, a) {
        assert CutTo(ListOf(p0, a), old(PendingNonce(a)), ListOf(pending, a), NonceIn(v1, nonceOf, a), nonceOf(a));
      }
    }

    /** Begins a run with the reset, if it is asked for and not given up. */
    method BeginRun(proceeds: bool, nonces: Addr -> nat, balances: Addr -> nat, smoke: nat, reinject: seq<Tx>,
                    valid: Tx -> bool) returns (ghost trace: seq<Shelves>)
      requires Valid()
      modifies this, all, priced
      ensures Valid() && locals == old(locals) && trace != [] && trace[|trace| - 1] == Shelved()
      ensures proceeds ==>
        && nonceOf == nonces && balanceOf == balances && maxSmoke == smoke
        && Reinjects(trace, EntryGate(), reinject, valid)
        && trace[0] == Books(old(pending), old(queue), map[])
      ensures proceeds ==>
        (forall a :: PendingNonce(a) <= nonceOf(a)) && forall a, lo: nat :: Solid(ListOf(old(pending), a), lo) ==> Solid(ListOf(pending, a), lo)
      ensures proceeds && reinject == [] ==> pending == old(pending) && queue == old(queue)
      ensures !proceeds ==>
        && nonceOf == old(nonceOf) && balanceOf == old(balanceOf) && maxSmoke == old(maxSmoke)
        && pending == old(pending) && queue == old(queue) && virtual == old(virtual) && trace == [old(Shelved())]
    {
      hide Inv, Solid, ListOf, AddStep;
      trace := [Shelved()];
      if proceeds {
        trace := Reset(nonces, balances, smoke, reinject, valid);
      }
    }

    /** One run of the pool's reorganisation; a reset either proceeds or is given up.  `trace` holds
        the shelves while transactions are taken back, its last entry being those the run works on;
        `b1` those before truncation.  Afterwards the pool is within its limits or holds nothing more
        it may drop, and every account that had no gap before comes out as specified. */
    method RunReorg(reset: bool, proceeds: bool, nonces: Addr -> nat, balances: Addr -> nat, smoke: nat,
                    reinject: seq<Tx>, valid: Tx -> bool,
                    dirty: seq<Addr>, beats: Addr -> int) returns (clean: bool, ghost trace: seq<Shelves>, ghost b1: Shelves, ghost level: nat)
      requires Valid() && NoRepeats(dirty)
      modifies this, all, priced
      ensures clean && Valid() && locals == old(locals)
      ensures reset ==>
        AllStarted() && forall a :: GaplessAt(a) ==> Executable(ListOf(pending, a), nonceOf(a), balanceOf(a), maxSmoke)
      ensures if reset && proceeds then nonceOf == nonces && balanceOf == balances && maxSmoke == smoke
              else nonceOf == old(nonceOf) && balanceOf == old(balanceOf) && maxSmoke == old(maxSmoke)
      ensures if reset && proceeds then
                Reinjects(trace, EntryGate(), reinject, valid) && trace[0] == Books(old(pending), old(queue), map[])
              else
                trace == [old(Shelved())]
      ensures forall a :: ArrangedIn(trace[|trace| - 1], b1, Treated(reset, dirty, a), reset, HeadTerms(), a)
      ensures forall a :: TrimmedTo(b1, Shelved(), nonceOf, a)
      ensures FairlyCut(b1.pending, pending, level)
      ensures if Total(b1.queue) <= config.globalQueue then queue == b1.queue else Total(queue) >= config.globalQueue
      ensures ByBeat(b1.queue, queue, locals, beats)
      ensures forall a :: old(GaplessAt(a)) ==>
        if !reset then PlainOutcome(old(Shelved()), dirty, a)
        else if !proceeds then GivenUpOutcome(old(Shelved()), a)
        else ResetOutcome(trace[|trace| - 1], b1, old(nonceOf)(a), a)
      ensures !reset || !proceeds || reinject == [] ==>
        LocalsKept(old(pending), old(queue), pending, queue, locals, nonceOf, balanceOf, maxSmoke)
      ensures reset && proceeds ==>
        forall a <- locals :: LosesOnlyTo(trace[0], Shelved(), reinject, config.priceBump, HeadTerms(), a)
      ensures Total(pending) <= config.globalSlots || forall a <- pending :: a !in locals ==>
        |pending[a]| <= config.accountSlots
      ensures Total(queue) <= config.globalQueue || forall a <- queue :: a in locals
      ensures forall a <- pending :: pending[a] != map[] && PendingNonce(a) == Highest(pending[a]) + 1
    {
      hide Inv, AllStarted, Total, NoRepeats, LocalsKept, LosesOnlyTo, Gapless, Solid, ListOf, Apart, ArrangedIn, TrimmedTo, Reinjects,
           PlainOutcome, GivenUpOutcome, ResetOutcome, Executable, FairlyCut, ByBeat;
      trace := BeginRun(reset && proceeds, nonces, balances, smoke, reinject, valid);
      var accounts := dirty;
      if reset {
        accounts := SortByBeat(queue.Keys, beats);
      }
      ghost var b0 := Shelved();
      AllApart();
      clean := Rearrange(reset, accounts);
      b1 := Shelved();
      forall a ensures ArrangedIn(b0, b1, Treated(reset, dirty, a), reset, HeadTerms(), a) {
        assert ArrangedIn(b0, b1, Treated(reset, accounts, a), reset, HeadTerms(), a);
      }
      level := Trim(beats);
      LocalsKeptOn(b0.pending, b0.queue, b1.pending, b1.queue, pending, queue, locals, nonceOf, balanceOf, maxSmoke);
      forall a | old(GaplessAt(a))
        ensures if !reset then PlainOutcome(old(Shelved()), dirty, a)
                else if !proceeds then GivenUpOutcome(old(Shelved()), a)
                else ResetOutcome(b0, b1, old(nonceOf)(a), a)
      {
        RunOutcome(old(Shelved()), old(nonceOf), b0, b1, reset, proceeds, dirty, a);
      }
      if reset {
        StartedExecutable();
      }
      if reset && proceeds {
        LocalsLose(trace, reinject, valid);
      }
    }

    lemma LocalsLose(trace: seq<Shelves>, reinject: seq<Tx>, valid: Tx -> bool)
      requires Reinjects(trace, EntryGate(), reinject, valid)
      requires LocalsKept(trace[|trace| - 1].pending, trace[|trace| - 1].queue, pending, queue, locals, nonceOf,
                          balanceOf, maxSmoke)
      ensures trace != []
      ensures forall a <- locals :: LosesOnlyTo(trace[0], Shelved(), reinject, config.priceBump, HeadTerms(), a)
    {
      hide AddStep, LocalsKept, LosesOnlyTo;
      forall a <- locals ensures LosesOnlyTo(trace[0], Shelved(), reinject, config.priceBump, HeadTerms(), a) {
        LocalLosses(trace, Shelved(), EntryGate(), reinject, valid, HeadTerms(), a);
      }
    }
  }

  /** Sorts accounts by heartbeat. */
  method SortByBeat(accounts: set<Addr>, beats: Addr -> int) returns (order: seq<Addr>)
    ensures NoRepeats(order) && forall a :: a in order <==> a in accounts
    ensures forall i, j :: 0 <= i < j < |order| ==> beats(order[i]) <= beats(order[j])
  {
    order := [];
    var todo := accounts;
    while todo != {}
      invariant todo <= accounts && NoRepeats(order) && forall a :: a in order <==> a in accounts && a !in todo
      invariant forall i, j :: 0 <= i < j < |order| ==> beats(order[i]) <= beats(order[j])
      invariant forall a <- todo, b <- order :: beats(a) <= beats(b)
      decreases todo
    {
      LatestExists(todo, beats);
      var a :| a in todo && IsLatest(todo, beats, a);
      order, todo := [a] + order, todo - {a};
    }
  }

  predicate IsLatest(s: set<Addr>, beats: Addr -> int, a: Addr) {
    a in s && forall b <- s :: beats(b) <= beats(a)
  }

  lemma {:induction false} LatestExists(s: set<Addr>, beats: Addr -> int)
    requires s != {}
    ensures exists a :: IsLatest(s, beats, a)
  {
    var k :| k in s;
    if s == {k} {
      assert IsLatest(s, beats, k);
    } else {
      LatestExists(s - {k}, beats);
      var r :| IsLatest(s - {k}, beats, r);
      assert s == (s - {k}) + {k};
      assert IsLatest(s, beats, if beats(k) >= beats(r) then k else r);
    }
  }

  lemma SoundRemovePart(pending: Shelf, queue: Shelf, localTxs: set<Tx>, remoteTxs: set<Tx>, heap: seq<Tx>, stales: int,
                        accounts: set<Addr>, removals: int, a: Addr, rest: Items, gone: Items, left: Items)
    requires Sound(pending, queue, localTxs, remoteTxs, heap, stales, accounts, Txs(rest), removals, {})
    requires Owned(rest, a) && Split(rest, gone, left)
    ensures Txs(gone) <= localTxs + remoteTxs
    ensures (localTxs - Txs(gone)) + (remoteTxs - Txs(gone)) == localTxs + remoteTxs - Txs(gone)
    ensures Sound(pending, queue, localTxs - Txs(gone), remoteTxs - Txs(gone), heap, stales, accounts, Txs(left),
                  removals + |gone|, {})
  {
    hide Sound, Split, Owned, Txs;
    SplitTxs(rest, a, gone, left);
    SoundRemove(pending, queue, localTxs, remoteTxs, heap, stales, accounts, Txs(rest), removals, Txs(gone));
  }

  lemma SoundRemove(pending: Shelf, queue: Shelf, localTxs: set<Tx>, remoteTxs: set<Tx>, heap: seq<Tx>, stales: int,
                    accounts: set<Addr>, loose: set<Tx>, removals: int, gone: set<Tx>)
    requires Sound(pending, queue, localTxs, remoteTxs, heap, stales, accounts, loose, removals, {}) && gone <= loose
    ensures gone <= localTxs + remoteTxs
    ensures Sound(pending, queue, localTxs - gone, remoteTxs - gone, heap, stales, accounts, loose - gone,
                  removals + |gone|, {})
  {
    Forget(pending, queue, localTxs + remoteTxs, loose, gone);
    assert (localTxs - gone) + (remoteTxs - gone) == localTxs + remoteTxs - gone;
    assert remoteTxs - gone - {} == remoteTxs - gone && remoteTxs - {} == remoteTxs;
    LessRemotes(remoteTxs, gone);
  }
}
