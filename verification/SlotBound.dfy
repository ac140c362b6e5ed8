/**
 The two ways in which the pool comes to hold more slots than its capacity.
 */
module SlotBounds {
  import opened Basics
  import opened Transactions
  import opened TxLists
  import opened PricedLists
  import opened PoolBooks
  import opened PoolSpecs
  import opened TxPools
  import SmokeAccounting
  import Sums

  // ---------- transactions that can be sent ----------

  /** Within the limits of validateTx even if the whole transaction is non-zero data. */
  predicate Sendable(tx: Tx, nonce: nat, balance: int, maxSmoke: nat, minPrice: nat) {
    && tx.size <= 4 * TX_SLOT_SIZE && tx.smoke <= maxSmoke && tx.price >= minPrice
    && nonce <= tx.nonce && tx.Cost() <= balance
    && SmokeAccounting.TX_SMOKE_CONTRACT_CREATION + 16 * tx.size <= tx.smoke < TWO64
  }

  /** Whatever it carries, such a transaction passes. */
  method Passes(tx: Tx, to: Option<Addr>, data: seq<SmokeAccounting.Byte>, w: SmokeAccounting.World, local: bool,
                maxSmoke: nat, minPrice: nat)
    returns (error: Option<SmokeAccounting.PoolError>)
    requires |data| <= tx.size
    requires Sendable(tx, SmokeAccounting.Nonce(w, tx.sender), SmokeAccounting.Balance(w, tx.sender), maxSmoke,
                      minPrice)
    ensures error.None?
  {
    DataBound(data);
    var m := SmokeAccounting.Msg(tx.sender, to, tx.nonce, tx.price, tx.smoke, tx.value, data, true);
    error := SmokeAccounting.ValidateTx(m, tx.size, local, w, minPrice, maxSmoke, true);
  }

  lemma {:induction false} DataBound(data: seq<SmokeAccounting.Byte>)
    ensures SmokeAccounting.DataSmoke(data, SmokeAccounting.Rules(true, true)) <= 16 * |data|
  {
    if data != [] {
      DataBound(data[..|data| - 1]);
    }
  }

  /** Every transaction the pool knows could have been sent at a minimal price. */
  ghost predicate AllSendable(pool: TxPool, minPrice: nat)
    reads pool, pool.all
  {
    forall t <- pool.Known() :: Sendable(t, pool.nonceOf(t.sender), pool.balanceOf(t.sender), pool.maxSmoke, minPrice)
  }

  const NONCES: Addr -> nat := (a: Addr) => 0
  const BALANCES: Addr -> nat := (a: Addr) => 9_000_000
  const MAX_SMOKE: nat := 5_000_000

  /** A transaction of an account at state nonce 0 that has to wait for another one, so that it stays
      queued, of the given price and size. */
  function Sent(a: Addr, price: nat, size: nat): Tx {
    Tx(0, a, 1, price, 3_000_000, 0, size)
  }

  lemma SentSlots(a: Addr, price: nat)
    ensures forall size: nat :: var tx := Sent(a, price, size); tx.sender == a && tx.nonce == 1 && tx.price == price
    ensures Sent(a, price, 100).Slots() == 1 && Sent(a, price, 2 * TX_SLOT_SIZE).Slots() == 2
    ensures Sent(a, price, 4 * TX_SLOT_SIZE).Slots() == 4
    ensures price <= 3 ==>
      forall size <- {100, 2 * TX_SLOT_SIZE, 4 * TX_SLOT_SIZE} :: Sendable(Sent(a, price, size), 0, 9_000_000, MAX_SMOKE, price)
  {
  }

  // ---------- fullness by number ----------

  /** A valid transaction of an account the pool does not know, while the pool is not full. */
  method AddFirst(pool: TxPool, tx: Tx) returns (r: AddResult)
    requires pool.Valid() && tx !in pool.Known() && !pool.Full(tx) && tx.sender !in pool.pending
    requires tx.sender !in pool.queue
    modifies pool`pending, pool`queue, pool`locals, pool`virtual, pool.all, pool.priced
    ensures pool.Valid() && r == Added(false) && pool.locals == old(pool.locals)
    ensures pool.Enlisted(tx, tx.sender in pool.locals)
    ensures pool.Known() == old(pool.Known()) + {tx} && pool.all.slots == old(pool.all.slots) + tx.Slots()
    ensures pool.pending == old(pool.pending) && pool.queue == old(pool.queue)[tx.sender := map[tx.nonce := tx]]
  {
    hide TxPool.Inv, Tx.Slots, TxPool.Full, LiveSlots, LiveOnce, PricedOut, Outbids, TxPool.Enlisted;
    var drop;
    ghost var mid;
    r, drop, mid := pool.Add(tx, false, true);
    assert ListOf(mid.queue, tx.sender) == map[] && ListOf(mid.pending, tx.sender) == map[];
    assert Elements<Tx>([]) == {} && Replaced(mid.pending, mid.queue, tx) == {} && Sums.Sum<Tx>({}, SLOTS) == 0;
  }

  /** The same for a local account: remotes and price heap are left alone. */
  method AddOwn(pool: TxPool, tx: Tx)
    requires pool.Valid() && tx !in pool.Known() && !pool.Full(tx) && tx.sender in pool.locals
    requires tx.sender !in pool.pending && tx.sender !in pool.queue
    modifies pool`pending, pool`queue, pool`locals, pool`virtual, pool.all, pool.priced
    ensures pool.Valid() && pool.locals == old(pool.locals)
    ensures pool.all.remotes == old(pool.all.remotes) && multiset(pool.priced.heap) == multiset(old(pool.priced.heap))
    ensures pool.Known() == old(pool.Known()) + {tx} && pool.all.slots == old(pool.all.slots) + tx.Slots()
    ensures |pool.Known()| == |old(pool.Known())| + 1
    ensures pool.pending == old(pool.pending) && pool.queue == old(pool.queue)[tx.sender := map[tx.nonce := tx]]
  {
    hide TxPool.Inv, TxPool.Valid, TxPool.Known, TxPool.Full, Tx.Slots;
    var r := AddFirst(pool, tx);
  }

  /** The pool counts transactions to tell whether it is full, so that large ones fill it to almost
      four times its capacity. */
  method UnderCount(n: nat) returns (pool: TxPool)
    ensures pool.Valid() && pool.Capacity() == n + 3 && pool.all.slots == 4 * n && AllSendable(pool, 1)
  {
    hide TxPool.Inv, TxPool.Valid, TxPool.Known, TxPool.Enlisted, TxPool.Full, TxPool.GaplessAt, Sums.Sum, Tx.Slots,
         Sent, Sendable;
    pool := new TxPool(Config(10, 16, n, 64, 3), {}, NONCES, BALANCES, MAX_SMOKE);
    KnowsNone(pool);
    for i := 0 to n
      invariant fresh(pool) && fresh(pool.all) && fresh(pool.priced) && pool.Valid() && pool.Capacity() == n + 3
      invariant pool.nonceOf == NONCES && pool.balanceOf == BALANCES && pool.maxSmoke == MAX_SMOKE
      invariant pool.all.slots == 4 * i && |pool.Known()| == i && pool.locals == {}
      invariant forall t <- pool.Known() :: t.sender < i && Sendable(t, 0, 9_000_000, MAX_SMOKE, 1)
      invariant pool.pending == map[] && forall a <- pool.queue :: a < i
    {
      var tx := Sent(i, 1, 4 * TX_SLOT_SIZE);
      SentSlots(i, 1);
      pool.FullMeans(tx);
      var r := AddFirst(pool, tx);
    }
  }

  // ---------- a transaction listed twice ----------

  lemma KnowsNone(pool: TxPool)
    requires pool.all.locals == {} && pool.all.remotes == {}
    ensures pool.Known() == {}
  {
  }

  lemma OneSum(tx: Tx)
    ensures Sums.Sum({tx}, SLOTS) == tx.Slots() && Sums.Sum<Tx>({}, SLOTS) == 0
  {
    hide Tx.Slots;
    Sums.SumRemove({tx}, SLOTS, tx);
    assert {tx} - {tx} == {};
  }

  const WANTED: Tx := Sent(0, 2, 100)

  /** The wanted transaction and cheaper ones, of the first `n` accounts, each listed once. */
  ghost predicate Crowd(remotes: set<Tx>, heap: seq<Tx>, queue: Shelf, n: nat) {
    && |remotes| == |heap| == n && WANTED in remotes && multiset(heap)[WANTED] == 1
    && (forall u <- remotes :: u.sender < n && (u == WANTED || u.price == 1))
    && (forall a <- queue :: a < n) && 0 in queue && queue[0] == map[1 := WANTED]
  }

  lemma CrowdFirst(heap: seq<Tx>)
    requires Listed([], heap, WANTED, false)
    ensures Crowd({WANTED}, heap, map[WANTED.sender := map[WANTED.nonce := WANTED]], 1)
  {
    ListedMeans([], heap, WANTED, false);
  }

  lemma CrowdMore(remotes: set<Tx>, heap0: seq<Tx>, heap: seq<Tx>, queue: Shelf, n: nat, tx: Tx)
    requires Crowd(remotes, heap0, queue, n) && Listed(heap0, heap, tx, false) && tx.sender == n && tx.price == 1
    ensures tx !in remotes && Crowd(remotes + {tx}, heap, queue[tx.sender := map[tx.nonce := tx]], n + 1)
  {
    ListedMeans(heap0, heap, tx, false);
  }

  /** A pool for five slots with local accounts 4 to 7, and `n` remote transactions of one slot. */
  ghost predicate Gathered(pool: TxPool, n: nat)
    reads pool, pool.all, pool.priced
  {
    && pool.Valid() && pool.Capacity() == 5 && pool.locals == {4, 5, 6, 7} && pool.pending == map[]
    && pool.all.slots == n && pool.all.locals == {} && pool.priced.stales == 0
    && Crowd(pool.all.remotes, pool.priced.heap, pool.queue, n)
  }

  lemma ListedMeans(heap0: seq<Tx>, heap: seq<Tx>, tx: Tx, local: bool)
    requires Listed(heap0, heap, tx, local)
    ensures |heap| == |heap0| + if local then 0 else 1
    ensures forall t :: multiset(heap)[t] == multiset(heap0)[t] + if !local && t == tx then 1 else 0
  {
    assert |multiset(heap)| == |heap| && |multiset(heap0)| == |heap0|;
  }

  method GatherFirst() returns (pool: TxPool)
    ensures fresh(pool) && fresh(pool.all) && fresh(pool.priced) && Gathered(pool, 1)
  {
    hide TxPool.Inv, TxPool.Valid, TxPool.Full, TxPool.GaplessAt, Crowd, Listed, Sums.Sum, Tx.Slots, Sent;
    pool := new TxPool(Config(10, 16, 3, 64, 2), {4, 5, 6, 7}, NONCES, BALANCES, MAX_SMOKE);
    SentSlots(0, 2);
    KnowsNone(pool);
    pool.FullMeans(WANTED);
    var r := AddFirst(pool, WANTED);
    CrowdFirst(pool.priced.heap);
  }

  method GatherNext(pool: TxPool, n: nat)
    requires Gathered(pool, n) && 0 < n < 4
    modifies pool`pending, pool`queue, pool`locals, pool`virtual, pool.all, pool.priced
    ensures Gathered(pool, n + 1)
  {
    hide TxPool.Inv, TxPool.Valid, TxPool.Full, Crowd, Listed, Sums.Sum, Tx.Slots, Sent;
    var tx := Sent(n, 1, 100);
    SentSlots(n, 1);
    CrowdMeans(pool.all.remotes, pool.priced.heap, pool.queue, n);
    assert pool.Known() == pool.all.remotes;
    pool.FullMeans(tx);
    ghost var remotes, heap, queue := pool.all.remotes, pool.priced.heap, pool.queue;
    var r := AddFirst(pool, tx);
    CrowdMore(remotes, heap, pool.priced.heap, queue, n, tx);
  }

  lemma CrowdMeans(remotes: set<Tx>, heap: seq<Tx>, queue: Shelf, n: nat)
    requires Crowd(remotes, heap, queue, n)
    ensures |remotes| == |heap| == n && (forall u <- remotes :: u.sender < n && (u == WANTED || u.price == 1))
    ensures forall a <- queue :: a < n
    ensures WANTED in remotes && multiset(heap)[WANTED] == 1 && 0 in queue && queue[0] == map[1 := WANTED]
  {
  }

  /** A transaction is queued, and it is the only one of its account. */
  ghost predicate Alone(pending: Shelf, queue: Shelf, tx: Tx) {
    tx.sender !in pending && tx.sender in queue && queue[tx.sender] == map[tx.nonce := tx]
  }

  lemma AloneGone(pending: Shelf, queue: Shelf, tx: Tx)
    requires Alone(pending, queue, tx)
    ensures Kept(pending, tx) == pending && Requeued(pending, queue, tx) == queue - {tx.sender}
    ensures (queue - {tx.sender})[tx.sender := map[tx.nonce := tx]] == queue
  {
    assert map[tx.nonce := tx] - {tx.nonce} == map[];
  }

  /** A remote transaction, the only one of its account, is evicted: the price heap keeps its entry, if
      few enough entries are stale. */
  method Evict(pool: TxPool, tx: Tx)
    requires pool.Valid() && tx in pool.all.remotes && pool.priced.stales + 1 <= |pool.priced.heap| / 4
    requires Alone(pool.pending, pool.queue, tx)
    modifies pool`pending, pool`queue, pool`virtual, pool.all, pool.priced
    ensures pool.Valid() && pool.pending == old(pool.pending) && pool.queue == old(pool.queue) - {tx.sender}
    ensures pool.all.locals == old(pool.all.locals) && pool.all.remotes == old(pool.all.remotes) - {tx}
    ensures pool.all.slots == old(pool.all.slots) - tx.Slots() && |pool.Known()| == |old(pool.Known())| - 1
    ensures tx !in pool.Known()
    ensures pool.priced.heap == old(pool.priced.heap) && pool.priced.stales == old(pool.priced.stales) + 1
  {
    hide TxPool.Inv, TxPool.GaplessAt, Alone, Kept, Requeued, Renonced, Sums.Sum, Tx.Slots;
    Sides(pool, tx);
    AloneGone(pool.pending, pool.queue, tx);
    ghost var known := pool.Known();
    Sums.SumRemove(known, SLOTS, tx);
    var clean := pool.RemoveTx(tx, true, {});
    assert pool.Known() == known - {tx};
    Sides(pool, tx);
  }

  /** A remote transaction, the only one of its account, is evicted and sent again: it is on the price
      heap once more, if few enough entries are stale. */
  method SendAgain(pool: TxPool, tx: Tx)
    requires pool.Valid() && tx in pool.all.remotes && pool.priced.stales + 1 <= |pool.priced.heap| / 4
    requires Alone(pool.pending, pool.queue, tx) && |pool.Known()| - 1 + tx.Slots() <= pool.Capacity()
    modifies pool`pending, pool`queue, pool`locals, pool`virtual, pool.all, pool.priced
    ensures pool.Valid() && pool.locals == old(pool.locals) && pool.pending == old(pool.pending)
    ensures pool.queue == old(pool.queue)
    ensures pool.all.locals == old(pool.all.locals) && pool.all.remotes == old(pool.all.remotes)
    ensures pool.all.slots == old(pool.all.slots)
    ensures Listed(old(pool.priced.heap), pool.priced.heap, tx, false)
    ensures pool.priced.stales == old(pool.priced.stales) + 1
  {
    hide TxPool.Inv, TxPool.Valid, TxPool.Known, TxPool.Full, Listed, Sums.Sum, Tx.Slots;
    Sides(pool, tx);
    AloneGone(pool.pending, pool.queue, tx);
    Evict(pool, tx);
    pool.FullMeans(tx);
    var r := AddFirst(pool, tx);
  }

  lemma Sides(pool: TxPool, tx: Tx)
    requires pool.Valid()
    ensures pool.all.locals !! pool.all.remotes && pool.all.slots == Sums.Sum(pool.Known(), SLOTS)
    ensures tx in pool.all.remotes ==> tx.sender !in pool.locals
  {
  }

  /** Nothing is left of the cheaper transactions once the minimal price is raised, and the wanted one
      is listed as often as before. */
  method RaisePrice(pool: TxPool)
    requires pool.Valid() && pool.all.locals == {} && WANTED in pool.all.remotes
    requires multiset(pool.priced.heap)[WANTED] == 2
    requires forall u <- pool.all.remotes :: u == WANTED || u.price == 1
    modifies pool`pending, pool`queue, pool`virtual, pool.all, pool.priced
    ensures pool.Valid() && pool.all.locals == {} && pool.all.remotes == {WANTED}
    ensures multiset(pool.priced.heap)[WANTED] == 2
    ensures pool.all.slots == 1 && (forall a <- pool.pending :: a == 0) && forall a <- pool.queue :: a == 0
  {
    hide TxPool.Inv, TxPool.GaplessAt, Dropped, Sums.Sum, Tx.Slots, Sent;
    SentSlots(0, 2);
    var clean;
    ghost var drop;
    clean, drop := pool.SetSmokePrice(2);
    OnlyOne(pool, WANTED);
  }

  lemma OnlyOne(pool: TxPool, tx: Tx)
    requires pool.Valid() && pool.Known() == {tx}
    ensures pool.all.slots == tx.Slots() && (forall a <- pool.pending :: a == tx.sender)
    ensures forall a <- pool.queue :: a == tx.sender
  {
    OneSum(tx);
    forall a | a in pool.pending || a in pool.queue ensures a == tx.sender {
      var items := if a in pool.pending then pool.pending[a] else pool.queue[a];
      var n :| n in items;
      assert HasSlot(pool.pending, a, n) || HasSlot(pool.queue, a, n);
      assert Placed(pool.pending, items[n]) || Placed(pool.queue, items[n]);
    }
  }

  /** The pool with the wanted transaction listed twice and local transactions of the accounts from 4
      up to `upto`, each of one slot. */
  ghost predicate Filled(pool: TxPool, upto: nat)
    reads pool, pool.all, pool.priced
  {
    && pool.Valid() && pool.Capacity() == 5 && pool.locals == {4, 5, 6, 7}
    && pool.all.remotes == {WANTED} && multiset(pool.priced.heap)[WANTED] == 2
    && pool.all.slots == |pool.Known()| == upto - 3
    && (forall t <- pool.Known() :: t.sender < upto) && (forall a <- pool.pending :: a < upto) && forall a <- pool.queue :: a < upto
  }

  method FillNext(pool: TxPool, a: nat)
    requires Filled(pool, a) && 4 <= a < 8
    modifies pool`pending, pool`queue, pool`locals, pool`virtual, pool.all, pool.priced
    ensures Filled(pool, a + 1)
  {
    hide TxPool.Inv, TxPool.Valid, TxPool.Known, TxPool.Full, Listed, Sums.Sum, Tx.Slots, Sent;
    var tx := Sent(a, 1, 100);
    SentSlots(a, 1);
    pool.FullMeans(tx);
    AddOwn(pool, tx);
  }

  /** A dearer transaction of an account the pool does not know, of two slots, in a full pool whose
      only remote is listed twice. */
  method Squeeze(pool: TxPool, cheap: Tx, dear: Tx) returns (r: AddResult)
    requires pool.Valid() && dear !in pool.Known() && dear.sender !in pool.pending && dear.sender !in pool.queue
    requires dear.sender !in pool.locals
    requires pool.all.remotes == {cheap} && cheap.sender != dear.sender && cheap.price < dear.price
    requires cheap.Slots() == 1 && dear.Slots() == 2
    requires pool.all.slots == |pool.Known()| == pool.Capacity() && multiset(pool.priced.heap)[cheap] == 2
    modifies pool`pending, pool`queue, pool`locals, pool`virtual, pool.all, pool.priced
    ensures pool.Valid() && r == Added(false) && pool.all.slots > pool.Capacity()
  {
    hide TxPool.Inv, TxPool.Full, TxPool.Enlisted, TxPool.GaplessAt, TxPool.AllSmall, Sums.Sum, Tx.Slots, LiveSlots,
         LiveOnce, Dropped, Outbids, SlotsOf, Front, AddStep, WorseThan, WorstFirst, KnownAfter;
    pool.FullMeans(dear);
    TwiceSlots(pool.priced.heap, cheap);
    ghost var before, known := pool.Shelved(), pool.Known();
    var drop;
    ghost var mid;
    r, drop, mid := pool.Add(dear, false, true);
    forall t <- drop ensures t == cheap {
      assert t in Elements(drop);
    }
    DroppedOthers(before, pool.nonceOf, known, drop, |drop|, dear.sender);
    SlotsLess({cheap}, Elements(drop));
    OneSum(cheap);
  }

  lemma TwiceSlots(heap: seq<Tx>, tx: Tx)
    requires multiset(heap)[tx] == 2
    ensures LiveSlots(heap, {tx}) == 2 * tx.Slots()
  {
    hide Tx.Slots;
    Sums.SumRemove({tx}, Weight(heap), tx);
    assert {tx} - {tx} == {};
  }

  /** The wanted transaction is sent and cheaper ones with it; it is evicted and sent again; the cheaper
      ones leave when the minimal price is raised; and local transactions fill the pool.  Then a
      dearer transaction of two slots enters, although dropping the wanted one frees only one. */
  method ListedTwice() returns (pool: TxPool, r: AddResult)
    ensures pool.Valid() && r == Added(false) && pool.Capacity() == 5 && pool.all.slots > 5
  {
    hide TxPool.Inv, TxPool.Valid, Crowd, Sums.Sum, Tx.Slots, Sent;
    SentSlots(0, 2);
    SentSlots(8, 3);
    pool := Twice();
    FillNext(pool, 4);
    FillNext(pool, 5);
    FillNext(pool, 6);
    FillNext(pool, 7);
    r := Squeeze(pool, WANTED, Sent(8, 3, 2 * TX_SLOT_SIZE));
  }

  /** The wanted transaction alone in the pool, and listed twice. */
  method Twice() returns (pool: TxPool)
    ensures fresh(pool) && fresh(pool.all) && fresh(pool.priced) && Filled(pool, 4)
  {
    hide TxPool.Inv, TxPool.Valid, Crowd, Listed, Sums.Sum, Tx.Slots, Sent;
    pool := GatherFirst();
    GatherNext(pool, 1);
    GatherNext(pool, 2);
    GatherNext(pool, 3);
    SentSlots(0, 2);
    CrowdMeans(pool.all.remotes, pool.priced.heap, pool.queue, 4);
    assert pool.Known() == pool.all.remotes;
    ghost var heap := pool.priced.heap;
    SendAgain(pool, WANTED);
    ListedMeans(heap, pool.priced.heap, WANTED, false);
    RaisePrice(pool);
  }
}
