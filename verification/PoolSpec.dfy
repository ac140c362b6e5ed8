/**
 What the pool's operations do to its shelves, pending nonces and lookup, on values.
 */
module PoolSpecs {
  import opened Basics
  import opened Transactions
  import opened SortedMaps
  import opened TxLists
  import opened PricedLists
  import opened PoolBooks
  import opened PoolLists
  import opened Fairness
  import Sums

  datatype AddResult = Added(replaced: bool) | AlreadyKnown | Rejected | Underpriced | Overflow | ReplaceUnderpriced

  /** The next nonce of an account, with its pending transactions applied. */
  function NonceIn(virtual: map<Addr, nat>, nonceOf: Addr -> nat, a: Addr): nat {
    if a in virtual then virtual[a] else nonceOf(a)
  }

  function Lowered(virtual: map<Addr, nat>, nonceOf: Addr -> nat, a: Addr, n: nat): map<Addr, nat> {
    if NonceIn(virtual, nonceOf, a) > n then virtual[a := n] else virtual
  }

  /** The pending nonces after removing a transaction. */
  function Renonced(pending: Shelf, virtual: map<Addr, nat>, nonceOf: Addr -> nat, tx: Tx): map<Addr, nat> {
    if HasSlot(pending, tx.sender, tx.nonce) then Lowered(virtual, nonceOf, tx.sender, tx.nonce) else virtual
  }

  datatype Shelves = Books(pending: Shelf, queue: Shelf, virtual: map<Addr, nat>)

  function Erased(b: Shelves, nonceOf: Addr -> nat, tx: Tx): Shelves {
    Books(Kept(b.pending, tx), Requeued(b.pending, b.queue, tx), Renonced(b.pending, b.virtual, nonceOf, tx))
  }

  lemma ErasedIs(b: Shelves, nonceOf: Addr -> nat, tx: Tx)
    ensures Erased(b, nonceOf, tx) == Books(Kept(b.pending, tx), Requeued(b.pending, b.queue, tx),
                                            Renonced(b.pending, b.virtual, nonceOf, tx))
  {
  }

  /** The books after removing the first `n` transactions of a list one after the other. */
  ghost function Dropped(b: Shelves, nonceOf: Addr -> nat, known: set<Tx>, drop: seq<Tx>, n: nat): Shelves
    requires n <= |drop|
  {
    if n == 0 then
      b
    else
      var before := Dropped(b, nonceOf, known, drop, n - 1);
      if drop[n - 1] in known && drop[n - 1] !in Elements(drop[..n - 1]) then Erased(before, nonceOf, drop[n - 1]) else before
  }

  /** Removing transactions leaves the accounts of others alone. */
  lemma {:induction false} DroppedOthers(b: Shelves, nonceOf: Addr -> nat, known: set<Tx>, drop: seq<Tx>, n: nat,
                                         a: Addr)
    requires n <= |drop| && forall t <- drop :: t.sender != a
    ensures var d := Dropped(b, nonceOf, known, drop, n); ListOf(d.pending, a) == ListOf(b.pending, a) && ListOf(d.queue, a) == ListOf(b.queue, a)
  {
    hide Erased, ListOf;
    if n > 0 {
      DroppedOthers(b, nonceOf, known, drop, n - 1, a);
      ErasedOthers(Dropped(b, nonceOf, known, drop, n - 1), nonceOf, drop[n - 1], a);
    }
  }

  lemma ErasedOthers(b: Shelves, nonceOf: Addr -> nat, tx: Tx, a: Addr)
    requires tx.sender != a
    ensures var d := Erased(b, nonceOf, tx); ListOf(d.pending, a) == ListOf(b.pending, a) && ListOf(d.queue, a) == ListOf(b.queue, a)
  {
  }

  lemma DroppedNone(b: Shelves, nonceOf: Addr -> nat, known: set<Tx>)
    ensures Dropped(b, nonceOf, known, [], 0) == b
  {
  }

  /** Pending lists only got shorter, and pending nonces followed: none lies above a dropped
      transaction, none rose, those of untouched lists stayed, and no gap opened. */
  ghost predicate Followed(p0: Shelf, v0: map<Addr, nat>, p: Shelf, v: map<Addr, nat>, nonceOf: Addr -> nat) {
    && (forall a :: SubItems(ListOf(p, a), ListOf(p0, a)))
    && (forall a, n {:trigger HasSlot(p0, a, n)} :: HasSlot(p0, a, n) && !HasSlot(p, a, n) ==> NonceIn(v, nonceOf, a) <= n)
    && (forall a :: NonceIn(v, nonceOf, a) <= NonceIn(v0, nonceOf, a))
    && (forall a :: ListOf(p, a) == ListOf(p0, a) ==> NonceIn(v, nonceOf, a) == NonceIn(v0, nonceOf, a))
    && (forall a :: Gapless(ListOf(p0, a), nonceOf(a), NonceIn(v0, nonceOf, a)) ==> Gapless(ListOf(p, a), nonceOf(a), NonceIn(v, nonceOf, a)))
  }

  lemma FollowedSame(p: Shelf, v: map<Addr, nat>, nonceOf: Addr -> nat)
    ensures Followed(p, v, p, v, nonceOf)
  {
  }

  lemma FollowedOn(p0: Shelf, v0: map<Addr, nat>, p1: Shelf, v1: map<Addr, nat>, p2: Shelf, v2: map<Addr, nat>,
                   nonceOf: Addr -> nat)
    requires Followed(p0, v0, p1, v1, nonceOf) && Followed(p1, v1, p2, v2, nonceOf)
    ensures Followed(p0, v0, p2, v2, nonceOf)
  {
    hide Gapless;
    forall a, n | HasSlot(p0, a, n) && !HasSlot(p2, a, n) ensures NonceIn(v2, nonceOf, a) <= n {
      assert HasSlot(p1, a, n) ==> NonceIn(v2, nonceOf, a) <= n;
    }
    forall a
      ensures SubItems(ListOf(p2, a), ListOf(p0, a))
      ensures ListOf(p2, a) == ListOf(p0, a) ==> ListOf(p1, a) == ListOf(p0, a)
    {
      assert SubItems(ListOf(p2, a), ListOf(p1, a)) && SubItems(ListOf(p1, a), ListOf(p0, a));
    }
  }

  lemma CappedFollowed(p: Shelf, v: map<Addr, nat>, nonceOf: Addr -> nat, a: Addr, h: nat)
    requires a in p && |p[a]| > 1 && h == Highest(p[a])
    ensures Followed(p, v, p[a := Capped(p[a], |p[a]| - 1)], Lowered(v, nonceOf, a, h), nonceOf)
  {
    hide Capped, Gapless;
    WithoutHighest(p[a], h);
    WithoutGapless(p[a], Capped(p[a], |p[a]| - 1), h, nonceOf(a), NonceIn(v, nonceOf, a));
  }

  lemma WithoutHighest(list: Items, h: nat)
    requires |list| > 1 && h == Highest(list)
    ensures h in list && h !in Capped(list, |list| - 1) && SubItems(Capped(list, |list| - 1), list)
    ensures forall n <- list :: n != h ==> n in Capped(list, |list| - 1)
  {
    hide Capped;
    CapOneParts(list, h);
  }

  lemma WithoutGapless(list: Items, kept: Items, h: nat, nonce: nat, next: nat)
    requires list != map[] && h == Highest(list) && h !in kept && SubItems(kept, list)
    requires forall n <- list :: n != h ==> n in kept
    ensures Gapless(list, nonce, next) ==> next == h + 1 && Gapless(kept, nonce, h)
  {
    if Gapless(list, nonce, next) {
      assert h in list && next - 1 in list;
    }
  }

  /** The pending shelf after removing a transaction. */
  function Kept(pending: Shelf, tx: Tx): Shelf {
    if HasSlot(pending, tx.sender, tx.nonce) then
      WithList(pending, tx.sender, Below(pending[tx.sender], tx.nonce))
    else
      pending
  }

  /** The queue after removing a transaction. */
  function Requeued(pending: Shelf, queue: Shelf, tx: Tx): Shelf {
    if HasSlot(pending, tx.sender, tx.nonce) then
      WithList(queue, tx.sender, ListOf(queue, tx.sender) + From(pending[tx.sender], tx.nonce + 1))
    else
      WithList(queue, tx.sender, ListOf(queue, tx.sender) - {tx.nonce})
  }

  /** What Insert does to the shelves. */
  ghost predicate Inserted(pending0: Shelf, queue0: Shelf, pending: Shelf, queue: Shelf, tx: Tx, priceBump: nat,
                           r: AddResult) {
    var a, n := tx.sender, tx.nonce;
    if HasSlot(pending0, a, n) then
      && r == (if Outbids(pending0[a][n], tx, priceBump) then Added(true) else ReplaceUnderpriced)
      && queue == queue0
      && pending == if r.Added? then WithList(pending0, a, ListOf(pending0, a)[n := tx]) else pending0
    else
      && r == (if Accepts(ListOf(queue0, a), tx, priceBump) then Added(HasSlot(queue0, a, n)) else ReplaceUnderpriced)
      && pending == pending0
      && queue == if r.Added? then WithList(queue0, a, ListOf(queue0, a)[n := tx]) else queue0
  }

  /** What adding a transaction depends on besides the shelves. */
  datatype Gate = Gate(nonceOf: Addr -> nat, priceBump: nat, locals: set<Addr>, capacity: nat)

  /** What admitting a transaction does to the shelves: some transactions are dropped to make room,
      none of a local account, then it is inserted. */
  ghost predicate AddsTo(b: Shelves, c: Shelves, g: Gate, tx: Tx, known: set<Tx>, drop: seq<Tx>, r: AddResult) {
    var mid := Dropped(b, g.nonceOf, known, drop, |drop|);
    && Elements(drop) <= known && (forall t <- drop :: t.sender !in g.locals)
    && Inserted(mid.pending, mid.queue, c.pending, c.queue, tx, g.priceBump, r) && c.virtual == mid.virtual
  }

  /** What adding a transaction does to the shelves when the `known` ones are on them: nothing if it is
      not valid or known; otherwise it is admitted, without a drop if the pool is not full; a full
      pool may refuse it unless it is local. */
  ghost predicate AddOutcome(b: Shelves, c: Shelves, g: Gate, tx: Tx, valid: bool, local: bool, known: set<Tx>) {
    var full := |known| + tx.Slots() > g.capacity;
    if !valid || tx in known then
      c == b
    else
      || (c == b && full && !local && tx.sender !in g.locals)
      || exists drop: seq<Tx>, r: AddResult :: AddsTo(b, c, g, tx, known, drop, r) && (!full ==> drop == [])
  }

  ghost predicate AddStep(b: Shelves, c: Shelves, g: Gate, tx: Tx, valid: bool, local: bool) {
    exists known: set<Tx> :: Coherent(b.pending, b.queue, known, {}) && AddOutcome(b, c, g, tx, valid, local, known)
  }

  lemma NoStep(b: Shelves, g: Gate, tx: Tx, valid: bool, local: bool, known: set<Tx>)
    requires Coherent(b.pending, b.queue, known, {})
    requires !valid || tx in known || (|known| + tx.Slots() > g.capacity && !local && tx.sender !in g.locals)
    ensures AddStep(b, b, g, tx, valid, local)
  {
    hide Coherent, AddsTo, Tx.Slots;
    assert AddOutcome(b, b, g, tx, valid, local, known);
  }

  lemma AddStepIs(b: Shelves, c: Shelves, g: Gate, tx: Tx, local: bool, known: set<Tx>, drop: seq<Tx>, r: AddResult)
    requires Coherent(b.pending, b.queue, known, {}) && tx !in known && AddsTo(b, c, g, tx, known, drop, r)
    requires |known| + tx.Slots() <= g.capacity ==> drop == []
    ensures AddStep(b, c, g, tx, true, local)
  {
    hide Coherent, AddsTo, Tx.Slots;
    assert AddOutcome(b, c, g, tx, true, local, known);
  }

  lemma DropsForeign(drop: seq<Tx>, remotes: set<Tx>, locals: set<Addr>)
    requires Elements(drop) <= remotes && forall t <- remotes :: t.sender !in locals
    ensures forall t <- drop :: t.sender !in locals
  {
    forall t <- drop ensures t in Elements(drop) {
    }
  }

  /** The shelves while remote transactions are added one after the other. */
  ghost predicate Reinjects(trace: seq<Shelves>, g: Gate, txs: seq<Tx>, valid: Tx -> bool) {
    && |trace| == |txs| + 1
    && forall i :: 0 <= i < |txs| ==> AddStep(trace[i], trace[i + 1], g, txs[i], valid(txs[i]), false)
  }

  lemma ReinjectsNone(b: Shelves, g: Gate, valid: Tx -> bool)
    ensures Reinjects([b], g, [], valid)
  {
  }

  lemma ReinjectsMore(trace: seq<Shelves>, next: Shelves, g: Gate, txs: seq<Tx>, n: nat, valid: Tx -> bool)
    requires n < |txs| && Reinjects(trace, g, txs[..n], valid) && AddStep(trace[n], next, g, txs[n], valid(txs[n]), false)
    ensures Reinjects(trace + [next], g, txs[..n + 1], valid)
  {
    hide AddStep;
    var longer := trace + [next];
    forall i | 0 <= i < n + 1 ensures AddStep(longer[i], longer[i + 1], g, txs[i], valid(txs[i]), false) {
      if i < n {
        assert AddStep(trace[i], trace[i + 1], g, txs[..n][i], valid(txs[..n][i]), false);
      }
    }
  }

  /** The transaction, if any, that a new one takes the place of. */
  ghost function Replaced(pending0: Shelf, queue0: Shelf, tx: Tx): set<Tx> {
    Prior(ListOf(if HasSlot(pending0, tx.sender, tx.nonce) then pending0 else queue0, tx.sender), tx.nonce)
  }

  /** The known transactions after Insert: the new one, without the one it replaced. */
  ghost function KnownAfter(pending0: Shelf, queue0: Shelf, known: set<Tx>, tx: Tx, r: AddResult): set<Tx> {
    if r.Added? then known - Replaced(pending0, queue0, tx) + {tx} else known
  }

  /** A transaction is turned away exactly if one with its nonce is there, pending or else queued, whose
      price it does not raise enough. */
  lemma InsertedRaises(p0: Shelf, q0: Shelf, p: Shelf, q: Shelf, tx: Tx, priceBump: nat, r: AddResult)
    requires Inserted(p0, q0, p, q, tx, priceBump, r)
    ensures r == ReplaceUnderpriced <==> exists t :: t in Replaced(p0, q0, tx) && !Raises(t.price, tx.price, priceBump)
    ensures r.Added? ==> (r.replaced <==> Replaced(p0, q0, tx) != {})
  {
    hide Outbids, Raises;
    forall t {
      OutbidsRaises(t, tx, priceBump);
    }
  }

  lemma ReplacedKnown(pending0: Shelf, queue0: Shelf, known: set<Tx>, tx: Tx)
    requires Coherent(pending0, queue0, known, {})
    ensures Replaced(pending0, queue0, tx) <= known
  {
    hide Coherent;
    PriorKnown(pending0, queue0, known, tx.sender, tx.nonce);
  }

  /** The slots of the known transactions after a transaction was added or not. */
  lemma SlotsAdded(known: set<Tx>, drop: set<Tx>, mid: Shelves, tx: Tx, r: AddResult, after: set<Tx>)
    requires drop <= known && tx !in known && Replaced(mid.pending, mid.queue, tx) <= known - drop
    requires after == KnownAfter(mid.pending, mid.queue, known - drop, tx, r)
    ensures r.Added? ==>
      Sums.Sum(after, SLOTS) == Sums.Sum(known, SLOTS) - Sums.Sum(drop, SLOTS) - Sums.Sum(Replaced(mid.pending, mid.queue, tx), SLOTS) + tx.Slots()
    ensures r.Added? ==> Sums.Sum(after, SLOTS) <= Sums.Sum(known, SLOTS) + tx.Slots()
    ensures !r.Added? ==> Sums.Sum(after, SLOTS) <= Sums.Sum(known, SLOTS)
  {
    hide Replaced, Tx.Slots, Sums.Sum;
    if r.Added? {
      SlotsAfter(known, drop, Replaced(mid.pending, mid.queue, tx), tx);
      SlotsPositive(drop);
      SlotsPositive(Replaced(mid.pending, mid.queue, tx));
    } else {
      SlotsLess(known, after);
    }
  }

  lemma KnownMeans(pending0: Shelf, queue0: Shelf, known: set<Tx>, tx: Tx)
    ensures forall r :: KnownAfter(pending0, queue0, known, tx, r) <= known + {tx}
    ensures forall r: AddResult :: r.Added? ==>
      KnownAfter(pending0, queue0, known, tx, r) == known - Replaced(pending0, queue0, tx) + {tx}
    ensures forall r: AddResult :: r.Added? ==> tx in KnownAfter(pending0, queue0, known, tx, r)
  {
  }

  /** What stays queued after promotion. */
  function Waiting(payable: Items, from: nat, upto: nat, local: bool, limit: nat): Items {
    if local then Outside(payable, from, upto) else Capped(Outside(payable, from, upto), limit)
  }

  lemma SlotIsOwn(pending: Shelf, queue: Shelf, known: set<Tx>, a: Addr, n: nat)
    requires Coherent(pending, queue, known, {}) && HasSlot(queue, a, n)
    ensures var tx := queue[a][n]; tx.sender == a && tx.nonce == n && tx in known && !HasSlot(pending, a, n)
  {
    assert Placed(queue, queue[a][n]);
  }

  lemma HasList(m: Shelf, a: Addr, items: Items)
    requires ListOf(m, a) == items && items != map[]
    ensures a in m && m[a] == items
  {
  }

  method LowestNonce(m: Shelf, a: Addr) returns (n: nat)
    requires Tidy(m) && a in m
    ensures n in m[a]
  {
    n := Lowest(m[a]);
  }

  /** The queue after some of the accounts in `order`, from the end down to `i`, were truncated:
      they are empty, apart from the last one treated when there is nothing left to drop. */
  ghost predicate Truncated(q0: Shelf, q: Shelf, order: seq<Addr>, i: nat, drop: nat) {
    && i <= |order|
    && (forall a <- q :: a in q0 && q[a] == Capped(q0[a], |q[a]|))
    && (forall a <- q0 :: a !in order[i..] ==> a in q && q[a] == q0[a])
    && (forall k :: (if drop > 0 then i - 1 else i) < k < |order| ==> order[k] !in q)
  }

  lemma TruncatedHas(q0: Shelf, q: Shelf, order: seq<Addr>, i: nat, drop: nat)
    requires Truncated(q0, q, order, i, drop) && 0 < i && NoRepeats(order) && forall a <- order :: a in q0
    ensures order[i - 1] in q && q[order[i - 1]] == q0[order[i - 1]]
  {
    assert order[i - 1] !in order[i..];
  }

  lemma TruncatedNext(q0: Shelf, q: Shelf, order: seq<Addr>, i: nat, drop: nat, left: nat)
    requires i < |order| && Truncated(q0, q, order, i + 1, drop) && drop > 0 && NoRepeats(order)
    requires order[i] in q && q[order[i]] == q0[order[i]] && left == if |q[order[i]]| <= drop then 0 else |q[order[i]]| - drop
    ensures Truncated(q0, WithList(q, order[i], Capped(q[order[i]], left)), order, i, drop - (|q[order[i]]| - left))
  {
    hide Capped;
    var a := order[i];
    CappedShape(q[a], left);
    assert order[i..] == [a] + order[i + 1..];
  }

  lemma TruncatedStart(q: Shelf, order: seq<Addr>)
    ensures forall drop: nat :: Truncated(q, q, order, |order|, drop)
  {
    forall a <- q ensures q[a] == Capped(q[a], |q[a]|) {
      CapWhole(q[a]);
    }
  }

  lemma TruncatedMeans(q0: Shelf, q: Shelf, order: seq<Addr>, i: nat, drop: nat)
    requires Truncated(q0, q, order, i, drop)
    ensures forall a <- q :: a in q0 && q[a] == Capped(q0[a], |q[a]|)
    ensures forall a <- q0 :: a !in order[i..] ==> a in q && q[a] == q0[a]
    ensures forall k :: i < k < |order| ==> order[k] !in q
    ensures drop > 0 && i == 0 ==> forall a <- q :: a !in order
  {
  }

  /** Queued transactions leave by heartbeat, the most recently active accounts first: as long as an
      account has some left, those active before it keep all of theirs. */
  ghost predicate ByBeat(q0: Shelf, q: Shelf, locals: set<Addr>, beats: Addr -> int) {
    forall a, b :: a in q0 && b in q && a !in locals && b !in locals && beats(a) < beats(b) ==> a in q && q[a] == q0[a]
  }

  lemma TruncatedByBeat(q0: Shelf, q: Shelf, order: seq<Addr>, from: nat, locals: set<Addr>, beats: Addr -> int)
    requires from <= |order| && NoRepeats(order) && (forall a :: a in order <==> a in q0 && a !in locals)
    requires forall i, j :: 0 <= i < j < |order| ==> beats(order[i]) <= beats(order[j])
    requires forall a <- q :: a in q0
    requires forall a <- q0 :: a !in order[from..] ==> a in q && q[a] == q0[a]
    requires forall i :: from < i < |order| ==> order[i] !in q
    ensures ByBeat(q0, q, locals, beats)
  {
    forall a, b | a in q0 && b in q && a !in locals && b !in locals && beats(a) < beats(b)
      ensures a in q && q[a] == q0[a]
    {
      var i, j :| 0 <= i < |order| && order[i] == a && 0 <= j < |order| && order[j] == b;
      assert i < j <= from;
      assert a !in order[from..];
    }
  }

  ghost predicate Settled(list: Items, nonce: nat, balance: nat, smoke: nat, next: nat, local: bool, limit: nat) {
    && (forall n <- list :: nonce <= n && n > next && !TooDear(list[n], balance, smoke))
    && (!local ==> |list| <= limit)
  }

  /** Neither too old nor too dear. */
  predicate Current(tx: Tx, nonce: nat, balance: nat, smoke: nat) {
    tx.nonce >= nonce && !TooDear(tx, balance, smoke)
  }

  /** Every current transaction of two lists of an account is still in one of them. */
  ghost predicate Keeps(p0: Items, q0: Items, p: Items, q: Items, nonce: nat, balance: nat, smoke: nat) {
    forall tx :: (tx in Txs(p0) || tx in Txs(q0)) && Current(tx, nonce, balance, smoke) ==> tx in Txs(p) || tx in Txs(q)
  }

  /** No local account loses a current transaction. */
  ghost predicate LocalsKept(p0: Shelf, q0: Shelf, p: Shelf, q: Shelf, locals: set<Addr>, nonceOf: Addr -> nat,
                             balanceOf: Addr -> nat, smoke: nat) {
    forall a <- locals :: Keeps(ListOf(p0, a), ListOf(q0, a), ListOf(p, a), ListOf(q, a), nonceOf(a), balanceOf(a),
                                smoke)
  }

  lemma LocalsKeptOn(p0: Shelf, q0: Shelf, p1: Shelf, q1: Shelf, p2: Shelf, q2: Shelf, locals: set<Addr>,
                     nonceOf: Addr -> nat, balanceOf: Addr -> nat, smoke: nat)
    requires LocalsKept(p0, q0, p1, q1, locals, nonceOf, balanceOf, smoke)
    requires LocalsKept(p1, q1, p2, q2, locals, nonceOf, balanceOf, smoke)
    ensures LocalsKept(p0, q0, p2, q2, locals, nonceOf, balanceOf, smoke)
  {
    hide Txs, ListOf, Current;
  }

  lemma LocalsSame(p0: Shelf, q0: Shelf, p: Shelf, q: Shelf, locals: set<Addr>, nonceOf: Addr -> nat,
                   balanceOf: Addr -> nat, smoke: nat)
    requires forall a <- locals :: ListOf(p, a) == ListOf(p0, a) && ListOf(q, a) == ListOf(q0, a)
    ensures LocalsKept(p0, q0, p, q, locals, nonceOf, balanceOf, smoke)
  {
    hide Txs, ListOf, Current;
  }

  /** Two lists of one account, without a nonce in common. */
  ghost predicate Apart(p: Items, q: Items, a: Addr) {
    Owned(p, a) && Owned(q, a) && p.Keys !! q.Keys
  }

  lemma PromoteKeeps(p0: Items, q0: Items, start: nat, p: Items, q: Items, next: nat, nonce: nat, balance: nat,
                     smoke: nat, limit: nat, a: Addr)
    requires PromotedTo(p0, q0, start, p, q, next, nonce, balance, smoke, true, limit) && Apart(p0, q0, a)
    ensures Keeps(p0, q0, p, q, nonce, balance, smoke)
  {
    hide TooDear, IsReady;
    var payable := Affordable(From(q0, nonce), false, balance, smoke);
    var from: nat, upto: nat :| p == p0 + Between(payable, from, upto) && q == Outside(payable, from, upto);
    forall tx | (tx in Txs(p0) || tx in Txs(q0)) && Current(tx, nonce, balance, smoke)
      ensures tx in Txs(p) || tx in Txs(q)
    {
      TxsHas(p0, a, tx);
      TxsHas(q0, a, tx);
      TxsHas(p, a, tx);
      TxsHas(q, a, tx);
    }
  }

  lemma DemoteKeeps(p0: Items, q0: Items, p: Items, q: Items, nonce: nat, balance: nat, smoke: nat, a: Addr)
    requires DemotedTo(p0, q0, p, q, nonce, balance, smoke) && Apart(p0, q0, a)
    ensures Keeps(p0, q0, p, q, nonce, balance, smoke)
  {
    hide TooDear, Affordable, Invalidated;
    PendingParts(p0, nonce, balance, smoke);
    var current := From(p0, nonce);
    var kept, invalids := Affordable(current, true, balance, smoke), Invalidated(current, true, balance, smoke);
    assert SubItems(kept, p0) && SubItems(invalids, p0);
    forall tx | (tx in Txs(p0) || tx in Txs(q0)) && Current(tx, nonce, balance, smoke)
      ensures tx in Txs(p) || tx in Txs(q)
    {
      TxsHas(p0, a, tx);
      TxsHas(q0, a, tx);
      TxsHas(p, a, tx);
      TxsHas(q, a, tx);
      if tx in Txs(p0) {
        assert tx.nonce in current && tx.nonce !in Dear(current, balance, smoke);
        assert tx.nonce in kept || tx.nonce in Unkept(current, kept);
      }
    }
  }

  lemma LocalsUntouched(p0: Shelf, p: Shelf, locals: set<Addr>, allowance: nat)
    requires p == p0 || (p.Keys == p0.Keys && forall a <- p0 :: a !in Offenders(p0, locals, allowance) ==> p[a] == p0[a])
    ensures forall a <- locals :: ListOf(p, a) == ListOf(p0, a)
  {
  }

  /** What promotion makes of one account's lists and pending nonce: from `p0`, `q0` and `start` to
      `p`, `q` and `next`. */
  ghost predicate PromotedTo(p0: Items, q0: Items, start: nat, p: Items, q: Items, next: nat,
                             nonce: nat, balance: nat, smoke: nat, local: bool, limit: nat)
  {
    var payable := Affordable(From(q0, nonce), false, balance, smoke);
    exists from: nat, upto: nat ::
      && IsReady(payable, start, from, upto) && p == p0 + Between(payable, from, upto)
      && q == Waiting(payable, from, upto, local, limit) && next == if from < upto then upto else start
  }

  lemma PromotedIs(p0: Items, q0: Items, start: nat, from: nat, upto: nat, nonce: nat, balance: nat, smoke: nat,
                   local: bool, limit: nat)
    ensures var payable := Affordable(From(q0, nonce), false, balance, smoke);
      IsReady(payable, start, from, upto) ==>
        && PromotedTo(p0, q0, start, p0 + Between(payable, from, upto), Waiting(payable, from, upto, local, limit),
                      if from < upto then upto else start, nonce, balance, smoke, local, limit)
        && Settled(Waiting(payable, from, upto, local, limit), nonce, balance, smoke,
                   if from < upto then upto else start, local, limit)
    ensures q0 == map[] ==>
      PromotedTo(p0, q0, start, p0, q0, start, nonce, balance, smoke, local, limit) && Settled(q0, nonce, balance, smoke, start, local, limit)
  {
    WaitingSettled(q0, nonce, balance, smoke, start, from, upto, local, limit);
    hide Affordable, Settled, Capped;
    if q0 == map[] {
      PromoteNothing(p0, start, nonce, balance, smoke, local, limit);
    }
  }

  lemma PromoteNothing(p0: Items, start: nat, nonce: nat, balance: nat, smoke: nat, local: bool, limit: nat)
    ensures PromotedTo(p0, map[], start, p0, map[], start, nonce, balance, smoke, local, limit)
  {
    var payable := Affordable(From(map[], nonce), false, balance, smoke);
    assert payable == map[];
    assert IsReady(payable, start, start, start) && p0 + Between(payable, start, start) == p0;
    assert Outside(payable, start, start) == map[];
    assert Waiting(payable, start, start, local, limit) == map[];
  }

  /** What demotion makes of one account's lists. */
  ghost predicate DemotedTo(p0: Items, q0: Items, p: Items, q: Items, nonce: nat, balance: nat, smoke: nat) {
    var kept := Affordable(From(p0, nonce), true, balance, smoke);
    var invalids := Invalidated(From(p0, nonce), true, balance, smoke);
    && p == (if nonce in kept then kept else map[])
    && q == q0 + invalids + if nonce in kept then map[] else kept
  }

  /** What promotion, if the account is treated, and demotion after a reset make of its lists and
      pending nonce. */
  ghost predicate ArrangedTo(p0: Items, q0: Items, start: nat, p: Items, q: Items, next: nat, active: bool, reset: bool,
                             nonce: nat, balance: nat, smoke: nat, local: bool, limit: nat)
  {
    exists p1, q1 ::
      PromotedIf(active, p0, q0, start, p1, q1, next, nonce, balance, smoke, local, limit) && DemotedIf(reset, p1, q1, p, q, nonce, balance, smoke)
  }

  ghost predicate PromotedIf(active: bool, p0: Items, q0: Items, start: nat, p: Items, q: Items, next: nat,
                             nonce: nat, balance: nat, smoke: nat, local: bool, limit: nat)
  {
    if active then PromotedTo(p0, q0, start, p, q, next, nonce, balance, smoke, local, limit) else p == p0 && q == q0 && next == start
  }

  ghost predicate DemotedIf(reset: bool, p0: Items, q0: Items, p: Items, q: Items, nonce: nat, balance: nat,
                            smoke: nat) {
    if reset then DemotedTo(p0, q0, p, q, nonce, balance, smoke) else p == p0 && q == q0
  }

  /** The head state and what else the treatment of an account depends on. */
  datatype Terms = Terms(nonceOf: Addr -> nat, balanceOf: Addr -> nat, smoke: nat, locals: set<Addr>, limit: nat)

  /** A run treats the given accounts, after a reset all of them. */
  predicate Treated(reset: bool, accounts: seq<Addr>, a: Addr) {
    reset || a in accounts
  }

  ghost predicate ArrangedIn(b0: Shelves, b: Shelves, active: bool, reset: bool, t: Terms, a: Addr) {
    ArrangedTo(ListOf(b0.pending, a), ListOf(b0.queue, a), NonceIn(b0.virtual, t.nonceOf, a),
               ListOf(b.pending, a), ListOf(b.queue, a), NonceIn(b.virtual, t.nonceOf, a), active, reset,
               t.nonceOf(a), t.balanceOf(a), t.smoke, a in t.locals, t.limit)
  }

  lemma DemoteNothing(pending: Shelf, queue: Shelf, nonceOf: Addr -> nat, balanceOf: Addr -> nat, smoke: nat)
    ensures forall a :: a !in pending ==>
      && DemotedTo(ListOf(pending, a), ListOf(queue, a), ListOf(pending, a), ListOf(queue, a), nonceOf(a), balanceOf(a),
                   smoke)
      && Started(ListOf(pending, a), nonceOf(a), balanceOf(a), smoke)
  {
    forall a | a !in pending
      ensures DemotedTo(ListOf(pending, a), ListOf(queue, a), ListOf(pending, a), ListOf(queue, a), nonceOf(a),
                        balanceOf(a), smoke)
    {
      assert From(map[], nonceOf(a)) == map[];
    }
  }

  /** Promotion leaves nothing in the queue that should not be there. */
  lemma WaitingSettled(list: Items, nonce: nat, balance: nat, smoke: nat, start: nat, from: nat, upto: nat, local: bool,
                       limit: nat)
    ensures var payable := Affordable(From(list, nonce), false, balance, smoke);
      && (IsReady(payable, start, from, upto) ==>
            Settled(Waiting(payable, from, upto, local, limit), nonce, balance, smoke,
                    if from < upto then upto else start, local, limit))
      && (list == map[] ==> Settled(list, nonce, balance, smoke, start, local, limit))
  {
    hide TooDear, Capped;
    var payable := Affordable(From(list, nonce), false, balance, smoke);
    if IsReady(payable, start, from, upto) {
      RestLater(payable, start, from, upto);
    }
    CappedShape(Outside(payable, from, upto), limit);
  }

  lemma RestLater(items: Items, start: nat, from: nat, upto: nat)
    requires IsReady(items, start, from, upto)
    ensures forall n <- Outside(items, from, upto) :: n > if from < upto then upto else start
  {
  }

  /** The list starts at the state nonce and everything in it is payable; it may have gaps. */
  ghost predicate Started(list: Items, nonce: nat, balance: nat, smoke: nat) {
    list != map[] ==> nonce in list && forall n <- list :: n >= nonce && !TooDear(list[n], balance, smoke)
  }

  /** Consecutive from the state nonce, and each payable by itself.  When all of them can be paid is
      stated by `SmokeAccounting.BatchExecutes`. */
  ghost predicate Executable(list: Items, nonce: nat, balance: nat, smoke: nat) {
    Solid(list, nonce) && forall n <- list :: !TooDear(list[n], balance, smoke)
  }

  lemma DemotedStarted(list: Items, nonce: nat, balance: nat, smoke: nat)
    ensures var kept := Affordable(From(list, nonce), true, balance, smoke);
      Started(if nonce in kept then kept else map[], nonce, balance, smoke)
  {
  }
}
