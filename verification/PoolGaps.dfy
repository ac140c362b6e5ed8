/**
 Gaps in pending lists: every operation of the pool keeps an account's pending nonces consecutive,
 except a reset, for which the exact condition is given; and which transactions a reorganisation
 run leaves queued although they come next.
 */
module PoolGaps {
  import opened Basics
  import opened Transactions
  import opened SortedMaps
  import opened TxLists
  import opened PricedLists
  import opened PoolBooks
  import opened PoolLists
  import opened Fairness
  import opened PoolSpecs

  // ---------- single transactions ----------

  ghost predicate GaplessIn(b: Shelves, nonceOf: Addr -> nat, a: Addr) {
    Gapless(ListOf(b.pending, a), nonceOf(a), NonceIn(b.virtual, nonceOf, a))
  }

  /** Removing a transaction opens no gap: what follows it goes back to the queue, and the pending
      nonce with it. */
  lemma ErasedGapless(b: Shelves, nonceOf: Addr -> nat, tx: Tx, a: Addr, lo: nat)
    ensures GaplessIn(b, nonceOf, a) ==> GaplessIn(Erased(b, nonceOf, tx), nonceOf, a)
    ensures Solid(ListOf(b.pending, a), lo) ==> Solid(ListOf(Erased(b, nonceOf, tx).pending, a), lo)
    ensures NonceIn(Erased(b, nonceOf, tx).virtual, nonceOf, a) <= NonceIn(b.virtual, nonceOf, a)
  {
    var list := ListOf(b.pending, a);
    WithListTwice(b.pending, a, Below(list, tx.nonce), map[]);
  }

  lemma {:induction false} DroppedGapless(b: Shelves, nonceOf: Addr -> nat, known: set<Tx>, drop: seq<Tx>, n: nat,
                                          a: Addr, lo: nat)
    requires n <= |drop|
    ensures var d := Dropped(b, nonceOf, known, drop, n);
      && (GaplessIn(b, nonceOf, a) ==> GaplessIn(d, nonceOf, a))
      && (Solid(ListOf(b.pending, a), lo) ==> Solid(ListOf(d.pending, a), lo))
      && NonceIn(d.virtual, nonceOf, a) <= NonceIn(b.virtual, nonceOf, a)
  {
    hide Erased, GaplessIn, Solid, ListOf, NonceIn;
    if n > 0 {
      DroppedGapless(b, nonceOf, known, drop, n - 1, a, lo);
      ErasedGapless(Dropped(b, nonceOf, known, drop, n - 1), nonceOf, drop[n - 1], a, lo);
    }
  }

  /** A new transaction only replaces a pending one. */
  lemma InsertedGapless(p0: Shelf, q0: Shelf, p: Shelf, q: Shelf, tx: Tx, priceBump: nat, r: AddResult, a: Addr)
    requires Inserted(p0, q0, p, q, tx, priceBump, r)
    ensures forall n: nat :: n in ListOf(p, a) <==> n in ListOf(p0, a)
  {
    hide Outbids;
  }

  /** A new transaction leaves every account's pending nonces as consecutive as they were. */
  lemma AddGapless(b: Shelves, nonceOf: Addr -> nat, known: set<Tx>, drop: seq<Tx>, p: Shelf, q: Shelf, tx: Tx,
                   priceBump: nat, r: AddResult, a: Addr, lo: nat)
    ensures var mid := Dropped(b, nonceOf, known, drop, |drop|);
      Inserted(mid.pending, mid.queue, p, q, tx, priceBump, r) ==>
        && (GaplessIn(b, nonceOf, a) ==> GaplessIn(Books(p, q, mid.virtual), nonceOf, a))
        && (Solid(ListOf(b.pending, a), lo) ==> Solid(ListOf(p, a), lo))
        && NonceIn(mid.virtual, nonceOf, a) <= NonceIn(b.virtual, nonceOf, a)
  {
    hide Dropped, ListOf, NonceIn, Inserted;
    DroppedGapless(b, nonceOf, known, drop, |drop|, a, lo);
    var mid := Dropped(b, nonceOf, known, drop, |drop|);
    if Inserted(mid.pending, mid.queue, p, q, tx, priceBump, r) {
      InsertedGapless(mid.pending, mid.queue, p, q, tx, priceBump, r, a);
    }
  }

  lemma AddStepGapless(b: Shelves, c: Shelves, g: Gate, tx: Tx, valid: bool, local: bool, a: Addr, lo: nat)
    requires AddStep(b, c, g, tx, valid, local)
    ensures GaplessIn(b, g.nonceOf, a) ==> GaplessIn(c, g.nonceOf, a)
    ensures Solid(ListOf(b.pending, a), lo) ==> Solid(ListOf(c.pending, a), lo)
    ensures NonceIn(c.virtual, g.nonceOf, a) <= NonceIn(b.virtual, g.nonceOf, a)
  {
    hide Inserted, Dropped, GaplessIn, Solid, ListOf, NonceIn, Coherent, Elements, Tx.Slots;
    if c != b {
      var known: set<Tx> :| Coherent(b.pending, b.queue, known, {}) && AddOutcome(b, c, g, tx, valid, local, known);
      var drop: seq<Tx>, r :| AddsTo(b, c, g, tx, known, drop, r);
      AddGapless(b, g.nonceOf, known, drop, c.pending, c.queue, tx, g.priceBump, r, a, lo);
      assert c == Books(c.pending, c.queue, c.virtual);
    }
  }

  /** Adding transactions leaves consecutive lists consecutive, whatever the state nonce is, and
      raises no pending nonce. */
  lemma {:induction false} ReinjectsGapless(trace: seq<Shelves>, g: Gate, txs: seq<Tx>, valid: Tx -> bool, i: nat,
                                            a: Addr, lo: nat)
    requires Reinjects(trace, g, txs, valid) && i <= |txs|
    ensures Solid(ListOf(trace[0].pending, a), lo) ==> Solid(ListOf(trace[i].pending, a), lo)
    ensures NonceIn(trace[i].virtual, g.nonceOf, a) <= NonceIn(trace[0].virtual, g.nonceOf, a)
  {
    hide AddStep, Solid, ListOf, NonceIn;
    if i > 0 {
      ReinjectsGapless(trace, g, txs, valid, i - 1, a, lo);
      var tx := txs[i - 1];
      assert AddStep(trace[i - 1], trace[i - 1 + 1], g, tx, valid(tx), false);
      AddStepGapless(trace[i - 1], trace[i], g, tx, valid(tx), false, a, lo);
    }
  }

  // ---------- drops from the end ----------

  /** Every pending transaction of the account is remote, and all have one price. */
  ghost predicate OnePrice(list: Items, remotes: set<Tx>, price: nat) {
    forall n <- list :: list[n] in remotes && list[n].price == price
  }

  /** An account has lost exactly the dropped ones of its pending transactions, all from the end of the
      list, and nothing of it went back to the queue. */
  ghost predicate LosesEnd(p0: Items, q0: Items, p: Items, q: Items, drop: set<Tx>) {
    && SubItems(p, p0) && (forall n <- p0 :: n in p <==> p0[n] !in drop)
    && (forall n <- p0, m <- p0 :: n <= m && p0[n] in drop ==> p0[m] in drop)
    && SubItems(q, q0)
  }

  /** Halfway through the drops. */
  ghost predicate EndGoing(p0: Items, q0: Items, p: Items, q: Items, gone: set<Tx>) {
    SubItems(p, p0) && (forall n <- p0 :: n in p <==> p0[n] !in gone) && SubItems(q, q0)
  }

  /** The next dropped transaction is the last of its account. */
  lemma NextIsLast(list: Items, drop: seq<Tx>, i: nat, remotes: set<Tx>, price: nat, n: nat, a: Addr)
    requires i < |drop| && WorstFirst(drop) && WorseThan(drop, remotes - Elements(drop))
    requires OnePrice(list, remotes, price) && Owned(list, a) && n in list && drop[i].nonce < n
    requires drop[i].price == price
    ensures list[n] in Elements(drop[..i])
  {
    var u := list[n];
    assert drop[i] in drop;
    assert u in drop || u in remotes - Elements(drop);
    var j :| 0 <= j < |drop| && drop[j] == u;
    assert j < i && drop[..i][j] == u;
  }

  lemma PendingEnd(p0: Items, q0: Items, p: Items, q: Items, gone: set<Tx>, tx: Tx, a: Addr)
    requires EndGoing(p0, q0, p, q, gone) && Owned(p0, a) && tx.nonce in p0 && p0[tx.nonce] == tx
    requires forall n <- p :: n <= tx.nonce
    ensures EndGoing(p0, q0, Below(p, tx.nonce), q + From(p, tx.nonce + 1), gone + {tx})
  {
  }

  lemma QueuedEnd(p0: Items, q0: Items, p: Items, q: Items, gone: set<Tx>, tx: Tx, a: Addr)
    requires EndGoing(p0, q0, p, q, gone) && Owned(p0, a) && tx.nonce !in p0
    ensures EndGoing(p0, q0, p, q - {tx.nonce}, gone + {tx})
  {
  }

  lemma ErasedLists(d: Shelves, nonceOf: Addr -> nat, tx: Tx)
    ensures var a, e := tx.sender, Erased(d, nonceOf, tx);
      if tx.nonce in ListOf(d.pending, a) then
        && ListOf(e.pending, a) == Below(ListOf(d.pending, a), tx.nonce)
        && ListOf(e.queue, a) == ListOf(d.queue, a) + From(ListOf(d.pending, a), tx.nonce + 1)
      else
        ListOf(e.pending, a) == ListOf(d.pending, a) && ListOf(e.queue, a) == ListOf(d.queue, a) - {tx.nonce}
  {
    hide Below, From;
  }

  lemma EraseEnd(b: Shelves, d: Shelves, nonceOf: Addr -> nat, drop: seq<Tx>, i: nat, remotes: set<Tx>, price: nat,
                 a: Addr)
    requires i < |drop| && WorstFirst(drop) && WorseThan(drop, remotes - Elements(drop))
    requires OnePrice(ListOf(b.pending, a), remotes, price) && Owned(ListOf(b.pending, a), a)
    requires drop[i].sender == a && drop[i] !in Elements(drop[..i])
    requires drop[i].nonce in ListOf(b.pending, a) ==> ListOf(b.pending, a)[drop[i].nonce] == drop[i]
    requires EndGoing(ListOf(b.pending, a), ListOf(b.queue, a), ListOf(d.pending, a), ListOf(d.queue, a),
                      Elements(drop[..i]))
    ensures var e := Erased(d, nonceOf, drop[i]);
      EndGoing(ListOf(b.pending, a), ListOf(b.queue, a), ListOf(e.pending, a), ListOf(e.queue, a),
               Elements(drop[..i]) + {drop[i]})
  {
    var p0, q0, p, q := ListOf(b.pending, a), ListOf(b.queue, a), ListOf(d.pending, a), ListOf(d.queue, a);
    var tx, gone := drop[i], Elements(drop[..i]);
    ErasedLists(d, nonceOf, tx);
    hide WorstFirst, WorseThan, Elements, Erased, ListOf;
    if tx.nonce in p0 {
      forall n <- p ensures n <= tx.nonce {
        if tx.nonce < n {
          NextIsLast(p0, drop, i, remotes, price, n, a);
        }
      }
      PendingEnd(p0, q0, p, q, gone, tx, a);
    } else {
      QueuedEnd(p0, q0, p, q, gone, tx, a);
    }
  }

  lemma {:induction false} DropsGoing(b: Shelves, nonceOf: Addr -> nat, known: set<Tx>, drop: seq<Tx>, i: nat,
                                      remotes: set<Tx>, price: nat, a: Addr)
    requires Coherent(b.pending, b.queue, known, {}) && i <= |drop| && Elements(drop) <= remotes <= known
    requires WorstFirst(drop) && WorseThan(drop, remotes - Elements(drop))
    requires OnePrice(ListOf(b.pending, a), remotes, price)
    ensures var d := Dropped(b, nonceOf, known, drop, i);
      EndGoing(ListOf(b.pending, a), ListOf(b.queue, a), ListOf(d.pending, a), ListOf(d.queue, a), Elements(drop[..i]))
  {
    hide WorstFirst, WorseThan, OnePrice, Erased;
    if i > 0 {
      var tx, d := drop[i - 1], Dropped(b, nonceOf, known, drop, i - 1);
      DropsGoing(b, nonceOf, known, drop, i - 1, remotes, price, a);
      ElementsStep(drop, i - 1);
      assert tx in Elements(drop);
      hide Elements, Coherent, EndGoing;
      if tx !in Elements(drop[..i - 1]) {
        PlacedOrNot(b, known, tx);
        ListOwned(b.pending, a);
        if tx.sender == a {
          EraseEnd(b, d, nonceOf, drop, i - 1, remotes, price, a);
        } else {
          ErasedOthers(d, nonceOf, tx, a);
          NoneOfAccount(b, ListOf(d.pending, a), ListOf(d.queue, a), Elements(drop[..i - 1]), tx, a);
        }
      } else {
        assert Elements(drop[..i]) == Elements(drop[..i - 1]);
      }
    }
  }

  lemma NoneOfAccount(b: Shelves, p: Items, q: Items, gone: set<Tx>, tx: Tx, a: Addr)
    requires Owned(ListOf(b.pending, a), a) && tx.sender != a
    requires EndGoing(ListOf(b.pending, a), ListOf(b.queue, a), p, q, gone)
    ensures EndGoing(ListOf(b.pending, a), ListOf(b.queue, a), p, q, gone + {tx})
  {
  }

  lemma PlacedOrNot(b: Shelves, known: set<Tx>, tx: Tx)
    requires Coherent(b.pending, b.queue, known, {}) && tx in known
    ensures Tidy(b.pending)
    ensures tx.nonce in ListOf(b.pending, tx.sender) ==> ListOf(b.pending, tx.sender)[tx.nonce] == tx
  {
    assert !(HasSlot(b.pending, tx.sender, tx.nonce) && HasSlot(b.queue, tx.sender, tx.nonce));
  }

  /** An account whose pending transactions are remote and of one price loses only the end of its list
      when room is made. */
  lemma DropsLoseEnd(b: Shelves, nonceOf: Addr -> nat, known: set<Tx>, drop: seq<Tx>, remotes: set<Tx>,
                     price: nat, a: Addr)
    requires Coherent(b.pending, b.queue, known, {}) && Elements(drop) <= remotes <= known
    requires WorstFirst(drop) && WorseThan(drop, remotes - Elements(drop))
    requires OnePrice(ListOf(b.pending, a), remotes, price)
    ensures var d := Dropped(b, nonceOf, known, drop, |drop|);
      LosesEnd(ListOf(b.pending, a), ListOf(b.queue, a), ListOf(d.pending, a), ListOf(d.queue, a), Elements(drop))
  {
    hide Dropped, WorstFirst, WorseThan;
    DropsGoing(b, nonceOf, known, drop, |drop|, remotes, price, a);
    assert drop[..|drop|] == drop;
    BothOwned(b, known, a);
    var list := ListOf(b.pending, a);
    forall n <- list, m <- list | n <= m && list[n] in Elements(drop) ensures list[m] in Elements(drop) {
      var i :| 0 <= i < |drop| && drop[i] == list[n];
      if n < m {
        NextIsLast(list, drop, i, remotes, price, m, a);
      }
    }
  }

  // ---------- local accounts ----------

  /** A transaction takes the place of another: of the same account and nonce, and outbidding it. */
  predicate Replaces(tx: Tx, older: Tx, priceBump: nat) {
    tx.sender == older.sender && tx.nonce == older.nonce && Outbids(older, tx, priceBump)
  }

  /** An account has the transaction, pending or queued. */
  ghost predicate Holds(b: Shelves, a: Addr, t: Tx) {
    t in Txs(ListOf(b.pending, a)) || t in Txs(ListOf(b.queue, a))
  }

  /** A local account keeps its transactions when one is added, except one that is outbid by it. */
  lemma AddStepLocal(b: Shelves, c: Shelves, g: Gate, tx: Tx, valid: bool, local: bool, a: Addr, t: Tx)
    requires AddStep(b, c, g, tx, valid, local) && a in g.locals && Holds(b, a, t)
    ensures Holds(c, a, t) || Replaces(tx, t, g.priceBump)
  {
    hide Inserted, Dropped, ListOf, Coherent, Elements, Tx.Slots, Txs, Outbids;
    if c != b {
      var known: set<Tx> :| Coherent(b.pending, b.queue, known, {}) && AddOutcome(b, c, g, tx, valid, local, known);
      var drop: seq<Tx>, r :| AddsTo(b, c, g, tx, known, drop, r);
      var mid := Dropped(b, g.nonceOf, known, drop, |drop|);
      DroppedOthers(b, g.nonceOf, known, drop, |drop|, a);
      BothOwned(b, known, a);
      InsertedLocal(mid, c, tx, g.priceBump, r, a, t);
    }
  }

  /** One of the transactions has taken the place of another. */
  ghost predicate Outbid(t: Tx, txs: seq<Tx>, priceBump: nat) {
    exists i :: 0 <= i < |txs| && Replaces(txs[i], t, priceBump)
  }

  /** A local account loses a transaction only to one of those taken back that outbids it. */
  lemma {:induction false} ReinjectsLocal(trace: seq<Shelves>, g: Gate, txs: seq<Tx>, valid: Tx -> bool, i: nat,
                                          a: Addr, t: Tx)
    requires Reinjects(trace, g, txs, valid) && i <= |txs| && a in g.locals && Holds(trace[0], a, t)
    ensures Holds(trace[i], a, t) || Outbid(t, txs, g.priceBump)
  {
    hide AddStep, Holds, Replaces;
    if i > 0 {
      ReinjectsLocal(trace, g, txs, valid, i - 1, a, t);
      var tx := txs[i - 1];
      assert AddStep(trace[i - 1], trace[i - 1 + 1], g, tx, valid(tx), false);
      if Holds(trace[i - 1], a, t) {
        AddStepLocal(trace[i - 1], trace[i], g, tx, valid(tx), false, a, t);
      }
    }
  }

  /** Every current transaction of an account is still there, unless one of `txs` outbids it. */
  ghost predicate LosesOnlyTo(b0: Shelves, b: Shelves, txs: seq<Tx>, priceBump: nat, terms: Terms, a: Addr) {
    forall t :: Holds(b0, a, t) && Current(t, terms.nonceOf(a), terms.balanceOf(a), terms.smoke) ==>
      Holds(b, a, t) || Outbid(t, txs, priceBump)
  }

  /** Local accounts after a run on shelves that came about by taking transactions back. */
  lemma LocalLosses(trace: seq<Shelves>, b: Shelves, g: Gate, txs: seq<Tx>, valid: Tx -> bool, terms: Terms, a: Addr)
    requires Reinjects(trace, g, txs, valid) && a in g.locals && g.locals == terms.locals
    requires LocalsKept(trace[|txs|].pending, trace[|txs|].queue, b.pending, b.queue, terms.locals, terms.nonceOf,
                        terms.balanceOf, terms.smoke)
    ensures LosesOnlyTo(trace[0], b, txs, g.priceBump, terms, a)
  {
    hide AddStep, Txs, ListOf, Current, Outbid;
    var last := trace[|txs|];
    assert Keeps(ListOf(last.pending, a), ListOf(last.queue, a), ListOf(b.pending, a), ListOf(b.queue, a),
                 terms.nonceOf(a), terms.balanceOf(a), terms.smoke);
    forall t | Holds(trace[0], a, t) && Current(t, terms.nonceOf(a), terms.balanceOf(a), terms.smoke)
      ensures Holds(b, a, t) || Outbid(t, txs, g.priceBump)
    {
      ReinjectsLocal(trace, g, txs, valid, |txs|, a, t);
    }
  }

  lemma BothOwned(b: Shelves, known: set<Tx>, a: Addr)
    requires Coherent(b.pending, b.queue, known, {})
    ensures Owned(ListOf(b.pending, a), a) && Owned(ListOf(b.queue, a), a)
  {
    ListOwned(b.pending, a);
    ListOwned(b.queue, a);
  }

  lemma InsertedLocal(b: Shelves, c: Shelves, tx: Tx, priceBump: nat, r: AddResult, a: Addr, t: Tx)
    requires Inserted(b.pending, b.queue, c.pending, c.queue, tx, priceBump, r) && Holds(b, a, t)
    requires Owned(ListOf(b.pending, a), a) && Owned(ListOf(b.queue, a), a)
    ensures Holds(c, a, t) || Replaces(tx, t, priceBump)
  {
    hide Outbids, Txs;
    TxsHas(ListOf(b.pending, a), a, t);
    TxsHas(ListOf(b.queue, a), a, t);
    forall items: Items | t.nonce in items && items[t.nonce] == t ensures t in Txs(items) {
      TxsMember(items, t.nonce);
    }
  }

  lemma TxsMember(items: Items, n: nat)
    requires n in items
    ensures items[n] in Txs(items)
  {
  }

  // ---------- promotion ----------

  /** The parts a promotion works with: the payable queue and the run taken from it. */
  lemma PromotionParts(p0: Items, q0: Items, start: nat, p: Items, q: Items, next: nat, nonce: nat, balance: nat,
                       smoke: nat, local: bool, limit: nat, a: Addr)
    returns (payable: Items, from: nat, upto: nat)
    requires PromotedTo(p0, q0, start, p, q, next, nonce, balance, smoke, local, limit) && Apart(p0, q0, a)
    ensures payable == Affordable(From(q0, nonce), false, balance, smoke)
    ensures q == Waiting(payable, from, upto, local, limit)
    ensures IsReady(payable, start, from, upto) && next == if from < upto then upto else start
    ensures p == p0 + Between(payable, from, upto) && SubItems(q, Outside(payable, from, upto)) && SubItems(payable, q0)
    ensures forall n <- payable :: nonce <= n && n !in p0 && !TooDear(payable[n], balance, smoke)
  {
    hide TooDear, Capped;
    payable := Affordable(From(q0, nonce), false, balance, smoke);
    from, upto :| IsReady(payable, start, from, upto) && p == p0 + Between(payable, from, upto)
      && q == Waiting(payable, from, upto, local, limit) && next == if from < upto then upto else start;
    CappedShape(Outside(payable, from, upto), limit);
  }

  lemma PromotedApart(p0: Items, q0: Items, start: nat, p: Items, q: Items, next: nat, nonce: nat, balance: nat,
                      smoke: nat, local: bool, limit: nat, a: Addr)
    requires PromotedTo(p0, q0, start, p, q, next, nonce, balance, smoke, local, limit) && Apart(p0, q0, a)
    ensures Apart(p, q, a)
  {
    hide PromotedTo, IsReady, Affordable, TooDear, Waiting;
    var payable, from, upto := PromotionParts(p0, q0, start, p, q, next, nonce, balance, smoke, local, limit, a);
  }

  lemma PayableHas(list: Items, nonce: nat, balance: nat, smoke: nat, n: nat)
    ensures n in Affordable(From(list, nonce), false, balance, smoke) <==>
      n in list && nonce <= n && !TooDear(list[n], balance, smoke)
  {
  }

  /** A queue cut down to its limit, with nothing from a nonce on. */
  ghost predicate CutBefore(q: Items, n: nat, local: bool, limit: nat) {
    !local && |q| == limit && forall m <- q :: m < n
  }

  lemma WaitingCut(payable: Items, from: nat, upto: nat, local: bool, limit: nat, n: nat)
    requires n in Outside(payable, from, upto) && n !in Waiting(payable, from, upto, local, limit)
    ensures CutBefore(Waiting(payable, from, upto, local, limit), n, local, limit)
  {
    CappedShape(Outside(payable, from, upto), limit);
  }

  lemma PromotedSub(p0: Items, q0: Items, payable: Items, from: nat, upto: nat)
    requires SubItems(payable, q0) && p0.Keys !! q0.Keys
    ensures SubItems(p0 + Between(payable, from, upto), p0 + q0) && SubItems(p0, p0 + Between(payable, from, upto))
    ensures SubItems(Outside(payable, from, upto), q0)
    ensures forall n <- payable :: n in p0 + Between(payable, from, upto) || n in Outside(payable, from, upto)
  {
  }

  /** Promotion makes no transaction up, drops nothing pending, and loses a current transaction only to the
      limit of the account's queue, which is then full of lower nonces. */
  lemma PromoteLoses(p0: Items, q0: Items, start: nat, p: Items, q: Items, next: nat, nonce: nat, balance: nat,
                     smoke: nat, local: bool, limit: nat, a: Addr, n: nat)
    requires PromotedTo(p0, q0, start, p, q, next, nonce, balance, smoke, local, limit) && Apart(p0, q0, a)
    ensures SubItems(q, q0) && SubItems(p, p0 + q0) && SubItems(p0, p)
    ensures n in q0 && Current(q0[n], nonce, balance, smoke) ==> n in p || n in q || CutBefore(q, n, local, limit)
  {
    hide PromotedTo, Affordable, TooDear, Waiting, IsReady, CutBefore, Between, Outside;
    var payable, from, upto := PromotionParts(p0, q0, start, p, q, next, nonce, balance, smoke, local, limit, a);
    PayableHas(q0, nonce, balance, smoke, n);
    PromotedSub(p0, q0, payable, from, upto);
    if n in Outside(payable, from, upto) && n !in q {
      WaitingCut(payable, from, upto, local, limit, n);
    }
  }

  /** Promotion of a gapless account continues its list, and serves it: the next transaction is not
      left in the queue. */
  lemma PromotedGapless(p0: Items, q0: Items, start: nat, p: Items, q: Items, next: nat, nonce: nat, balance: nat,
                        smoke: nat, local: bool, limit: nat, a: Addr)
    requires PromotedTo(p0, q0, start, p, q, next, nonce, balance, smoke, local, limit) && Apart(p0, q0, a)
    requires Gapless(p0, nonce, start)
    ensures Gapless(p, nonce, next) && start <= next && forall n <- q :: n > next
    ensures forall n <- p :: (n in p0 && p[n] == p0[n]) || !TooDear(p[n], balance, smoke)
  {
    hide PromotedTo, Affordable, TooDear, Waiting;
    var payable, from, upto := PromotionParts(p0, q0, start, p, q, next, nonce, balance, smoke, local, limit, a);
    assert forall n <- payable :: n >= start;
    RestLater(payable, start, from, upto);
    assert from < upto ==> from in Between(payable, from, upto);
  }

  // ---------- demotion after a reset ----------

  /** Neither this transaction nor any before it, from the state nonce on, is too dear. */
  ghost predicate Fine(list: Items, nonce: nat, n: nat, balance: nat, smoke: nat) {
    n in list && nonce <= n && forall m <- list :: nonce <= m <= n ==> !TooDear(list[m], balance, smoke)
  }

  lemma KeptFine(list: Items, nonce: nat, n: nat, balance: nat, smoke: nat)
    ensures n in Affordable(From(list, nonce), true, balance, smoke) <==> Fine(list, nonce, n, balance, smoke)
  {
    hide TooDear;
    var current := From(list, nonce);
    var dear := Dear(current, balance, smoke);
    if Fine(list, nonce, n, balance, smoke) {
      assert n in current && n !in dear;
      if dear != map[] {
        var d := Lowest(dear);
        assert d in dear.Keys && d in current && TooDear(list[d], balance, smoke) && nonce <= d;
      }
    }
    if n in Affordable(current, true, balance, smoke) {
      forall m <- list | nonce <= m <= n ensures !TooDear(list[m], balance, smoke) {
        assert m in current;
        assert m in dear <==> TooDear(list[m], balance, smoke);
        assert m in dear ==> Lowest(dear) <= m;
      }
    }
  }

  lemma QueuedFine(list: Items, nonce: nat, n: nat, balance: nat, smoke: nat)
    ensures n in Invalidated(From(list, nonce), true, balance, smoke) <==>
      n in list && nonce <= n && !TooDear(list[n], balance, smoke) && n !in Affordable(From(list, nonce), true, balance, smoke)
  {
    hide TooDear;
    var dear := Dear(From(list, nonce), balance, smoke);
    if dear != map[] {
      assert Lowest(dear) in dear;
    }
  }

  /** What demotion keeps and what it queues, nonce by nonce. */
  lemma DemotionParts(p0: Items, q0: Items, p: Items, q: Items, nonce: nat, balance: nat, smoke: nat)
    requires DemotedTo(p0, q0, p, q, nonce, balance, smoke)
    ensures p != map[] <==> nonce in p0 && !TooDear(p0[nonce], balance, smoke)
    ensures SubItems(p, p0)
    ensures (p != map[] ==> nonce in p && forall n: nat :: n in p <==> Fine(p0, nonce, n, balance, smoke))
    ensures forall n: nat :: n in q <==>
      n in q0 || (n in p0 && nonce <= n && !TooDear(p0[n], balance, smoke) && n !in p)
  {
    hide TooDear, Affordable, Invalidated, From;
    AffordableSub(p0, nonce, balance, smoke);
    forall n: nat
      ensures n in Affordable(From(p0, nonce), true, balance, smoke) <==> Fine(p0, nonce, n, balance, smoke)
    {
      KeptFine(p0, nonce, n, balance, smoke);
    }
    forall n: nat {
      QueuedFine(p0, nonce, n, balance, smoke);
    }
    assert Fine(p0, nonce, nonce, balance, smoke) <==> nonce in p0 && !TooDear(p0[nonce], balance, smoke);
  }

  lemma AffordableSub(list: Items, nonce: nat, balance: nat, smoke: nat)
    ensures SubItems(Affordable(From(list, nonce), true, balance, smoke), list)
  {
  }

  /** After the pending nonces were set back to the state nonce or below, a run can only start at
      the state nonce. */
  lemma RunAt(payable: Items, start: nat, nonce: nat, from: nat, upto: nat)
    requires IsReady(payable, start, from, upto) && start <= nonce && forall n <- payable :: nonce <= n
    ensures start == nonce && nonce in payable ==>
      from == nonce < upto && upto !in payable && forall n: nat :: nonce <= n < upto ==> n in payable
    ensures !(start == nonce && nonce in payable) ==> from == upto
  {
    if exists n <- payable :: n <= start {
      assert from in Between(payable, from, upto);
      forall n: nat | from <= n < upto ensures n in payable {
        assert n in Between(payable, from, upto);
      }
    }
  }

  /** When an account's pending list has no gap after a reset: its pending nonce was not set back
      below the state nonce, unless the transaction at the state nonce is pending and payable; and
      if the state nonce fell below the nonce `was` at which the list began, then everything in
      between was taken back, if anything was and the list is still payable. */
  ghost predicate Bridged(p0: Items, q0: Items, start: nat, was: nat, nonce: nat, balance: nat, smoke: nat) {
    var payable := Affordable(From(q0, nonce), false, balance, smoke);
    && (start == nonce || (nonce in p0 && !TooDear(p0[nonce], balance, smoke)))
    && (nonce < was && nonce in payable && was in p0 && !TooDear(p0[was], balance, smoke) ==>
          forall n: nat :: nonce < n < was ==> n in payable)
  }

  lemma SolidOld(p0: Items, p: Items, was: nat, nonce: nat, balance: nat, smoke: nat)
    requires Solid(p0, was) && nonce in p0 && forall n: nat :: n in p <==> Fine(p0, nonce, n, balance, smoke)
    ensures was <= nonce && Solid(p, nonce)
  {
    hide TooDear;
    forall n, m: nat | n in p && nonce <= m < n ensures m in p {
      assert Fine(p0, nonce, n, balance, smoke);
      assert m in p0;
      assert Fine(p0, nonce, m, balance, smoke);
    }
  }

  /** The list after a run was put in front of it has no gap if the run reaches it, if there was no
      list, or if the list is cut off at its first transaction. */
  lemma SolidRun(p0: Items, payable: Items, p1: Items, p: Items, was: nat, nonce: nat, upto: nat, balance: nat,
                 smoke: nat)
    requires Solid(p0, was) && nonce < upto && nonce !in p0 && upto !in payable
    requires forall n: nat :: nonce <= n < upto ==> n in payable
    requires forall n <- payable :: n !in p0 && !TooDear(payable[n], balance, smoke)
    requires p1 == p0 + Between(payable, nonce, upto) && forall n: nat :: n in p <==> Fine(p1, nonce, n, balance, smoke)
    ensures Solid(p, nonce) <==>
      (nonce < was && was in p0 && !TooDear(p0[was], balance, smoke) ==> forall n: nat :: nonce < n < was ==> n in payable)
  {
    hide TooDear;
    var cut := !(nonce < was && was in p0 && !TooDear(p0[was], balance, smoke));
    if cut {
      OnlyRun(p0, payable, p1, p, was, nonce, upto, balance, smoke);
    } else {
      RunBridges(p0, payable, p1, p, was, nonce, upto, balance, smoke);
    }
  }

  /** The run is put in front of a list that is not cut off. */
  lemma RunBridges(p0: Items, payable: Items, p1: Items, p: Items, was: nat, nonce: nat, upto: nat, balance: nat,
                   smoke: nat)
    requires Solid(p0, was) && nonce < upto && nonce !in p0 && upto !in payable
    requires forall n: nat :: nonce <= n < upto ==> n in payable
    requires forall n <- payable :: n !in p0 && !TooDear(payable[n], balance, smoke)
    requires p1 == p0 + Between(payable, nonce, upto) && forall n: nat :: n in p <==> Fine(p1, nonce, n, balance, smoke)
    requires nonce < was && was in p0 && !TooDear(p0[was], balance, smoke)
    ensures Solid(p, nonce) <==> forall n: nat :: nonce < n < was ==> n in payable
  {
    hide TooDear;
    assert was <= upto ==> was == upto;
    assert Fine(p1, nonce, was, balance, smoke);
    if forall n: nat :: nonce < n < was ==> n in payable {
      assert forall m: nat :: nonce <= m < was ==> m in p1;
      forall n, m: nat | n in p && nonce <= m < n ensures m in p {
        FineBelow(p1, nonce, n, m, balance, smoke);
      }
    } else {
      var n: nat :| nonce < n < was && n !in payable;
      assert !Fine(p1, nonce, n, balance, smoke);
      assert was in p && n !in p;
    }
  }

  lemma FineBelow(list: Items, nonce: nat, n: nat, m: nat, balance: nat, smoke: nat)
    requires Fine(list, nonce, n, balance, smoke) && nonce <= m <= n && m in list
    ensures Fine(list, nonce, m, balance, smoke)
  {
  }

  lemma OnlyRun(p0: Items, payable: Items, p1: Items, p: Items, was: nat, nonce: nat, upto: nat, balance: nat,
                smoke: nat)
    requires Solid(p0, was) && nonce < upto && nonce !in p0 && forall n: nat :: nonce <= n < upto ==> n in payable
    requires forall n <- payable :: n !in p0 && !TooDear(payable[n], balance, smoke)
    requires p1 == p0 + Between(payable, nonce, upto) && forall n: nat :: n in p <==> Fine(p1, nonce, n, balance, smoke)
    requires !(nonce < was && was in p0 && !TooDear(p0[was], balance, smoke))
    ensures Contiguous(p, nonce, upto) && Solid(p, nonce)
  {
    hide TooDear;
    forall n: nat ensures n in p <==> nonce <= n < upto {
      if n in p0 && nonce <= n {
        assert was in p0 && nonce < was <= n;
        assert was in p1 && p1[was] == p0[was];
        assert !Fine(p1, nonce, n, balance, smoke);
      }
    }
  }

  /** A reset leaves an account without a gap exactly if it was bridged. */
  lemma ResetGapless(p0: Items, q0: Items, start: nat, p1: Items, q1: Items, next: nat, p: Items, q: Items, was: nat,
                     nonce: nat, balance: nat, smoke: nat, local: bool, limit: nat, a: Addr)
    requires PromotedTo(p0, q0, start, p1, q1, next, nonce, balance, smoke, local, limit) && Apart(p0, q0, a)
    requires DemotedTo(p1, q1, p, q, nonce, balance, smoke) && Solid(p0, was) && start <= nonce
    ensures Gapless(p, nonce, NextAfter(p, next)) <==> Bridged(p0, q0, start, was, nonce, balance, smoke)
  {
    hide PromotedTo, DemotedTo, Affordable, TooDear, Waiting, Gapless, IsReady, Fine, Solid, From;
    var payable, from, upto := PromotionParts(p0, q0, start, p1, q1, next, nonce, balance, smoke, local, limit, a);
    RunAt(payable, start, nonce, from, upto);
    DemotionParts(p1, q1, p, q, nonce, balance, smoke);
    GaplessIs(p, nonce, next);
    if from == upto {
      assert p1 == p0;
    }
    if p != map[] {
      if from == upto {
        SolidOld(p0, p, was, nonce, balance, smoke);
      } else {
        SolidRun(p0, payable, p1, p, was, nonce, upto, balance, smoke);
      }
    }
  }

  /** A reset that is given up leaves a gapless account without a gap, unless the transaction at the
      state nonce has become too dear; and it leaves nothing queued that comes next. */
  lemma GivenUpGapless(p0: Items, q0: Items, start: nat, p1: Items, q1: Items, next: nat, p: Items, q: Items,
                       nonce: nat, balance: nat, smoke: nat, local: bool, limit: nat, a: Addr)
    requires PromotedTo(p0, q0, start, p1, q1, next, nonce, balance, smoke, local, limit) && Apart(p0, q0, a)
    requires DemotedTo(p1, q1, p, q, nonce, balance, smoke) && Gapless(p0, nonce, start)
    ensures Gapless(p, nonce, NextAfter(p, next)) <==> (nonce in p0 ==> !TooDear(p0[nonce], balance, smoke))
    ensures Solid(p, nonce) && NextAfter(p, nonce) !in q
  {
    hide PromotedTo, DemotedTo, TooDear;
    PromotedGapless(p0, q0, start, p1, q1, next, nonce, balance, smoke, local, limit, a);
    PromotedKeeps(p0, q0, start, p1, q1, next, nonce, balance, smoke, local, limit, a);
    DemotionParts(p1, q1, p, q, nonce, balance, smoke);
    GaplessIs(p1, nonce, next);
    GaplessIs(p, nonce, next);
    if p != map[] {
      SolidOld(p1, p, nonce, nonce, balance, smoke);
      NotFine(p1, p, nonce, balance, smoke);
    }
  }

  lemma PromotedKeeps(p0: Items, q0: Items, start: nat, p: Items, q: Items, next: nat, nonce: nat, balance: nat,
                      smoke: nat, local: bool, limit: nat, a: Addr)
    requires PromotedTo(p0, q0, start, p, q, next, nonce, balance, smoke, local, limit) && Apart(p0, q0, a)
    ensures SubItems(p0, p) && (next != start ==> p != p0)
  {
    hide PromotedTo, Affordable, TooDear, Waiting;
    var payable, from, upto := PromotionParts(p0, q0, start, p, q, next, nonce, balance, smoke, local, limit, a);
    assert from < upto ==> from in Between(payable, from, upto);
  }

  /** The nonce after what demotion keeps is missing or too dear. */
  lemma NotFine(p1: Items, p: Items, nonce: nat, balance: nat, smoke: nat)
    requires p != map[] && forall n: nat :: n in p <==> Fine(p1, nonce, n, balance, smoke)
    ensures var n := Highest(p) + 1; n in p1 ==> TooDear(p1[n], balance, smoke)
  {
    hide TooDear;
    var n := Highest(p) + 1;
    assert Fine(p1, nonce, n - 1, balance, smoke) && n !in p;
  }

  // ---------- what a reset leaves queued ----------

  /** When the next transaction of an account stays queued by a reset, which starts promotion at the
      state nonce instead of after the pending list: the pending list is kept whole and the
      transaction after it was queued; or the pending nonce was set back below the state nonce, so
      that nothing was promoted. */
  ghost predicate Stranded(p0: Items, q0: Items, start: nat, nonce: nat, balance: nat, smoke: nat, local: bool,
                           limit: nat) {
    var payable := Affordable(From(q0, nonce), false, balance, smoke);
    var ahead := From(p0, nonce);
    exists upto: nat ::
      && IsReady(payable, start, nonce, upto)
      && if nonce in p0 || nonce < upto then
           ahead != map[] && Dear(ahead, balance, smoke) == map[] && Highest(ahead) + 1 in Waiting(payable, nonce, upto, local, limit)
         else
           nonce in Waiting(payable, nonce, nonce, local, limit)
  }

  /** The parts of a reset's promotion, with the run, if any, starting at the state nonce. */
  lemma ResetParts(p0: Items, q0: Items, start: nat, p1: Items, q1: Items, next: nat, was: nat,
                   nonce: nat, balance: nat, smoke: nat, local: bool, limit: nat, a: Addr)
    returns (payable: Items, upto: nat)
    requires PromotedTo(p0, q0, start, p1, q1, next, nonce, balance, smoke, local, limit) && Apart(p0, q0, a)
    requires Solid(p0, was) && start <= nonce
    ensures payable == Affordable(From(q0, nonce), false, balance, smoke) && IsReady(payable, start, nonce, upto)
    ensures nonce <= upto && (nonce < upto ==> upto !in payable && nonce !in p0)
    ensures forall n: nat :: n in p1 <==> n in p0 || nonce <= n < upto
    ensures forall n: nat :: nonce <= n < upto ==> n in payable && p1[n] == payable[n]
    ensures forall n <- p0 :: p1[n] == p0[n]
    ensures q1 == Waiting(payable, nonce, upto, local, limit) && SubItems(q1, Outside(payable, nonce, upto))
    ensures forall n <- payable :: nonce <= n && n !in p0 && !TooDear(payable[n], balance, smoke)
    ensures forall n <- p0 :: nonce <= n ==> upto <= n
  {
    hide PromotedTo, Affordable, TooDear, Capped, From;
    var from;
    payable, from, upto := PromotionParts(p0, q0, start, p1, q1, next, nonce, balance, smoke, local, limit, a);
    RunAt(payable, start, nonce, from, upto);
    if from == upto {
      assert Outside(payable, from, upto) == payable == Outside(payable, nonce, nonce);
      upto := nonce;
    }
  }

  /** A pending list of which `p` is kept: `p0` from the nonce `was` on, and in front of it, if
      anything, a run from the state nonce up to `upto`. */
  ghost predicate Fronted(p0: Items, p1: Items, p: Items, was: nat, nonce: nat, upto: nat, balance: nat, smoke: nat) {
    && Solid(p0, was) && nonce <= upto
    && (forall n: nat :: n in p1 <==> n in p0 || nonce <= n < upto)
    && (forall n <- p0 :: p1[n] == p0[n] && (nonce <= n ==> upto <= n))
    && (forall n: nat :: nonce <= n < upto ==> !TooDear(p1[n], balance, smoke))
    && nonce in p && forall n: nat :: n in p <==> Fine(p1, nonce, n, balance, smoke)
  }

  lemma NextOfRun(p0: Items, p1: Items, p: Items, was: nat, nonce: nat, upto: nat, balance: nat, smoke: nat)
    requires Fronted(p0, p1, p, was, nonce, upto, balance, smoke) && From(p0, nonce) == map[]
    ensures nonce < upto && Highest(p) + 1 == upto
  {
    hide TooDear;
    forall n <- p0 ensures n < nonce {
      assert n >= nonce ==> n in From(p0, nonce);
    }
    assert Fine(p1, nonce, nonce, balance, smoke);
    assert Fine(p1, nonce, upto - 1, balance, smoke);
    assert upto - 1 in p && Fine(p1, nonce, Highest(p), balance, smoke);
  }

  lemma NextWhole(p0: Items, p1: Items, p: Items, was: nat, nonce: nat, upto: nat, balance: nat, smoke: nat)
    requires Fronted(p0, p1, p, was, nonce, upto, balance, smoke)
    requires From(p0, nonce) != map[] && Dear(From(p0, nonce), balance, smoke) == map[]
    ensures Highest(p) == Highest(From(p0, nonce))
  {
    hide TooDear;
    var h := Highest(From(p0, nonce));
    assert h in p0 && nonce <= h;
    forall m <- p1 | nonce <= m <= h ensures !TooDear(p1[m], balance, smoke) {
      if m in p0 {
        assert m in From(p0, nonce) && m !in Dear(From(p0, nonce), balance, smoke);
      }
    }
    assert Fine(p1, nonce, h, balance, smoke);
    assert Fine(p1, nonce, Highest(p), balance, smoke);
    assert Highest(p) in p0 ==> Highest(p) in From(p0, nonce);
  }

  lemma NextCut(p0: Items, p1: Items, p: Items, was: nat, nonce: nat, upto: nat, balance: nat, smoke: nat, d: nat)
    requires Fronted(p0, p1, p, was, nonce, upto, balance, smoke) && d in p0 && nonce <= d
    requires TooDear(p0[d], balance, smoke)
    ensures (nonce < upto && Highest(p) + 1 == upto) || Highest(p) + 1 in p0
  {
    hide TooDear;
    var h := Highest(p);
    assert Fine(p1, nonce, h, balance, smoke);
    assert h < d;
    if h in p0 {
      assert h + 1 in p0;
    } else {
      assert Fine(p1, nonce, upto - 1, balance, smoke);
    }
  }

  /** After a reset an account's next transaction is queued exactly if it was stranded. */
  lemma ResetStrands(p0: Items, q0: Items, start: nat, p1: Items, q1: Items, next: nat, p: Items, q: Items, was: nat,
                     nonce: nat, balance: nat, smoke: nat, local: bool, limit: nat, a: Addr)
    requires PromotedTo(p0, q0, start, p1, q1, next, nonce, balance, smoke, local, limit) && Apart(p0, q0, a)
    requires DemotedTo(p1, q1, p, q, nonce, balance, smoke) && Solid(p0, was) && start <= nonce
    ensures NextAfter(p, nonce) in q <==> Stranded(p0, q0, start, nonce, balance, smoke, local, limit)
  {
    hide PromotedTo, DemotedTo, Affordable, TooDear, Waiting, IsReady, Solid, Fine, Stranded;
    var payable, upto := ResetParts(p0, q0, start, p1, q1, next, was, nonce, balance, smoke, local, limit, a);
    DemotionParts(p1, q1, p, q, nonce, balance, smoke);
    StrandedIs(p0, q0, start, nonce, upto, balance, smoke, local, limit);
    var ahead := From(p0, nonce);
    if p == map[] {
      assert nonce in p0 ==> nonce in Dear(ahead, balance, smoke);
    } else {
      assert Fronted(p0, p1, p, was, nonce, upto, balance, smoke);
      NotFine(p1, p, nonce, balance, smoke);
      if ahead == map[] {
        NextOfRun(p0, p1, p, was, nonce, upto, balance, smoke);
      } else if Dear(ahead, balance, smoke) == map[] {
        NextWhole(p0, p1, p, was, nonce, upto, balance, smoke);
      } else {
        var d := Lowest(Dear(ahead, balance, smoke));
        NextCut(p0, p1, p, was, nonce, upto, balance, smoke, d);
      }
    }
  }

  /** The run is determined by the queue. */
  lemma StrandedIs(p0: Items, q0: Items, start: nat, nonce: nat, upto: nat, balance: nat, smoke: nat, local: bool,
                   limit: nat)
    requires start <= nonce && IsReady(Affordable(From(q0, nonce), false, balance, smoke), start, nonce, upto)
    ensures var payable, ahead := Affordable(From(q0, nonce), false, balance, smoke), From(p0, nonce);
      Stranded(p0, q0, start, nonce, balance, smoke, local, limit) <==>
      if nonce in p0 || nonce < upto then
        ahead != map[] && Dear(ahead, balance, smoke) == map[] && Highest(ahead) + 1 in Waiting(payable, nonce, upto, local, limit)
      else
        nonce in Waiting(payable, nonce, nonce, local, limit)
  {
    hide TooDear, Waiting;
    var payable := Affordable(From(q0, nonce), false, balance, smoke);
    forall u: nat | IsReady(payable, start, nonce, u) ensures u == upto {
      RunAt(payable, start, nonce, nonce, u);
      RunAt(payable, start, nonce, nonce, upto);
    }
  }

  // ---------- truncation and whole runs ----------

  /** What truncation makes of one account's pending list and nonce. */
  ghost predicate CutTo(p0: Items, n0: nat, p: Items, n: nat, nonce: nat) {
    && (exists k: nat :: k > 0 && p == Capped(p0, k))
    && n <= n0 && (p == p0 ==> n == n0)
    && (Gapless(p0, nonce, n0) ==> Gapless(p, nonce, n))
  }

  lemma CutParts(p0: Items, n0: nat, p: Items, n: nat, nonce: nat)
    requires CutTo(p0, n0, p, n, nonce)
    ensures SubItems(p, p0) && (p == map[] <==> p0 == map[]) && forall lo: nat :: Solid(p0, lo) ==> Solid(p, lo)
    ensures p != p0 ==> p != map[] && exists x <- p0 :: x > Highest(p)
    ensures forall n <- p, m <- p0 :: m <= n ==> m in p
  {
    var k: nat :| k > 0 && p == Capped(p0, k);
    CappedShape(p0, k);
    hide Capped;
    forall lo: nat | Solid(p0, lo) ensures Solid(p, lo) {
      CappedSolid(p0, k, lo);
    }
    if p != p0 {
      assert |p| > 0 && p != map[];
      assert (forall x <- p0 :: x in p) ==> p == p0;
      var x :| x in p0 && x !in p;
      assert x > Highest(p);
    }
  }

  /** A run without a reset opens no gap in a gapless account.  If the account was treated, its next
      transaction is not queued; if not, it is queued exactly if it was and nothing was cut off. */
  lemma PlainRun(p0: Items, q0: Items, start: nat, p1: Items, q1: Items, n1: nat, p: Items, q: Items, n: nat,
                 active: bool,
                 nonce: nat, balance: nat, smoke: nat, local: bool, limit: nat, a: Addr)
    requires ArrangedTo(p0, q0, start, p1, q1, n1, active, false, nonce, balance, smoke, local, limit)
    requires Apart(p0, q0, a)
    requires CutTo(p1, n1, p, n, nonce) && SubItems(q, q1) && Gapless(p0, nonce, start)
    ensures Gapless(p, nonce, n) && NextAfter(p, n) == n
    ensures n in q <==> !active && p == p0 && start in q
  {
    hide PromotedTo, Capped;
    if active {
      PromotedApart(p0, q0, start, p1, q1, n1, nonce, balance, smoke, local, limit, a);
      PromotedGapless(p0, q0, start, p1, q1, n1, nonce, balance, smoke, local, limit, a);
    }
    GaplessIs(p, nonce, n);
    CutParts(p1, n1, p, n, nonce);
    if p != p1 {
      var x :| x in p1 && x > Highest(p);
      assert n in p1 && n !in q1;
    }
  }

  /** A run whose reset was given up: a gapless account keeps no gap exactly if its first pending
      transaction is still payable, and its next transaction is never queued. */
  lemma GivenUpRun(p0: Items, q0: Items, start: nat, p1: Items, q1: Items, n1: nat, p: Items, q: Items, n: nat,
                   nonce: nat, balance: nat, smoke: nat, local: bool, limit: nat, a: Addr)
    requires ArrangedTo(p0, q0, start, p1, q1, n1, true, true, nonce, balance, smoke, local, limit) && Apart(p0, q0, a)
    requires CutTo(p1, n1, p, n, nonce) && SubItems(q, q1) && Gapless(p0, nonce, start)
    ensures Gapless(p, nonce, NextAfter(p, n)) <==> (nonce in p0 ==> !TooDear(p0[nonce], balance, smoke))
    ensures NextAfter(p, nonce) !in q
  {
    hide PromotedTo, DemotedTo, TooDear, Capped, Gapless, CutTo;
    var p2, q2 :| PromotedIf(true, p0, q0, start, p2, q2, n1, nonce, balance, smoke, local, limit) && DemotedIf(true, p2, q2, p1, q1, nonce, balance, smoke);
    GivenUpGapless(p0, q0, start, p2, q2, n1, p1, q1, nonce, balance, smoke, local, limit, a);
    PromotedApart(p0, q0, start, p2, q2, n1, nonce, balance, smoke, local, limit, a);
    DemotedApart(p2, q2, p1, q1, nonce, balance, smoke, a);
    CutParts(p1, n1, p, n, nonce);
    CutSame(p1, n1, p, n, nonce);
    GaplessIs(p, nonce, n);
    GaplessIs(p1, nonce, n1);
    if p != p1 {
      var x :| x in p1 && x > Highest(p);
      assert Highest(p) + 1 in p1;
    }
  }

  lemma CutSame(p0: Items, n0: nat, p: Items, n: nat, nonce: nat)
    requires CutTo(p0, n0, p, n, nonce)
    ensures p == p0 ==> n == n0
  {
  }

  lemma DemotedApart(p0: Items, q0: Items, p: Items, q: Items, nonce: nat, balance: nat, smoke: nat, a: Addr)
    requires DemotedTo(p0, q0, p, q, nonce, balance, smoke) && Apart(p0, q0, a)
    ensures p.Keys !! q.Keys
  {
    hide DemotedTo, TooDear;
    DemotionParts(p0, q0, p, q, nonce, balance, smoke);
  }

  lemma NextInside(p0: Items, p1: Items, p: Items, was: nat, nonce: nat, upto: nat, balance: nat, smoke: nat, h: nat,
                   x: nat)
    requires Fronted(p0, p1, p, was, nonce, upto, balance, smoke) && h in p && x in p && h < x
    ensures h + 1 in p || (nonce < upto && h + 1 == upto && h + 1 !in p1)
  {
    hide TooDear;
    assert Fine(p1, nonce, x, balance, smoke) && Fine(p1, nonce, h, balance, smoke);
    if h + 1 in p1 {
      assert Fine(p1, nonce, h + 1, balance, smoke);
    }
  }

  /** Cutting a list down after a reset leaves nothing queued that comes next. */
  lemma ResetCut(p0: Items, q0: Items, start: nat, p1: Items, q1: Items, next: nat, p: Items, q: Items, was: nat,
                 h: nat, x: nat,
                 nonce: nat, balance: nat, smoke: nat, local: bool, limit: nat, a: Addr)
    requires PromotedTo(p0, q0, start, p1, q1, next, nonce, balance, smoke, local, limit) && Apart(p0, q0, a)
    requires DemotedTo(p1, q1, p, q, nonce, balance, smoke) && Solid(p0, was) && start <= nonce
    requires h in p && x in p && h < x
    ensures h + 1 !in q
  {
    hide PromotedTo, DemotedTo, Affordable, TooDear, Waiting, IsReady, Solid, Fine;
    var payable, upto := ResetParts(p0, q0, start, p1, q1, next, was, nonce, balance, smoke, local, limit, a);
    DemotionParts(p1, q1, p, q, nonce, balance, smoke);
    assert Fronted(p0, p1, p, was, nonce, upto, balance, smoke);
    NextInside(p0, p1, p, was, nonce, upto, balance, smoke, h, x);
  }

  /** Cutting a list that has a gap closes the gap exactly if the cut falls below the old list. */
  lemma CutBelow(p0: Items, p2: Items, p1: Items, p: Items, was: nat, nonce: nat, upto: nat, balance: nat, smoke: nat)
    requires Fronted(p0, p2, p1, was, nonce, upto, balance, smoke) && SubItems(p, p1)
    requires forall n <- p, m <- p1 :: m <= n ==> m in p
    ensures Solid(p, nonce) <==> Solid(p1, nonce) || was !in p
  {
    hide TooDear;
    forall n <- p1 ensures nonce <= n {
      assert Fine(p2, nonce, n, balance, smoke);
    }
    if was in p && Solid(p, nonce) {
      forall n, m: nat | n in p1 && nonce <= m < n ensures m in p1 {
        WholeAbove(p0, p2, p1, was, nonce, upto, balance, smoke, n, m);
        assert m <= was ==> m in p;
      }
    }
    if was !in p {
      forall n, m: nat | n in p && nonce <= m < n ensures m in p {
        BelowOld(p0, p2, p1, p, was, nonce, upto, balance, smoke, n, m);
      }
    }
  }

  /** What follows the first nonce of the old list follows it without a gap. */
  lemma WholeAbove(p0: Items, p2: Items, p1: Items, was: nat, nonce: nat, upto: nat, balance: nat, smoke: nat, n: nat,
                   m: nat)
    requires Fronted(p0, p2, p1, was, nonce, upto, balance, smoke) && n in p1 && nonce <= m < n
    ensures was < m || n < upto ==> m in p1
  {
    hide TooDear;
    if was < m || n < upto {
      assert Fine(p2, nonce, n, balance, smoke);
      assert m in p2;
      assert Fine(p2, nonce, m, balance, smoke);
    }
  }

  /** What is kept without the first nonce of the old list has no gap. */
  lemma BelowOld(p0: Items, p2: Items, p1: Items, p: Items, was: nat, nonce: nat, upto: nat, balance: nat, smoke: nat,
                 n: nat, m: nat)
    requires Fronted(p0, p2, p1, was, nonce, upto, balance, smoke) && SubItems(p, p1)
    requires forall n <- p, m <- p1 :: m <= n ==> m in p
    requires was !in p && n in p && nonce <= m < n
    ensures m in p
  {
    hide TooDear;
    WholeAbove(p0, p2, p1, was, nonce, upto, balance, smoke, n, m);
    assert Fine(p2, nonce, n, balance, smoke);
    if n in p0 {
      assert was in p0 && was <= n;
      assert nonce <= was ==> Fine(p2, nonce, was, balance, smoke);
    }
  }

  lemma ResetCutBelow(p0: Items, q0: Items, start: nat, p2: Items, q2: Items, next: nat, p1: Items, q1: Items, p: Items,
                      was: nat,
                      nonce: nat, balance: nat, smoke: nat, local: bool, limit: nat, a: Addr)
    requires PromotedTo(p0, q0, start, p2, q2, next, nonce, balance, smoke, local, limit) && Apart(p0, q0, a)
    requires DemotedTo(p2, q2, p1, q1, nonce, balance, smoke) && Solid(p0, was) && start <= nonce
    requires p1 != map[] && SubItems(p, p1) && forall n <- p, m <- p1 :: m <= n ==> m in p
    ensures Solid(p, nonce) <==> Solid(p1, nonce) || was !in p
  {
    hide PromotedTo, DemotedTo, Affordable, TooDear, Waiting, IsReady, Solid, Fine;
    var payable, upto := ResetParts(p0, q0, start, p2, q2, next, was, nonce, balance, smoke, local, limit, a);
    DemotionParts(p2, q2, p1, q1, nonce, balance, smoke);
    CutBelow(p0, p2, p1, p, was, nonce, upto, balance, smoke);
  }

  /** A run with a reset: a consecutive list is left without a gap exactly if it is bridged, or
      truncation cut off all of the list that was there before; the next transaction is queued only
      if it is stranded and nothing is cut off, and then it is, unless truncation takes it off the
      queue. */
  lemma ResetRun(p0: Items, q0: Items, start: nat, p1: Items, q1: Items, n1: nat, p: Items, q: Items, n: nat, was: nat,
                 nonce: nat, balance: nat, smoke: nat, local: bool, limit: nat, a: Addr)
    requires ArrangedTo(p0, q0, start, p1, q1, n1, true, true, nonce, balance, smoke, local, limit) && Apart(p0, q0, a)
    requires CutTo(p1, n1, p, n, nonce) && SubItems(q, q1) && Solid(p0, was) && start <= nonce
    ensures Gapless(p, nonce, NextAfter(p, n)) <==>
      Bridged(p0, q0, start, was, nonce, balance, smoke) || (p != p1 && was !in p)
    ensures NextAfter(p, nonce) in q ==> p == p1 && Stranded(p0, q0, start, nonce, balance, smoke, local, limit)
    ensures p == p1 && q == q1 && Stranded(p0, q0, start, nonce, balance, smoke, local, limit) ==>
      NextAfter(p, nonce) in q
  {
    hide PromotedTo, DemotedTo, TooDear, Capped, Gapless, CutTo, Bridged, Stranded, Solid;
    var p2, q2 :| PromotedIf(true, p0, q0, start, p2, q2, n1, nonce, balance, smoke, local, limit) && DemotedIf(true, p2, q2, p1, q1, nonce, balance, smoke);
    ResetGapless(p0, q0, start, p2, q2, n1, p1, q1, was, nonce, balance, smoke, local, limit, a);
    ResetStrands(p0, q0, start, p2, q2, n1, p1, q1, was, nonce, balance, smoke, local, limit, a);
    CutParts(p1, n1, p, n, nonce);
    CutSame(p1, n1, p, n, nonce);
    GaplessIs(p, nonce, n);
    GaplessIs(p1, nonce, n1);
    if p != p1 {
      var x :| x in p1 && x > Highest(p);
      ResetCut(p0, q0, start, p2, q2, n1, p1, q1, was, Highest(p), x, nonce, balance, smoke, local, limit, a);
      ResetCutBelow(p0, q0, start, p2, q2, n1, p1, q1, p, was, nonce, balance, smoke, local, limit, a);
    }
  }

  /** A truncated list still starts at the state nonce. */
  lemma CutStarted(p0: Items, n0: nat, p: Items, n: nat, nonce: nat, balance: nat, smoke: nat)
    requires CutTo(p0, n0, p, n, nonce) && Started(p0, nonce, balance, smoke)
    ensures Started(p, nonce, balance, smoke)
  {
    hide TooDear, Capped;
    var k: nat :| k > 0 && p == Capped(p0, k);
    CappedShape(p0, k);
    if p0 != map[] {
      CappedFront(p0, k, nonce);
    }
  }

  /** Fair truncation cuts every list down to some size, and not to nothing. */
  lemma FairCut(p0: Shelf, v0: map<Addr, nat>, p: Shelf, v: map<Addr, nat>, locals: set<Addr>, level: nat,
                allowance: Positive, limit: nat, nonceOf: Addr -> nat, a: Addr)
    requires Followed(p0, v0, p, v, nonceOf)
    requires (p == p0 || Fair(p0, Offenders(p0, locals, allowance), p, level, allowance, limit))
    ensures CutTo(ListOf(p0, a), NonceIn(v0, nonceOf, a), ListOf(p, a), NonceIn(v, nonceOf, a), nonceOf(a))
  {
    hide Total, Capped, Gapless;
    var list := ListOf(p0, a);
    if ListOf(p, a) == list {
      AllCapped(list);
    } else {
      assert ListOf(p, a) == Capped(list, level);
    }
  }

  lemma AllCapped(list: Items)
    ensures Capped(list, |list| + 1) == list
  {
  }

  /** Promotion and demotion lose no current transaction of a local account. */
  lemma ArrangedKeeps(p0: Items, q0: Items, start: nat, p: Items, q: Items, next: nat, active: bool, reset: bool,
                      nonce: nat, balance: nat, smoke: nat, limit: nat, a: Addr)
    requires ArrangedTo(p0, q0, start, p, q, next, active, reset, nonce, balance, smoke, true, limit)
    requires Apart(p0, q0, a)
    ensures Keeps(p0, q0, p, q, nonce, balance, smoke)
  {
    hide PromotedTo, DemotedTo, Txs, Current;
    var p1, q1 :|
      PromotedIf(active, p0, q0, start, p1, q1, next, nonce, balance, smoke, true,
                 limit) && DemotedIf(reset, p1, q1, p, q, nonce, balance, smoke);
    if active {
      PromoteKeeps(p0, q0, start, p1, q1, next, nonce, balance, smoke, limit, a);
      PromotedApart(p0, q0, start, p1, q1, next, nonce, balance, smoke, true, limit, a);
    }
    if reset {
      DemoteKeeps(p1, q1, p, q, nonce, balance, smoke, a);
    }
  }

  // ---------- the same on shelves ----------

  /** Truncation of an account, with its pending nonce set to follow what is left. */
  ghost predicate TrimmedTo(b0: Shelves, b: Shelves, nonceOf: Addr -> nat, a: Addr) {
    && CutShort(ListOf(b0.queue, a), ListOf(b.queue, a))
    && exists n: nat ::
         && CutTo(ListOf(b0.pending, a), NonceIn(b0.virtual, nonceOf, a), ListOf(b.pending, a), n, nonceOf(a))
         && NonceIn(b.virtual, nonceOf, a) == NextAfter(ListOf(b.pending, a), n)
  }

  ghost predicate BridgedIn(b: Shelves, was: nat, t: Terms, a: Addr) {
    Bridged(ListOf(b.pending, a), ListOf(b.queue, a), NonceIn(b.virtual, t.nonceOf, a), was, t.nonceOf(a),
            t.balanceOf(a), t.smoke)
  }

  ghost predicate StrandedIn(b: Shelves, t: Terms, a: Addr) {
    Stranded(ListOf(b.pending, a), ListOf(b.queue, a), NonceIn(b.virtual, t.nonceOf, a), t.nonceOf(a), t.balanceOf(a),
             t.smoke, a in t.locals, t.limit)
  }

  /** The transaction that comes next after an account's pending ones is queued. */
  ghost predicate NextQueued(b: Shelves, nonceOf: Addr -> nat, a: Addr) {
    NextAfter(ListOf(b.pending, a), nonceOf(a)) in ListOf(b.queue, a)
  }

  ghost predicate ApartIn(b: Shelves, a: Addr) {
    Apart(ListOf(b.pending, a), ListOf(b.queue, a), a)
  }

  /** Nothing of the account was cut off. */
  ghost predicate Uncut(b0: Shelves, b: Shelves, a: Addr) {
    ListOf(b.pending, a) == ListOf(b0.pending, a)
  }

  /** The first pending transaction of an account, if it is at the state nonce, is payable. */
  ghost predicate HeadPayable(b: Shelves, t: Terms, a: Addr) {
    var list := ListOf(b.pending, a);
    t.nonceOf(a) in list ==> !TooDear(list[t.nonceOf(a)], t.balanceOf(a), t.smoke)
  }

  lemma ArrangedIs(b0: Shelves, b1: Shelves, b: Shelves, active: bool, reset: bool, t: Terms, a: Addr)
    requires PromotedIf(active, ListOf(b0.pending, a), ListOf(b0.queue, a), NonceIn(b0.virtual, t.nonceOf, a), ListOf(b1.pending, a), ListOf(b1.queue, a),
                        NonceIn(b1.virtual, t.nonceOf, a), t.nonceOf(a), t.balanceOf(a), t.smoke, a in t.locals, t.limit)
    requires DemotedIf(reset, ListOf(b1.pending, a), ListOf(b1.queue, a), ListOf(b.pending, a), ListOf(b.queue, a),
                       t.nonceOf(a), t.balanceOf(a), t.smoke)
    requires b.virtual == b1.virtual
    ensures ArrangedIn(b0, b, active, reset, t, a)
  {
    hide PromotedIf, DemotedIf, ListOf, NonceIn;
  }

  lemma NoList(m: Shelf, a: Addr)
    requires a !in m
    ensures ListOf(m, a) == map[]
  {
  }

  /** Accounts without queued transactions are treated as well by a promotion that leaves them out. */
  lemma IdlePromoted(b0: Shelves, b1: Shelves, t: Terms, a: Addr)
    requires ListOf(b0.queue, a) == map[]
    requires ListOf(b1.pending, a) == ListOf(b0.pending, a) && ListOf(b1.queue, a) == ListOf(b0.queue, a)
    requires NonceIn(b1.virtual, t.nonceOf, a) == NonceIn(b0.virtual, t.nonceOf, a)
    ensures PromotedIf(true, ListOf(b0.pending, a), ListOf(b0.queue, a), NonceIn(b0.virtual, t.nonceOf, a), ListOf(b1.pending, a), ListOf(b1.queue, a),
                       NonceIn(b1.virtual, t.nonceOf, a), t.nonceOf(a), t.balanceOf(a), t.smoke, a in t.locals, t.limit)
  {
    hide PromotedTo, ListOf, NonceIn;
    PromoteNothing(ListOf(b0.pending, a), NonceIn(b0.virtual, t.nonceOf, a), t.nonceOf(a), t.balanceOf(a), t.smoke,
                   a in t.locals, t.limit);
  }

  /** Local accounts lose no current transaction by promotion and demotion. */
  lemma ArrangedLocals(b0: Shelves, b: Shelves, accounts: seq<Addr>, reset: bool, t: Terms)
    requires forall a :: ArrangedIn(b0, b, Treated(reset, accounts, a), reset, t, a) && ApartIn(b0, a)
    ensures LocalsKept(b0.pending, b0.queue, b.pending, b.queue, t.locals, t.nonceOf, t.balanceOf, t.smoke)
  {
    hide ArrangedTo, ListOf, NonceIn, Apart, Keeps;
    forall a <- t.locals
      ensures Keeps(ListOf(b0.pending, a), ListOf(b0.queue, a), ListOf(b.pending, a), ListOf(b.queue, a), t.nonceOf(a),
                    t.balanceOf(a), t.smoke)
    {
      assert ArrangedIn(b0, b, Treated(reset, accounts, a), reset, t, a) && ApartIn(b0, a);
      ArrangedKeeps(ListOf(b0.pending, a), ListOf(b0.queue, a), NonceIn(b0.virtual, t.nonceOf, a), ListOf(b.pending, a), ListOf(b.queue, a),
                    NonceIn(b.virtual, t.nonceOf,
                            a), Treated(reset, accounts, a), reset, t.nonceOf(a), t.balanceOf(a), t.smoke, t.limit, a);
    }
  }

  lemma PlainRunIn(b0: Shelves, b1: Shelves, b: Shelves, active: bool, t: Terms, a: Addr)
    requires ArrangedIn(b0, b1, active, false, t, a) && TrimmedTo(b1, b, t.nonceOf, a) && ApartIn(b0, a)
    requires GaplessIn(b0, t.nonceOf, a)
    ensures GaplessIn(b, t.nonceOf, a)
    ensures NonceIn(b.virtual, t.nonceOf, a) in ListOf(b.queue, a) <==>
      !active && Uncut(b0, b, a) && NonceIn(b0.virtual, t.nonceOf, a) in ListOf(b.queue, a)
  {
    hide ArrangedTo, ListOf, NonceIn, Apart, Gapless, CutShort;
    var nonce, p := t.nonceOf(a), ListOf(b.pending, a);
    var n: nat :| CutTo(ListOf(b1.pending, a), NonceIn(b1.virtual, t.nonceOf, a), p, n, nonce) && NonceIn(b.virtual, t.nonceOf, a) == NextAfter(p, n);
    CutShortSub(ListOf(b1.queue, a), ListOf(b.queue, a));
    PlainRun(ListOf(b0.pending, a), ListOf(b0.queue, a), NonceIn(b0.virtual, t.nonceOf, a), ListOf(b1.pending, a), ListOf(b1.queue, a),
             NonceIn(b1.virtual, t.nonceOf,
                     a), p, ListOf(b.queue, a), n, active, nonce, t.balanceOf(a), t.smoke, a in t.locals, t.limit, a);
    GaplessIs(p, nonce, n);
  }

  lemma GivenUpRunIn(b0: Shelves, b1: Shelves, b: Shelves, t: Terms, a: Addr)
    requires ArrangedIn(b0, b1, true, true, t, a) && TrimmedTo(b1, b, t.nonceOf, a) && ApartIn(b0, a)
    requires GaplessIn(b0, t.nonceOf, a)
    ensures GaplessIn(b, t.nonceOf, a) <==> HeadPayable(b0, t, a)
    ensures !NextQueued(b, t.nonceOf, a)
  {
    hide ArrangedTo, ListOf, NonceIn, Apart, Gapless, TooDear, CutShort;
    var nonce, p := t.nonceOf(a), ListOf(b.pending, a);
    var n: nat :| CutTo(ListOf(b1.pending, a), NonceIn(b1.virtual, t.nonceOf, a), p, n, nonce) && NonceIn(b.virtual, t.nonceOf, a) == NextAfter(p, n);
    CutShortSub(ListOf(b1.queue, a), ListOf(b.queue, a));
    GivenUpRun(ListOf(b0.pending, a), ListOf(b0.queue, a), NonceIn(b0.virtual, t.nonceOf, a), ListOf(b1.pending, a), ListOf(b1.queue, a),
               NonceIn(b1.virtual, t.nonceOf,
                       a), p, ListOf(b.queue, a), n, nonce, t.balanceOf(a), t.smoke, a in t.locals, t.limit, a);
  }

  lemma ResetRunIn(b0: Shelves, b1: Shelves, b: Shelves, was: nat, t: Terms, a: Addr)
    requires ArrangedIn(b0, b1, true, true, t, a) && TrimmedTo(b1, b, t.nonceOf, a) && ApartIn(b0, a)
    requires Solid(ListOf(b0.pending, a), was) && NonceIn(b0.virtual, t.nonceOf, a) <= t.nonceOf(a)
    ensures GaplessIn(b, t.nonceOf, a) <==>
      BridgedIn(b0, was, t, a) || (!Uncut(b1, b, a) && was !in ListOf(b.pending, a))
    ensures NextQueued(b, t.nonceOf, a) ==> Uncut(b1, b, a) && StrandedIn(b0, t, a)
    ensures Uncut(b1, b, a) && ListOf(b.queue, a) == ListOf(b1.queue, a) && StrandedIn(b0, t, a) ==>
      NextQueued(b, t.nonceOf, a)
  {
    hide ArrangedTo, ListOf, NonceIn, Apart, Gapless, Solid, Bridged, Stranded, CutShort;
    var nonce, p := t.nonceOf(a), ListOf(b.pending, a);
    var n: nat :| CutTo(ListOf(b1.pending, a), NonceIn(b1.virtual, t.nonceOf, a), p, n, nonce) && NonceIn(b.virtual, t.nonceOf, a) == NextAfter(p, n);
    CutShortSub(ListOf(b1.queue, a), ListOf(b.queue, a));
    ResetRun(ListOf(b0.pending, a), ListOf(b0.queue, a), NonceIn(b0.virtual, t.nonceOf, a), ListOf(b1.pending, a), ListOf(b1.queue, a),
             NonceIn(b1.virtual, t.nonceOf,
                     a), p, ListOf(b.queue, a), n, was, nonce, t.balanceOf(a), t.smoke, a in t.locals, t.limit, a);
  }

  // ---------- instances ----------

  const SMOKE_EACH: nat := 60_000
  const HEAD_SMOKE: nat := 5_000_000

  /** A transaction of account 0 that costs what the account has. */
  function Payable(n: nat): Tx {
    Tx(n, 0, n, 1, SMOKE_EACH, 0, 100)
  }

  lemma PayableIs(n: nat)
    ensures var tx := Payable(n); tx.sender == 0 && tx.nonce == n && tx.Slots() == 1 && !TooDear(tx, SMOKE_EACH, HEAD_SMOKE)
  {
  }

  function Payables(nonces: set<nat>): (items: Items)
    ensures items.Keys == nonces && forall n <- items :: items[n] == Payable(n)
    ensures Owned(items, 0) && forall n <- items :: !TooDear(items[n], SMOKE_EACH, HEAD_SMOKE)
  {
    map n | n in nonces :: Payable(n)
  }

  /** The same state nonce for all accounts. */
  function At(n: nat): Addr -> nat {
    (a: Addr) => n
  }

  /** Shelves of account 0 after the pending nonces were set back to the state. */
  function Shelve(pending: Items): Shelves {
    Books(map[0 := pending], map[], map[])
  }

  /** Pending are nonces 3 and 4, the state nonce falls from 3 to 1, and only nonce 1 is taken back:
      the reset leaves 1, 3 and 4 pending. */
  lemma GapAfterReset() returns (b: Shelves, c: Shelves, p: Items)
    ensures b == Shelve(Payables({3, 4})) && GaplessIn(b.(virtual := map[0 := 5]), At(3), 0)
    ensures AddStep(b, c, Gate(At(1), 10, {}, 64), Payable(1), true, false) && NonceIn(c.virtual, At(1), 0) == 1
    ensures var p0, q0 := ListOf(c.pending, 0), ListOf(c.queue, 0);
      && p0.Keys == {3, 4} && q0.Keys == {1} && !Bridged(p0, q0, 1, 3, 1, SMOKE_EACH, HEAD_SMOKE)
      && ArrangedTo(p0, q0, 1, p, map[], 2, true, true, 1, SMOKE_EACH, HEAD_SMOKE, false, 64)
    ensures p.Keys == {1, 3, 4} && !Gapless(p, 1, NextAfter(p, 2))
    ensures Started(p, 1, SMOKE_EACH, HEAD_SMOKE) && !Executable(p, 1, SMOKE_EACH, HEAD_SMOKE)
  {
    hide PromotedTo, DemotedTo, ArrangedTo, AddStep, Affordable, From, IsReady, TooDear, Payable, Payables, Tx.Slots;
    var p0, q0 := Payables({3, 4}), Payables({1});
    b, c := Shelve(p0), Books(map[0 := p0], map[0 := q0], map[]);
    p := p0 + q0;
    PayableIs(1);
    TakenBack(p0, q0, At(1));
    AllPayable(q0, 1, SMOKE_EACH, HEAD_SMOKE);
    OneReady(p0, q0, SMOKE_EACH, HEAD_SMOKE);
    AllKept(p, map[], 1, SMOKE_EACH, HEAD_SMOKE);
    ArrangedBoth(p0, q0, 1, p, map[], 2, p, map[], 1, SMOKE_EACH, HEAD_SMOKE, false, 64);
    assert 2 !in p && 2 !in q0 && 4 in p;
    GaplessIs(p, 1, 2);
  }

  /** A transaction with a nonce that is not pending is queued when it is taken back. */
  lemma TakenBack(p0: Items, q0: Items, nonceOf: Addr -> nat)
    requires p0.Keys == {3, 4} && q0.Keys == {1} && Owned(p0, 0) && Owned(q0, 0) && q0[1].Slots() == 1
    ensures AddStep(Shelve(p0), Books(map[0 := p0], map[0 := q0], map[]), Gate(nonceOf, 10, {}, 64), q0[1], true, false)
  {
    hide Tx.Slots, AddStep, Outbids;
    var b, c, known := Shelve(p0), Books(map[0 := p0], map[0 := q0], map[]), {p0[3], p0[4]};
    OneAccount(p0, known);
    assert ListOf(map[], 0)[1 := q0[1]] == q0;
    assert AddsTo(b, c, Gate(nonceOf, 10, {}, 64), q0[1], known, [], Added(false));
    AddStepIs(b, c, Gate(nonceOf, 10, {}, 64), q0[1], false, known, [], Added(false));
  }

  lemma OneAccount(p0: Items, known: set<Tx>)
    requires p0.Keys == {3, 4} && Owned(p0, 0) && known == {p0[3], p0[4]}
    ensures Coherent(map[0 := p0], map[], known, {})
  {
    assert HasSlot(map[0 := p0], 0, 3);
  }

  /** A reset that changes nothing in the state leaves the next transaction of an account queued
      whenever it has pending ones. */
  lemma SameStateStrands(p: Items, q: Items, next: nat, nonce: nat, balance: nat, smoke: nat, local: bool, limit: nat,
                         a: Addr)
    requires Apart(p, q, a) && Gapless(p, nonce, next) && nonce < next && next in q && (local || |q.Keys| <= limit)
    requires (forall n <- p :: !TooDear(p[n], balance, smoke))
    requires forall n <- q :: nonce <= n && !TooDear(q[n], balance, smoke)
    ensures ArrangedTo(p, q, nonce, p, q, nonce, true, true, nonce, balance, smoke, local, limit)
    ensures NextAfter(p, nonce) == next && Stranded(p, q, nonce, nonce, balance, smoke, local, limit)
  {
    hide PromotedTo, DemotedTo, ArrangedTo, Affordable, From, IsReady, Stranded, TooDear, Solid, Waiting;
    GaplessIs(p, nonce, next);
    AllPayable(q, nonce, balance, smoke);
    NoneReady(p, q, nonce, nonce, balance, smoke, local, limit);
    AllKept(p, q, nonce, balance, smoke);
    ArrangedBoth(p, q, nonce, p, q, nonce, p, q, nonce, balance, smoke, local, limit);
    ResetStrands(p, q, nonce, p, q, nonce, p, q, nonce, nonce, balance, smoke, local, limit, a);
  }

  /** Pending are nonces 3 and 4 and queued is nonce 5, which comes next: a reset to the same state
      leaves it queued. */
  lemma StrandedAfterReset() returns (p: Items, q: Items)
    ensures p.Keys == {3, 4} && q.Keys == {5} && Apart(p, q, 0) && Gapless(p, 3, 5)
    ensures ArrangedTo(p, q, 3, p, q, 3, true, true, 3, SMOKE_EACH, HEAD_SMOKE, false, 64)
    ensures NextAfter(p, 3) == 5 && Stranded(p, q, 3, 3, SMOKE_EACH, HEAD_SMOKE, false, 64)
  {
    hide ArrangedTo, Stranded, TooDear, Payables;
    p := Payables({3, 4});
    q := Payables({5});
    SameStateStrands(p, q, 5, 3, SMOKE_EACH, HEAD_SMOKE, false, 64, 0);
  }

  /** Nonces 2 and 3 are pending when the state nonce moves from 2 to 3, and nonce 2 is dropped to make
      room for a transaction that is taken back.  Nonce 3 is queued and the pending nonce falls to
      2, below the state nonce: the reset leaves it so. */
  lemma SetBackStrands() returns (b: Shelves, c: Shelves, q: Items)
    ensures b == Shelve(Payables({2, 3})) && GaplessIn(b.(virtual := map[0 := 4]), At(2), 0)
    ensures c == Erased(b, At(3), Payable(2)) && q.Keys == {3}
    ensures ListOf(c.pending, 0) == map[] && ListOf(c.queue, 0) == q && NonceIn(c.virtual, At(3), 0) == 2
    ensures ArrangedTo(map[], q, 2, map[], q, 2, true, true, 3, SMOKE_EACH, HEAD_SMOKE, false, 64)
    ensures Stranded(map[], q, 2, 3, SMOKE_EACH, HEAD_SMOKE, false, 64)
    ensures forall was :: !Bridged(map[], q, 2, was, 3, SMOKE_EACH, HEAD_SMOKE)
  {
    hide ArrangedTo, Erased, Stranded, Bridged, TooDear, Payable, Payables;
    var list := Payables({2, 3});
    q := Payables({3});
    b, c := Shelve(list), Erased(Shelve(list), At(3), Payable(2));
    HeadErased(list, q, At(3));
    BelowState(q, 2, 3, SMOKE_EACH, HEAD_SMOKE);
  }

  /** Removing the first of two pending transactions queues the other, and the pending nonce falls. */
  lemma HeadErased(list: Items, q: Items, nonceOf: Addr -> nat)
    requires list.Keys == {2, 3} && Owned(list, 0) && q.Keys == {3} && q[3] == list[3] && nonceOf(0) == 3
    ensures var c := Erased(Shelve(list), nonceOf, list[2]);
      ListOf(c.pending, 0) == map[] && ListOf(c.queue, 0) == q && NonceIn(c.virtual, nonceOf, 0) == 2
  {
    assert Below(list, 2) == map[] && map[] + From(list, 3) == q;
  }

  /** With the pending nonce below the state nonce and nothing pending, what is queued stays queued. */
  lemma BelowState(q: Items, start: nat, nonce: nat, balance: nat, smoke: nat)
    requires q.Keys == {nonce} && Owned(q, 0) && start < nonce && !TooDear(q[nonce], balance, smoke)
    ensures ArrangedTo(map[], q, start, map[], q, start, true, true, nonce, balance, smoke, false, 64)
    ensures Stranded(map[], q, start, nonce, balance, smoke, false, 64)
    ensures forall was :: !Bridged(map[], q, start, was, nonce, balance, smoke)
  {
    hide PromotedTo, DemotedTo, ArrangedTo, Affordable, From, IsReady, Stranded, TooDear, Solid, Waiting;
    AllPayable(q, nonce, balance, smoke);
    NoneReady(map[], q, start, nonce, balance, smoke, false, 64);
    NothingKept(q, nonce, balance, smoke);
    ArrangedBoth(map[], q, start, map[], q, start, map[], q, nonce, balance, smoke, false, 64);
    GaplessIs(map[], 0, 0);
    ResetStrands(map[], q, start, map[], q, start, map[], q, 0, nonce, balance, smoke, false, 64, 0);
  }

  lemma NothingKept(q: Items, nonce: nat, balance: nat, smoke: nat)
    ensures DemotedTo(map[], q, map[], q, nonce, balance, smoke)
  {
    assert From(map[], nonce) == map[];
  }

  lemma ArrangedBoth(p0: Items, q0: Items, start: nat, p1: Items, q1: Items, next: nat, p: Items, q: Items,
                     nonce: nat, balance: nat, smoke: nat, local: bool, limit: nat)
    requires PromotedTo(p0, q0, start, p1, q1, next, nonce, balance, smoke, local, limit)
    requires DemotedTo(p1, q1, p, q, nonce, balance, smoke)
    ensures ArrangedTo(p0, q0, start, p, q, next, true, true, nonce, balance, smoke, local, limit)
  {
    hide PromotedTo, DemotedTo;
    assert PromotedIf(true, p0, q0, start, p1, q1, next, nonce, balance, smoke, local, limit);
    assert DemotedIf(true, p1, q1, p, q, nonce, balance, smoke);
  }

  lemma AllPayable(q: Items, nonce: nat, balance: nat, smoke: nat)
    requires forall n <- q :: nonce <= n && !TooDear(q[n], balance, smoke)
    ensures Affordable(From(q, nonce), false, balance, smoke) == q
  {
    assert From(q, nonce) == q;
  }

  lemma OneReady(p: Items, q: Items, balance: nat, smoke: nat)
    requires q.Keys == {1} && Affordable(From(q, 1), false, balance, smoke) == q
    ensures PromotedTo(p, q, 1, p + q, map[], 2, 1, balance, smoke, false, 64)
  {
    hide Affordable, From;
    assert Between(q, 1, 2) == q && IsReady(q, 1, 1, 2);
    assert Outside(q, 1, 2) == map[] && Waiting(q, 1, 2, false, 64) == map[];
  }

  lemma NoneReady(p: Items, q: Items, start: nat, nonce: nat, balance: nat, smoke: nat, local: bool, limit: nat)
    requires (forall n <- q :: n > start) && (local || |q.Keys| <= limit)
    requires Affordable(From(q, nonce), false, balance, smoke) == q
    ensures PromotedTo(p, q, start, p, q, start, nonce, balance, smoke, local, limit)
  {
    hide Affordable, From;
    assert |q.Keys| == |q|;
    assert p + Between(q, start, start) == p && IsReady(q, start, start, start);
    assert Outside(q, start, start) == q && Waiting(q, start, start, local, limit) == q;
  }

  lemma AllKept(p: Items, q: Items, nonce: nat, balance: nat, smoke: nat)
    requires nonce in p && forall n <- p :: nonce <= n && !TooDear(p[n], balance, smoke)
    ensures DemotedTo(p, q, p, q, nonce, balance, smoke)
  {
    assert From(p, nonce) == p && Dear(p, balance, smoke) == map[];
    assert Affordable(p, true, balance, smoke) == p && Invalidated(p, true, balance, smoke) == map[];
  }
}
