/**
 The pool's books as values: pending and queued transactions per account, and the set of all
 known transactions, which must agree with them.
 */
module PoolBooks {
  import opened Basics
  import opened Transactions

  type Shelf = map<Addr, Items>

  /** The transaction lies on the shelf, under its sender and nonce. */
  predicate Placed(m: Shelf, tx: Tx) {
    tx.sender in m && tx.nonce in m[tx.sender] && m[tx.sender][tx.nonce] == tx
  }

  predicate HasSlot(m: Shelf, a: Addr, n: nat) {
    a in m && n in m[a]
  }

  function ListOf(m: Shelf, a: Addr): Items {
    if a in m then m[a] else map[]
  }

  /** Replaces an account's list; empty lists are not kept. */
  function WithList(m: Shelf, a: Addr, items: Items): Shelf {
    if items == map[] then m - {a} else m[a := items]
  }

  /** No empty lists, and every transaction under its own sender and nonce. */
  ghost predicate Tidy(m: Shelf) {
    && (forall a <- m :: m[a] != map[])
    && (forall a, n {:trigger HasSlot(m, a, n)} :: HasSlot(m, a, n) ==> m[a][n].sender == a && m[a][n].nonce == n)
  }

  /** The lists fit an account. */
  ghost predicate Owned(items: Items, a: Addr) {
    forall n <- items :: items[n].sender == a && items[n].nonce == n
  }

  /** No nonce of an account is both pending and queued, and a transaction is known exactly if it
      is placed, apart from those in `loose`, which are known but on neither shelf. */
  ghost predicate Coherent(pending: Shelf, queue: Shelf, known: set<Tx>, loose: set<Tx>) {
    && Tidy(pending) && Tidy(queue)
    && (forall a, n :: !(HasSlot(pending, a, n) && HasSlot(queue, a, n)))
    && (forall tx :: tx in known <==> Placed(pending, tx) || Placed(queue, tx) || tx in loose)
    && (forall tx <- loose :: !Placed(pending, tx) && !Placed(queue, tx))
  }

  function Txs(items: Items): set<Tx> {
    set n | n in items :: items[n]
  }

  lemma TxsHas(items: Items, a: Addr, tx: Tx)
    requires Owned(items, a)
    ensures tx in Txs(items) <==> tx.sender == a && tx.nonce in items && items[tx.nonce] == tx
  {
  }

  /** Slots of a shelf after replacing one list. */
  lemma WithListSlots(m: Shelf, a: Addr, items: Items)
    ensures forall b, n :: HasSlot(WithList(m, a, items), b, n) <==> if b == a then n in items else HasSlot(m, b, n)
    ensures forall tx :: Placed(WithList(m, a, items), tx) <==>
      if tx.sender == a then tx.nonce in items && items[tx.nonce] == tx else Placed(m, tx)
  {
  }

  lemma WithListTwice(m: Shelf, a: Addr, x: Items, y: Items)
    ensures WithList(WithList(m, a, x), a, y) == WithList(m, a, y)
    ensures ListOf(WithList(m, a, x), a) == x
    ensures Tidy(m) ==> WithList(m, a, ListOf(m, a)) == m
  {
  }

  lemma WithListTidy(m: Shelf, a: Addr, items: Items)
    requires Tidy(m) && Owned(items, a)
    ensures Tidy(WithList(m, a, items))
  {
    WithListSlots(m, a, items);
    var r := WithList(m, a, items);
    forall b, n | HasSlot(r, b, n) ensures r[b][n].sender == b && r[b][n].nonce == n {
      assert b != a ==> HasSlot(m, b, n);
    }
  }

  lemma ListOwned(m: Shelf, a: Addr)
    requires Tidy(m)
    ensures Owned(ListOf(m, a), a)
  {
    forall n <- ListOf(m, a) ensures ListOf(m, a)[n].sender == a && ListOf(m, a)[n].nonce == n {
      assert HasSlot(m, a, n);
    }
  }

  /** `part` is some of the transactions of `items`. */
  predicate SubItems(part: Items, items: Items) {
    forall n <- part :: n in items && items[n] == part[n]
  }

  lemma NotBoth(pending: Shelf, queue: Shelf, known: set<Tx>, loose: set<Tx>, tx: Tx)
    requires Coherent(pending, queue, known, loose)
    ensures !(Placed(pending, tx) && Placed(queue, tx))
  {
    assert !(HasSlot(pending, tx.sender, tx.nonce) && HasSlot(queue, tx.sender, tx.nonce));
  }

  /** `items` falls into two parts. */
  predicate Split(items: Items, kept: Items, rest: Items) {
    SubItems(kept, items) && SubItems(rest, items) && forall n <- items :: n in kept <==> n !in rest
  }

  lemma FreePending(pending: Shelf, queue: Shelf, known: set<Tx>, a: Addr, kept: Items, rest: Items)
    requires Coherent(pending, queue, known, {}) && Split(ListOf(pending, a), kept, rest)
    ensures Free(WithList(pending, a, kept), queue, a, rest)
  {
    forall n <- rest ensures !HasSlot(WithList(pending, a, kept), a, n) && !HasSlot(queue, a, n) {
      assert HasSlot(pending, a, n);
    }
  }

  lemma FreeQueued(pending: Shelf, queue: Shelf, known: set<Tx>, a: Addr, kept: Items, rest: Items)
    requires Coherent(pending, queue, known, {}) && Split(ListOf(queue, a), kept, rest)
    ensures Free(pending, WithList(queue, a, kept), a, rest)
  {
    forall n <- rest ensures !HasSlot(WithList(queue, a, kept), a, n) && !HasSlot(pending, a, n) {
      assert HasSlot(queue, a, n);
    }
  }

  /** Taking transactions off the pending shelf makes them loose. */
  lemma TakePending(pending: Shelf, queue: Shelf, known: set<Tx>, a: Addr, kept: Items, rest: Items)
    requires Coherent(pending, queue, known, {}) && Split(ListOf(pending, a), kept, rest)
    ensures Coherent(WithList(pending, a, kept), queue, known, Txs(rest))
    ensures Free(WithList(pending, a, kept), queue, a, rest)
  {
    FreePending(pending, queue, known, a, kept, rest);
    ListOwned(pending, a);
    assert Owned(kept, a) && Owned(rest, a);
    WithListTidy(pending, a, kept);
    WithListSlots(pending, a, kept);
    forall tx
      ensures tx in Txs(rest) <==> tx.sender == a && Placed(pending, tx) && !Placed(WithList(pending, a, kept), tx)
      ensures !(Placed(pending, tx) && Placed(queue, tx))
    {
      NotBoth(pending, queue, known, {}, tx);
      TxsHas(rest, a, tx);
    }
  }

  /** Taking transactions off the queue makes them loose. */
  lemma TakeQueued(pending: Shelf, queue: Shelf, known: set<Tx>, a: Addr, kept: Items, rest: Items)
    requires Coherent(pending, queue, known, {}) && Split(ListOf(queue, a), kept, rest)
    ensures Coherent(pending, WithList(queue, a, kept), known, Txs(rest))
    ensures Free(pending, WithList(queue, a, kept), a, rest)
  {
    FreeQueued(pending, queue, known, a, kept, rest);
    ListOwned(queue, a);
    assert Owned(kept, a) && Owned(rest, a);
    WithListTidy(queue, a, kept);
    WithListSlots(queue, a, kept);
    forall tx
      ensures tx in Txs(rest) <==> tx.sender == a && Placed(queue, tx) && !Placed(WithList(queue, a, kept), tx)
      ensures !(Placed(pending, tx) && Placed(queue, tx))
    {
      NotBoth(pending, queue, known, {}, tx);
      TxsHas(rest, a, tx);
    }
  }

  /** Forgetting loose transactions. */
  lemma Forget(pending: Shelf, queue: Shelf, known: set<Tx>, loose: set<Tx>, gone: set<Tx>)
    requires Coherent(pending, queue, known, loose) && gone <= loose
    ensures Coherent(pending, queue, known - gone, loose - gone)
  {
  }

  /** The nonces of `part` are free for account `a` on both shelves. */
  ghost predicate Free(pending: Shelf, queue: Shelf, a: Addr, part: Items) {
    forall n <- part :: !HasSlot(pending, a, n) && !HasSlot(queue, a, n)
  }

  /** Queueing loose transactions under free nonces. */
  lemma PlaceQueued(pending: Shelf, queue: Shelf, known: set<Tx>, a: Addr, part: Items)
    requires Coherent(pending, queue, known, Txs(part)) && Owned(part, a) && Free(pending, queue, a, part)
    ensures Coherent(pending, WithList(queue, a, ListOf(queue, a) + part), known, {})
    ensures Tidy(queue) && Txs(part) <= known && part.Keys !! ListOf(queue, a).Keys
  {
    var items := ListOf(queue, a) + part;
    FreeKeys(pending, queue, a, part);
    ListOwned(queue, a);
    WithListTidy(queue, a, items);
    WithListSlots(queue, a, items);
    forall tx ensures tx in Txs(part) <==> tx.sender == a && tx.nonce in part && part[tx.nonce] == tx {
      TxsHas(part, a, tx);
    }
    forall tx: Tx | tx.sender == a && tx.nonce in part ensures !Placed(pending, tx) {
      assert !HasSlot(pending, a, tx.nonce);
    }
  }

  /** Promoting loose transactions to free pending nonces. */
  lemma PlacePending(pending: Shelf, queue: Shelf, known: set<Tx>, a: Addr, part: Items)
    requires Coherent(pending, queue, known, Txs(part)) && Owned(part, a) && Free(pending, queue, a, part)
    ensures Coherent(WithList(pending, a, ListOf(pending, a) + part), queue, known, {})
    ensures Tidy(pending) && part.Keys !! ListOf(pending, a).Keys
  {
    var items := ListOf(pending, a) + part;
    FreeKeys(pending, queue, a, part);
    ListOwned(pending, a);
    WithListTidy(pending, a, items);
    WithListSlots(pending, a, items);
    forall tx ensures tx in Txs(part) <==> tx.sender == a && tx.nonce in part && part[tx.nonce] == tx {
      TxsHas(part, a, tx);
    }
    forall tx: Tx | tx.sender == a && tx.nonce in part ensures !Placed(queue, tx) {
      assert !HasSlot(queue, a, tx.nonce);
    }
  }

  lemma FreeKeys(pending: Shelf, queue: Shelf, a: Addr, part: Items)
    requires Free(pending, queue, a, part)
    ensures part.Keys !! ListOf(pending, a).Keys && part.Keys !! ListOf(queue, a).Keys
  {
    forall n <- part ensures n !in ListOf(pending, a) && n !in ListOf(queue, a) {
      assert !HasSlot(pending, a, n) && !HasSlot(queue, a, n);
    }
  }

  // ---------- growing one list, transaction by transaction ----------

  lemma GrowStart(m: Shelf, a: Addr, part: Items)
    requires Tidy(m)
    ensures WithList(m, a, ListOf(m, a) + (part - part.Keys)) == m
  {
    assert ListOf(m, a) + (part - part.Keys) == ListOf(m, a);
    WithListTwice(m, a, map[], map[]);
  }

  lemma GrowStep(m: Shelf, a: Addr, base: Items, part: Items, todo: set<nat>, n: nat)
    requires todo <= part.Keys && n in todo && part.Keys !! base.Keys
    ensures var now := base + (part - todo);
      && ListOf(WithList(m, a, now), a) == now && n !in now
      && !HasSlot(WithList(m, a, now), a, n)
      && WithList(WithList(m, a, now), a, now[n := part[n]]) == WithList(m, a, base + (part - (todo - {n})))
  {
    var now := base + (part - todo);
    WithListTwice(m, a, now, now[n := part[n]]);
    assert now[n := part[n]] == base + (part - (todo - {n}));
  }

  // ---------- removing one transaction ----------

  /** A pending transaction leaves: the lower nonces stay, the higher ones move to the queue. */
  lemma ErasePending(pending: Shelf, queue: Shelf, known: set<Tx>, tx: Tx)
    requires Coherent(pending, queue, known, {}) && tx in known && HasSlot(pending, tx.sender, tx.nonce)
    ensures Tidy(queue)
    ensures var list := ListOf(pending, tx.sender);
      var moved := From(list, tx.nonce + 1);
      && Owned(moved, tx.sender) && Txs(moved) <= known - {tx} && moved.Keys !! ListOf(queue, tx.sender).Keys
      && Coherent(WithList(pending, tx.sender, Below(list, tx.nonce)),
                  WithList(queue, tx.sender, ListOf(queue, tx.sender) + moved), known - {tx}, {})
  {
    var a := tx.sender;
    var list := ListOf(pending, a);
    var kept, moved := Below(list, tx.nonce), From(list, tx.nonce + 1);
    NotBoth(pending, queue, known, {}, tx);
    assert Placed(pending, tx) by {
      assert !HasSlot(queue, a, tx.nonce);
    }
    ListOwned(pending, a);
    TakePending(pending, queue, known, a, kept, From(list, tx.nonce));
    var loose := Txs(From(list, tx.nonce));
    forall t ensures t in loose <==> t == tx || t in Txs(moved) {
      TxsHas(From(list, tx.nonce), a, t);
      TxsHas(moved, a, t);
    }
    TxsHas(moved, a, tx);
    assert loose == {tx} + Txs(moved);
    var p := WithList(pending, a, kept);
    WithListSlots(pending, a, kept);
    Forget(p, queue, known, loose, {tx});
    assert loose - {tx} == Txs(moved);
    assert Free(p, queue, a, moved) by {
      forall n <- moved ensures !HasSlot(p, a, n) && !HasSlot(queue, a, n) {
        assert HasSlot(pending, a, n);
      }
    }
    PlaceQueued(p, queue, known - {tx}, a, moved);
  }

  /** A queued transaction leaves. */
  lemma EraseQueued(pending: Shelf, queue: Shelf, known: set<Tx>, tx: Tx)
    requires Coherent(pending, queue, known, {}) && tx in known && !HasSlot(pending, tx.sender, tx.nonce)
    ensures HasSlot(queue, tx.sender, tx.nonce)
    ensures Coherent(pending, WithList(queue, tx.sender, ListOf(queue, tx.sender) - {tx.nonce}), known - {tx}, {})
  {
    var a := tx.sender;
    var list := ListOf(queue, a);
    var kept := list - {tx.nonce};
    assert Placed(queue, tx);
    ListOwned(queue, a);
    TakeQueued(pending, queue, known, a, kept, map[tx.nonce := tx]);
    var loose := Txs(map[tx.nonce := tx]);
    assert loose == {tx};
    Forget(pending, WithList(queue, a, kept), known, loose, {tx});
    assert loose - {tx} == {};
  }

  // ---------- inserting one transaction ----------

  /** The transaction under a nonce, if any. */
  function Prior(list: Items, n: nat): set<Tx> {
    if n in list then {list[n]} else {}
  }

  /** A new transaction is queued, in place of an older one with its nonce if there is one. */
  lemma InsertQueued(pending: Shelf, queue: Shelf, known: set<Tx>, tx: Tx)
    requires Coherent(pending, queue, known, {}) && tx !in known && !HasSlot(pending, tx.sender, tx.nonce)
    ensures var list := ListOf(queue, tx.sender);
      Coherent(pending, WithList(queue, tx.sender, list[tx.nonce := tx]), known - Prior(list, tx.nonce) + {tx}, {})
  {
    var list := ListOf(queue, tx.sender);
    ListOwned(queue, tx.sender);
    WithListTidy(queue, tx.sender, list[tx.nonce := tx]);
    WithListSlots(queue, tx.sender, list[tx.nonce := tx]);
  }

  /** A new transaction replaces a pending one. */
  lemma InsertPending(pending: Shelf, queue: Shelf, known: set<Tx>, tx: Tx)
    requires Coherent(pending, queue, known, {}) && tx !in known && HasSlot(pending, tx.sender, tx.nonce)
    ensures var list := ListOf(pending, tx.sender);
      Coherent(WithList(pending, tx.sender, list[tx.nonce := tx]), queue, known - Prior(list, tx.nonce) + {tx}, {})
  {
    var list := ListOf(pending, tx.sender);
    ListOwned(pending, tx.sender);
    WithListTidy(pending, tx.sender, list[tx.nonce := tx]);
    WithListSlots(pending, tx.sender, list[tx.nonce := tx]);
    assert !HasSlot(queue, tx.sender, tx.nonce);
  }

  lemma PriorKnown(pending: Shelf, queue: Shelf, known: set<Tx>, a: Addr, n: nat)
    requires Coherent(pending, queue, known, {})
    ensures Prior(ListOf(pending, a), n) <= known && Prior(ListOf(queue, a), n) <= known
  {
    ListOwned(pending, a);
    ListOwned(queue, a);
    assert n in ListOf(pending, a) ==> Placed(pending, ListOf(pending, a)[n]);
    assert n in ListOf(queue, a) ==> Placed(queue, ListOf(queue, a)[n]);
  }
}
