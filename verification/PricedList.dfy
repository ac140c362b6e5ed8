/**
 The global lookup of core/tx_pool.go and the lazily cleaned price heap of core/tx_list.go.

 The heap is not updated when a transaction leaves the lookup; a counter of stale entries decides
 when it is rebuilt.
 */
module PricedLists {
  import opened Basics
  import opened Transactions
  import Heaps
  import Sums

  const SLOTS: Tx -> int := (t: Tx) => t.Slots()

  class Lookup {
    var locals: set<Tx>
    var remotes: set<Tx>
    var slots: int

    ghost predicate Valid()
      reads this
    {
      locals !! remotes && slots == Sums.Sum(locals + remotes, SLOTS)
    }

    constructor ()
      ensures Valid() && locals == {} && remotes == {} && slots == 0
    {
      locals, remotes, slots := {}, {}, 0;
    }

    /** Adds a transaction.  The slot count stays right exactly if it was not known yet. */
    method Add(tx: Tx, local: bool)
      requires Valid()
      modifies this
      ensures locals == if local then old(locals) + {tx} else old(locals)
      ensures remotes == if local then old(remotes) else old(remotes) + {tx}
      ensures slots == old(slots) + tx.Slots()
      ensures tx !in old(locals + remotes) ==> Valid()
      ensures tx in old(locals + remotes) && tx.Slots() > 0 ==> !Valid()
    {
      hide Tx.Slots;
      if tx !in locals + remotes {
        Sums.SumAdd(locals + remotes, SLOTS, tx);
      }
      slots := slots + tx.Slots();
      if local {
        locals := locals + {tx};
      } else {
        remotes := remotes + {tx};
      }
      assert locals + remotes == old(locals + remotes) + {tx};
      assert tx in old(locals + remotes) ==> locals + remotes == old(locals + remotes);
    }

    method Remove(tx: Tx) returns (found: bool)
      requires Valid()
      modifies this
      ensures Valid() && found == (tx in old(locals + remotes))
      ensures locals == old(locals) - {tx} && remotes == old(remotes) - {tx}
    {
      found := tx in locals || tx in remotes;
      if !found {
        return;
      }
      Sums.SumRemove(locals + remotes, SLOTS, tx);
      slots := slots - tx.Slots();
      locals, remotes := locals - {tx}, remotes - {tx};
      assert locals + remotes == old(locals + remotes) - {tx};
    }

    method MoveOver(t: Tx)
      requires Valid() && t in remotes
      modifies this
      ensures Valid() && locals + remotes == old(locals + remotes)
      ensures remotes == old(remotes) - {t} && |remotes| == |old(remotes)| - 1
    {
      hide Sums.Sum;
      locals, remotes := locals + {t}, remotes - {t};
      assert locals + remotes == old(locals + remotes);
    }

    /** Moves the remote transactions of local accounts over, and counts them. */
    method RemoteToLocals(accounts: set<Addr>) returns (migrated: nat)
      requires Valid()
      modifies this
      ensures Valid() && locals + remotes == old(locals + remotes)
      ensures remotes == set t | t in old(remotes) && t.sender !in accounts
      ensures migrated == |old(remotes)| - |remotes|
    {
      hide Lookup.Valid, Migrating;
      migrated := 0;
      var todo := remotes;
      MigrateStart(remotes, accounts);
      while todo != {}
        invariant Valid() && locals + remotes == old(locals + remotes)
        invariant Migrating(old(remotes), remotes, todo, accounts)
        invariant migrated == |old(remotes)| - |remotes|
        decreases todo
      {
        var t :| t in todo;
        MigrateStep(old(remotes), remotes, todo, accounts, t);
        todo := todo - {t};
        if t.sender in accounts {
          MoveOver(t);
          migrated := migrated + 1;
        }
      }
      MigrateEnd(old(remotes), remotes, accounts);
    }
  }

  /** The remotes while those of the given accounts are moved away, `todo` being left to look at. */
  ghost predicate Migrating(before: set<Tx>, remotes: set<Tx>, todo: set<Tx>, accounts: set<Addr>) {
    todo <= remotes <= before && forall t <- before :: t in remotes <==> t in todo || t.sender !in accounts
  }

  lemma MigrateStart(before: set<Tx>, accounts: set<Addr>)
    ensures Migrating(before, before, before, accounts)
  {
  }

  lemma MigrateStep(before: set<Tx>, remotes: set<Tx>, todo: set<Tx>, accounts: set<Addr>, t: Tx)
    requires Migrating(before, remotes, todo, accounts) && t in todo
    ensures t in remotes
    ensures Migrating(before, if t.sender in accounts then remotes - {t} else remotes, todo - {t}, accounts)
  {
  }

  lemma MigrateEnd(before: set<Tx>, remotes: set<Tx>, accounts: set<Addr>)
    requires Migrating(before, remotes, {}, accounts)
    ensures remotes == set t | t in before && t.sender !in accounts
  {
  }

  /** Cheaper first; among equal prices the higher nonce first. */
  predicate Cheaper(a: Tx, b: Tx) {
    a.price < b.price || (a.price == b.price && a.nonce >= b.nonce)
  }

  lemma CheaperOrder()
    ensures Heaps.TotalOrder(Cheaper)
  {
  }

  /** No dearer than any of the remotes. */
  ghost predicate PricedOut(tx: Tx, remotes: set<Tx>) {
    remotes != {} && forall t <- remotes :: tx.price <= t.price
  }

  lemma PricedOutMeans(tx: Tx, remotes: set<Tx>)
    ensures PricedOut(tx, remotes) <==> remotes != {} && forall t <- remotes :: t.price >= tx.price
  {
  }

  /** If a remote is cheaper than the transaction, the first one dropped is. */
  lemma FirstIsCheaper(tx: Tx, remotes: set<Tx>, drop: seq<Tx>)
    requires Elements(drop) <= remotes && WorseThan(drop, remotes - Elements(drop)) && WorstFirst(drop)
    ensures drop != [] && remotes != {} && !PricedOut(tx, remotes) ==> drop[0].price < tx.price
  {
    if drop != [] && !PricedOut(tx, remotes) && remotes != {} {
      var u :| u in remotes && u.price < tx.price;
      assert drop[0] in drop;
      if u in drop {
        var j :| 0 <= j < |drop| && drop[j] == u;
        assert j > 0 ==> drop[0].price <= drop[j].price;
      } else {
        assert u in remotes - Elements(drop);
      }
    }
  }

  lemma DropsSome(remotes: set<Tx>, drop: seq<Tx>)
    requires Elements(drop) <= remotes && drop != []
    ensures remotes != {}
  {
    assert drop[0] in Elements(drop);
  }

  /** All but the last. */
  function Front(txs: seq<Tx>): seq<Tx> {
    if txs == [] then [] else txs[..|txs| - 1]
  }

  ghost function SlotsOf(txs: seq<Tx>): nat {
    if txs == [] then 0 else SlotsOf(txs[..|txs| - 1]) + txs[|txs| - 1].Slots()
  }

  /** Nothing in the list is dearer than anything in the heap, or than what follows it in the list. */
  ghost predicate Undercuts(drop: seq<Tx>, heap: seq<Tx>) {
    && (forall t <- drop, u <- heap :: Cheaper(t, u))
    && (forall i, j :: 0 <= i < j < |drop| ==> Cheaper(drop[i], drop[j]))
  }

  lemma UndercutMore(drop: seq<Tx>, before: seq<Tx>, after: seq<Tx>, tx: Tx)
    requires Undercuts(drop, before) && (forall t :: t in before <==> t in after || t == tx)
    requires forall t <- after :: Cheaper(tx, t)
    ensures Undercuts(drop, after) && Undercuts(drop + [tx], after)
  {
    hide Cheaper;
    assert tx in before;
  }

  lemma NothingPopped(heap: seq<Tx>, stales: int, remotes: set<Tx>)
    requires Tracked(heap, stales, remotes, {}, 0)
    ensures Undercuts([], heap) && Elements<Tx>([]) == {} && SlotsOf([]) == 0 && stales >= |heap| - |remotes|
  {
    assert remotes - {} == remotes;
  }

  /** In prices and nonces: what is dropped is cheaper than what stays, or as cheap and of no lower nonce. */
  ghost predicate WorseThan(drop: seq<Tx>, rest: set<Tx>) {
    forall t <- drop, u <- rest :: t.price < u.price || (t.price == u.price && t.nonce >= u.nonce)
  }

  /** Prices rise along the list, and nonces do not among equal prices. */
  ghost predicate WorstFirst(drop: seq<Tx>) {
    forall i, j :: 0 <= i < j < |drop| ==>
      drop[i].price < drop[j].price || (drop[i].price == drop[j].price && drop[i].nonce >= drop[j].nonce)
  }

  lemma NothingWorse(rest: set<Tx>)
    ensures WorseThan([], rest) && WorstFirst([])
  {
  }

  lemma UndercutsWorst(drop: seq<Tx>, heap: seq<Tx>, stales: int, remotes: set<Tx>)
    requires Tracked(heap, stales, remotes, Elements(drop), 0) && Undercuts(drop, heap)
    ensures WorseThan(drop, remotes - Elements(drop)) && WorstFirst(drop)
  {
    forall t <- drop, u <- remotes - Elements(drop)
      ensures t.price < u.price || (t.price == u.price && t.nonce >= u.nonce)
    {
      assert u in heap;
    }
  }

  /** Every live remote is in the heap, and the stale counter covers all other entries, up to
      `removals` not yet reported and the already popped transactions `popped`. */
  ghost predicate Tracked(heap: seq<Tx>, stales: int, remotes: set<Tx>, popped: set<Tx>, removals: int) {
    && Heaps.Heap(Cheaper, heap, |heap|)
    && (forall t <- remotes :: t in heap || t in popped)
    && stales + removals >= |heap| - |remotes - popped|
  }

  /** What reporting removals does to the heap: it is kept, or rebuilt from the live remotes if more
      than a quarter of it may be stale. */
  ghost predicate Reported(heap0: seq<Tx>, stales0: int, heap: seq<Tx>, stales: int, remotes: set<Tx>, count: nat) {
    if stales0 + count <= |heap0| / 4 then
      heap == heap0 && stales == stales0 + count
    else
      multiset(heap) == multiset(remotes) && stales == 0
  }

  /** A new transaction is on the heap once more, unless it is local. */
  ghost predicate Listed(heap0: seq<Tx>, heap: seq<Tx>, tx: Tx, local: bool) {
    multiset(heap) == multiset(heap0) + if local then multiset{} else multiset{tx}
  }

  class PricedList {
    const all: Lookup
    var heap: seq<Tx>
    var stales: int

    ghost predicate Tracks(popped: set<Tx>, removals: int)
      reads this, all
    {
      Tracked(heap, stales, all.remotes, popped, removals)
    }

    ghost predicate Valid()
      reads this, all
    {
      Tracks({}, 0)
    }

    constructor (all: Lookup)
      requires all.remotes == {}
      ensures Valid() && this.all == all && heap == [] && stales == 0
    {
      this.all, heap, stales := all, [], 0;
    }

    /** Reports a transaction just added to the lookup. */
    method Put(tx: Tx, local: bool)
      requires local ==> Valid()
      requires !local ==> tx in all.remotes && Tracked(heap, stales, all.remotes - {tx}, {}, 0)
      modifies this
      ensures Valid() && stales == old(stales) && Listed(old(heap), heap, tx, local)
    {
      if local {
        return;
      }
      CheaperOrder();
      var h := Heaps.Push(Cheaper, heap, tx);
      SameMembers(heap, h, tx);
      heap := h;
      assert all.remotes - {} == all.remotes && all.remotes - {tx} - {} == all.remotes - {tx};
    }

    /** Rebuilds the heap from the live remotes. */
    method Reheap()
      modifies this
      ensures Valid() && stales == 0 && |heap| == |all.remotes| && multiset(heap) == multiset(all.remotes)
    {
      var list := Listing(all.remotes);
      CheaperOrder();
      heap := Heaps.Init(Cheaper, list);
      stales := 0;
      forall t <- all.remotes ensures t in heap {
        assert t in multiset(heap);
      }
      assert |multiset(heap)| == |heap|;
      assert all.remotes - {} == all.remotes;
    }

    /** Reports `count` transactions gone from the lookup.  Afterwards at least three quarters of
        the heap are live. */
    method Removed(count: nat)
      requires Tracks({}, count)
      modifies this
      ensures Valid() && 3 * |heap| <= 4 * |all.remotes|
      ensures Reported(old(heap), old(stales), heap, stales, all.remotes, count)
    {
      stales := stales + count;
      assert all.remotes - {} == all.remotes;
      if stales <= |heap| / 4 {
        return;
      }
      Reheap();
    }

    /** Takes the cheapest entry off the heap; a stale one is also taken off the counter. */
    method PopTop(ghost popped: set<Tx>) returns (tx: Tx, live: bool)
      requires Tracks(popped, 0) && heap != []
      modifies this
      ensures tx == old(heap)[0] && live == (tx in all.remotes) && |heap| == |old(heap)| - 1
      ensures live ==> stales == old(stales) && Tracks(popped + {tx}, 0)
      ensures !live ==> stales == old(stales) - 1 && Tracks(popped, 0)
      ensures multiset(heap) + multiset{tx} == multiset(old(heap))
      ensures forall t :: t in old(heap) <==> t in heap || t == tx
      ensures forall t <- heap :: Cheaper(tx, t)
    {
      CheaperOrder();
      ghost var before := heap;
      heap, tx := Heaps.Pop(Cheaper, heap);
      live := tx in all.remotes;
      OneLess(before, heap, tx);
      if live {
        assert all.remotes - (popped + {tx}) == (all.remotes - popped) - {tx};
      } else {
        stales := stales - 1;
      }
    }

    /** Drops every live remote below a price. */
    method Cap(threshold: nat) returns (drop: seq<Tx>)
      requires Valid()
      modifies this
      ensures Elements(drop) == set t | t in all.remotes && t.price < threshold
      ensures Tracks(Elements(drop), 0)
      ensures forall t <- all.remotes :: t.price >= threshold ==> multiset(heap)[t] == multiset(old(heap))[t]
    {
      drop := [];
      while |heap| > 0
        invariant Tracks(Elements(drop), 0)
        invariant forall t <- all.remotes :: t.price >= threshold ==> multiset(heap)[t] == multiset(old(heap))[t]
        invariant forall t <- drop :: t in all.remotes && t.price < threshold
        decreases |heap|
      {
        var cheapest := heap[0];
        if cheapest in all.remotes && cheapest.price >= threshold {
          TopCheapest();
          break;
        }
        ghost var popped, before := Elements(drop), heap;
        var tx, live := PopTop(popped);
        assert forall t <- all.remotes :: t.price >= threshold ==> multiset(heap)[t] == multiset(before)[t];
        if live {
          drop := drop + [cheapest];
          assert Elements(drop) == popped + {cheapest};
        }
      }
    }

    lemma TopCheapest()
      requires Heaps.Heap(Cheaper, heap, |heap|) && heap != []
      ensures forall t <- heap :: Cheaper(heap[0], t)
    {
      CheaperOrder();
      forall t <- heap ensures Cheaper(heap[0], t) {
        var j :| 0 <= j < |heap| && heap[j] == t;
        Heaps.TopLeast(Cheaper, heap, |heap|, j);
      }
    }

    /** Whether a transaction is no dearer than every live remote. */
    method Underpriced(tx: Tx) returns (r: bool)
      requires Valid()
      modifies this
      ensures Valid() && multiset(heap) <= multiset(old(heap))
      ensures LiveSlots(heap, all.remotes) == LiveSlots(old(heap), all.remotes)
      ensures r <==> PricedOut(tx, all.remotes)
    {
      hide LiveSlots;
      while |heap| > 0 && heap[0] !in all.remotes
        invariant Valid() && multiset(heap) <= multiset(old(heap))
        invariant LiveSlots(heap, all.remotes) == LiveSlots(old(heap), all.remotes)
        decreases |heap|
      {
        ghost var before := heap;
        var stale, live := PopTop({});
        LiveSlotsPop(before, heap, all.remotes, stale);
      }
      if |heap| == 0 {
        return false;
      }
      TopCheapest();
      r := heap[0].price >= tx.price;
    }

    /** Pops the cheapest live remotes until `need` slots are freed or nothing is left. */
    method PopCheapest(need: int) returns (drop: seq<Tx>, slots: int)
      requires Valid()
      modifies this
      ensures Tracks(Elements(drop), 0) && Elements(drop) <= all.remotes
      ensures stales >= |heap| + |drop| - |all.remotes|
      ensures Undercuts(drop, heap)
      ensures slots == need - SlotsOf(drop) && (slots > 0 ==> heap == [])
      ensures drop != [] ==> SlotsOf(Front(drop)) < need
      ensures multiset(heap) + multiset(drop) <= multiset(old(heap))
      ensures SlotsOf(drop) + LiveSlots(heap, all.remotes) == LiveSlots(old(heap), all.remotes)
    {
      hide Tracked, Undercuts, SlotsOf, Elements, Front, Tx.Slots, LiveSlots, Cheaper;
      drop, slots := [], need;
      NothingPopped(heap, stales, all.remotes);
      while |heap| > 0 && slots > 0
        invariant Tracks(Elements(drop), 0) && Elements(drop) <= all.remotes
        invariant stales >= |heap| + |drop| - |all.remotes|
        invariant Undercuts(drop, heap)
        invariant slots == need - SlotsOf(drop)
        invariant drop != [] ==> SlotsOf(Front(drop)) < need
        invariant multiset(heap) + multiset(drop) <= multiset(old(heap))
        invariant SlotsOf(drop) + LiveSlots(heap, all.remotes) == LiveSlots(old(heap), all.remotes)
        decreases |heap|
      {
        ghost var before := heap;
        var tx, live := PopTop(Elements(drop));
        LiveSlotsPop(before, heap, all.remotes, tx);
        UndercutMore(drop, before, heap, tx);
        if live {
          OneMore(drop, tx);
          drop := drop + [tx];
          slots := slots - tx.Slots();
        }
      }
    }

    /** Takes the cheapest live remotes until `need` slots are freed, or gives up and puts them back
        unless `force` is set: exactly if the live entries of the heap, with repetitions, take up too
        few slots.  Never a local, and never one dearer than a remote that stays. */
    method Discard(need: int, force: bool) returns (drop: seq<Tx>, ok: bool)
      requires Valid()
      modifies this
      ensures ok ==> Tracks(Elements(drop), 0) && Elements(drop) <= all.remotes
      ensures WorseThan(drop, all.remotes - Elements(drop)) && WorstFirst(drop)
      ensures ok && !force ==> SlotsOf(drop) >= need
      ensures ok && drop != [] ==> SlotsOf(Front(drop)) < need
      ensures ok && SlotsOf(drop) < need ==> all.remotes <= Elements(drop)
      ensures !ok ==> !force && drop == [] && Valid()
      ensures LiveOnce(old(heap), all.remotes) ==> NoneTwice(drop)
      ensures ok <==> force || LiveSlots(old(heap), all.remotes) >= need
      ensures !ok ==> Sums.Sum(all.remotes, SLOTS) < need
      ensures LiveOnce(old(heap), all.remotes) ==> (ok <==> force || Sums.Sum(all.remotes, SLOTS) >= need)
    {
      hide Tracked, LiveSlots, LiveOnce, NoneTwice, SlotsOf, Undercuts, Elements, Sums.Sum, WorseThan, WorstFirst;
      LiveSlotsBound(heap, stales, all.remotes);
      var slots;
      drop, slots := PopCheapest(need);
      DropsOnce(drop, old(heap), heap, all.remotes);
      LiveSlotsLeft(heap, all.remotes);
      AllPopped(heap, stales, all.remotes, Elements(drop));
      if slots > 0 && !force {
        PutBack(drop);
        NothingWorse(all.remotes - Elements([]));
        return [], false;
      }
      UndercutsWorst(drop, heap, stales, all.remotes);
      ok := true;
    }

    /** Pushes popped transactions back. */
    method PutBack(drop: seq<Tx>)
      requires Tracks(Elements(drop), 0) && Elements(drop) <= all.remotes
      requires stales >= |heap| + |drop| - |all.remotes|
      modifies this
      ensures Valid()
    {
      CheaperOrder();
      for i := 0 to |drop|
        invariant Heaps.Heap(Cheaper, heap, |heap|) && stales >= |heap| + |drop| - i - |all.remotes|
        invariant forall t <- all.remotes :: t in heap || t in drop[i..]
      {
        var h := Heaps.Push(Cheaper, heap, drop[i]);
        SameMembers(heap, h, drop[i]);
        heap := h;
      }
      assert all.remotes - {} == all.remotes;
    }
  }

  /** Adds a remote transaction to the lookup and to its price heap. */
  method AddRemote(all: Lookup, priced: PricedList, tx: Tx)
    requires all.Valid() && priced.all == all && priced.Valid() && tx !in all.locals + all.remotes
    modifies all, priced
    ensures all.Valid() && priced.Valid() && all.locals == old(all.locals) && all.remotes == old(all.remotes) + {tx}
    ensures multiset(priced.heap) == multiset(old(priced.heap)) + multiset{tx} && priced.stales == old(priced.stales)
  {
    hide Tracked, Sums.Sum;
    all.Add(tx, false);
    assert all.remotes - {tx} == old(all.remotes);
    priced.Put(tx, false);
  }

  /** Takes a remote transaction out of the lookup and reports it. */
  method Leave(all: Lookup, priced: PricedList, tx: Tx)
    requires all.Valid() && priced.all == all && priced.Valid() && tx in all.remotes
    modifies all, priced
    ensures all.Valid() && priced.Valid() && all.locals == old(all.locals) && all.remotes == old(all.remotes) - {tx}
    ensures tx !in all.locals
    ensures multiset(priced.heap)[tx] == if old(priced.stales) + 1 <= |old(priced.heap)| / 4 then old(multiset(priced.heap)[tx]) else 0
    ensures old(multiset(priced.heap)[tx]) >= 1
  {
    hide Tracked, Sums.Sum;
    OneGone(priced.heap, priced.stales, all.remotes, tx);
    var found := all.Remove(tx);
    priced.Removed(1);
  }

  /** A remote transaction that leaves and comes back is in the heap once more than before if few
      entries were stale, and exactly once if its leaving had the heap rebuilt. */
  method Readd(all: Lookup, priced: PricedList, tx: Tx)
    requires all.Valid() && priced.all == all && priced.Valid() && tx in all.remotes
    modifies all, priced
    ensures all.Valid() && priced.Valid() && all.locals == old(all.locals) && all.remotes == old(all.remotes)
    ensures multiset(priced.heap)[tx] == if old(priced.stales) + 1 <= |old(priced.heap)| / 4 then old(multiset(priced.heap)[tx]) + 1 else 1
    ensures old(multiset(priced.heap)[tx]) >= 1
  {
    hide Tracked, Sums.Sum;
    Leave(all, priced, tx);
    AddRemote(all, priced, tx);
  }

  lemma OneGone(heap: seq<Tx>, stales: int, remotes: set<Tx>, tx: Tx)
    requires Tracked(heap, stales, remotes, {}, 0) && tx in remotes
    ensures Tracked(heap, stales, remotes - {tx}, {}, 1) && multiset(heap)[tx] >= 1
  {
    assert remotes - {} == remotes && remotes - {tx} - {} == remotes - {tx};
    assert tx in heap;
  }

  /** The elements of a set, in some order. */
  method Listing(s: set<Tx>) returns (list: seq<Tx>)
    ensures multiset(list) == multiset(s)
  {
    list := [];
    var todo := s;
    while todo != {}
      invariant todo <= s && multiset(list) == multiset(s - todo)
      decreases todo
    {
      var t :| t in todo;
      assert s - (todo - {t}) == (s - todo) + {t};
      list, todo := list + [t], todo - {t};
    }
    assert s - {} == s;
  }

  lemma OneMore(drop: seq<Tx>, tx: Tx)
    ensures Elements(drop + [tx]) == Elements(drop) + {tx}
    ensures SlotsOf(drop + [tx]) == SlotsOf(drop) + tx.Slots()
    ensures Front(drop + [tx]) == drop
  {
    assert (drop + [tx])[..|drop|] == drop;
  }

  lemma OneLess(before: seq<Tx>, after: seq<Tx>, tx: Tx)
    requires multiset(after) == multiset(before) - multiset{tx} && tx in before
    ensures forall t :: t in before <==> t in after || t == tx
  {
    forall t ensures t in before <==> t in after || t == tx {
      assert t in before <==> t in multiset(before);
      assert t in after <==> t in multiset(after);
    }
  }


  lemma SameMembers(before: seq<Tx>, after: seq<Tx>, tx: Tx)
    requires multiset(after) == multiset(before) + multiset{tx}
    ensures tx in after && (forall t <- before :: t in after) && |after| == |before| + 1
  {
    assert tx in multiset(after);
    forall t <- before ensures t in after {
      assert t in multiset(after);
    }
    assert |multiset(after)| == |after| && |multiset(before)| == |before|;
  }

  predicate NoneTwice(txs: seq<Tx>) {
    forall i, j :: 0 <= i < j < |txs| ==> txs[i] != txs[j]
  }

  /** No live remote is in the heap twice. */
  ghost predicate LiveOnce(heap: seq<Tx>, remotes: set<Tx>) {
    forall t <- remotes :: multiset(heap)[t] <= 1
  }

  ghost function Weight(heap: seq<Tx>): Tx -> int {
    (t: Tx) => multiset(heap)[t] * t.Slots()
  }

  /** The slots of the live entries of a heap, repeated entries counted as often as they occur. */
  ghost function LiveSlots(heap: seq<Tx>, remotes: set<Tx>): int {
    Sums.Sum(remotes, Weight(heap))
  }

  lemma LiveSlotsPop(before: seq<Tx>, after: seq<Tx>, remotes: set<Tx>, tx: Tx)
    requires multiset(after) + multiset{tx} == multiset(before)
    ensures LiveSlots(before, remotes) == LiveSlots(after, remotes) + if tx in remotes then tx.Slots() else 0
  {
    hide Tx.Slots, Sums.Sum;
    forall t | t != tx ensures Weight(before)(t) == Weight(after)(t) {
      assert multiset(before)[t] == multiset(after)[t];
    }
    if tx in remotes {
      Sums.SumRemove(remotes, Weight(before), tx);
      Sums.SumRemove(remotes, Weight(after), tx);
      Sums.SumSame(remotes - {tx}, Weight(before), Weight(after));
      OneTimesMore(multiset(before)[tx], multiset(after)[tx], tx.Slots());
    } else {
      Sums.SumSame(remotes, Weight(before), Weight(after));
    }
  }

  lemma OneTimesMore(m: int, n: int, k: int)
    requires m == n + 1
    ensures m * k == n * k + k
  {
  }

  lemma LiveSlotsLeft(heap: seq<Tx>, remotes: set<Tx>)
    ensures LiveSlots(heap, remotes) >= 0 && (heap == [] ==> LiveSlots(heap, remotes) == 0)
  {
    var none := (t: Tx) => 0;
    SumNone(remotes);
    Sums.SumAtMost(remotes, none, Weight(heap));
    if heap == [] {
      Sums.SumSame(remotes, none, Weight(heap));
    }
  }

  lemma {:induction false} SumNone(s: set<Tx>)
    ensures Sums.Sum(s, (t: Tx) => 0) == 0
  {
    if s != {} {
      var t :| t in s;
      Sums.SumRemove(s, (t: Tx) => 0, t);
      SumNone(s - {t});
    }
  }

  /** The live entries take up the slots of all remotes, and more only if one is listed twice. */
  lemma LiveSlotsBound(heap: seq<Tx>, stales: int, remotes: set<Tx>)
    requires Tracked(heap, stales, remotes, {}, 0)
    ensures LiveSlots(heap, remotes) >= Sums.Sum(remotes, SLOTS)
    ensures LiveOnce(heap, remotes) ==> LiveSlots(heap, remotes) == Sums.Sum(remotes, SLOTS)
  {
    hide Tx.Slots, Sums.Sum;
    forall t <- remotes
      ensures Weight(heap)(t) >= SLOTS(t) && (multiset(heap)[t] <= 1 ==> Weight(heap)(t) == SLOTS(t))
    {
      assert t in multiset(heap);
      TimesSlots(multiset(heap)[t], t.Slots());
    }
    Sums.SumAtMost(remotes, SLOTS, Weight(heap));
    if LiveOnce(heap, remotes) {
      Sums.SumSame(remotes, SLOTS, Weight(heap));
    }
  }

  lemma TimesSlots(m: nat, k: nat)
    requires m >= 1
    ensures m * k >= k && (m == 1 ==> m * k == k)
  {
  }

  lemma AllPopped(heap: seq<Tx>, stales: int, remotes: set<Tx>, popped: set<Tx>)
    requires Tracked(heap, stales, remotes, popped, 0)
    ensures heap == [] ==> remotes <= popped
    ensures NoneTwice([])
  {
  }

  lemma DropsOnce(drop: seq<Tx>, before: seq<Tx>, after: seq<Tx>, remotes: set<Tx>)
    requires multiset(after) + multiset(drop) <= multiset(before) && Elements(drop) <= remotes
    ensures LiveOnce(before, remotes) ==> NoneTwice(drop)
  {
    if LiveOnce(before, remotes) {
      forall i, j | 0 <= i < j < |drop| ensures drop[i] != drop[j] {
        assert drop[j] in Elements(drop);
        assert (multiset(after) + multiset(drop))[drop[j]] <= 1;
        Once(drop, i, j);
      }
    }
  }

  lemma Once(s: seq<Tx>, i: nat, j: nat)
    requires i < j < |s| && multiset(s)[s[j]] <= 1
    ensures s[i] != s[j]
  {
    assert s == s[..j] + [s[j]] + s[j + 1..];
    assert s[i] == s[..j][i];
    assert s[i] in multiset(s[..j]);
  }

  /** The slots of a list without repetitions. */
  lemma {:induction false} SlotsSum(txs: seq<Tx>)
    requires NoneTwice(txs)
    ensures SlotsOf(txs) == Sums.Sum(Elements(txs), SLOTS)
  {
    if txs != [] {
      var k := |txs| - 1;
      SlotsSum(txs[..k]);
      assert txs == txs[..k] + [txs[k]];
      OneMore(txs[..k], txs[k]);
      Sums.SumAdd(Elements(txs[..k]), SLOTS, txs[k]);
    }
  }

  /** Removing a remote that was popped before, or that has yet to be reported. */
  lemma ForgetPopped(heap: seq<Tx>, stales: int, remotes: set<Tx>, rest: set<Tx>, tx: Tx)
    ensures Tracked(heap, stales, remotes, rest + {tx}, 0) ==> Tracked(heap, stales, remotes - {tx}, rest, 0)
    ensures Tracked(heap, stales, remotes, {}, 0) ==> Tracked(heap, stales, remotes - {tx}, {}, 1)
  {
    assert remotes - (rest + {tx}) == remotes - {tx} - rest;
    LessRemotes(remotes, {tx});
    assert remotes - {} == remotes && remotes - {tx} - {} == remotes - {tx};
  }

  lemma ElementsEnds(drop: seq<Tx>, a: set<Tx>, b: set<Tx>)
    ensures drop[0..] == drop && drop[..|drop|] == drop && Elements(drop[|drop|..]) == {} && Elements(drop[..0]) == {}
    ensures a - Elements(drop[..0]) == a && b - Elements(drop[..0]) == b
  {
  }

  lemma ElementsStep(drop: seq<Tx>, i: nat)
    requires i < |drop|
    ensures Elements(drop[i..]) == Elements(drop[i + 1..]) + {drop[i]}
    ensures Elements(drop[..i + 1]) == Elements(drop[..i]) + {drop[i]}
  {
    assert drop[i..] == [drop[i]] + drop[i + 1..];
    assert drop[..i + 1] == drop[..i] + [drop[i]];
  }

  lemma Survivors(heap: seq<Tx>, stales: int, remotes: set<Tx>)
    requires Tracked(heap, stales, remotes, {}, 0)
    ensures heap == [] ==> remotes == {}
  {
  }

  lemma LiveOnceLess(before: seq<Tx>, after: seq<Tx>, remotes: set<Tx>)
    requires multiset(after) <= multiset(before)
    ensures LiveOnce(before, remotes) ==> LiveOnce(after, remotes)
  {
    forall t <- remotes ensures multiset(after)[t] <= multiset(before)[t] {
    }
  }

  lemma NoElements(s: set<Tx>)
    ensures Elements<Tx>([]) == {} && s - Elements<Tx>([]) == s
  {
  }

  lemma RoomMade(localTxs: set<Tx>, remoteTxs: set<Tx>, drop: seq<Tx>)
    requires localTxs !! remoteTxs
    ensures drop == [] ==> Elements(drop) == {} && remoteTxs - Elements(drop) == remoteTxs
    ensures Elements(drop) <= remoteTxs ==> localTxs - Elements(drop) == localTxs
    ensures Elements(drop) <= remoteTxs && NoneTwice(drop) ==>
      Sums.Sum(localTxs + (remoteTxs - Elements(drop)), SLOTS) == Sums.Sum(localTxs + remoteTxs, SLOTS) - SlotsOf(drop)
  {
    if Elements(drop) <= remoteTxs && NoneTwice(drop) {
      Sums.SumDiff(localTxs + remoteTxs, Elements(drop), SLOTS);
      assert localTxs + remoteTxs - Elements(drop) == localTxs + (remoteTxs - Elements(drop));
      SlotsSum(drop);
    }
  }

  lemma SlotsMove(before: set<Tx>, after: set<Tx>, tx: Tx)
    requires after <= before + {tx}
    ensures Sums.Sum(after, SLOTS) <= Sums.Sum(before, SLOTS) + tx.Slots()
  {
    var whole := before + {tx};
    if tx !in before {
      Sums.SumAdd(before, SLOTS, tx);
    } else {
      assert whole == before;
    }
    Sums.SumDiff(whole, whole - after, SLOTS);
    assert whole - (whole - after) == after;
    SlotsPositive(whole - after);
  }

  lemma SlotsLess(txs: set<Tx>, part: set<Tx>)
    requires part <= txs
    ensures Sums.Sum(part, SLOTS) <= Sums.Sum(txs, SLOTS)
  {
    Sums.SumDiff(txs, txs - part, SLOTS);
    assert txs - (txs - part) == part;
    SlotsPositive(txs - part);
  }

  lemma {:induction false} SlotsPositive(txs: set<Tx>)
    ensures Sums.Sum(txs, SLOTS) >= 0
  {
    if txs != {} {
      var t :| t in txs;
      Sums.SumRemove(txs, SLOTS, t);
      SlotsPositive(txs - {t});
    }
  }

  /** Fewer remotes after some were moved to the locals. */
  lemma TrackedLess(heap: seq<Tx>, stales: int, before: set<Tx>, after: set<Tx>)
    requires Tracked(heap, stales, before, {}, 0) && after <= before
    ensures Tracked(heap, stales, after, {}, |before| - |after|)
  {
    assert before - {} == before && after - {} == after;
  }

  lemma LessRemotes(a: set<Tx>, b: set<Tx>)
    ensures |a - b| >= |a| - |b|
  {
    assert a == (a - b) + (a * b);
    assert b == (b - a) + (a * b);
  }

  /** Too few slots can be freed only if the locals and the new transaction need more than there is;
      exactly then, if no live remote is listed twice. */
  lemma TooFewSlots(localTxs: set<Tx>, remoteTxs: set<Tx>, heap: seq<Tx>, stales: int, slots: int, capacity: int,
                    tx: Tx)
    requires localTxs !! remoteTxs && slots == Sums.Sum(localTxs + remoteTxs, SLOTS)
    requires Tracked(heap, stales, remoteTxs, {}, 0)
    ensures LiveSlots(heap, remoteTxs) < slots - capacity + tx.Slots() ==>
      Sums.Sum(localTxs, SLOTS) + tx.Slots() > capacity
    ensures LiveOnce(heap, remoteTxs) ==>
      (LiveSlots(heap, remoteTxs) < slots - capacity + tx.Slots() <==> Sums.Sum(localTxs, SLOTS) + tx.Slots() > capacity)
  {
    hide Tracked, LiveSlots, LiveOnce, Tx.Slots, Sums.Sum;
    LiveSlotsBound(heap, stales, remoteTxs);
    Sums.SumUnion(localTxs, remoteTxs, SLOTS);
  }

  /** The slots after some transactions were dropped, one was replaced and a new one added. */
  lemma SlotsAfter(known: set<Tx>, drop: set<Tx>, replaced: set<Tx>, tx: Tx)
    requires drop <= known && replaced <= known - drop && tx !in known
    ensures Sums.Sum(known - drop - replaced + {tx}, SLOTS) ==
            Sums.Sum(known, SLOTS) - Sums.Sum(drop, SLOTS) - Sums.Sum(replaced, SLOTS) + tx.Slots()
  {
    hide Tx.Slots, Sums.Sum;
    Sums.SumDiff(known, drop, SLOTS);
    Sums.SumDiff(known - drop, replaced, SLOTS);
    Sums.SumAdd(known - drop - replaced, SLOTS, tx);
  }

  /** Transactions of at most one slot take up at most as many slots as there are. */
  lemma {:induction false} SmallSlots(txs: set<Tx>)
    requires forall t <- txs :: t.Slots() <= 1
    ensures Sums.Sum(txs, SLOTS) <= |txs|
  {
    hide Tx.Slots;
    if txs != {} {
      var t :| t in txs;
      Sums.SumRemove(txs, SLOTS, t);
      SmallSlots(txs - {t});
    }
  }
}
