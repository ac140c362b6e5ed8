/**
 Transactions as the pool sees them, and nonce-indexed collections of them.

 A transaction is identified by its hash; the hash is collision free, so the model uses the
 transaction itself wherever the program uses the hash.
 */
module Transactions {
  import opened Basics

  /** `id` stands for everything else a transaction is signed over. */
  datatype Tx = Tx(id: nat, sender: Addr, nonce: nat, price: nat, smoke: nat, value: nat, size: nat) {
    /** value + price * smoke limit */
    function Cost(): nat {
      price * smoke + value
    }

    /** Data slots of 32 KB taken up, rounded up. */
    function Slots(): nat {
      (size + TX_SLOT_SIZE - 1) / TX_SLOT_SIZE
    }
  }

  const TX_SLOT_SIZE := 32 * 1024

  /** As few slots of 32768 bytes as hold the transaction. */
  lemma SlotsHold(tx: Tx)
    ensures (tx.Slots() - 1) * 32768 < tx.size <= tx.Slots() * 32768 || tx.size == tx.Slots() == 0
  {
  }

  /** Transactions of one account by nonce. */
  type Items = map<nat, Tx>

  predicate Keyed(items: Items) {
    forall n <- items :: items[n].nonce == n
  }

  function Below(items: Items, n: nat): Items {
    map k | k in items && k < n :: items[k]
  }

  function From(items: Items, n: nat): Items {
    map k | k in items && k >= n :: items[k]
  }

  /** `txs` lists each transaction of `items` once. */
  ghost predicate Lists(items: Items, txs: seq<Tx>) {
    && (forall i :: 0 <= i < |txs| ==> txs[i].nonce in items && items[txs[i].nonce] == txs[i])
    && (forall i, j :: 0 <= i < j < |txs| ==> txs[i].nonce != txs[j].nonce)
    && (forall n {:trigger HasNonce(txs, n)} :: n in items ==> HasNonce(txs, n))
  }

  predicate HasNonce(txs: seq<Tx>, n: nat) {
    exists i :: 0 <= i < |txs| && txs[i].nonce == n
  }

  predicate Ascending(txs: seq<Tx>) {
    forall i, j :: 0 <= i < j < |txs| ==> txs[i].nonce < txs[j].nonce
  }

  predicate Descending(txs: seq<Tx>) {
    forall i, j :: 0 <= i < j < |txs| ==> txs[i].nonce > txs[j].nonce
  }

  /** `txs` is `items` sorted by nonce. */
  ghost predicate Sorted(items: Items, txs: seq<Tx>) {
    Lists(items, txs) && Ascending(txs)
  }

  /** A list has as many transactions as the collection. */
  lemma {:induction false} ListsLength(items: Items, txs: seq<Tx>)
    requires Lists(items, txs)
    ensures |txs| == |items|
  {
    if txs != [] {
      var t := txs[|txs| - 1];
      var rest := txs[..|txs| - 1];
      var less := items - {t.nonce};
      assert items.Keys == less.Keys + {t.nonce};
      forall n <- less ensures HasNonce(rest, n) {
        assert HasNonce(txs, n);
        var i :| 0 <= i < |txs| && txs[i].nonce == n;
        assert rest[i].nonce == n;
      }
      ListsLength(less, rest);
    } else {
      assert forall n <- items :: HasNonce(txs, n);
      assert items.Keys == {};
    }
  }

  /** Sorted lists start with the least nonce. */
  lemma SortedHead(items: Items, a: seq<Tx>, n: nat)
    requires Sorted(items, a) && n in items
    ensures a != [] && a[0].nonce <= n
  {
    assert HasNonce(a, n);
    var i :| 0 <= i < |a| && a[i].nonce == n;
  }

  /** The sorted list is unique. */
  lemma {:induction false} SortedUnique(items: Items, a: seq<Tx>, b: seq<Tx>)
    requires Sorted(items, a) && Sorted(items, b)
    ensures a == b
  {
    ListsLength(items, a);
    ListsLength(items, b);
    if a != [] {
      SortedHead(items, a, b[0].nonce);
      SortedHead(items, b, a[0].nonce);
      SortedTail(items, a);
      SortedTail(items, b);
      SortedUnique(items - {a[0].nonce}, a[1..], b[1..]);
      assert a == [a[0]] + a[1..] && b == [b[0]] + b[1..];
    }
  }

  lemma SortedTail(items: Items, txs: seq<Tx>)
    requires Sorted(items, txs) && txs != []
    ensures Sorted(items - {txs[0].nonce}, txs[1..])
  {
    var less := items - {txs[0].nonce};
    forall n <- less ensures HasNonce(txs[1..], n) {
      assert HasNonce(txs, n);
      var i :| 0 <= i < |txs| && txs[i].nonce == n;
      assert txs[1..][i - 1].nonce == n;
    }
  }

  /** Cutting a sorted list at a nonce splits the collection there. */
  lemma SortedCut(items: Items, txs: seq<Tx>, n: nat, k: nat)
    requires Sorted(items, txs) && k <= |txs|
    requires forall i :: 0 <= i < k ==> txs[i].nonce < n
    requires forall i :: k <= i < |txs| ==> txs[i].nonce >= n
    ensures Sorted(Below(items, n), txs[..k]) && Sorted(From(items, n), txs[k..])
  {
    forall m <- Below(items, n) ensures HasNonce(txs[..k], m) {
      assert HasNonce(txs, m);
      var i :| 0 <= i < |txs| && txs[i].nonce == m;
      assert txs[..k][i].nonce == m;
    }
    forall m <- From(items, n) ensures HasNonce(txs[k..], m) {
      assert HasNonce(txs, m);
      var i :| 0 <= i < |txs| && txs[i].nonce == m;
      assert txs[k..][i - k].nonce == m;
    }
  }

  /** If a sorted list of the part below `n` has length `k`, the whole sorted list is cut at `k`. */
  lemma SortedSplit(items: Items, txs: seq<Tx>, n: nat, low: seq<Tx>)
    requires Sorted(items, txs) && Sorted(Below(items, n), low)
    ensures |low| <= |txs| && low == txs[..|low|] && Sorted(From(items, n), txs[|low|..])
  {
    var k := CutPoint(txs, n);
    SortedCut(items, txs, n, k);
    SortedUnique(Below(items, n), low, txs[..k]);
  }

  ghost function CutPoint(txs: seq<Tx>, n: nat): (k: nat)
    requires Ascending(txs)
    ensures k <= |txs|
    ensures forall i :: 0 <= i < k ==> txs[i].nonce < n
    ensures forall i :: k <= i < |txs| ==> txs[i].nonce >= n
  {
    if txs == [] || txs[|txs| - 1].nonce < n then |txs| else CutPoint(txs[..|txs| - 1], n)
  }
}
