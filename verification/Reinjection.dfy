/**
 Which transactions the pool takes back when the head moves to another branch
 (core/tx_pool.go, first half of reset).
 */
module Reinjections {
  import opened Basics
  import opened BlockTree
  import opened BranchWalks

  const MAX_DEPTH := 64

  function Distance(a: nat, b: nat): nat {
    if a < b then b - a else a - b
  }

  /** The transaction is on the path. */
  ghost predicate OnChain(bodies: Bodies, p: seq<Hash>, tx: TxHash) {
    Between(bodies, p, 0, |p|, tx)
  }

  /** What is only above the fork on the old branch is what the new chain has lost. */
  lemma LostAbove(bodies: Bodies, p: seq<Hash>, q: seq<Hash>, f: nat, tx: TxHash)
    requires ForkAt(p, q, f) && Unrepeated(bodies, p)
    ensures tx in TxsOf(bodies, p, f + 1, |p|) - TxsOf(bodies, q, f + 1, |q|) <==>
      OnChain(bodies, p, tx) && !OnChain(bodies, q, tx)
  {
    TxsOfHas(bodies, p, f + 1, |p|, tx);
    TxsOfHas(bodies, q, f + 1, |q|, tx);
    if i :| 0 <= i <= f && TxAt(bodies, q, i, tx) {
      assert TxAt(bodies, p, i, tx);
    }
    if i :| 0 <= i <= f && TxAt(bodies, p, i, tx) {
      assert TxAt(bodies, q, i, tx);
    }
  }

  /** The transaction was on the chain that ends in one block and is not on the one that ends in another. */
  ghost predicate Lost(s: Store, bodies: Bodies, from: Hash, to: Hash, tx: TxHash) {
    OnChain(bodies, Path(s, from), tx) && !OnChain(bodies, Path(s, to), tx)
  }

  /** A child of the old head loses nothing. */
  lemma ChildLosesNone(s: Store, bodies: Bodies, unhash: Oracle, genesis: Header, h: Header, tx: TxHash)
    requires Rooted(unhash, s, genesis) && h.hash in s && s[h.hash] == h && h.number > 0
    ensures !Lost(s, bodies, h.parent, h.hash, tx)
  {
    assert ParentStored(s, h.hash);
    var p, q := Path(s, h.parent), Path(s, h.hash);
    assert q == p + [h.hash];
    if i :| 0 <= i < |p| && TxAt(bodies, p, i, tx) {
      assert TxAt(bodies, q, i, tx);
    }
  }

  /** The transactions to reinject: exactly those of the old chain that the new chain does not have, if the
      heads are at most 64 blocks apart, and none otherwise.  The reset is given up if and only if the old
      head is needed and not stored any more. */
  method Reinjected(s: Store, bodies: Bodies, oldHead: Option<Header>, newHead: Header, ghost unhash: Oracle,
                    ghost genesis: Header)
    returns (proceeds: bool, reinject: set<TxHash>)
    requires Rooted(unhash, s, genesis) && bodies.Keys == s.Keys
    requires newHead.hash in s && s[newHead.hash] == newHead
    requires oldHead.Some? ==> Genuine(unhash, oldHead.value)
    requires forall k <- s :: Unrepeated(bodies, Path(s, k))
    ensures oldHead.Some? && oldHead.value.hash in s && -64 <= oldHead.value.number - newHead.number <= 64 ==>
      newHead.number > 0 || oldHead.value.hash != newHead.parent ==>
      forall tx :: tx in reinject <==> Lost(s, bodies, oldHead.value.hash, newHead.hash, tx)
    ensures oldHead.None? || !(-64 <= oldHead.value.number - newHead.number <= 64) ==>
      proceeds && reinject == {}
    ensures !proceeds <==>
      && oldHead.Some? && oldHead.value.hash !in s && oldHead.value.hash != newHead.parent
      && -64 <= oldHead.value.number - newHead.number <= 64
    ensures !proceeds ==> reinject == {}
  {
    hide Path, Unrepeated, TxsOf, OnChain, Confluent, OnTree;
    proceeds, reinject := true, {};
    if oldHead.None? || oldHead.value.hash == newHead.parent || Distance(oldHead.value.number, newHead.number) > MAX_DEPTH {
      if newHead.number > 0 {
        forall tx {
          ChildLosesNone(s, bodies, unhash, genesis, newHead, tx);
        }
      }
      return;
    }
    var rem := GetBlock(s, bodies, oldHead.value.hash, oldHead.value.number);
    if rem.None? {
      GenuineStored(unhash, s, genesis, oldHead.value);
      return false, {};
    }
    ghost var p, q := Path(s, oldHead.value.hash), Path(s, newHead.hash);
    BothPaths(unhash, s, genesis, oldHead.value, newHead);
    var ok, common, oldChain, newChain, discarded, included := Branches(s, bodies, rem.value, newHead, p, q);
    forall tx ensures tx in discarded - included <==> OnChain(bodies, p, tx) && !OnChain(bodies, q, tx) {
      LostAbove(bodies, p, q, common.number, tx);
    }
    reinject := discarded - included;
    proceeds := ok;
  }

  lemma GenuineStored(unhash: Oracle, s: Store, genesis: Header, h: Header)
    requires Rooted(unhash, s, genesis) && Genuine(unhash, h)
    ensures h.hash in s ==> s[h.hash] == h
  {
    assert h.hash in s ==> Genuine(unhash, s[h.hash]);
  }

  lemma BothPaths(unhash: Oracle, s: Store, genesis: Header, a: Header, b: Header)
    requires Rooted(unhash, s, genesis) && Genuine(unhash, a) && a.hash in s && b.hash in s && s[b.hash] == b
    ensures var p, q := Path(s, a.hash), Path(s, b.hash);
      && s[a.hash] == a && OnTree(s, p) && OnTree(s, q) && p != [] && q != [] && p[0] == q[0] && Confluent(p, q)
      && On(s, p, a) && On(s, q, b) && |p| == a.number + 1 && |q| == b.number + 1
  {
    GenuineStored(unhash, s, genesis, a);
    PathOnTree(unhash, s, genesis, a.hash);
    PathOnTree(unhash, s, genesis, b.hash);
    PathsConfluent(unhash, s, genesis, a.hash, b.hash);
  }
}
