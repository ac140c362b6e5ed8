/**
 Two branches of the block tree, and the walk back to where they meet, which a reorganisation of
 the chain (core/blockchain.go) and a reset of the transaction pool (core/tx_pool.go) both make.
 */
module BranchWalks {
  import opened Basics
  import opened BlockTree

  type TxHash = nat

  type Bodies = map<Hash, seq<TxHash>>

  /** Transaction `tx` is in the path's block at number `i`. */
  predicate TxAt(bodies: Bodies, p: seq<Hash>, i: int, tx: TxHash) {
    0 <= i < |p| && p[i] in bodies && tx in bodies[p[i]]
  }

  /** No transaction occurs in two blocks of the path. */
  ghost predicate Unrepeated(bodies: Bodies, p: seq<Hash>) {
    forall i, j, tx :: TxAt(bodies, p, i, tx) && TxAt(bodies, p, j, tx) ==> i == j
  }

  /** `f` is the number of the highest common ancestor of two paths. */
  ghost predicate ForkAt(p: seq<Hash>, q: seq<Hash>, f: nat) {
    && f < |p| && f < |q|
    && (forall i :: 0 <= i <= f ==> p[i] == q[i])
    && (forall i :: f < i < |p| && i < |q| ==> p[i] != q[i])
  }

  /** Where two paths of one tree meet for the last time, they fork. */
  lemma MeetIsFork(p: seq<Hash>, q: seq<Hash>, f: nat)
    requires Confluent(p, q) && f < |p| && f < |q| && p[f] == q[f]
    requires forall i :: f < i < |p| && i < |q| ==> p[i] != q[i]
    ensures ForkAt(p, q, f)
  {
    assert Agree(p, q, 0, f);
  }

  function Body(bodies: Bodies, k: Hash): seq<TxHash> {
    if k in bodies then bodies[k] else []
  }

  /** The transactions of the path's blocks from `lo` up to `hi`. */
  function TxsOf(bodies: Bodies, p: seq<Hash>, lo: nat, hi: nat): set<TxHash>
    requires hi <= |p|
  {
    if hi <= lo then {} else TxsOf(bodies, p, lo, hi - 1) + Elements(Body(bodies, p[hi - 1]))
  }

  lemma {:induction false} TxsOfHas(bodies: Bodies, p: seq<Hash>, lo: nat, hi: nat, tx: TxHash)
    requires hi <= |p|
    ensures tx in TxsOf(bodies, p, lo, hi) <==> Between(bodies, p, lo, hi, tx)
  {
    if lo < hi {
      TxsOfHas(bodies, p, lo, hi - 1, tx);
      assert tx in Body(bodies, p[hi - 1]) <==> TxAt(bodies, p, hi - 1, tx);
    }
  }

  /** The transaction is in one of the path's blocks from `lo` up to `hi`. */
  ghost predicate Between(bodies: Bodies, p: seq<Hash>, lo: nat, hi: nat, tx: TxHash) {
    exists i :: lo <= i < hi && TxAt(bodies, p, i, tx)
  }

  /** Extending the dropped segment by one block further down. */
  lemma TxsOfDown(bodies: Bodies, p: seq<Hash>, lo: nat, hi: nat)
    requires lo < hi <= |p|
    ensures TxsOf(bodies, p, lo, hi) == TxsOf(bodies, p, lo + 1, hi) + Elements(Body(bodies, p[lo]))
  {
    forall tx
      ensures tx in TxsOf(bodies, p, lo, hi) <==> tx in TxsOf(bodies, p, lo + 1, hi) || tx in Elements(Body(bodies, p[lo]))
    {
      TxsOfHas(bodies, p, lo, hi, tx);
      TxsOfHas(bodies, p, lo + 1, hi, tx);
      assert tx in Body(bodies, p[lo]) <==> TxAt(bodies, p, lo, tx);
    }
  }

  /** `h` is the stored block of path `p` at its number. */
  predicate On(s: Store, p: seq<Hash>, h: Header) {
    h.number < |p| && p[h.number] == h.hash && h.hash in s && s[h.hash] == h
  }

  /** The blocks of the path from its end down to, but not including, number `n`. */
  function Segment(s: Store, p: seq<Hash>, n: nat): seq<Header>
    requires n < |p| && forall i :: 0 <= i < |p| ==> p[i] in s
  {
    seq(|p| - 1 - n, j requires 0 <= j < |p| - 1 - n => s[p[|p| - 1 - j]])
  }

  lemma SegmentDown(s: Store, p: seq<Hash>, n: nat)
    requires 0 < n < |p| && forall i :: 0 <= i < |p| ==> p[i] in s
    ensures Segment(s, p, n - 1) == Segment(s, p, n) + [s[p[n]]]
  {
  }

  /** Reading a block by hash and number: its header and its body are stored. */
  function GetBlock(s: Store, bodies: Bodies, hash: Hash, number: int): Option<Header> {
    if hash in bodies then GetHeader(s, hash, number) else None
  }

  /** The parent of a block above the root is stored, and next on the path. */
  lemma ParentOn(s: Store, bodies: Bodies, p: seq<Hash>, h: Header)
    requires bodies.Keys == s.Keys && OnTree(s, p) && On(s, p, h) && h.number > 0
    ensures var up := GetBlock(s, bodies, h.parent, h.number - 1); up.Some? && On(s, p, up.value) && up.value.number == h.number - 1
  {
    assert StepDown(s, p, h.number);
  }

  /** Walks down a branch to number `n`, collecting its blocks and their transactions. */
  method Descend(s: Store, bodies: Bodies, start: Header, n: nat, ghost p: seq<Hash>)
    returns (ok: bool, h: Header, chain: seq<Header>, txs: set<TxHash>)
    requires bodies.Keys == s.Keys && OnTree(s, p) && On(s, p, start) && start.number == |p| - 1
    ensures ok && On(s, p, h) && h.number == if n <= start.number then n else start.number
    ensures chain == Segment(s, p, h.number) && txs == TxsOf(bodies, p, h.number + 1, |p|)
  {
    h, chain, txs := start, [], {};
    while h.number > n
      invariant On(s, p, h) && h.number <= start.number && (n <= start.number ==> n <= h.number)
      invariant (n > start.number ==> h == start)
      invariant chain == Segment(s, p, h.number) && txs == TxsOf(bodies, p, h.number + 1, |p|)
      decreases h.number
    {
      ParentOn(s, bodies, p, h);
      SegmentDown(s, p, h.number);
      TxsOfDown(bodies, p, h.number, |p|);
      chain, txs := chain + [h], txs + Elements(Body(bodies, h.hash));
      var up := GetBlock(s, bodies, h.parent, h.number - 1);
      if up.None? {
        return false, h, chain, txs;
      }
      h := up.value;
    }
    ok := true;
  }

  /** Walks two branches back together until they meet. */
  method Meet(s: Store, bodies: Bodies, o0: Header, n0: Header, oldChain0: seq<Header>, newChain0: seq<Header>,
              dropped0: set<TxHash>, included0: set<TxHash>,
              ghost p: seq<Hash>, ghost q: seq<Hash>)
    returns (ok: bool, common: Header, oldChain: seq<Header>, newChain: seq<Header>, dropped: set<TxHash>,
             included: set<TxHash>)
    requires bodies.Keys == s.Keys && OnTree(s, p) && OnTree(s, q) && p != [] && q != [] && p[0] == q[0]
    requires Confluent(p, q)
    requires On(s, p, o0) && On(s, q, n0) && o0.number == n0.number && (|p| == o0.number + 1 || |q| == o0.number + 1)
    requires oldChain0 == Segment(s, p, o0.number) && newChain0 == Segment(s, q, n0.number)
    requires dropped0 == TxsOf(bodies, p, o0.number + 1, |p|) && included0 == TxsOf(bodies, q, n0.number + 1, |q|)
    ensures ok && On(s, p, common) && On(s, q, common) && ForkAt(p, q, common.number)
    ensures oldChain == Segment(s, p, common.number) && newChain == Segment(s, q, common.number)
    ensures dropped == TxsOf(bodies, p, common.number + 1, |p|) && included == TxsOf(bodies, q, common.number + 1, |q|)
  {
    hide TxsOf, Segment, ForkAt, Confluent;
    var o, n := o0, n0;
    oldChain, newChain, dropped, included := oldChain0, newChain0, dropped0, included0;
    while o.hash != n.hash
      invariant On(s, p, o) && On(s, q, n) && o.number == n.number
      invariant forall i :: o.number < i < |p| && i < |q| ==> p[i] != q[i]
      invariant oldChain == Segment(s, p, o.number) && newChain == Segment(s, q, o.number)
      invariant dropped == TxsOf(bodies, p, o.number + 1, |p|) && included == TxsOf(bodies, q, o.number + 1, |q|)
      decreases o.number
    {
      ParentOn(s, bodies, p, o);
      ParentOn(s, bodies, q, n);
      SegmentDown(s, p, o.number);
      SegmentDown(s, q, n.number);
      TxsOfDown(bodies, p, o.number, |p|);
      TxsOfDown(bodies, q, n.number, |q|);
      oldChain, dropped := oldChain + [o], dropped + Elements(Body(bodies, o.hash));
      newChain, included := newChain + [n], included + Elements(Body(bodies, n.hash));
      var oldUp, newUp := GetBlock(s, bodies, o.parent, o.number - 1), GetBlock(s, bodies, n.parent, n.number - 1);
      if oldUp.None? || newUp.None? {
        return false, o, oldChain, newChain, dropped, included;
      }
      o, n := oldUp.value, newUp.value;
    }
    MeetIsFork(p, q, o.number);
    ok, common := true, o;
  }

  /** Walks two branches back to their highest common ancestor, the longer one first. */
  method Branches(s: Store, bodies: Bodies, old0: Header, new0: Header, ghost p: seq<Hash>, ghost q: seq<Hash>)
    returns (ok: bool, common: Header, oldChain: seq<Header>, newChain: seq<Header>, dropped: set<TxHash>,
             included: set<TxHash>)
    requires bodies.Keys == s.Keys && OnTree(s, p) && OnTree(s, q) && p != [] && q != [] && p[0] == q[0]
    requires Confluent(p, q)
    requires On(s, p, old0) && On(s, q, new0) && old0.number == |p| - 1 && new0.number == |q| - 1
    ensures ok && On(s, p, common) && On(s, q, common) && ForkAt(p, q, common.number)
    ensures oldChain == Segment(s, p, common.number) && newChain == Segment(s, q, common.number)
    ensures dropped == TxsOf(bodies, p, common.number + 1, |p|) && included == TxsOf(bodies, q, common.number + 1, |q|)
  {
    hide TxsOf, Segment, ForkAt, Confluent, OnTree;
    var o, n;
    ok, o, oldChain, dropped := Descend(s, bodies, old0, new0.number, p);
    common, newChain, included := o, [], {};
    if !ok {
      return;
    }
    ok, n, newChain, included := Descend(s, bodies, new0, o.number, q);
    if !ok {
      return;
    }
    ok, common, oldChain, newChain, dropped, included := Meet(s, bodies, o, n, oldChain, newChain, dropped, included, p,
                                                              q);
  }
}
