/**
 Block insertion, fork choice and reorganisation of core/blockchain.go, in full sync.

 Besides the tree of blocks the chain keeps three things that must follow the head block:
 the number-to-hash index, the transaction lookup index, and the head header.
 */
module BlockChains {
  import opened Basics
  import opened BlockTree
  import opened BranchWalks

  // ---------- indexes and paths ----------

  /** The index has the path's hashes up to the path's end; nothing is said about numbers above. */
  ghost predicate Agrees(canon: map<nat, Hash>, p: seq<Hash>) {
    forall i: nat :: i < |p| ==> i in canon && canon[i] == p[i]
  }

  /** The lookup index maps exactly the path's transactions to the numbers of their blocks. */
  ghost predicate LooksUp(lookup: map<TxHash, nat>, bodies: Bodies, p: seq<Hash>) {
    && (forall tx <- lookup :: TxAt(bodies, p, lookup[tx], tx))
    && (forall i, tx :: TxAt(bodies, p, i, tx) ==> tx in lookup && lookup[tx] == i)
  }

  /** Puts the hashes of `q` at the numbers from `lo` up to `hi`. */
  function Overlaid(canon: map<nat, Hash>, q: seq<Hash>, lo: nat, hi: nat): map<nat, Hash>
    requires hi <= |q|
  {
    if hi <= lo then canon else Overlaid(canon, q, lo, hi - 1)[hi - 1 := q[hi - 1]]
  }

  lemma {:induction false} OverlaidHas(canon: map<nat, Hash>, q: seq<Hash>, lo: nat, hi: nat)
    requires hi <= |q|
    ensures var c := Overlaid(canon, q, lo, hi);
      && (forall i: nat :: i in c <==> i in canon || lo <= i < hi)
      && (forall i: nat :: i in c ==> c[i] == if lo <= i < hi then q[i] else canon[i])
  {
    if lo < hi {
      OverlaidHas(canon, q, lo, hi - 1);
    }
  }

  /** Removes the entries from `n` up to the first gap. */
  function Trimmed(canon: map<nat, Hash>, n: nat): map<nat, Hash>
    decreases |canon|
  {
    if n in canon then
      assert canon.Keys == (canon - {n}).Keys + {n};
      Trimmed(canon - {n}, n + 1)
    else canon
  }

  lemma {:induction false} TrimmedBelow(canon: map<nat, Hash>, n: nat)
    ensures forall i <- Trimmed(canon, n) :: i in canon && Trimmed(canon, n)[i] == canon[i]
    ensures forall i <- canon :: i < n ==> i in Trimmed(canon, n)
    decreases |canon|
  {
    if n in canon {
      assert canon.Keys == (canon - {n}).Keys + {n};
      TrimmedBelow(canon - {n}, n + 1);
    }
  }

  /** Trimming an index without gaps leaves nothing above. */
  lemma {:induction false} TrimmedAll(canon: map<nat, Hash>, n: nat, top: nat)
    requires forall i <- canon :: i < top
    requires forall i: nat :: n <= i < top ==> i in canon
    ensures forall i <- Trimmed(canon, n) :: i < n
    decreases |canon|
  {
    if n in canon {
      assert canon.Keys == (canon - {n}).Keys + {n};
      TrimmedAll(canon - {n}, n + 1, top);
      TrimmedBelow(canon - {n}, n + 1);
    }
  }

  /** The index once the new segment of `q` below its head is put in place and everything above
      the then current head is trimmed. */
  function Cleared(canon: map<nat, Hash>, p: seq<Hash>, q: seq<Hash>, f: nat): map<nat, Hash>
    requires ForkAt(p, q, f)
  {
    var n := |q| - 1;
    Trimmed(Overlaid(canon, q, f + 1, if n >= f + 1 then n else f + 1), if n >= f + 2 then n else |p|)
  }

  /** The index after moving from path `p` to path `q`: the new head is put last. */
  function Reindexed(canon: map<nat, Hash>, p: seq<Hash>, q: seq<Hash>, f: nat): map<nat, Hash>
    requires ForkAt(p, q, f)
  {
    Cleared(canon, p, q, f)[|q| - 1 := q[|q| - 1]]
  }

  /** The index follows the new head. */
  lemma ReindexedAgrees(canon: map<nat, Hash>, p: seq<Hash>, q: seq<Hash>, f: nat)
    requires ForkAt(p, q, f) && Agrees(canon, p)
    ensures Agrees(Reindexed(canon, p, q, f), q)
  {
    var n := |q| - 1;
    var c := Overlaid(canon, q, f + 1, if n >= f + 1 then n else f + 1);
    TrimmedBelow(c, if n >= f + 2 then n else |p|);
    OverlaidHas(canon, q, f + 1, if n >= f + 1 then n else f + 1);
    forall i: nat | i < |q| ensures i in Reindexed(canon, p, q, f) && Reindexed(canon, p, q, f)[i] == q[i] {
      if i < n {
        assert i in c && c[i] == q[i];
      }
    }
  }

  /** From an exact index the new one is exact precisely if the new head is not lower than the
      old one, or the new segment has two blocks or more. */
  lemma ReindexedExact(canon: map<nat, Hash>, p: seq<Hash>, q: seq<Hash>, f: nat)
    requires ForkAt(p, q, f) && canon == Numbered(p)
    ensures Reindexed(canon, p, q, f) == Numbered(q) <==> |p| <= |q| || f + 2 < |q|
  {
    var n := |q| - 1;
    var r := Reindexed(canon, p, q, f);
    if n >= f + 2 {
      ReindexedAgrees(canon, p, q, f);
      OverlaidHas(canon, q, f + 1, n);
      TrimmedAll(Overlaid(canon, q, f + 1, n), n, if |p| > n then |p| else n);
      assert forall i <- r :: i <= n;
      assert r == Numbered(q);
    } else {
      assert Overlaid(canon, q, f + 1, if n >= f + 1 then n else f + 1) == canon;
      assert |p| !in canon;
      assert r == canon[n := q[n]];
      if |p| <= |q| {
        assert r == Numbered(q);
      } else {
        assert |p| - 1 in r && |p| - 1 !in Numbered(q);
      }
    }
  }

  /** Before the new head is put, its entry is there only if it was on the old chain. */
  lemma ClearedHead(canon: map<nat, Hash>, p: seq<Hash>, q: seq<Hash>, f: nat)
    requires ForkAt(p, q, f) && canon == Numbered(p)
    ensures var n := |q| - 1; n in Cleared(canon, p, q, f) && Cleared(canon, p, q, f)[n] == q[n] <==> f == n
  {
    var n := |q| - 1;
    if n >= f + 2 {
      OverlaidHas(canon, q, f + 1, n);
      TrimmedAll(Overlaid(canon, q, f + 1, n), n, if |p| > n then |p| else n);
    } else {
      assert Overlaid(canon, q, f + 1, if n >= f + 1 then n else f + 1) == canon;
      assert |p| !in canon;
    }
  }

  // ---------- the lookup index across a reorganisation ----------

  function PutTxs(lookup: map<TxHash, nat>, txs: seq<TxHash>, n: nat): map<TxHash, nat> {
    lookup + map tx | tx in txs :: n
  }

  /** Indexes the blocks of `q` from `lo` up to `hi`, in ascending order. */
  function PutBlocks(lookup: map<TxHash, nat>, bodies: Bodies, q: seq<Hash>, lo: nat, hi: nat): map<TxHash, nat>
    requires hi <= |q|
  {
    if hi <= lo then lookup else PutTxs(PutBlocks(lookup, bodies, q, lo, hi - 1), Body(bodies, q[hi - 1]), hi - 1)
  }

  lemma {:induction false} PutBlocksMaps(lookup: map<TxHash, nat>, bodies: Bodies, q: seq<Hash>, lo: nat, hi: nat,
                                         tx: TxHash)
    requires hi <= |q| && Unrepeated(bodies, q)
    ensures var r := PutBlocks(lookup, bodies, q, lo, hi);
      && (forall i :: lo <= i < hi && TxAt(bodies, q, i, tx) ==> tx in r && r[tx] == i)
      && (!Between(bodies, q, lo, hi, tx) ==> (tx in r <==> tx in lookup) && (tx in r ==> r[tx] == lookup[tx]))
  {
    if lo < hi {
      PutBlocksMaps(lookup, bodies, q, lo, hi - 1, tx);
      assert tx in Body(bodies, q[hi - 1]) <==> TxAt(bodies, q, hi - 1, tx);
    }
  }

  /** The lookup index once the new segment of `q` below its head is indexed and the dropped
      transactions that did not come back are removed. */
  function Pruned(lookup: map<TxHash, nat>, bodies: Bodies, p: seq<Hash>, q: seq<Hash>, f: nat): map<TxHash, nat>
    requires ForkAt(p, q, f)
  {
    PutBlocks(lookup, bodies, q, f + 1, |q| - 1) - (TxsOf(bodies, p, f + 1, |p|) - TxsOf(bodies, q, f + 1, |q| - 1))
  }

  /** The lookup index after moving from path `p` to path `q`: the new head is indexed last. */
  function Relooked(lookup: map<TxHash, nat>, bodies: Bodies, p: seq<Hash>, q: seq<Hash>, f: nat): map<TxHash, nat>
    requires ForkAt(p, q, f)
  {
    PutTxs(Pruned(lookup, bodies, p, q, f), Body(bodies, q[|q| - 1]), |q| - 1)
  }

  /** A transaction below the fork is touched by neither segment. */
  lemma SharedTx(lookup: map<TxHash, nat>, bodies: Bodies, p: seq<Hash>, q: seq<Hash>, f: nat, i: nat, tx: TxHash)
    requires ForkAt(p, q, f) && LooksUp(lookup, bodies, p) && Unrepeated(bodies, q) && TxAt(bodies, q, i, tx) && i <= f
    ensures tx in lookup && lookup[tx] == i
    ensures !Between(bodies, p, f + 1, |p|, tx) && !Between(bodies, q, f + 1, |q|, tx)
  {
    assert TxAt(bodies, p, i, tx);
  }

  /** A transaction of the new chain is found at its number. */
  lemma RelookedFinds(lookup: map<TxHash, nat>, bodies: Bodies, p: seq<Hash>, q: seq<Hash>, f: nat, i: nat, tx: TxHash)
    requires ForkAt(p, q, f) && LooksUp(lookup, bodies, p) && Unrepeated(bodies, q) && TxAt(bodies, q, i, tx)
    ensures tx in Relooked(lookup, bodies, p, q, f) && Relooked(lookup, bodies, p, q, f)[tx] == i
  {
    hide PutBlocks, TxsOf, LooksUp;
    var n := |q| - 1;
    assert tx in Body(bodies, q[n]) <==> TxAt(bodies, q, n, tx);
    if i < n {
      PutBlocksMaps(lookup, bodies, q, f + 1, n, tx);
      TxsOfHas(bodies, q, f + 1, n, tx);
      if i <= f {
        SharedTx(lookup, bodies, p, q, f, i, tx);
        TxsOfHas(bodies, p, f + 1, |p|, tx);
        assert !Between(bodies, q, f + 1, n, tx);
      } else {
        assert Between(bodies, q, f + 1, n, tx);
      }
    }
  }

  /** Whatever is found belongs to the new chain. */
  lemma RelookedSound(lookup: map<TxHash, nat>, bodies: Bodies, p: seq<Hash>, q: seq<Hash>, f: nat, tx: TxHash)
    requires ForkAt(p, q, f) && LooksUp(lookup, bodies, p) && Unrepeated(bodies, q)
    requires tx in Relooked(lookup, bodies, p, q, f)
    ensures exists i: nat :: TxAt(bodies, q, i, tx)
  {
    hide PutBlocks, TxsOf, Unrepeated;
    var n := |q| - 1;
    assert tx in Body(bodies, q[n]) <==> TxAt(bodies, q, n, tx);
    if tx !in Body(bodies, q[n]) {
      PutBlocksMaps(lookup, bodies, q, f + 1, n, tx);
      TxsOfHas(bodies, q, f + 1, n, tx);
      if tx !in TxsOf(bodies, q, f + 1, n) {
        TxsOfHas(bodies, p, f + 1, |p|, tx);
        var i := lookup[tx];
        assert TxAt(bodies, p, i, tx) && i <= f;
        assert TxAt(bodies, q, i, tx);
      }
    }
  }

  /** If the lookup index matched the old chain, it matches the new one: transactions on both
      forks, on one, and those only in the new head block. */
  lemma RelookedRight(lookup: map<TxHash, nat>, bodies: Bodies, p: seq<Hash>, q: seq<Hash>, f: nat)
    requires ForkAt(p, q, f) && LooksUp(lookup, bodies, p) && Unrepeated(bodies, q)
    ensures LooksUp(Relooked(lookup, bodies, p, q, f), bodies, q)
  {
    var r := Relooked(lookup, bodies, p, q, f);
    forall i, tx | TxAt(bodies, q, i, tx) ensures tx in r && r[tx] == i {
      RelookedFinds(lookup, bodies, p, q, f, i, tx);
    }
    forall tx <- r ensures TxAt(bodies, q, r[tx], tx) {
      RelookedSound(lookup, bodies, p, q, f, tx);
    }
  }

  lemma SegmentUp(lookup: map<TxHash, nat>, bodies: Bodies, q: seq<Hash>, lo: nat, hi: nat)
    requires lo <= hi < |q| && q[hi] in bodies
    ensures PutBlocks(lookup, bodies, q, lo, hi + 1) == PutTxs(PutBlocks(lookup, bodies, q, lo, hi), bodies[q[hi]], hi)
    ensures TxsOf(bodies, q, lo, hi + 1) == TxsOf(bodies, q, lo, hi) + Elements(bodies[q[hi]])
  {
  }

  /** Extending the chain by one block is the simplest move. */
  lemma ExtendedIndexes(canon: map<nat, Hash>, lookup: map<TxHash, nat>, bodies: Bodies, p: seq<Hash>, q: seq<Hash>)
    requires p != [] && |q| == |p| + 1 && ForkAt(p, q, |p| - 1) && Agrees(canon, p)
    ensures Relooked(lookup, bodies, p, q, |p| - 1) == PutTxs(lookup, Body(bodies, q[|p|]), |p|)
    ensures Agrees(canon[|p| := q[|p|]], q)
    ensures canon == Numbered(p) ==> canon[|p| := q[|p|]] == Numbered(q) && |p| !in canon
  {
    assert lookup - {} == lookup;
  }

  /** The move to `block` leaves no index entry above it: it is not lower than the head, or its
      parent is off the head's chain. */
  predicate Clean(canon: map<nat, Hash>, current: Header, block: Header) {
    current.number <= block.number || (block.number > 0 && !(block.number - 1 in canon && canon[block.number - 1] == block.parent))
  }

  /** What the fork point says about a move. */
  lemma ForkMeans(s: Store, canon: map<nat, Hash>, current: Header, block: Header, p: seq<Hash>, q: seq<Hash>, f: nat)
    requires OnTree(s, p) && OnTree(s, q) && ForkAt(p, q, f) && canon == Numbered(p)
    requires On(s, p, current) && On(s, q, block) && current.number == |p| - 1 && block.number == |q| - 1
    ensures |p| <= |q| || f + 2 < |q| <==> Clean(canon, current, block)
    ensures f == |q| - 1 <==> block.hash in p
  {
    if block.number > 0 {
      assert StepDown(s, q, block.number);
    }
  }

  /** The path of a child extends the path of its parent. */
  lemma ChildPath(unhash: Oracle, s: Store, genesis: Header, parent: Header, block: Header)
    requires Rooted(unhash, s, genesis) && genesis.parent == ZERO && On(s, Path(s, parent.hash), parent)
    requires block.hash in s && s[block.hash] == block && block.parent == parent.hash
    ensures Path(s, block.hash) == Path(s, parent.hash) + [block.hash]
    ensures block.number == |Path(s, parent.hash)| && block.hash !in Path(s, parent.hash)
  {
    assert Genuine(unhash, s[parent.hash]);
    PathOnTree(unhash, s, genesis, parent.hash);
    assert ParentStored(s, block.hash);
  }

  predicate RightTd(s: Store, td: map<Hash, nat>, k: Hash) {
    k in s && k in td && td[k] == TotalDifficulty(s, k)
  }

  ghost predicate RightTds(s: Store, td: map<Hash, nat>) {
    td.Keys == s.Keys && forall k {:trigger RightTd(s, td, k)} :: k in s ==> RightTd(s, td, k)
  }

  /** Storing a child of a stored block keeps the tree rooted, and total difficulties right. */
  lemma Grown(unhash: Oracle, s: Store, genesis: Header, block: Header)
    requires Rooted(unhash, s, genesis) && Genuine(unhash, block) && block.difficulty > 0
    requires GetHeader(s, block.parent, block.number - 1).Some?
    ensures var t := s[block.hash := block];
      && Rooted(unhash, t, genesis) && (forall k <- s :: t[k] == s[k])
      && (forall k <- s :: TotalDifficulty(t, k) == TotalDifficulty(s, k))
      && TotalDifficulty(t, block.hash) == TotalDifficulty(s, block.parent) + block.difficulty
  {
    var t := s[block.hash := block];
    forall k <- s ensures t[k] == s[k] {
      assert Genuine(unhash, s[k]);
    }
    forall k <- t | t[k].number > 0 ensures ParentStored(t, k) && t[k].difficulty > 0 {
      if k in s {
        assert ParentStored(s, k);
      }
    }
    assert ParentStored(t, block.hash);
    forall k <- s ensures TotalDifficulty(t, k) == TotalDifficulty(s, k) {
      PathStable(unhash, s, t, genesis, k);
    }
  }

  ghost predicate NoRepeat(s: Store, bodies: Bodies, k: Hash) {
    Unrepeated(bodies, Path(s, k))
  }

  /** No chain of the tree repeats a transaction. */
  ghost predicate NoRepeats(s: Store, bodies: Bodies) {
    forall k {:trigger NoRepeat(s, bodies, k)} :: k in s ==> NoRepeat(s, bodies, k)
  }

  /** New bodies do not touch paths that had theirs. */
  lemma SameBodies(bodies: Bodies, more: Bodies, p: seq<Hash>, lookup: map<TxHash, nat>)
    requires forall k <- bodies :: k in more && more[k] == bodies[k]
    requires forall i :: 0 <= i < |p| ==> p[i] in bodies
    ensures Unrepeated(bodies, p) ==> Unrepeated(more, p)
    ensures LooksUp(lookup, bodies, p) ==> LooksUp(lookup, more, p)
  {
    forall i, tx | TxAt(more, p, i, tx) ensures TxAt(bodies, p, i, tx) {
      assert p[i] in bodies;
    }
    forall i, tx | TxAt(bodies, p, i, tx) ensures TxAt(more, p, i, tx) {
      assert p[i] in more;
    }
  }

  /** What storing one more block does to all paths. */
  lemma GrownPaths(unhash: Oracle, s: Store, genesis: Header, bodies: Bodies, block: Header, txs: seq<TxHash>)
    requires Rooted(unhash, s, genesis) && Genuine(unhash, block) && block.difficulty > 0 && bodies.Keys == s.Keys
    requires GetHeader(s, block.parent, block.number - 1).Some?
    requires block.hash in bodies ==> bodies[block.hash] == txs
    requires NoRepeats(s, bodies)
    requires Unrepeated(bodies[block.hash := txs], Path(s[block.hash := block], block.hash))
    ensures NoRepeats(s[block.hash := block], bodies[block.hash := txs])
  {
    var t := s[block.hash := block];
    Grown(unhash, s, genesis, block);
    forall k <- t ensures NoRepeat(t, bodies[block.hash := txs], k) {
      if k in s {
        assert NoRepeat(s, bodies, k);
        PathStable(unhash, s, t, genesis, k);
        PathOnTree(unhash, s, genesis, k);
        SameBodies(bodies, bodies[block.hash := txs], Path(s, k), map[]);
      }
    }
  }

  lemma GrownTds(unhash: Oracle, s: Store, genesis: Header, block: Header, td: map<Hash, nat>)
    requires Rooted(unhash, s, genesis) && Genuine(unhash, block) && block.difficulty > 0
    requires GetHeader(s, block.parent, block.number - 1).Some? && RightTds(s, td)
    ensures RightTds(s[block.hash := block], td[block.hash := td[block.parent] + block.difficulty])
    ensures block.hash in td ==> td[block.hash] == td[block.parent] + block.difficulty
  {
    hide TotalDifficulty, Path, Rooted;
    var t, tds := s[block.hash := block], td[block.hash := td[block.parent] + block.difficulty];
    Grown(unhash, s, genesis, block);
    assert RightTd(s, td, block.parent);
    forall k <- t ensures RightTd(t, tds, k) {
      assert k in s ==> RightTd(s, td, k);
    }
    assert block.hash in s ==> RightTd(s, td, block.hash);
  }

  /** The head's path and its lookup entries do not change when another block is stored. */
  lemma GrownHead(unhash: Oracle, s: Store, genesis: Header, bodies: Bodies, block: Header, txs: seq<TxHash>,
                  head: Hash, lookup: map<TxHash, nat>)
    requires Rooted(unhash, s, genesis) && Genuine(unhash, block) && block.difficulty > 0 && bodies.Keys == s.Keys
    requires GetHeader(s, block.parent, block.number - 1).Some? && head in s
    requires block.hash in bodies ==> bodies[block.hash] == txs
    requires LooksUp(lookup, bodies, Path(s, head))
    ensures var t := s[block.hash := block];
      && Rooted(unhash, t, genesis) && t[head] == s[head] && Path(t, head) == Path(s, head)
      && LooksUp(lookup, bodies[block.hash := txs], Path(t, head))
  {
    Grown(unhash, s, genesis, block);
    PathStable(unhash, s, s[block.hash := block], genesis, head);
    PathOnTree(unhash, s, genesis, head);
    SameBodies(bodies, bodies[block.hash := txs], Path(s, head), lookup);
  }

  /** Blocks are stored whole, with their total difficulty, no chain repeats a transaction, and both
      indexes follow the head. */
  ghost predicate ValidState(unhash: Oracle, genesis: Header, headers: Store, bodies: Bodies, td: map<Hash, nat>,
                             canon: map<nat, Hash>, lookup: map<TxHash, nat>, current: Header)
  {
    && Rooted(unhash, headers, genesis) && genesis.parent == ZERO
    && bodies.Keys == headers.Keys
    && RightTds(headers, td)
    && NoRepeats(headers, bodies)
    && current.hash in headers && headers[current.hash] == current
    && Agrees(canon, Path(headers, current.hash))
    && LooksUp(lookup, bodies, Path(headers, current.hash))
  }

  /** Storing one more block changes nothing for the head. */
  lemma GrownState(unhash: Oracle, genesis: Header, headers: Store, bodies: Bodies, td: map<Hash, nat>,
                   canon: map<nat, Hash>, lookup: map<TxHash, nat>, current: Header, block: Header, txs: seq<TxHash>)
    requires ValidState(unhash, genesis, headers, bodies, td, canon, lookup, current)
    requires Genuine(unhash, block) && block.difficulty > 0 && GetHeader(headers, block.parent, block.number - 1).Some?
    requires block.hash in bodies ==> bodies[block.hash] == txs
    requires Unrepeated(bodies[block.hash := txs], Path(headers[block.hash := block], block.hash))
    ensures block.parent in td
    ensures ValidState(unhash, genesis, headers[block.hash := block], bodies[block.hash := txs],
                       td[block.hash := td[block.parent] + block.difficulty], canon, lookup, current)
    ensures Path(headers[block.hash := block], current.hash) == Path(headers, current.hash)
    ensures block.hash in td ==> td[block.hash] == td[block.parent] + block.difficulty
    ensures block.parent != block.hash
  {
    GrownPaths(unhash, headers, genesis, bodies, block, txs);
    GrownTds(unhash, headers, genesis, block, td);
    GrownHead(unhash, headers, genesis, bodies, block, txs, current.hash, lookup);
    Grown(unhash, headers, genesis, block);
  }

  /** The genesis block alone is a valid chain. */
  lemma GenesisState(unhash: Oracle, genesis: Header, txs: seq<TxHash>)
    requires genesis.number == 0 && genesis.parent == ZERO && Genuine(unhash, genesis)
    ensures var headers := map[genesis.hash := genesis];
      && Path(headers, genesis.hash) == [genesis.hash] && Numbered([genesis.hash]) == map[0 := genesis.hash]
      && ValidState(unhash, genesis, headers, map[genesis.hash := txs], map[genesis.hash := genesis.difficulty],
                    map[0 := genesis.hash], PutTxs(map[], txs, 0), genesis)
  {
    var headers := map[genesis.hash := genesis];
    assert !ParentStored(headers, genesis.hash);
    assert Path(headers, genesis.hash) == [genesis.hash];
  }

  datatype WriteStatus = Failed | Canonical | Side

  /** The fork choice: heavier wins; on a tie the lower number wins, and on equal numbers a block
      to preserve wins, else a coin decides. */
  predicate Preferred(td: map<Hash, nat>, current: Header, block: Header, currentPreserve: bool, blockPreserve: bool,
                      coin: bool) {
    && current.hash in td && block.hash in td
    && (|| td[block.hash] > td[current.hash]
        || (td[block.hash] == td[current.hash]
            && (|| block.number < current.number
                || (block.number == current.number && !currentPreserve && (blockPreserve || coin)))))
  }

  /** The choice told by its outcome: the heavier of the two; of equally heavy ones the lower; and of two at
      one number the old head if it is to be preserved, else the new block if that is, else the coin's. */
  predicate Picks(td: map<Hash, nat>, before: Header, block: Header, currentPreserve: bool, blockPreserve: bool,
                  coin: bool, head: Header)
    requires before.hash in td && block.hash in td
  {
    && (td[block.hash] > td[before.hash] ==> head == block)
    && (td[block.hash] < td[before.hash] ==> head == before)
    && (td[block.hash] == td[before.hash] ==>
          && (block.number < before.number ==> head == block)
          && (block.number > before.number ==> head == before)
          && (block.number == before.number ==>
                && (currentPreserve ==> head == before)
                && (!currentPreserve && blockPreserve ==> head == block)
                && (!currentPreserve && !blockPreserve ==> head == if coin then block else before)))
  }

  lemma PreferredPicks(td: map<Hash, nat>, before: Header, block: Header, currentPreserve: bool, blockPreserve: bool,
                       coin: bool)
    requires before.hash in td && block.hash in td
    ensures var wins := Preferred(td, before, block, currentPreserve, blockPreserve, coin);
      Picks(td, before, block, currentPreserve, blockPreserve, coin, if wins then block else before)
  {
  }

  /** No stored block is heavier than the head, and of those as heavy none has a lower number. */
  ghost predicate HeaviestOf(headers: Store, td: map<Hash, nat>, head: Header) {
    head.hash in td && forall k <- td ::
      && k in headers && td[k] <= td[head.hash]
      && (td[k] == td[head.hash] ==> headers[k].number >= head.number)
  }

  /** The choice between the heaviest block and a new one. */
  lemma PicksHeaviest(s: Store, td: map<Hash, nat>, s1: Store, td1: map<Hash, nat>, before: Header, block: Header,
                      currentPreserve: bool, blockPreserve: bool, coin: bool, head: Header)
    requires HeaviestOf(s, td, before) && s1 == s[block.hash := block] && (block.hash in s ==> s[block.hash] == block)
    requires td1.Keys == td.Keys + {block.hash} && forall k <- td :: td1[k] == td[k]
    requires Picks(td1, before, block, currentPreserve, blockPreserve, coin, head)
    ensures HeaviestOf(s1, td1, head)
  {
    assert td1[before.hash] == td[before.hash];
    forall k <- td1
      ensures k in s1 && td1[k] <= td1[head.hash] && (td1[k] == td1[head.hash] ==> s1[k].number >= head.number)
    {
      assert k != block.hash ==> k in td && td1[k] == td[k] && s1[k] == s[k];
    }
  }

  /** Genesis 1, the chain 2, 3 on top of it, and the heavy block 4 beside 2. */
  function UncleTree(): Store {
    map[1 := Header(1, ZERO, 0, 1), 2 := Header(2, 1, 1, 1), 3 := Header(3, 2, 2, 1), 4 := Header(4, 1, 1, 9)]
  }

  lemma UnclePaths()
    ensures var s := UncleTree();
      && Path(s, 1) == [1] && Path(s, 2) == [1, 2] && Path(s, 3) == [1, 2, 3] && Path(s, 4) == [1, 4]
      && TotalDifficulty(s, 1) == 1 && TotalDifficulty(s, 2) == 2 && TotalDifficulty(s, 3) == 3
      && TotalDifficulty(s, 4) == 10
  {
    var s := UncleTree();
    assert !ParentStored(s, 1) && ParentStored(s, 2) && ParentStored(s, 3) && ParentStored(s, 4);
  }

  /** A heavy block that forks off right below its own number, under a longer chain, is chosen as the
      head of a valid chain, and the move to it leaves index entries above the new head. */
  lemma HeavyUncleStale()
    returns (unhash: Oracle, genesis: Header, bodies: Bodies, td: map<Hash, nat>, canon: map<nat, Hash>,
             current: Header, block: Header)
    ensures ValidState(unhash, genesis, UncleTree(), bodies, td, canon, map[], current) && block.hash in UncleTree()
    ensures UncleTree()[block.hash] == block
    ensures Preferred(td, current, block, false, false, false) && !Clean(canon, current, block)
    ensures var p, q := Path(UncleTree(), current.hash), Path(UncleTree(), block.hash);
      && canon == Numbered(p) && ForkAt(p, q, 0)
      && Agrees(Reindexed(canon, p, q, 0), q) && |q| == 2 && 2 in Reindexed(canon, p, q, 0)
  {
    hide Path, TotalDifficulty, Reindexed;
    var s := UncleTree();
    UnclePaths();
    genesis, current, block := s[1], s[3], s[4];
    unhash := (k: Hash) => if k in s then s[k] else genesis;
    bodies := map k | k in s :: [];
    td, canon := map[1 := 1, 2 := 2, 3 := 3, 4 := 10], Numbered([1, 2, 3]);
    UncleRooted(unhash);
    UncleMove();
  }

  lemma UncleRooted(unhash: Oracle)
    requires forall k <- UncleTree() :: unhash(k) == UncleTree()[k]
    ensures Rooted(unhash, UncleTree(), UncleTree()[1])
  {
    var s := UncleTree();
    assert ParentStored(s, 2) && ParentStored(s, 3) && ParentStored(s, 4);
  }

  lemma UncleMove()
    ensures ForkAt([1, 2, 3], [1, 4], 0)
    ensures var r := Reindexed(Numbered([1, 2, 3]), [1, 2, 3], [1, 4], 0); Agrees(r, [1, 4]) && 2 in r
  {
    var canon, p, q := Numbered([1, 2, 3]), [1, 2, 3], [1, 4];
    ReindexedAgrees(canon, p, q, 0);
    assert Overlaid(canon, q, 1, 1) == canon && 3 !in canon;
    assert Trimmed(canon, 3) == canon;
  }

  class BlockChain {
    var headers: Store
    var bodies: Bodies
    var td: map<Hash, nat>
    var canon: map<nat, Hash>
    var lookup: map<TxHash, nat>
    var current: Header
    var headHeader: Header
    const genesis: Header
    ghost const unhash: Oracle

    /** The head's ancestor path. */
    ghost function HeadPath(): seq<Hash>
      reads this
    {
      Path(headers, current.hash)
    }

    /** Makes `block` the head block.  The head header follows only if the index had another
        block at that number. */
    method WriteHeadBlock(block: Header)
      requires block.hash in bodies
      modifies this`canon, this`lookup, this`current, this`headHeader
      ensures canon == old(canon)[block.number := block.hash]
      ensures lookup == PutTxs(old(lookup), bodies[block.hash], block.number)
      ensures current == block
      ensures headHeader == if block.number in old(canon) && old(canon)[block.number] == block.hash then old(headHeader) else block
    {
      var updateHeads := !(block.number in canon && canon[block.number] == block.hash);
      canon := canon[block.number := block.hash];
      lookup := PutTxs(lookup, bodies[block.hash], block.number);
      if updateHeads {
        headHeader := block;
      }
      current := block;
    }

    /** Writes the next block of a new chain whose blocks up to number `m` are written. */
    method WriteNext(block: Header, addedBefore: set<TxHash>, ghost canon0: map<nat, Hash>, ghost lookup0: map<TxHash,
                     nat>, ghost q: seq<Hash>, ghost f: nat, ghost m: nat)
      returns (added: set<TxHash>)
      requires f < m < |q| && block.number == m && block.hash == q[m] && block.hash in bodies
      requires canon == Overlaid(canon0, q, f + 1, m) && lookup == PutBlocks(lookup0, bodies, q, f + 1, m)
      requires addedBefore == TxsOf(bodies, q, f + 1, m)
      modifies this`canon, this`lookup, this`current, this`headHeader
      ensures current == block
      ensures canon == Overlaid(canon0, q, f + 1, m + 1) && lookup == PutBlocks(lookup0, bodies, q, f + 1, m + 1)
      ensures added == TxsOf(bodies, q, f + 1, m + 1)
    {
      SegmentUp(lookup0, bodies, q, f + 1, m);
      WriteHeadBlock(block);
      added := addedBefore + Elements(bodies[block.hash]);
    }

    /** Second half of reorg: write the new chain except its head, oldest first. */
    method WriteNewChain(newChain: seq<Header>, ghost q: seq<Hash>, ghost f: nat) returns (added: set<TxHash>)
      requires f < |q| && OnTree(headers, q) && newChain == Segment(headers, q, f) && bodies.Keys == headers.Keys
      modifies this`canon, this`lookup, this`current, this`headHeader
      ensures |newChain| >= 2 ==> current.number == |q| - 2 && On(headers, q, current)
      ensures |newChain| < 2 ==> current == old(current) && headHeader == old(headHeader)
      ensures canon == Overlaid(old(canon), q, f + 1, if |q| - 1 >= f + 1 then |q| - 1 else f + 1)
      ensures lookup == PutBlocks(old(lookup), bodies, q, f + 1, |q| - 1)
      ensures added == TxsOf(bodies, q, f + 1, |q| - 1)
    {
      added := {};
      var i := |newChain| - 1;
      ghost var m := f + 1;
      while i >= 1
        invariant m == |q| - 1 - i && f + 1 <= m <= |q| && (m < |q| || m == f + 1)
        invariant m == f + 1 ==> current == old(current) && headHeader == old(headHeader)
        invariant m > f + 1 ==> current.number == m - 1 && On(headers, q, current)
        invariant canon == Overlaid(old(canon), q, f + 1, m)
        invariant lookup == PutBlocks(old(lookup), bodies, q, f + 1, m)
        invariant added == TxsOf(bodies, q, f + 1, m)
      {
        assert newChain[i] == headers[q[m]];
        added := WriteNext(newChain[i], added, old(canon), old(lookup), q, f, m);
        m := m + 1;
        i := i - 1;
      }
    }

    /** Deletes index entries above the current head, up to the first gap. */
    method TrimIndex()
      modifies this`canon
      ensures canon == Trimmed(old(canon), current.number + 1)
    {
      var i: nat := current.number + 1;
      var c := canon;
      while i in c
        invariant Trimmed(c, i) == Trimmed(canon, current.number + 1)
        decreases |c|
      {
        assert c.Keys == (c - {i}).Keys + {i};
        c, i := c - {i}, i + 1;
      }
      canon := c;
    }

    /** Moves the canonical chain from the current head towards `block`, whose own entries are left
        to `WriteHeadBlock`. */
    method Reorg(block: Header, ghost p: seq<Hash>, ghost q: seq<Hash>) returns (ok: bool, ghost f: nat)
      requires bodies.Keys == headers.Keys && OnTree(headers, p) && OnTree(headers, q) && p != [] && q != []
      requires p[0] == q[0] && Confluent(p, q)
      requires On(headers, p, current) && On(headers, q, block) && current.number == |p| - 1 && block.number == |q| - 1
      modifies this`canon, this`lookup, this`current, this`headHeader
      ensures ok && ForkAt(p, q, f)
      ensures canon == Cleared(old(canon), p, q, f) && lookup == Pruned(old(lookup), bodies, p, q, f)
      ensures |q| - 1 < f + 2 ==> headHeader == old(headHeader)
    {
      hide TxsOf, Confluent, OnTree, PutBlocks, Overlaid, Trimmed;
      var common, oldChain, newChain, dropped, included;
      ok, common, oldChain, newChain, dropped, included := Branches(headers, bodies, current, block, p, q);
      f := common.number;
      if !ok {
        return;
      }
      var added := WriteNewChain(newChain, q, f);
      assert current.number + 1 == if |q| - 1 >= f + 2 then |q| - 1 else |p|;
      lookup := lookup - (dropped - added);
      TrimIndex();
    }

    ghost predicate Valid()
      reads this
    {
      ValidState(unhash, genesis, headers, bodies, td, canon, lookup, current)
    }

    /** The index is the head's path and nothing else. */
    ghost predicate Exact()
      reads this
    {
      canon == Numbered(HeadPath())
    }

    /** What a reorganisation followed by writing the head does to both indexes. */
    lemma Moved(canon0: map<nat, Hash>, lookup0: map<TxHash, nat>, p: seq<Hash>, q: seq<Hash>, f: nat)
      requires ForkAt(p, q, f) && Agrees(canon0, p) && LooksUp(lookup0, bodies, p) && Unrepeated(bodies, q)
      requires canon == Reindexed(canon0, p, q, f) && lookup == Relooked(lookup0, bodies, p, q, f)
      ensures Agrees(canon, q) && LooksUp(lookup, bodies, q)
      ensures canon0 == Numbered(p) ==> (canon == Numbered(q) <==> |p| <= |q| || f + 2 < |q|)
    {
      ReindexedAgrees(canon0, p, q, f);
      RelookedRight(lookup0, bodies, p, q, f);
      if canon0 == Numbered(p) {
        ReindexedExact(canon0, p, q, f);
      }
    }

    /** Reorganises onto a stored block that is not a child of the head, and makes it the head. */
    method ReorgTo(block: Header, ghost p: seq<Hash>, ghost q: seq<Hash>) returns (ok: bool, ghost f: nat)
      requires bodies.Keys == headers.Keys && OnTree(headers, p) && OnTree(headers, q) && p != [] && q != []
      requires p[0] == q[0]
      requires Confluent(p, q)
      requires On(headers, p, current) && On(headers, q, block) && current.number == |p| - 1 && block.number == |q| - 1
      requires Agrees(canon, p) && LooksUp(lookup, bodies, p) && Unrepeated(bodies, q)
      modifies this`canon, this`lookup, this`current, this`headHeader
      ensures ok && current == block && ForkAt(p, q, f)
      ensures Agrees(canon, q) && LooksUp(lookup, bodies, q)
      ensures old(canon) == Numbered(p) ==> (canon == Numbered(q) <==> |p| <= |q| || f + 2 < |q|)
      ensures old(canon) == Numbered(p) ==> headHeader == if f == |q| - 1 then old(headHeader) else block
    {
      ok, f := Reorg(block, p, q);
      if !ok {
        return;
      }
      if old(canon) == Numbered(p) {
        ClearedHead(old(canon), p, q, f);
      }
      WriteHeadBlock(block);
      Moved(old(canon), old(lookup), p, q, f);
    }

    /** Puts a child of the head on top. */
    method ExtendTo(block: Header, ghost p: seq<Hash>, ghost q: seq<Hash>) returns (ghost f: nat)
      requires p != [] && q == p + [block.hash] && block.number == |p| && block.hash in bodies && block.hash !in p
      requires Agrees(canon, p) && LooksUp(lookup, bodies, p) && Unrepeated(bodies, q)
      modifies this`canon, this`lookup, this`current, this`headHeader
      ensures current == block && ForkAt(p, q, f)
      ensures Agrees(canon, q) && LooksUp(lookup, bodies, q)
      ensures old(canon) == Numbered(p) ==> (canon == Numbered(q) <==> |p| <= |q| || f + 2 < |q|)
      ensures old(canon) == Numbered(p) ==> headHeader == if f == |q| - 1 then old(headHeader) else block
    {
      f := |p| - 1;
      assert ForkAt(p, q, f) && q[|q| - 1] == block.hash && |q| - 1 == f + 1;
      RelookedRight(lookup, bodies, p, q, f);
      ExtendedIndexes(canon, lookup, bodies, p, q);
      WriteHeadBlock(block);
    }

    /** Makes a stored block the head, reorganising if it is not a child of the head.  Both indexes
        follow; an exact number index stays exact precisely if the move is `Clean`. */
    method MakeHead(block: Header) returns (ok: bool)
      requires Valid() && block.hash in headers && headers[block.hash] == block
      modifies this`canon, this`lookup, this`current, this`headHeader
      ensures ok && Valid() && current == block
      ensures old(Exact()) ==> (Exact() <==> Clean(old(canon), old(current), block))
      ensures old(Exact() && headHeader == current) ==>
        (headHeader == block <==> block.hash !in old(HeadPath()) || block == old(current))
    {
      ghost var p, q := HeadPath(), Path(headers, block.hash);
      PathOnTree(unhash, headers, genesis, current.hash);
      PathOnTree(unhash, headers, genesis, block.hash);
      PathsConfluent(unhash, headers, genesis, current.hash, block.hash);
      assert NoRepeat(headers, bodies, block.hash);
      ghost var f;
      if block.parent != current.hash {
        ok, f := ReorgTo(block, p, q);
        if !ok {
          return;
        }
      } else {
        ChildPath(unhash, headers, genesis, current, block);
        f := ExtendTo(block, p, q);
        ok := true;
      }
      if old(canon) == Numbered(p) {
        ForkMeans(headers, old(canon), old(current), block, p, q, f);
      }
    }

    constructor (genesis: Header, txs: seq<TxHash>, ghost unhash: Oracle)
      requires genesis.number == 0 && genesis.parent == ZERO && Genuine(unhash, genesis)
      ensures Valid() && Exact() && current == genesis && headHeader == genesis && Heaviest()
    {
      this.genesis := genesis;
      this.unhash := unhash;
      headers, bodies := map[genesis.hash := genesis], map[genesis.hash := txs];
      td, canon := map[genesis.hash := genesis.difficulty], map[0 := genesis.hash];
      lookup := PutTxs(map[], txs, 0);
      current, headHeader := genesis, genesis;
      new;
      hide ValidState, Path;
      GenesisState(unhash, genesis, txs);
    }

    ghost predicate Heaviest()
      reads this
    {
      HeaviestOf(headers, td, current)
    }

    lemma HeadWeighed(block: Header)
      requires Valid() && Genuine(unhash, block)
      ensures current.hash in td && (block.hash in headers ==> headers[block.hash] == block)
    {
      assert block.hash in headers ==> Genuine(unhash, headers[block.hash]);
    }

    /** A block whose transactions do not occur on its ancestors' path, and that is the one block with its hash. */
    ghost predicate Acceptable(block: Header, txs: seq<TxHash>)
      reads this
    {
      && Genuine(unhash, block) && block.difficulty > 0
      && (block.hash in bodies ==> bodies[block.hash] == txs)
      && Unrepeated(bodies[block.hash := txs], Path(headers[block.hash := block], block.hash))
    }

    /** Stores a block whose parent is stored. */
    method StoreBlock(block: Header, txs: seq<TxHash>)
      requires Valid() && Acceptable(block, txs) && GetHeader(headers, block.parent, block.number - 1).Some?
      modifies this`headers, this`bodies, this`td
      ensures Valid() && HeadPath() == old(HeadPath())
      ensures headers == old(headers)[block.hash := block] && bodies == old(bodies)[block.hash := txs]
      ensures block.hash in td && block.parent in td && td[block.hash] == td[block.parent] + block.difficulty
      ensures td.Keys == old(td).Keys + {block.hash} && forall k <- old(td) :: td[k] == old(td)[k]
    {
      hide ValidState, Path;
      GrownState(unhash, genesis, headers, bodies, td, canon, lookup, current, block, txs);
      headers, bodies := headers[block.hash := block], bodies[block.hash := txs];
      td := td[block.hash := td[block.parent] + block.difficulty];
    }

    /** Makes an already stored block the head. */
    method WriteKnownBlock(block: Header) returns (ok: bool)
      requires Valid() && block.hash in headers && headers[block.hash] == block
      modifies this`canon, this`lookup, this`current, this`headHeader
      ensures ok && Valid() && current == block
      ensures old(Exact()) ==> (Exact() <==> Clean(old(canon), old(current), block))
    {
      ok := MakeHead(block);
    }

    /** The fork choice between the head and a stored block. */
    method Choose(block: Header, currentPreserve: bool, blockPreserve: bool, coin: bool) returns (status: WriteStatus)
      requires Valid() && block.hash in headers && headers[block.hash] == block
      requires current.hash in td && block.hash in td
      modifies this`canon, this`lookup, this`current, this`headHeader
      ensures Valid() && status != Failed
      ensures status == Canonical <==> Preferred(td, old(current), block, currentPreserve, blockPreserve, coin)
      ensures current == if status == Canonical then block else old(current)
      ensures Picks(td, old(current), block, currentPreserve, blockPreserve, coin, current)
      ensures old(Exact()) && status != Canonical ==> Exact()
      ensures old(Exact()) && status == Canonical ==> (Exact() <==> Clean(old(canon), old(current), block))
    {
      hide ValidState, Path, Numbered, Clean, Preferred, Picks;
      PreferredPicks(td, current, block, currentPreserve, blockPreserve, coin);
      if Preferred(td, current, block, currentPreserve, blockPreserve, coin) {
        var ok := MakeHead(block);
        status := if ok then Canonical else Failed;
      } else {
        status := Side;
      }
    }

    /** Stores a block and lets the fork choice decide whether it becomes the head. */
    method WriteBlock(block: Header, txs: seq<TxHash>, currentPreserve: bool, blockPreserve: bool,
                      coin: bool) returns (status: WriteStatus)
      requires Valid() && Acceptable(block, txs)
      modifies this
      ensures Valid()
      ensures status == Failed <==> GetHeader(old(headers), block.parent, block.number - 1).None?
      ensures status == Failed ==> headers == old(headers) && current == old(current)
      ensures status != Failed ==>
        headers == old(headers)[block.hash := block] && bodies == old(bodies)[block.hash := txs]
      ensures status == Canonical <==>
        status != Failed && Preferred(td, old(current), block, currentPreserve, blockPreserve, coin)
      ensures current == if status == Canonical then block else old(current)
      ensures status != Failed ==>
        && old(current).hash in td && td[old(current).hash] == old(td)[old(current).hash]
        && block.hash in td && block.parent in td && td[block.hash] == td[block.parent] + block.difficulty
        && Picks(td, old(current), block, currentPreserve, blockPreserve, coin, current)
      ensures old(Heaviest()) ==> Heaviest()
      ensures old(Exact()) && status != Canonical ==> Exact()
      ensures old(Exact()) && status == Canonical ==> (Exact() <==> Clean(old(canon), old(current), block))
    {
      HeadWeighed(block);
      hide ValidState, Path, Numbered, Clean, Preferred, Picks, HeaviestOf;
      if GetHeader(headers, block.parent, block.number - 1).None? {
        return Failed;
      }
      StoreBlock(block, txs);
      ghost var before := current;
      status := Choose(block, currentPreserve, blockPreserve, coin);
      if old(Heaviest()) {
        PicksHeaviest(old(headers), old(td), headers, td, before, block, currentPreserve, blockPreserve, coin, current);
      }
    }
  }
}
