/**
 Header chain as a value: what batch inserts and rewinds are meant to do, and what
 every run of them keeps.  The class in HeaderChain.dfy is proved to take exactly
 these steps.
 */
module HeaderRuns {
  import opened BlockTree

  /** `td` and `canon` are the persisted total difficulties and number-to-hash index,
      `head` the in-memory head header and `marker` the persisted head header hash. */
  datatype Chain = Chain(headers: Store, td: map<Hash, nat>, canon: map<nat, Hash>, head: Header, marker: Hash)

  /** The only chain state that is right for a set of headers and a choice of head. */
  function Derived(headers: Store, head: Header): Chain {
    Chain(headers, map k | k in headers :: TotalDifficulty(headers, k), Numbered(Path(headers, head.hash)), head,
          head.hash)
  }

  ghost predicate HeadIsTip(headers: Store, head: Header) {
    && head.hash in headers && headers[head.hash] == head
    && forall k <- headers :: headers[k].number > 0 ==> headers[k].parent != head.hash
  }

  /** Every index is the one derived from the stored headers, and the head has no known child. */
  ghost predicate Consistent(unhash: Oracle, genesis: Header, c: Chain) {
    && Rooted(unhash, c.headers, genesis)
    && HeadIsTip(c.headers, c.head)
    && c == Derived(c.headers, c.head)
  }

  /** Header `i` of the batch is the child of the one before it. */
  predicate Follows(batch: seq<Header>, i: nat)
    requires 0 < i < |batch|
  {
    batch[i].parent == batch[i - 1].hash && batch[i].number == batch[i - 1].number + 1
  }

  /** A validated batch: genuine headers, each the child of the one before. */
  ghost predicate ValidBatch(unhash: Oracle, batch: seq<Header>) {
    && (forall i :: 0 <= i < |batch| ==> Genuine(unhash, batch[i]) && batch[i].difficulty > 0)
    && (forall i {:trigger Follows(batch, i)} :: 0 < i < |batch| ==> Follows(batch, i))
  }

  /** The batch attaches to a stored header. */
  predicate Attached(headers: Store, batch: seq<Header>) {
    |batch| > 0 && GetHeader(headers, batch[0].parent, batch[0].number - 1).Some?
  }

  /** The tree with the first `n` headers of the batch put in. */
  function AddedUpTo(headers: Store, batch: seq<Header>, n: nat): Store
    requires n <= |batch|
  {
    if n == 0 then headers else AddedUpTo(headers, batch, n - 1)[batch[n - 1].hash := batch[n - 1]]
  }

  function Added(headers: Store, batch: seq<Header>): Store {
    AddedUpTo(headers, batch, |batch|)
  }

  function Last(batch: seq<Header>): Header
    requires |batch| > 0
  {
    batch[|batch| - 1]
  }

  /** Some header of the batch is not stored yet. */
  predicate BringsNews(headers: Store, batch: seq<Header>) {
    exists i :: 0 <= i < |batch| && batch[i].hash !in headers
  }

  /** Fork choice: heavier wins; on a tie the shorter chain wins, and equal heights flip a coin. */
  predicate Wins(newTd: nat, localTd: nat, last: Header, head: Header, coin: bool) {
    newTd > localTd || (newTd == localTd && (last.number < head.number || (last.number == head.number && coin)))
  }

  /** Value-level fork choice of a whole batch. */
  predicate BatchWins(c: Chain, batch: seq<Header>, coin: bool)
    requires |batch| > 0 && c.head.hash in c.headers
  {
    var full := Added(c.headers, batch);
    assert Last(batch).hash in full && c.head.hash in full by { AddedKeys(c.headers, batch, |batch|); }
    Wins(TotalDifficulty(full, Last(batch).hash), TotalDifficulty(full, c.head.hash), Last(batch), c.head, coin)
  }

  /** The state after importing an attached batch. */
  function Inserted(c: Chain, batch: seq<Header>, coin: bool): Chain
    requires c.head.hash in c.headers
  {
    if Attached(c.headers, batch) then
      Derived(Added(c.headers, batch), if BatchWins(c, batch, coin) then Last(batch) else c.head)
    else c
  }

  function UpTo(headers: Store, n: nat): Store {
    map k | k in headers && headers[k].number <= n :: headers[k]
  }

  /** The state after rewinding to number `n`: everything above `n` is forgotten,
      side chains included, and the head moves down its own path. */
  function Rewound(c: Chain, n: nat): Chain {
    var p := Path(c.headers, c.head.hash);
    if c.head.number > n && n < |p| && p[n] in c.headers then Derived(UpTo(c.headers, n), c.headers[p[n]]) else c
  }

  datatype Op = Insert(batch: seq<Header>, coin: bool) | Rewind(n: nat)

  function Apply(c: Chain, op: Op): Chain
    requires c.head.hash in c.headers
  {
    match op
    case Insert(batch, coin) => Inserted(c, batch, coin)
    case Rewind(n) => Rewound(c, n)
  }

  /** A batch is validated and, if it attaches, brings at least one unknown header. */
  ghost predicate Legal(unhash: Oracle, c: Chain, op: Op) {
    op.Insert? ==> ValidBatch(unhash, op.batch) && (Attached(c.headers, op.batch) ==> BringsNews(c.headers, op.batch))
  }

  /** `cs` is a run of legal operations. */
  ghost predicate Run(unhash: Oracle, cs: seq<Chain>, ops: seq<Op>) {
    && |cs| == |ops| + 1
    && forall i :: 0 <= i < |ops| ==>
         cs[i].head.hash in cs[i].headers && Legal(unhash, cs[i], ops[i]) && cs[i + 1] == Apply(cs[i], ops[i])
  }

  // ---------- what a batch does to the tree ----------

  /** Exactly the stored and the batch headers are stored afterwards. */
  lemma {:induction false} AddedKeys(s: Store, batch: seq<Header>, n: nat)
    requires n <= |batch|
    ensures forall k <- s :: k in AddedUpTo(s, batch, n)
    ensures forall i :: 0 <= i < n ==> batch[i].hash in AddedUpTo(s, batch, n)
    ensures forall k <- AddedUpTo(s, batch, n) :: k in s || exists i :: 0 <= i < n && batch[i].hash == k
  {
    if n > 0 {
      AddedKeys(s, batch, n - 1);
    }
  }

  lemma {:induction false} AddedGenuine(unhash: Oracle, s: Store, batch: seq<Header>, n: nat)
    requires n <= |batch|
    requires forall k <- s :: s[k].hash == k && Genuine(unhash, s[k])
    requires forall i :: 0 <= i < |batch| ==> Genuine(unhash, batch[i])
    ensures forall k <- AddedUpTo(s, batch, n) :: AddedUpTo(s, batch, n)[k].hash == k && Genuine(unhash, AddedUpTo(s, batch, n)[k])
  {
    if n > 0 {
      AddedGenuine(unhash, s, batch, n - 1);
    }
  }

  /** Stored headers keep their value, batch headers get theirs. */
  lemma AddedValues(unhash: Oracle, s: Store, genesis: Header, batch: seq<Header>)
    requires Rooted(unhash, s, genesis) && ValidBatch(unhash, batch)
    ensures forall k <- Added(s, batch) :: Added(s, batch)[k].hash == k && Genuine(unhash, Added(s, batch)[k])
    ensures forall k <- Added(s, batch) :: k in s || exists i :: 0 <= i < |batch| && batch[i].hash == k
    ensures forall k <- s :: k in Added(s, batch) && Added(s, batch)[k] == s[k]
    ensures forall i :: 0 <= i < |batch| ==>
      batch[i].hash in Added(s, batch) && Added(s, batch)[batch[i].hash] == batch[i]
  {
    AddedKeys(s, batch, |batch|);
    AddedGenuine(unhash, s, batch, |batch|);
    var t := Added(s, batch);
    forall k <- s ensures t[k] == s[k] {
      assert Genuine(unhash, s[k]) && Genuine(unhash, t[k]);
    }
    forall i | 0 <= i < |batch| ensures t[batch[i].hash] == batch[i] {
      assert Genuine(unhash, batch[i]) && Genuine(unhash, t[batch[i].hash]);
    }
  }

  /** Attaching a validated batch keeps the store rooted. */
  lemma AddedRooted(unhash: Oracle, s: Store, genesis: Header, batch: seq<Header>)
    requires Rooted(unhash, s, genesis) && ValidBatch(unhash, batch) && Attached(s, batch)
    ensures Rooted(unhash, Added(s, batch), genesis)
    ensures forall k <- Added(s, batch) :: k in s || exists i :: 0 <= i < |batch| && batch[i].hash == k
    ensures forall k <- s :: k in Added(s, batch) && Added(s, batch)[k] == s[k]
    ensures forall i :: 0 <= i < |batch| ==>
      batch[i].hash in Added(s, batch) && Added(s, batch)[batch[i].hash] == batch[i]
    ensures forall i :: 0 <= i < |batch| ==> batch[i].number == batch[0].number + i && batch[i].number > 0
  {
    AddedValues(unhash, s, genesis, batch);
    BatchNumbers(unhash, batch);
    var t := Added(s, batch);
    forall k <- t
      ensures t[k].hash == k && Genuine(unhash, t[k])
      ensures t[k].number == 0 ==> k == genesis.hash
      ensures t[k].number > 0 ==> ParentStored(t, k) && t[k].difficulty > 0
    {
      if k !in s {
        var i :| 0 <= i < |batch| && batch[i].hash == k;
        assert Genuine(unhash, batch[i]);
        if i == 0 {
          assert batch[0].parent in s;
        } else {
          assert Follows(batch, i);
          assert batch[i - 1].hash in t;
        }
      } else {
        assert s[k].number > 0 ==> ParentStored(s, k);
      }
    }
  }

  lemma BatchNumbers(unhash: Oracle, batch: seq<Header>)
    requires ValidBatch(unhash, batch)
    ensures forall i :: 0 <= i < |batch| ==> batch[i].number == batch[0].number + i
  {
    forall i | 0 <= i < |batch| ensures batch[i].number == batch[0].number + i {
      BatchNumber(unhash, batch, i);
    }
  }

  lemma {:induction false} BatchNumber(unhash: Oracle, batch: seq<Header>, i: nat)
    requires ValidBatch(unhash, batch) && i < |batch|
    ensures batch[i].number == batch[0].number + i
  {
    if i > 0 {
      assert Follows(batch, i);
      BatchNumber(unhash, batch, i - 1);
    }
  }

  /** A batch header sits on its predecessor: its path and total difficulty extend the parent's. */
  lemma BatchStep(unhash: Oracle, s: Store, genesis: Header, batch: seq<Header>, i: nat)
    requires Rooted(unhash, s, genesis) && ValidBatch(unhash, batch) && Attached(s, batch) && i < |batch|
    ensures var t := Added(s, batch);
      && batch[i].hash in t && batch[i].parent in t
      && batch[i].parent == (if i == 0 then batch[0].parent else batch[i - 1].hash)
      && Path(t, batch[i].hash) == Path(t, batch[i].parent) + [batch[i].hash]
      && TotalDifficulty(t, batch[i].hash) == TotalDifficulty(t, batch[i].parent) + batch[i].difficulty
  {
    AddedRooted(unhash, s, genesis, batch);
    assert ParentStored(Added(s, batch), batch[i].hash);
    if i > 0 {
      assert Follows(batch, i);
    }
  }

  /** The stored headers of a batch come first: the unknown ones form a suffix. */
  lemma KnownPrefix(unhash: Oracle, s: Store, genesis: Header, batch: seq<Header>, i: nat)
    requires Rooted(unhash, s, genesis) && ValidBatch(unhash, batch) && 0 < i < |batch| && batch[i].hash in s
    ensures batch[i - 1].hash in s
  {
    assert Genuine(unhash, batch[i]) && Genuine(unhash, s[batch[i].hash]);
    assert s[batch[i].hash] == batch[i];
    assert Follows(batch, i);
    assert ParentStored(s, batch[i].hash);
  }

  /** A batch with news ends in news. */
  lemma {:induction false} LastIsNews(unhash: Oracle, s: Store, genesis: Header, batch: seq<Header>, i: nat)
    requires Rooted(unhash, s, genesis) && ValidBatch(unhash, batch) && i < |batch| && batch[i].hash !in s
    ensures forall j :: i <= j < |batch| ==> batch[j].hash !in s
    decreases |batch| - i
  {
    if i + 1 < |batch| {
      if batch[i + 1].hash in s {
        KnownPrefix(unhash, s, genesis, batch, i + 1);
      }
      LastIsNews(unhash, s, genesis, batch, i + 1);
    }
  }

  /** Total difficulty never falls along a batch. */
  lemma {:induction false} BatchClimbs(unhash: Oracle, s: Store, genesis: Header, batch: seq<Header>, i: nat)
    requires Rooted(unhash, s, genesis) && ValidBatch(unhash, batch) && Attached(s, batch) && i < |batch|
    ensures var t := Added(s, batch);
      && batch[i].hash in t && batch[i].parent in t && Last(batch).hash in t
      && TotalDifficulty(t, batch[i].parent) < TotalDifficulty(t, batch[i].hash) <= TotalDifficulty(t, Last(batch).hash)
    decreases |batch| - i
  {
    BatchStep(unhash, s, genesis, batch, i);
    if i + 1 < |batch| {
      BatchClimbs(unhash, s, genesis, batch, i + 1);
      assert Follows(batch, i + 1);
    }
  }

  // ---------- one step ----------

  /** A batch that brings news leaves a consistent chain. */
  lemma InsertConsistent(unhash: Oracle, genesis: Header, c: Chain, batch: seq<Header>, coin: bool)
    requires Consistent(unhash, genesis, c) && ValidBatch(unhash, batch)
    requires Attached(c.headers, batch) ==> BringsNews(c.headers, batch)
    ensures Consistent(unhash, genesis, Inserted(c, batch, coin))
  {
    if Attached(c.headers, batch) {
      var t := Added(c.headers, batch);
      AddedRooted(unhash, c.headers, genesis, batch);
      var i :| 0 <= i < |batch| && batch[i].hash !in c.headers;
      LastIsNews(unhash, c.headers, genesis, batch, i);
      var wins := BatchWins(c, batch, coin);
      var head := if wins then Last(batch) else c.head;
      forall k <- t | t[k].number > 0
        ensures t[k].parent != head.hash
      {
        if k in c.headers {
          assert ParentStored(c.headers, k);
        } else {
          var j :| 0 <= j < |batch| && batch[j].hash == k;
          BatchClimbs(unhash, c.headers, genesis, batch, j);
        }
      }
    }
  }

  /** A rewind leaves a consistent chain. */
  lemma RewindConsistent(unhash: Oracle, genesis: Header, c: Chain, n: nat)
    requires Consistent(unhash, genesis, c)
    ensures Consistent(unhash, genesis, Rewound(c, n))
    ensures c.head.number > n ==> Rewound(c, n).head.number == n
  {
    PathShape(unhash, c.headers, genesis, c.head.hash);
    if c.head.number > n {
      var s := UpTo(c.headers, n);
      forall k <- s | s[k].number > 0 ensures ParentStored(s, k) && s[k].difficulty > 0 {
        assert ParentStored(c.headers, k);
      }
      assert Rooted(unhash, s, genesis);
    }
  }

  lemma UpToRooted(unhash: Oracle, genesis: Header, headers: Store, n: nat)
    requires Rooted(unhash, headers, genesis)
    ensures Rooted(unhash, UpTo(headers, n), genesis)
  {
    var s := UpTo(headers, n);
    forall k <- s | s[k].number > 0 ensures ParentStored(s, k) && s[k].difficulty > 0 {
      assert ParentStored(headers, k);
    }
  }

  /** What is left of the tree has the paths and total difficulties it had. */
  lemma UpToSame(unhash: Oracle, genesis: Header, headers: Store, n: nat, k: Hash)
    requires Rooted(unhash, headers, genesis) && k in headers && headers[k].number <= n
    ensures TotalDifficulty(UpTo(headers, n), k) == TotalDifficulty(headers, k)
    ensures Path(UpTo(headers, n), k) == Path(headers, k)
  {
    UpToRooted(unhash, genesis, headers, n);
    PathStable(unhash, UpTo(headers, n), headers, genesis, k);
  }

  /** A rewind forgets exactly what lies above the number, and the head goes down its own path. */
  lemma RewindExact(unhash: Oracle, genesis: Header, c: Chain, n: nat)
    requires Consistent(unhash, genesis, c)
    ensures c.head.number <= n ==> Rewound(c, n) == c
    ensures c.head.number > n ==>
      var d := Rewound(c, n);
      && d.headers.Keys == (set k | k in c.headers && c.headers[k].number <= n) == d.td.Keys
      && (forall k <- d.headers :: d.headers[k] == c.headers[k] && k in c.td && d.td[k] == c.td[k])
      && n in c.canon && d.head.hash == d.marker == c.canon[n]
      && d.canon == map i | i in c.canon && i <= n :: c.canon[i]
  {
    hide TotalDifficulty, Rooted, Path;
    if c.head.number > n {
      var s, p := UpTo(c.headers, n), Path(c.headers, c.head.hash);
      PathShape(unhash, c.headers, genesis, c.head.hash);
      PathPrefix(unhash, c.headers, genesis, c.head.hash, n);
      RootedHash(unhash, c.headers, genesis, p[n]);
      forall k <- s ensures TotalDifficulty(s, k) == TotalDifficulty(c.headers, k) {
        UpToSame(unhash, genesis, c.headers, n, k);
      }
      UpToSame(unhash, genesis, c.headers, n, p[n]);
      var d := Rewound(c, n);
      assert d.canon == Numbered(p[..n + 1]) && c.canon == Numbered(p);
    }
  }

  lemma RootedHash(unhash: Oracle, s: Store, genesis: Header, k: Hash)
    requires Rooted(unhash, s, genesis) && k in s
    ensures s[k].hash == k
  {
  }

  lemma StepConsistent(unhash: Oracle, genesis: Header, c: Chain, op: Op)
    requires Consistent(unhash, genesis, c) && Legal(unhash, c, op)
    ensures Consistent(unhash, genesis, Apply(c, op))
  {
    match op
    case Insert(batch, coin) => InsertConsistent(unhash, genesis, c, batch, coin);
    case Rewind(n) => RewindConsistent(unhash, genesis, c, n);
  }

  // ---------- whole runs ----------

  /** In every run of inserts and rewinds every state is consistent: the index is exactly the
      ancestor path of the head, with nothing above it, and the head has no known child. */
  lemma {:induction false} RunConsistent(unhash: Oracle, genesis: Header, cs: seq<Chain>, ops: seq<Op>, i: nat)
    requires Run(unhash, cs, ops) && Consistent(unhash, genesis, cs[0]) && i < |cs|
    ensures Consistent(unhash, genesis, cs[i])
  {
    if i > 0 {
      RunConsistent(unhash, genesis, cs, ops, i - 1);
      StepConsistent(unhash, genesis, cs[i - 1], ops[i - 1]);
    }
  }

  /** No stored header is heavier than the head, and of those as heavy none has a lower number. */
  ghost predicate HeadHeaviest(c: Chain) {
    c.head.hash in c.td && forall k <- c.td ::
      && k in c.headers && c.td[k] <= c.td[c.head.hash]
      && (c.td[k] == c.td[c.head.hash] ==> c.headers[k].number >= c.head.number)
  }

  /** A fork choice told by its outcome: the head is the heavier of the old head and the last header; of
      two equally heavy ones the lower; and of two at one number the coin decides. */
  predicate Chooses(td: map<Hash, nat>, before: Header, last: Header, coin: bool, head: Header)
    requires before.hash in td && last.hash in td
  {
    && (td[last.hash] > td[before.hash] ==> head == last)
    && (td[last.hash] < td[before.hash] ==> head == before)
    && (td[last.hash] == td[before.hash] ==>
          && (last.number < before.number ==> head == last)
          && (last.number > before.number ==> head == before)
          && (last.number == before.number ==> head == if coin then last else before))
  }

  lemma ConsistentWeighed(unhash: Oracle, genesis: Header, c: Chain)
    requires Consistent(unhash, genesis, c)
    ensures Weighed(unhash, genesis, c)
  {
  }

  lemma InsertChooses(unhash: Oracle, genesis: Header, c: Chain, batch: seq<Header>, coin: bool)
    requires Weighed(unhash, genesis, c) && ValidBatch(unhash, batch) && Attached(c.headers, batch)
    ensures var d := Inserted(c, batch, coin);
      && c.head.hash in d.td && d.td[c.head.hash] == c.td[c.head.hash] && Last(batch).hash in d.td
      && Chooses(d.td, c.head, Last(batch), coin, d.head)
  {
    AddedValues(unhash, c.headers, genesis, batch);
    PathStable(unhash, c.headers, Added(c.headers, batch), genesis, c.head.hash);
  }

  /** The stored headers form a tree that has the head, and their total difficulties are right; nothing
      is said of the index. */
  ghost predicate Weighed(unhash: Oracle, genesis: Header, c: Chain) {
    && Rooted(unhash, c.headers, genesis)
    && c.head.hash in c.headers && c.headers[c.head.hash] == c.head
    && c.td == map k | k in c.headers :: TotalDifficulty(c.headers, k)
  }

  /** Lighter than another header, or as heavy and not lower. */
  predicate Behind(s: Store, k: Hash, h: Header)
    requires k in s && h.hash in s
  {
    var d := TotalDifficulty(s, h.hash) - TotalDifficulty(s, k);
    d > 0 || (d == 0 && s[k].number >= h.number)
  }

  /** Stored headers stay behind the old head, and those of the batch fall behind its last. */
  lemma TreeBehind(unhash: Oracle, genesis: Header, c: Chain, batch: seq<Header>, k: Hash)
    requires Weighed(unhash, genesis, c) && ValidBatch(unhash, batch) && HeadHeaviest(c) && Attached(c.headers, batch)
    requires k in Added(c.headers, batch)
    ensures var t := Added(c.headers, batch);
      && c.head.hash in t && Last(batch).hash in t
      && Behind(t, k, if k in c.headers then c.head else Last(batch))
  {
    hide TotalDifficulty, Path;
    var t := Added(c.headers, batch);
    AddedValues(unhash, c.headers, genesis, batch);
    PathStable(unhash, c.headers, t, genesis, c.head.hash);
    if k in c.headers {
      PathStable(unhash, c.headers, t, genesis, k);
      assert k in c.td;
    } else {
      var j :| 0 <= j < |batch| && batch[j].hash == k;
      if j + 1 < |batch| {
        BatchClimbs(unhash, c.headers, genesis, batch, j + 1);
        assert Follows(batch, j + 1);
      }
    }
  }

  /** An insert keeps the head heaviest, even when every header was already known. */
  lemma InsertKeepsHeaviest(unhash: Oracle, genesis: Header, c: Chain, batch: seq<Header>, coin: bool)
    requires Weighed(unhash, genesis, c) && ValidBatch(unhash, batch) && HeadHeaviest(c)
    ensures Weighed(unhash, genesis, Inserted(c, batch, coin)) && HeadHeaviest(Inserted(c, batch, coin))
  {
    hide TotalDifficulty, Path, BatchWins, Rooted;
    if Attached(c.headers, batch) {
      var d := Inserted(c, batch, coin);
      AddedRooted(unhash, c.headers, genesis, batch);
      InsertChooses(unhash, genesis, c, batch, coin);
      TreeBehind(unhash, genesis, c, batch, c.head.hash);
      forall k <- d.td
        ensures k in d.headers && d.td[k] <= d.td[d.head.hash]
        ensures d.td[k] == d.td[d.head.hash] ==> d.headers[k].number >= d.head.number
      {
        TreeBehind(unhash, genesis, c, batch, k);
      }
    }
  }

  /** What an import leaves, known batches included: headers, total difficulties and head are those of
      an insert, whatever has become of the index. */
  ghost predicate Imports(unhash: Oracle, c: Chain, d: Chain, batch: seq<Header>, coin: bool) {
    && c.head.hash in c.headers && ValidBatch(unhash, batch)
    && var e := Inserted(c, batch, coin); d.headers == e.headers && d.td == e.td && d.head == e.head
  }

  lemma WeighedSame(unhash: Oracle, genesis: Header, c: Chain, d: Chain)
    requires d.headers == c.headers && d.td == c.td && d.head == c.head
    ensures Weighed(unhash, genesis, d) == Weighed(unhash, genesis, c) && HeadHeaviest(d) == HeadHeaviest(c)
  {
  }

  /** In every run of imports, of known batches too, the head is the heaviest header ever stored. */
  lemma {:induction false} RunHeaviest(unhash: Oracle, genesis: Header, cs: seq<Chain>, batches: seq<seq<Header>>,
                                       coins: seq<bool>, i: nat)
    requires |cs| == |batches| + 1 && |coins| == |batches| && i < |cs|
    requires Weighed(unhash, genesis, cs[0]) && HeadHeaviest(cs[0])
    requires forall j :: 0 <= j < |batches| ==> Imports(unhash, cs[j], cs[j + 1], batches[j], coins[j])
    ensures Weighed(unhash, genesis, cs[i]) && HeadHeaviest(cs[i])
  {
    hide Inserted, Weighed, HeadHeaviest, ValidBatch;
    if i > 0 {
      RunHeaviest(unhash, genesis, cs, batches, coins, i - 1);
      assert Imports(unhash, cs[i - 1], cs[i - 1 + 1], batches[i - 1], coins[i - 1]);
      InsertKeepsHeaviest(unhash, genesis, cs[i - 1], batches[i - 1], coins[i - 1]);
      WeighedSame(unhash, genesis, Inserted(cs[i - 1], batches[i - 1], coins[i - 1]), cs[i]);
    }
  }

  /** Runs of legal inserts that start from a consistent chain are such runs. */
  lemma LegalImports(unhash: Oracle, genesis: Header, cs: seq<Chain>, ops: seq<Op>, j: nat)
    requires Run(unhash, cs, ops) && Consistent(unhash, genesis, cs[0]) && j < |ops| && ops[j].Insert?
    ensures Weighed(unhash, genesis, cs[0]) && Imports(unhash, cs[j], cs[j + 1], ops[j].batch, ops[j].coin)
  {
  }

  /** In an insert-only run nothing that was ever stored is forgotten. */
  lemma {:induction false} RunRemembers(unhash: Oracle, genesis: Header, cs: seq<Chain>, ops: seq<Op>, j: nat, i: nat)
    requires Run(unhash, cs, ops) && Consistent(unhash, genesis, cs[0]) && j <= i < |cs|
    requires forall j :: 0 <= j < |ops| ==> ops[j].Insert?
    ensures cs[j].headers.Keys <= cs[i].headers.Keys && cs[i].headers.Keys == cs[i].td.Keys
  {
    RunConsistent(unhash, genesis, cs, ops, i);
    if j < i {
      RunRemembers(unhash, genesis, cs, ops, j, i - 1);
      assert cs[i] == Inserted(cs[i - 1], ops[i - 1].batch, ops[i - 1].coin);
      AddedKeys(cs[i - 1].headers, ops[i - 1].batch, |ops[i - 1].batch|);
    }
  }
}
