/**
 The header chain of core/headerchain.go: batch import with fork choice, rewinding,
 and the canonical shortcut to an ancestor.

 Index edits go through a batch of puts and deletes; while the batch is open, reads
 still see the index as it was.
 */
module HeaderChains {
  import opened Basics
  import opened BlockTree
  import opened HeaderRuns

  datatype Status = NonStat | CanonStat | SideStat

  datatype WriteResult =
    | UnknownAncestor
    | Written(status: Status, ignored: int, imported: int)

  /** An open write batch on the canonical index: a put, or a delete, per number. */
  type IndexBatch = map<nat, Option<Hash>>

  function Flush(canon: map<nat, Hash>, batch: IndexBatch): map<nat, Hash> {
    map i | i in canon.Keys + batch.Keys && (i in batch ==> batch[i].Some?) :: if i in batch then batch[i].value else canon[i]
  }

  // ---------- what the import loop accumulates ----------

  /** Sum of the first `n` difficulties. */
  function Weight(batch: seq<Header>, n: nat): nat
    requires n <= |batch|
  {
    if n == 0 then 0 else Weight(batch, n - 1) + batch[n - 1].difficulty
  }

  predicate Unknown(s: Store, h: Header) {
    GetHeader(s, h.hash, h.number).None?
  }

  /** The unknown ones among the first `n` headers, in order. */
  function News(s: Store, batch: seq<Header>, n: nat): seq<Header>
    requires n <= |batch|
  {
    if n == 0 then []
    else if Unknown(s, batch[n - 1]) then News(s, batch, n - 1) + [batch[n - 1]]
    else News(s, batch, n - 1)
  }

  /** The position of the first unknown one among the first `n` headers, or -1. */
  function FirstNews(s: Store, batch: seq<Header>, n: nat): (r: int)
    requires n <= |batch|
    ensures -1 <= r < n
  {
    if n == 0 then -1
    else
      var r := FirstNews(s, batch, n - 1);
      if r < 0 && Unknown(s, batch[n - 1]) then n - 1 else r
  }

  /** Running total difficulties of the unknown ones among the first `n` headers. */
  function NewTds(s: Store, ptd: nat, batch: seq<Header>, n: nat): map<Hash, nat>
    requires n <= |batch|
  {
    if n == 0 then map[]
    else if Unknown(s, batch[n - 1]) then NewTds(s, ptd, batch, n - 1)[batch[n - 1].hash := ptd + Weight(batch, n)]
    else NewTds(s, ptd, batch, n - 1)
  }

  /** A genuine header is stored under its full key exactly if its hash is stored. */
  lemma StoredMatches(unhash: Oracle, s: Store, genesis: Header, h: Header)
    requires Rooted(unhash, s, genesis) && Genuine(unhash, h)
    ensures GetHeader(s, h.hash, h.number) == if h.hash in s then Some(h) else None
  {
    if h.hash in s {
      assert Genuine(unhash, s[h.hash]);
    }
  }

  lemma UnknownMeans(unhash: Oracle, s: Store, genesis: Header, batch: seq<Header>, i: nat)
    requires Rooted(unhash, s, genesis) && ValidBatch(unhash, batch) && i < |batch|
    ensures Unknown(s, batch[i]) <==> batch[i].hash !in s
  {
    StoredMatches(unhash, s, genesis, batch[i]);
  }

  /** The unknown headers of a batch are a suffix of it, starting at the first unknown one. */
  lemma {:induction false} NewsIsSuffix(unhash: Oracle, s: Store, genesis: Header, batch: seq<Header>, n: nat)
    requires Rooted(unhash, s, genesis) && ValidBatch(unhash, batch) && n <= |batch|
    ensures var f := FirstNews(s, batch, n);
      && News(s, batch, n) == (if f == -1 then [] else batch[f..n])
      && (forall i :: 0 <= i < n ==> (batch[i].hash in s <==> f == -1 || i < f))
  {
    hide Rooted, ValidBatch, Unknown;
    if n > 0 {
      NewsIsSuffix(unhash, s, genesis, batch, n - 1);
      UnknownMeans(unhash, s, genesis, batch, n - 1);
      var f := FirstNews(s, batch, n - 1);
      assert batch[n - 1..n] == [batch[n - 1]];
      assert 0 <= f < n ==> batch[f..n] == batch[f..n - 1] + [batch[n - 1]];
      if n > 1 && batch[n - 1].hash in s {
        KnownPrefix(unhash, s, genesis, batch, n - 1);
      }
    }
  }

  /** Running sums are total difficulties. */
  lemma {:induction false} RunningTotal(unhash: Oracle, s: Store, genesis: Header, batch: seq<Header>, n: nat)
    requires Rooted(unhash, s, genesis) && ValidBatch(unhash, batch) && Attached(s, batch) && 0 < n <= |batch|
    ensures batch[n - 1].hash in Added(s, batch) && batch[0].parent in s
    ensures TotalDifficulty(s, batch[0].parent) + Weight(batch, n) == TotalDifficulty(Added(s, batch), batch[n - 1].hash)
  {
    BatchStep(unhash, s, genesis, batch, n - 1);
    if n == 1 {
      AddedValues(unhash, s, genesis, batch);
      PathStable(unhash, s, Added(s, batch), genesis, batch[0].parent);
      assert Weight(batch, 1) == Weight(batch, 0) + batch[0].difficulty;
    } else {
      RunningTotal(unhash, s, genesis, batch, n - 1);
    }
  }

  lemma {:induction false} NewTdsRight(unhash: Oracle, s: Store, genesis: Header, batch: seq<Header>, n: nat)
    requires Rooted(unhash, s, genesis) && ValidBatch(unhash, batch) && Attached(s, batch) && n <= |batch|
    ensures var m := NewTds(s, TotalDifficulty(s, batch[0].parent), batch, n);
      && (forall k <- m :: k !in s && k in Added(s, batch) && m[k] == TotalDifficulty(Added(s, batch), k))
      && (forall i :: 0 <= i < n && batch[i].hash !in s ==> batch[i].hash in m)
  {
    if n > 0 {
      NewTdsRight(unhash, s, genesis, batch, n - 1);
      RunningTotal(unhash, s, genesis, batch, n);
      StoredMatches(unhash, s, genesis, batch[n - 1]);
    }
  }

  lemma PutCount(s: Store, h: Header)
    ensures |s[h.hash := h]| == |s| + if h.hash in s then 0 else 1
  {
    assert s[h.hash := h].Keys == s.Keys + {h.hash};
    assert |s[h.hash := h].Keys| == |s[h.hash := h]| && |s.Keys| == |s|;
  }

  /** No header of a batch is stored by those before it. */
  lemma FreshHash(unhash: Oracle, s: Store, genesis: Header, batch: seq<Header>, n: nat)
    requires Rooted(unhash, s, genesis) && ValidBatch(unhash, batch) && n < |batch|
    ensures batch[n].hash in AddedUpTo(s, batch, n) <==> !Unknown(s, batch[n])
  {
    StoredMatches(unhash, s, genesis, batch[n]);
    AddedKeys(s, batch, n);
    BatchNumbers(unhash, batch);
    forall i | 0 <= i < n ensures batch[i].hash != batch[n].hash {
      assert Genuine(unhash, batch[i]) && Genuine(unhash, batch[n]) && batch[i].number < batch[n].number;
    }
  }

  /** There are as many as the tree grows by. */
  lemma {:induction false} NewsCount(unhash: Oracle, s: Store, genesis: Header, batch: seq<Header>, n: nat)
    requires Rooted(unhash, s, genesis) && ValidBatch(unhash, batch) && n <= |batch|
    ensures |AddedUpTo(s, batch, n)| == |s| + |News(s, batch, n)|
  {
    hide Rooted, ValidBatch, Unknown;
    if n > 0 {
      NewsCount(unhash, s, genesis, batch, n - 1);
      FreshHash(unhash, s, genesis, batch, n - 1);
      PutCount(AddedUpTo(s, batch, n - 1), batch[n - 1]);
    }
  }

  /** The unknown ones among the first `n` headers, by hash. */
  function NewHeaders(s: Store, batch: seq<Header>, n: nat): Store
    requires n <= |batch|
  {
    if n == 0 then map[]
    else if Unknown(s, batch[n - 1]) then NewHeaders(s, batch, n - 1)[batch[n - 1].hash := batch[n - 1]]
    else NewHeaders(s, batch, n - 1)
  }

  /** Storing only the unknown headers stores the whole batch. */
  lemma {:induction false} JoinedNews(unhash: Oracle, s: Store, genesis: Header, batch: seq<Header>, n: nat)
    requires Rooted(unhash, s, genesis) && ValidBatch(unhash, batch) && n <= |batch|
    ensures s + NewHeaders(s, batch, n) == AddedUpTo(s, batch, n)
  {
    if n > 0 {
      var h := batch[n - 1];
      JoinedNews(unhash, s, genesis, batch, n - 1);
      StoredMatches(unhash, s, genesis, h);
      if h.hash in s {
        var t := AddedUpTo(s, batch, n - 1);
        AddedGenuine(unhash, s, batch, n - 1);
        AddedKeys(s, batch, n - 1);
        assert Genuine(unhash, t[h.hash]) && Genuine(unhash, h);
        assert t[h.hash := h] == t;
      }
    }
  }

  lemma JoinedTdValues(unhash: Oracle, s: Store, genesis: Header, batch: seq<Header>, tds: map<Hash, nat>)
    requires Rooted(unhash, s, genesis) && ValidBatch(unhash, batch) && Attached(s, batch)
    requires tds.Keys == s.Keys && forall k <- s :: tds[k] == TotalDifficulty(s, k)
    ensures var full, all := Added(s, batch), tds + NewTds(s, tds[batch[0].parent], batch, |batch|);
      all.Keys == full.Keys && forall k <- full :: all[k] == TotalDifficulty(full, k)
  {
    var full, all := Added(s, batch), tds + NewTds(s, tds[batch[0].parent], batch, |batch|);
    AddedValues(unhash, s, genesis, batch);
    NewTdsRight(unhash, s, genesis, batch, |batch|);
    forall k <- full ensures k in all && all[k] == TotalDifficulty(full, k) {
      if k in s {
        PathStable(unhash, s, full, genesis, k);
      }
    }
  }

  /** Writing the running totals of the unknown headers makes every total difficulty right. */
  lemma JoinedTds(unhash: Oracle, s: Store, genesis: Header, batch: seq<Header>, head: Header)
    requires Rooted(unhash, s, genesis) && ValidBatch(unhash, batch) && Attached(s, batch)
    ensures Derived(s, head).td + NewTds(s, TotalDifficulty(s, batch[0].parent), batch, |batch|) == Derived(Added(s, batch), head).td
  {
    JoinedTdValues(unhash, s, genesis, batch, Derived(s, head).td);
  }

  /** Everything the import loop has accumulated. */
  datatype Import = Import(newTd: nat, firstInserted: int, inserted: seq<Header>, headers: Store, tds: map<Hash, nat>)

  function ImportOne(s: Store, r: Import, h: Header, i: nat): Import {
    var newTd := r.newTd + h.difficulty;
    if Unknown(s, h) then
      Import(newTd, if r.firstInserted < 0 then i else r.firstInserted, r.inserted + [h], r.headers[h.hash := h],
             r.tds[h.hash := newTd])
    else r.(newTd := newTd)
  }

  /** The accumulated values after the first `n` headers. */
  function Imported(s: Store, ptd: nat, batch: seq<Header>, n: nat): Import
    requires n <= |batch|
  {
    if n == 0 then Import(ptd, -1, [], map[], map[]) else ImportOne(s, Imported(s, ptd, batch, n - 1), batch[n - 1],
                                                                    n - 1)
  }

  lemma {:induction false} ImportedParts(s: Store, ptd: nat, batch: seq<Header>, n: nat)
    requires n <= |batch|
    ensures var r := Imported(s, ptd, batch, n);
      && r.newTd == ptd + Weight(batch, n) && r.firstInserted == FirstNews(s, batch, n)
      && r.inserted == News(s, batch, n)
      && r.headers == NewHeaders(s, batch, n) && r.tds == NewTds(s, ptd, batch, n)
  {
    if n > 0 {
      ImportedParts(s, ptd, batch, n - 1);
    }
  }

  /** Writing the unknown headers and their running totals stores the whole batch rightly. */
  lemma StoresBatch(unhash: Oracle, s: Store, genesis: Header, head: Header, batch: seq<Header>)
    requires Rooted(unhash, s, genesis) && ValidBatch(unhash, batch) && Attached(s, batch)
    ensures var full, r := Added(s, batch), Imported(s, TotalDifficulty(s, batch[0].parent), batch, |batch|);
      && s + r.headers == full
      && Derived(s, head).td + r.tds == Derived(full, head).td
      && Last(batch).hash in full
      && r.newTd == TotalDifficulty(full, Last(batch).hash)
      && r.firstInserted == FirstNews(s, batch, |batch|) && r.inserted == News(s, batch, |batch|)
  {
    ImportedParts(s, TotalDifficulty(s, batch[0].parent), batch, |batch|);
    JoinedNews(unhash, s, genesis, batch, |batch|);
    JoinedTds(unhash, s, genesis, batch, head);
    RunningTotal(unhash, s, genesis, batch, |batch|);
  }

  /** The last batch header's path runs through the whole batch and its attachment point. */
  lemma BatchOnPath(unhash: Oracle, s: Store, genesis: Header, batch: seq<Header>)
    requires Rooted(unhash, s, genesis) && ValidBatch(unhash, batch) && Attached(s, batch)
    requires forall i :: 0 <= i < |batch| ==> batch[i].hash in s && s[batch[i].hash] == batch[i]
    ensures var p := Path(s, Last(batch).hash);
      && |p| == Last(batch).number + 1 && Last(batch).number == batch[0].number + |batch| - 1
      && batch[0].number > 0 && p[batch[0].number - 1] == batch[0].parent
      && forall i :: 0 <= i < |batch| ==> batch[i].number == batch[0].number + i && p[batch[0].number + i] == batch[i].hash
  {
    var p := Path(s, Last(batch).hash);
    BatchNumbers(unhash, batch);
    PathShape(unhash, s, genesis, Last(batch).hash);
    forall i | 0 <= i < |batch| ensures p[batch[0].number + i] == batch[i].hash {
      OnPath(unhash, s, batch, p, i);
    }
  }

  lemma {:induction false} OnPath(unhash: Oracle, s: Store, batch: seq<Header>, p: seq<Hash>, i: nat)
    requires ValidBatch(unhash, batch) && i < |batch|
    requires |p| == batch[0].number + |batch| && p[|p| - 1] == Last(batch).hash
    requires forall i :: 0 <= i < |batch| ==> batch[i].hash in s && s[batch[i].hash] == batch[i]
    requires forall j :: 0 < j < |p| ==> p[j] in s && s[p[j]].parent == p[j - 1]
    ensures p[batch[0].number + i] == batch[i].hash
    decreases |batch| - i
  {
    if i + 1 < |batch| {
      OnPath(unhash, s, batch, p, i + 1);
      assert Follows(batch, i + 1);
      var j := batch[0].number + i + 1;
      assert s[p[j]].parent == p[j - 1];
    }
  }

  /** The open batch deletes numbers in (last, top) and puts the path `p` on (fork, upto). */
  ghost predicate Moves(writes: IndexBatch, p: seq<Hash>, fork: nat, upto: nat, last: nat, top: nat)
    requires upto <= last + 1 == |p|
  {
    && (forall j: nat :: j in writes <==> (last < j < top || fork < j < upto))
    && (forall j: nat :: last < j < top ==> writes[j].None?)
    && (forall j: nat :: fork < j < upto ==> writes[j] == Some(p[j]))
  }

  /** Flushing such a batch turns the index of `q` into the index of `p`, provided the paths
      agree up to the fork and everything above is deleted.  If the batch stops at `first`,
      that is so exactly when `q` already runs through the end of `p`. */
  lemma IndexMoved(canon: map<nat, Hash>, writes: IndexBatch, p: seq<Hash>, q: seq<Hash>, fork: nat, first: nat,
                   upto: nat, last: nat, top: nat)
    requires fork < first <= upto <= last + 1 == |p| && fork < |q| && Moves(writes, p, fork, upto, last, top)
    requires canon == Numbered(q) && Agree(p, q, 0, fork + 1)
    requires top == if last < |q| then |q| else last + 1
    ensures upto == last + 1 ==> Flush(canon, writes) == Numbered(p)
    ensures Flush(canon, writes) == Numbered(p) <==> Agree(p, q, upto, last + 1)
  {
    var c := Flush(canon, writes);
    assert forall j: nat :: j in c <==> j <= last && (fork < j < upto || j < |q|);
    assert forall j: nat :: j in c ==> c[j] == if fork < j < upto then p[j] else q[j];
    if Agree(p, q, upto, last + 1) {
      assert forall j: nat :: j in c <==> j in Numbered(p);
      assert c == Numbered(p);
    } else {
      var j: nat :| upto <= j <= last && !(j < |q| && p[j] == q[j]);
      assert j in Numbered(p) && !(j in c && c[j] == p[j]);
    }
  }

  /** The end of the batch is on a path exactly if the whole batch is. */
  lemma OnBoth(unhash: Oracle, s: Store, genesis: Header, k: Hash, batch: seq<Header>)
    requires Rooted(unhash, s, genesis) && ValidBatch(unhash, batch) && |batch| > 0 && k in s
    requires forall i :: 0 <= i < |batch| ==> batch[i].hash in s && s[batch[i].hash] == batch[i]
    ensures var p, q := Path(s, Last(batch).hash), Path(s, k);
      && |p| == Last(batch).number + 1 && batch[0].number <= Last(batch).number
      && (Last(batch).hash in q <==> Agree(p, q, batch[0].number, Last(batch).number + 1))
  {
    var last := Last(batch);
    var p, q := Path(s, last.hash), Path(s, k);
    BatchNumbers(unhash, batch);
    PathShape(unhash, s, genesis, last.hash);
    PathShape(unhash, s, genesis, k);
    if last.hash in q {
      PathsMeet(unhash, s, genesis, k, last.hash, last.number);
    }
  }

  /** Two paths of one tree with a common root, the first one stored. */
  ghost predicate Forked(s: Store, p: seq<Hash>, q: seq<Hash>) {
    p != [] && q != [] && p[0] == q[0] && Confluent(p, q) && OnTree(s, p)
  }

  /** The batch is the upper end of the path `p`. */
  ghost predicate BatchAt(batch: seq<Header>, p: seq<Hash>) {
    && |batch| > 0 && batch[0].number > 0 && |p| == batch[0].number + |batch|
    && p[batch[0].number - 1] == batch[0].parent
    && RunAt(batch, p, batch[0].number)
  }

  /** Consecutive headers, lying on the path `p` from number `from` on. */
  ghost predicate RunAt(run: seq<Header>, p: seq<Hash>, from: nat) {
    && from + |run| <= |p|
    && forall n :: 0 <= n < |run| ==> run[n].number == from + n && run[n].hash == p[run[n].number]
  }

  lemma RunSlice(run: seq<Header>, p: seq<Hash>, from: nat, lo: nat, hi: nat)
    requires RunAt(run, p, from) && lo <= hi <= |run|
    ensures RunAt(run[lo..hi], p, from + lo) && |run[lo..hi]| == hi - lo
    ensures lo < hi ==> Last(run[lo..hi]) == run[hi - 1]
  {
  }

  /** How a stored batch and the head lie in the tree. */
  lemma BatchForks(unhash: Oracle, s: Store, genesis: Header, head: Header, batch: seq<Header>)
    requires Rooted(unhash, s, genesis) && ValidBatch(unhash, batch) && Attached(s, batch)
    requires forall i :: 0 <= i < |batch| ==> batch[i].hash in s && s[batch[i].hash] == batch[i]
    requires head.hash in s && s[head.hash] == head
    ensures var p, q := Path(s, Last(batch).hash), Path(s, head.hash);
      && Forked(s, p, q) && BatchAt(batch, p) && |q| == head.number + 1 && head.hash == q[|q| - 1]
      && (batch[0].parent == head.hash ==> |q| == batch[0].number)
      && (Last(batch).hash in q <==> Agree(p, q, batch[0].number, |p|))
  {
    BatchOnPath(unhash, s, genesis, batch);
    PathShape(unhash, s, genesis, head.hash);
    PathShape(unhash, s, genesis, Last(batch).hash);
    PathsConfluent(unhash, s, genesis, Last(batch).hash, head.hash);
    OnBoth(unhash, s, genesis, head.hash, batch);
  }

  /** The imports after which index and head agree: something was unknown, or the batch loses
      the fork choice, or it ends in the head itself. */
  predicate Sound(c: Chain, batch: seq<Header>, coin: bool)
    requires c.head.hash in c.headers
  {
    Attached(c.headers, batch) ==> BringsNews(c.headers, batch) || !BatchWins(c, batch, coin) || Last(batch) == c.head
  }

  /** Importing a stored sibling of the head again, and winning the coin flip, is not sound. */
  lemma KnownSiblingUnsound() returns (unhash: Oracle, genesis: Header, c: Chain, batch: seq<Header>)
    ensures Consistent(unhash, genesis, c) && ValidBatch(unhash, batch) && Attached(c.headers, batch)
    ensures !Sound(c, batch, true) && Sound(c, batch, false)
  {
    genesis := Header(1, ZERO, 0, 1);
    var a, b := Header(2, 1, 1, 5), Header(3, 1, 1, 5);
    var s: Store := map[1 := genesis, 2 := a, 3 := b];
    unhash := (h: Hash) => if h == 1 then genesis else if h == 2 then a else b;
    c, batch := Derived(s, a), [b];
    assert AddedUpTo(s, batch, 0) == s;
    assert Added(s, batch) == s;
    assert TotalDifficulty(s, 1) == 1 && TotalDifficulty(s, 2) == 6 && TotalDifficulty(s, 3) == 6;
  }

  /** The reported status. */
  function Verdict(c: Chain, batch: seq<Header>, coin: bool): Status
    requires c.head.hash in c.headers && |batch| > 0
  {
    if News(c.headers, batch, |batch|) == [] then NonStat else if BatchWins(c, batch, coin) then CanonStat else SideStat
  }

  /** What an import reports, in terms of the tree and the head before and after. */
  predicate Reports(r: WriteResult, before: Store, after: Store, batch: seq<Header>, head: Header) {
    && r.Written? && r.imported == |after| - |before| && r.ignored == |batch| - r.imported
    && r.status ==
       if after == before then NonStat else if batch != [] && head == Last(batch) then CanonStat else SideStat
  }

  /** The tree grows exactly if there is news, and then by the last header too. */
  lemma NewsGrows(unhash: Oracle, s: Store, genesis: Header, batch: seq<Header>)
    requires Rooted(unhash, s, genesis) && ValidBatch(unhash, batch) && Attached(s, batch)
    ensures if News(s, batch, |batch|) == [] then Added(s, batch) == s
            else Last(batch).hash in Added(s, batch) && Last(batch).hash !in s
  {
    NewsIsSuffix(unhash, s, genesis, batch, |batch|);
    if News(s, batch, |batch|) == [] {
      NothingAdded(unhash, s, genesis, batch);
    } else {
      AddedKeys(s, batch, |batch|);
    }
  }

  lemma VerdictReports(unhash: Oracle, c: Chain, genesis: Header, batch: seq<Header>, coin: bool)
    requires Consistent(unhash, genesis, c) && ValidBatch(unhash, batch) && Attached(c.headers, batch)
    ensures var news := |News(c.headers, batch, |batch|)|;
      Reports(Written(Verdict(c, batch, coin), |batch| - news, news), c.headers, Added(c.headers, batch), batch,
              Inserted(c, batch, coin).head)
  {
    hide BatchWins, Path, TotalDifficulty, Rooted, ValidBatch, News, AddedUpTo;
    NewsCount(unhash, c.headers, genesis, batch, |batch|);
    NewsGrows(unhash, c.headers, genesis, batch);
  }

  /** The batch is stored, the index still follows the head, and `inserted` is the part that was
      unknown, starting at `firstInserted`. */
  ghost predicate Stored(unhash: Oracle, genesis: Header, s: Store, canon: map<nat, Hash>, head: Header,
                         batch: seq<Header>, firstInserted: int, inserted: seq<Header>)
  {
    && Rooted(unhash, s, genesis) && ValidBatch(unhash, batch) && Attached(s, batch)
    && (forall i :: 0 <= i < |batch| ==> batch[i].hash in s && s[batch[i].hash] == batch[i])
    && head.hash in s && s[head.hash] == head && canon == Numbered(Path(s, head.hash))
    && -1 <= firstInserted < |batch|
    && inserted == (if firstInserted == -1 then [] else batch[firstInserted..])
    && (batch[0].parent == head.hash ==> firstInserted == 0)
  }

  /** A child of the head is news. */
  lemma ChildIsNews(unhash: Oracle, c: Chain, genesis: Header, h: Header)
    requires Consistent(unhash, genesis, c) && Genuine(unhash, h) && h.number > 0 && h.parent == c.head.hash
    ensures h.hash !in c.headers
  {
    StoredMatches(unhash, c.headers, genesis, h);
  }

  /** What the tree looks like once the batch is stored. */
  lemma StoredShape(unhash: Oracle, c: Chain, genesis: Header, batch: seq<Header>)
    requires Consistent(unhash, genesis, c) && ValidBatch(unhash, batch) && Attached(c.headers, batch)
    ensures Stored(unhash, genesis, Added(c.headers, batch), c.canon, c.head, batch,
                   FirstNews(c.headers, batch, |batch|), News(c.headers, batch, |batch|))
    ensures FirstNews(c.headers, batch, |batch|) == -1 <==> !BringsNews(c.headers, batch)
  {
    var s := Added(c.headers, batch);
    assert Path(s, c.head.hash) == Path(c.headers, c.head.hash) by {
      AddedValues(unhash, c.headers, genesis, batch);
      PathStable(unhash, c.headers, s, genesis, c.head.hash);
    }
    NewsIsSuffix(unhash, c.headers, genesis, batch, |batch|);
    if batch[0].parent == c.head.hash {
      ChildIsNews(unhash, c, genesis, batch[0]);
    }
    AddedRooted(unhash, c.headers, genesis, batch);
  }

  /** A batch without news adds nothing. */
  lemma NothingAdded(unhash: Oracle, s: Store, genesis: Header, batch: seq<Header>)
    requires Rooted(unhash, s, genesis) && ValidBatch(unhash, batch) && !BringsNews(s, batch)
    ensures Added(s, batch) == s
  {
    AddedValues(unhash, s, genesis, batch);
  }

  lemma DerivedTd(s: Store, head: Header)
    ensures Derived(s, head).td.Keys == s.Keys && forall k <- s :: Derived(s, head).td[k] == TotalDifficulty(s, k)
  {
  }

  /** Weighing the cases: the new state is consistent exactly if the import was sound. */
  lemma Outcome(unhash: Oracle, c: Chain, d: Chain, genesis: Header, batch: seq<Header>, coin: bool)
    requires Consistent(unhash, genesis, c) && ValidBatch(unhash, batch) && Attached(c.headers, batch)
    requires d.headers == Added(c.headers, batch) && d.td == Derived(d.headers, c.head).td
    requires !BatchWins(c, batch, coin) ==> d.canon == c.canon && d.head == c.head && d.marker == c.marker
    requires BatchWins(c, batch, coin) ==> d.head == Last(batch)
    requires BatchWins(c, batch, coin) && BringsNews(c.headers, batch) ==>
      d.marker == d.head.hash && d.canon == Numbered(Path(d.headers, d.head.hash))
    requires BatchWins(c, batch, coin) && !BringsNews(c.headers, batch) ==>
      d.marker == c.marker && (d.canon == Numbered(Path(d.headers, d.head.hash)) <==> Last(batch).hash in Path(d.headers, c.head.hash))
    ensures Sound(c, batch, coin) ==> d == Inserted(c, batch, coin)
    ensures d.head == Inserted(c, batch, coin).head && Imports(unhash, c, d, batch, coin)
    ensures Consistent(unhash, genesis, d) <==> Sound(c, batch, coin)
  {
    if BringsNews(c.headers, batch) {
      InsertConsistent(unhash, genesis, c, batch, coin);
      AddedValues(unhash, c.headers, genesis, batch);
      PathStable(unhash, c.headers, d.headers, genesis, c.head.hash);
    } else {
      NothingAdded(unhash, c.headers, genesis, batch);
      AddedValues(unhash, c.headers, genesis, batch);
      if BatchWins(c, batch, coin) {
        KnownWinner(unhash, c, genesis, Last(batch), coin);
      }
    }
  }

  /** A stored header on the head's path wins against the head only if it is the head. */
  lemma KnownWinner(unhash: Oracle, c: Chain, genesis: Header, last: Header, coin: bool)
    requires Consistent(unhash, genesis, c) && last.hash in c.headers && c.headers[last.hash] == last
    requires Wins(TotalDifficulty(c.headers, last.hash), TotalDifficulty(c.headers, c.head.hash), last, c.head, coin)
    ensures last.hash in Path(c.headers, c.head.hash) <==> last == c.head
  {
    var q := Path(c.headers, c.head.hash);
    PathShape(unhash, c.headers, genesis, c.head.hash);
    if last.hash in q && last != c.head {
      var i :| 0 <= i < |q| && q[i] == last.hash;
      AncestorLighter(unhash, c.headers, genesis, c.head.hash, i);
    }
  }

  /** All hashes stored at a number, side chains included. */
  function Level(s: Store, n: nat): set<Hash> {
    set k | k in s && s[k].number == n
  }

  ghost function FromLevel(s: Store, n: nat): set<Hash> {
    set k | k in s && s[k].number >= n
  }

  lemma LevelLeaves(s: Store, n: nat)
    requires Level(s, n) != {}
    ensures |FromLevel(s, n + 1)| < |FromLevel(s, n)|
  {
    var k :| k in Level(s, n);
    SmallerSet(FromLevel(s, n + 1), FromLevel(s, n), k);
  }

  lemma LevelFilled(unhash: Oracle, s: Store, genesis: Header, k: Hash, n: nat)
    requires Rooted(unhash, s, genesis) && k in s && n <= s[k].number
    ensures Level(s, n) != {}
  {
    PathShape(unhash, s, genesis, k);
    assert Path(s, k)[n] in Level(s, n);
  }

  lemma {:induction false} SmallerSet<T>(a: set<T>, b: set<T>, x: T)
    requires a <= b && x in b && x !in a
    ensures |a| < |b|
  {
    if a != {} {
      var y :| y in a;
      SmallerSet(a - {y}, b - {y}, x);
    }
  }

  /** Everything above `n`. */
  function Above(s: Store, n: nat): set<Hash> {
    set k | k in s && s[k].number > n
  }

  lemma CutTds(unhash: Oracle, genesis: Header, c: Chain, n: nat)
    requires Consistent(unhash, genesis, c) && Rooted(unhash, UpTo(c.headers, n), genesis)
    ensures c.td - Above(c.headers, n) == map k | k in UpTo(c.headers, n) :: TotalDifficulty(UpTo(c.headers, n), k)
  {
    var s := UpTo(c.headers, n);
    forall k <- s ensures TotalDifficulty(s, k) == TotalDifficulty(c.headers, k) {
      PathStable(unhash, s, c.headers, genesis, k);
    }
  }

  lemma CutIndex(p: seq<Hash>, n: nat, numbers: set<nat>)
    requires n < |p|
    requires forall i <- numbers :: i > n
    requires forall i: nat :: n < i < |p| ==> i in numbers
    ensures Numbered(p) - numbers == Numbered(p[..n + 1])
  {
  }

  /** Deleting everything above `n` from a consistent chain and moving the head down its path
      is a rewind. */
  lemma RewindResult(unhash: Oracle, genesis: Header, c: Chain, n: nat, numbers: set<nat>)
    requires Consistent(unhash, genesis, c) && n < c.head.number
    requires forall i <- numbers :: i > n
    requires forall i: nat :: n < i <= c.head.number ==> i in numbers
    ensures n < |Path(c.headers, c.head.hash)| && Path(c.headers, c.head.hash)[n] in c.headers
    ensures var k := Path(c.headers, c.head.hash)[n];
      Chain(c.headers - Above(c.headers, n), c.td - Above(c.headers, n), c.canon - numbers, c.headers[k], k) == Rewound(c, n)
  {
    var s, p := UpTo(c.headers, n), Path(c.headers, c.head.hash);
    PathPrefix(unhash, c.headers, genesis, c.head.hash, n);
    assert p[n] in c.headers && c.headers[p[n]].number == n && c.headers[p[n]].hash == p[n] by {
      PathShape(unhash, c.headers, genesis, c.head.hash);
    }
    RewindConsistent(unhash, genesis, c, n);
    assert Rewound(c, n) == Derived(s, c.headers[p[n]]);
    assert c.headers - Above(c.headers, n) == s;
    CutTds(unhash, genesis, c, n);
    CutIndex(p, n, numbers);
    PathStable(unhash, s, c.headers, genesis, p[n]);
  }

  /** Reading the canonical index; a missing entry reads as the zero hash. */
  function ReadCanonical(canon: map<nat, Hash>, n: nat): Hash {
    if n in canon then canon[n] else ZERO
  }

  /** How many blocks off the canonical chain lie between `k` and the chain, counting at most `steps`. */
  function Detour(s: Store, canon: map<nat, Hash>, k: Hash, steps: nat): nat
    decreases steps
  {
    if steps == 0 || k !in s || ReadCanonical(canon, s[k].number) == k then 0
    else 1 + Detour(s, canon, s[k].parent, steps - 1)
  }

  /** A walk from a stored header that meets the index, or the ancestor, within the budget. */
  predicate Reaches(s: Store, canon: map<nat, Hash>, hash: Hash, number: nat, ancestor: nat, budget: nat) {
    GetHeader(s, hash, number).Some? && Detour(s, canon, hash, ancestor) <= budget
  }

  /** One step towards the root does not change the ancestors below. */
  lemma PathDown(unhash: Oracle, s: Store, genesis: Header, k: Hash, i: nat)
    requires Rooted(unhash, s, genesis) && k in s && i < s[k].number
    ensures s[k].parent in s && s[s[k].parent].number == s[k].number - 1 && s[k].parent != ZERO
    ensures |Path(s, k)| == s[k].number + 1 && |Path(s, s[k].parent)| == s[k].number
    ensures Path(s, k)[i] == Path(s, s[k].parent)[i]
  {
    assert ParentStored(s, k);
    PathShape(unhash, s, genesis, k);
  }

  /** The index of a consistent chain gives the ancestors of any block it contains. */
  lemma CanonicalAncestors(unhash: Oracle, genesis: Header, c: Chain, k: Hash, i: nat)
    requires Consistent(unhash, genesis, c) && k != ZERO
    requires k in c.headers && ReadCanonical(c.canon, c.headers[k].number) == k && i <= c.headers[k].number
    ensures i < |Path(c.headers, k)| && Path(c.headers, k)[i] != ZERO
    ensures ReadCanonical(c.canon, i) == Path(c.headers, k)[i]
  {
    PathShape(unhash, c.headers, genesis, c.head.hash);
    PathShape(unhash, c.headers, genesis, k);
    PathsMeet(unhash, c.headers, genesis, k, c.head.hash, c.headers[k].number);
  }

  /** Only stored headers are canonical, each at its own number. */
  lemma CanonicalStored(unhash: Oracle, genesis: Header, c: Chain, n: nat)
    requires Consistent(unhash, genesis, c) && ReadCanonical(c.canon, n) != ZERO
    ensures GetHeader(c.headers, ReadCanonical(c.canon, n), n).Some?
  {
    PathShape(unhash, c.headers, genesis, c.head.hash);
  }

  /** The index has an entry exactly for the numbers up to the head, and none of them is the zero
      hash, which is not stored either. */
  lemma IndexShape(unhash: Oracle, genesis: Header, c: Chain)
    requires Consistent(unhash, genesis, c)
    ensures ZERO !in c.headers && forall n: nat :: ReadCanonical(c.canon, n) == ZERO <==> n > c.head.number
  {
    PathShape(unhash, c.headers, genesis, c.head.hash);
  }

  class HeaderChain {
    var headers: Store
    var td: map<Hash, nat>
    var canon: map<nat, Hash>
    var head: Header
    var marker: Hash
    const genesis: Header
    ghost const unhash: Oracle

    ghost function State(): Chain
      reads this
    {
      Chain(headers, td, canon, head, marker)
    }

    ghost predicate Valid()
      reads this
    {
      Consistent(unhash, genesis, State())
    }

    constructor (genesis: Header, ghost unhash: Oracle)
      requires genesis.number == 0 && Genuine(unhash, genesis)
      ensures Valid() && this.genesis == genesis && this.unhash == unhash
      ensures State() == Derived(map[genesis.hash := genesis], genesis)
    {
      this.genesis := genesis;
      this.unhash := unhash;
      headers := map[genesis.hash := genesis];
      td := map[genesis.hash := genesis.difficulty];
      canon := map[0 := genesis.hash];
      head := genesis;
      marker := genesis.hash;
      new;
      assert !ParentStored(headers, genesis.hash);
    }

    /** Reopens the chain on a database left by a consistent one: the head is the head block, or the
        genesis block if that is not stored.  The chain is consistent exactly if that was the head; if
        not, until the block chain sets its head to the stored marker (core/blockchain.go:446-452). */
    constructor Reopen(genesis: Header, c: Chain, headBlock: Hash, ghost unhash: Oracle)
      requires Consistent(unhash, genesis, c)
      ensures State() == c.(head := if headBlock in c.headers then c.headers[headBlock] else genesis)
      ensures this.genesis == genesis && this.unhash == unhash && (Valid() <==> head == c.head)
    {
      this.genesis := genesis;
      this.unhash := unhash;
      headers, td, canon, marker := c.headers, c.td, c.canon, c.marker;
      head := if headBlock in c.headers then c.headers[headBlock] else genesis;
    }

    /** First half of writeHeaders: store what is unknown, and add up the difficulty. */
    method StoreHeaders(batch: seq<Header>) returns (newTd: nat, firstInserted: int, inserted: seq<Header>)
      requires |batch| > 0 && batch[0].parent in td
      modifies this`headers, this`td
      ensures var r := Imported(old(headers), old(td)[batch[0].parent], batch, |batch|);
        && newTd == r.newTd && firstInserted == r.firstInserted && inserted == r.inserted
        && headers == old(headers) + r.headers && td == old(td) + r.tds
    {
      var ptd := td[batch[0].parent];
      newTd, firstInserted, inserted := ptd, -1, [];
      var newHeaders: Store, newTds: map<Hash, nat> := map[], map[];
      for i := 0 to |batch|
        invariant Import(newTd, firstInserted, inserted, newHeaders, newTds) == Imported(headers, ptd, batch, i)
      {
        var h := batch[i];
        newTd := newTd + h.difficulty;
        if Unknown(headers, h) {
          newHeaders, newTds := newHeaders[h.hash := h], newTds[h.hash := newTd];
          inserted := inserted + [h];
          if firstInserted < 0 {
            firstInserted := i;
          }
        }
      }
      headers, td := headers + newHeaders, td + newTds;
    }

    /** Deletes the index entries from `last + 1` up to the first gap. */
    method ClearAbove(last: nat, ghost p: seq<Hash>, ghost q: seq<Hash>) returns (writes: IndexBatch, ghost top: nat)
      requires canon == Numbered(q) && |p| == last + 1
      ensures top == if last < |q| then |q| else last + 1
      ensures forall fork: nat, upto: nat :: upto <= fork + 1 && upto <= last + 1 ==>
        Moves(writes, p, fork, upto, last, top)
    {
      writes := map[];
      var i := last + 1;
      while i in canon
        invariant last < i && (last < |q| ==> i <= |q|) && (|q| <= last ==> i == last + 1)
        invariant forall j: nat :: j in writes <==> last < j < i
        invariant forall j: nat :: j in writes ==> writes[j].None?
        decreases |q| - i
      {
        writes := writes[i := None];
        i := i + 1;
      }
      top := i;
    }

    /** Overwrites stale entries, going back from a header on the path `p` until the index agrees. */
    method WalkBack(start: Header, before: IndexBatch, ghost p: seq<Hash>, ghost q: seq<Hash>, ghost top: nat)
      returns (writes: IndexBatch, fork: nat)
      requires canon == Numbered(q) && |q| > 0 && start.number < |p| && p[start.number] == start.hash && p[0] == q[0]
      requires Confluent(p, q)
      requires OnTree(headers, p)
      requires Moves(before, p, start.number, start.number + 1, |p| - 1, top)
      ensures fork <= start.number && fork < |q| && Agree(p, q, 0, fork + 1)
      ensures Moves(writes, p, fork, start.number + 1, |p| - 1, top)
    {
      writes := before;
      var headHash, headNumber: nat := start.hash, start.number;
      while !(headNumber in canon && canon[headNumber] == headHash)
        invariant 0 <= headNumber <= start.number && headHash == p[headNumber]
        invariant Moves(writes, p, headNumber, start.number + 1, |p| - 1, top)
        decreases headNumber
      {
        writes := writes[headNumber := Some(headHash)];
        var headHeader := headers[headHash];
        assert StepDown(headers, p, headNumber);
        headHash, headNumber := headHeader.parent, headHeader.number - 1;
      }
      fork := headNumber;
      assert Agree(p, q, 0, fork);
    }

    /** Puts a stretch of the path into the index, and the head marker on its last header. */
    method PutAll(run: seq<Header>, before: IndexBatch, oldMarker: Hash, ghost p: seq<Hash>, ghost fork: nat,
                  ghost from: nat, ghost top: nat)
      returns (writes: IndexBatch, newMarker: Hash)
      requires fork < from && RunAt(run, p, from)
      requires Moves(before, p, fork, from, |p| - 1, top)
      ensures Moves(writes, p, fork, from + |run|, |p| - 1, top)
      ensures newMarker == if run == [] then oldMarker else Last(run).hash
    {
      writes, newMarker := before, oldMarker;
      for n := 0 to |run|
        invariant Moves(writes, p, fork, from + n, |p| - 1, top)
        invariant newMarker == if n == 0 then oldMarker else run[n - 1].hash
      {
        writes := writes[run[n].number := Some(run[n].hash)];
        newMarker := run[n].hash;
      }
    }

    /** Opens the index edits for a winning batch.  Unless it extends the head: clear what is
        above, overwrite what is stale below, and put the part of the batch that was known. */
    method Unwind(batch: seq<Header>, firstInserted: int, ghost p: seq<Hash>, ghost q: seq<Hash>)
      returns (writes: IndexBatch, newMarker: Hash, ghost fork: nat, ghost top: nat)
      requires Forked(headers, p, q) && canon == Numbered(q) && head.hash == q[|q| - 1]
      requires BatchAt(batch, p) && -1 <= firstInserted < |batch|
      requires batch[0].parent == head.hash ==> firstInserted == 0 && |q| == batch[0].number
      ensures fork < batch[0].number && fork < |q| && Agree(p, q, 0, fork + 1) && top == if |p| <= |q| then |q| else |p|
      ensures Moves(writes, p, fork, batch[0].number + if firstInserted > 0 then firstInserted else 0, |p| - 1, top)
      ensures newMarker == if firstInserted > 0 then batch[firstInserted - 1].hash else marker
    {
      newMarker := marker;
      if batch[0].parent == head.hash {
        writes, fork, top := map[], |q| - 1, |p|;
        assert Agree(p, q, 0, fork);
      } else {
        writes, top := ClearAbove(Last(batch).number, p, q);
        var f;
        writes, f := WalkBack(headers[batch[0].parent], writes, p, q, top);
        fork := f;
        if firstInserted > 0 {
          RunSlice(batch, p, batch[0].number, 0, firstInserted);
          writes, newMarker := PutAll(batch[0..firstInserted], writes, newMarker, p, fork, batch[0].number, top);
        }
      }
    }

    /** Closes the index edits by putting the inserted end of the batch. */
    method PutInserted(batch: seq<Header>, firstInserted: nat, before: IndexBatch, oldMarker: Hash, ghost p: seq<Hash>,
                       ghost fork: nat, ghost top: nat)
      returns (writes: IndexBatch, newMarker: Hash)
      requires BatchAt(batch, p) && firstInserted < |batch| && fork < batch[0].number
      requires Moves(before, p, fork, batch[0].number + firstInserted, |p| - 1, top)
      ensures Moves(writes, p, fork, |p|, |p| - 1, top) && newMarker == Last(batch).hash
    {
      RunSlice(batch, p, batch[0].number, firstInserted, |batch|);
      writes, newMarker := PutAll(batch[firstInserted..|batch|], before, oldMarker, p, fork,
                                  batch[0].number + firstInserted, top);
    }

    /** The index edits for a winning batch on path `p` when the index follows path `q`. */
    method Rewrite(batch: seq<Header>, firstInserted: int, ghost p: seq<Hash>, ghost q: seq<Hash>)
      returns (newCanon: map<nat, Hash>, newMarker: Hash)
      requires Forked(headers, p, q) && canon == Numbered(q) && head.hash == q[|q| - 1]
      requires BatchAt(batch, p) && -1 <= firstInserted < |batch|
      requires batch[0].parent == head.hash ==> firstInserted == 0 && |q| == batch[0].number
      ensures firstInserted >= 0 ==> newMarker == Last(batch).hash && newCanon == Numbered(p)
      ensures firstInserted == -1 ==>
        newMarker == marker && (newCanon == Numbered(p) <==> Agree(p, q, batch[0].number, |p|))
    {
      var writes;
      ghost var fork, top;
      writes, newMarker, fork, top := Unwind(batch, firstInserted, p, q);
      if firstInserted >= 0 {
        writes, newMarker := PutInserted(batch, firstInserted, writes, newMarker, p, fork, top);
      }
      IndexMoved(canon, writes, p, q, fork, batch[0].number, if firstInserted == -1 then batch[0].number else |p|,
                 |p| - 1, top);
      newCanon := Flush(canon, writes);
    }

    /** Second half of writeHeaders, for a winning batch: move the index and the markers onto it.
        When nothing was inserted, the numbers of the batch keep their old entries. */
    method MoveHead(batch: seq<Header>, firstInserted: int, ghost inserted: seq<Header>)
      requires Stored(unhash, genesis, headers, canon, head, batch, firstInserted, inserted)
      modifies this`canon, this`head, this`marker
      ensures head == Last(batch)
      ensures firstInserted >= 0 ==> marker == head.hash && canon == Numbered(Path(headers, head.hash))
      ensures firstInserted == -1 ==> marker == old(marker)
      ensures firstInserted == -1 ==>
                (canon == Numbered(Path(headers, head.hash)) <==> Last(batch).hash in Path(headers, old(head).hash))
    {
      BatchForks(unhash, headers, genesis, head, batch);
      canon, marker := Rewrite(batch, firstInserted, Path(headers, Last(batch).hash), Path(headers, head.hash));
      head := Last(batch);
    }

    /** Stores an attached batch: the tree and its total difficulties grow, index and head stay. */
    method StoreBatch(batch: seq<Header>) returns (newTd: nat, firstInserted: int, inserted: seq<Header>)
      requires Valid() && ValidBatch(unhash, batch) && Attached(headers, batch)
      modifies this`headers, this`td
      ensures headers == Added(old(headers), batch) && td == Derived(headers, head).td
      ensures Last(batch).hash in headers && newTd == TotalDifficulty(headers, Last(batch).hash)
      ensures Stored(unhash, genesis, headers, canon, head, batch, firstInserted, inserted)
      ensures inserted == News(old(headers), batch, |batch|)
      ensures (firstInserted == -1 <==> !BringsNews(old(headers), batch))
    {
      StoresBatch(unhash, headers, genesis, head, batch);
      StoredShape(unhash, State(), genesis, batch);
      newTd, firstInserted, inserted := StoreHeaders(batch);
    }

    /** Imports an attached batch. */
    method ImportBatch(batch: seq<Header>, coin: bool) returns (r: WriteResult)
      requires Valid() && ValidBatch(unhash, batch) && Attached(headers, batch)
      modifies this
      ensures r == Written(Verdict(old(State()), batch, coin), |batch| - |News(old(headers), batch, |batch|)|,
                           |News(old(headers), batch, |batch|)|)
      ensures headers == Added(old(headers), batch) && head == Inserted(old(State()), batch, coin).head
      ensures Imports(unhash, old(State()), State(), batch, coin)
      ensures Sound(old(State()), batch, coin) ==> State() == Inserted(old(State()), batch, coin)
      ensures Valid() <==> Sound(old(State()), batch, coin)
    {
      hide Derived, Path, Numbered, TotalDifficulty, Rooted, HeadIsTip, News, Added, Wins, Imports;
      ghost var c := State();
      var newTd, firstInserted, inserted := StoreBatch(batch);
      DerivedTd(headers, head);
      var reorg := Wins(newTd, td[head.hash], Last(batch), head, coin);
      var status := if reorg then CanonStat else SideStat;
      if reorg {
        MoveHead(batch, firstInserted, inserted);
      }
      if inserted == [] {
        status := NonStat;
      }
      r := Written(status, |batch| - |inserted|, |inserted|);
      Outcome(unhash, c, State(), genesis, batch, coin);
    }

    /** Imports a batch of validated headers.  The chain ends up in the state derived from the
        larger tree and the fork choice, and consistent again, exactly if the batch is `Sound`. */
    method WriteHeaders(batch: seq<Header>, coin: bool) returns (r: WriteResult)
      requires Valid() && ValidBatch(unhash, batch)
      modifies this
      ensures !Attached(old(headers), batch) ==>
        State() == old(State()) && r == if batch == [] then Written(NonStat, 0, 0) else UnknownAncestor
      ensures Attached(old(headers), batch) ==>
        && r == Written(Verdict(old(State()), batch, coin), |batch| - |News(old(headers), batch, |batch|)|,
                        |News(old(headers), batch, |batch|)|)
        && headers == Added(old(headers), batch)
        && head == Inserted(old(State()), batch, coin).head
      ensures Attached(old(headers), batch) ==>
        && old(head).hash in td && td[old(head).hash] == old(td[head.hash]) && Last(batch).hash in td
        && Chooses(td, old(head), Last(batch), coin, head)
        && Reports(r, old(headers), headers, batch, head)
      ensures Imports(unhash, old(State()), State(), batch, coin)
      ensures Sound(old(State()), batch, coin) ==> State() == Inserted(old(State()), batch, coin)
      ensures Valid() <==> Sound(old(State()), batch, coin)
    {
      hide Chooses, Reports, Derived, BatchWins, News, Rooted, Added;
      if |batch| == 0 {
        return Written(NonStat, 0, 0);
      }
      if GetHeader(headers, batch[0].parent, batch[0].number - 1).None? {
        return UnknownAncestor;
      }
      ConsistentWeighed(unhash, genesis, State());
      InsertChooses(unhash, genesis, State(), batch, coin);
      VerdictReports(unhash, State(), genesis, batch, coin);
      r := ImportBatch(batch, coin);
    }

    /** The levels above `num` that still hold headers, highest first. */
    method LeftoverLevels(num: nat) returns (nums: seq<nat>)
      requires Rooted(unhash, headers, genesis)
      ensures forall x <- nums :: x > num && Level(headers, x) != {}
      ensures forall k <- headers :: headers[k].number > num ==> headers[k].number in nums
    {
      nums := [];
      var n := num + 1;
      while Level(headers, n) != {}
        invariant n > num && forall x: nat :: x in nums <==> num < x < n
        invariant forall x <- nums :: Level(headers, x) != {}
        decreases |FromLevel(headers, n)|
      {
        LevelLeaves(headers, n);
        nums := [n] + nums;
        n := n + 1;
      }
      forall k <- headers | headers[k].number > num ensures headers[k].number in nums {
        if n <= headers[k].number {
          LevelFilled(unhash, headers, genesis, k, n);
        }
      }
    }

    /** Collects the headers and numbers to delete for the given levels. */
    method Collect(nums: seq<nat>, current: Hash) returns (hashes: set<Hash>, numbers: set<nat>)
      ensures numbers == set x | x in nums
      ensures (forall x <- nums :: Level(headers, x) != {}) ==>
        hashes == set k | k in headers && headers[k].number in nums
    {
      hashes, numbers := {}, {};
      for i := 0 to |nums|
        invariant numbers == set x | x in nums[..i]
        invariant (forall x <- nums :: Level(headers, x) != {}) ==>
          hashes == set k | k in headers && headers[k].number in nums[..i]
      {
        var found := Level(headers, nums[i]);
        if found == {} {
          found := {current};
        }
        assert nums[..i + 1] == nums[..i] + [nums[i]];
        hashes, numbers := hashes + found, numbers + {nums[i]};
      }
      assert nums[..|nums|] == nums;
    }

    /** One rewind step: the head moves to its parent, and its level (on the first step also
        everything above) is marked for deletion. */
    method StepDownHead(origin: bool) returns (hashes: set<Hash>, numbers: set<nat>)
      requires Rooted(unhash, headers, genesis) && head.hash in headers && headers[head.hash] == head && head.number > 0
      modifies this`head, this`marker
      ensures head.hash in headers && headers[head.hash] == head && head.hash == old(head).parent
      ensures head.number == old(head).number - 1
      ensures marker == head.hash
      ensures hashes == if origin then Above(headers, head.number) else Level(headers, old(head).number)
      ensures old(head).number in numbers && forall i <- numbers :: i > head.number
    {
      var hdr := head;
      assert ParentStored(headers, hdr.hash);
      var parent := GetHeader(headers, hdr.parent, hdr.number - 1);
      marker := hdr.parent;
      head := if parent.Some? then parent.value else genesis;
      var nums := [];
      if origin {
        nums := LeftoverLevels(hdr.number);
      }
      assert hdr.hash in Level(headers, hdr.number);
      hashes, numbers := Collect(nums + [hdr.number], hdr.hash);
      assert hashes == set k | k in headers && headers[k].number in nums + [hdr.number];
    }

    /** Moves the head down to number `n`, collecting what has to be deleted. */
    method DescendTo(n: nat, ghost p: seq<Hash>) returns (hashes: set<Hash>, numbers: set<nat>)
      requires Rooted(unhash, headers, genesis) && head.hash in headers && headers[head.hash] == head && head.number > n
      requires p == Path(headers, head.hash) && OnTree(headers, p) && |p| == head.number + 1
      modifies this`head, this`marker
      ensures head == headers[p[n]] && marker == p[n]
      ensures hashes == Above(headers, n)
      ensures forall i <- numbers :: i > n
      ensures forall i: nat :: n < i < |p| ==> i in numbers
    {
      var origin := true;
      hashes, numbers := {}, {};
      while head.number > n
        invariant n <= head.number < |p| && p[head.number] == head.hash && head.hash in headers
        invariant headers[head.hash] == head
        invariant origin ==> head.number == |p| - 1 && hashes == {} && numbers == {}
        invariant !origin ==> hashes == Above(headers, head.number) && marker == head.hash
        invariant forall i <- numbers :: i > head.number
        invariant forall i: nat :: head.number < i < |p| ==> i in numbers
        decreases head.number
      {
        assert StepDown(headers, p, head.number);
        var moreHashes, moreNumbers := StepDownHead(origin);
        hashes, numbers, origin := hashes + moreHashes, numbers + moreNumbers, false;
      }
    }

    /** Rewinds the chain to number `n`. */
    method SetHead(n: nat)
      requires Valid()
      modifies this
      ensures State() == Rewound(old(State()), n) && Valid()
      ensures head.number == if old(head).number > n then n else old(head).number
    {
      RewindConsistent(unhash, genesis, State(), n);
      if head.number > n {
        ghost var c := State();
        ghost var p := Path(headers, head.hash);
        PathShape(unhash, headers, genesis, head.hash);
        assert OnTree(headers, p);
        var hashes, numbers := DescendTo(n, p);
        RewindResult(unhash, genesis, c, n, numbers);
        headers, td, canon := headers - hashes, td - hashes, canon - numbers;
      }
    }

    /** The canonical shortcut to an ancestor.  For a non-zero hash the answer is the true ancestor,
        and it is missing only if it is out of range, the header is unknown, or the budget for
        blocks off the canonical chain is exhausted.  The zero hash has no ancestors, except that at
        a number beyond the index it reads as canonical. */
    method GetAncestor(hash: Hash, number: nat, ancestor: nat, budget: nat) returns (h: Hash, n: nat, left: nat)
      requires Valid()
      ensures ancestor == 0 ==> h == hash && n == number && left == budget
      ensures ancestor > 0 && hash != ZERO ==>
        var ok := ancestor <= number && (if ancestor == 1 then GetHeader(headers, hash, number).Some? else Reaches(headers, canon, hash, number, ancestor, budget));
        && (ok ==> number - ancestor < |Path(headers, hash)| && h == Path(headers, hash)[number - ancestor] && h != ZERO && n == number - ancestor)
        && (ok ==> left == if ancestor == 1 then budget else budget - Detour(headers, canon, hash, ancestor))
        && (!ok ==> h == ZERO && n == 0)
      ensures 0 < ancestor <= number && hash == ZERO ==>
        h == if ancestor > 1 && number > head.number then ReadCanonical(canon, number - ancestor) else ZERO
    {
      hide Derived, Path;
      left := budget;
      if ancestor > number {
        return ZERO, 0, left;
      }
      if ancestor == 1 {
        var header := GetHeader(headers, hash, number);
        if header.Some? {
          ghost var k := hash;
          if k != ZERO {
            assert ParentStored(headers, k);
            PathShape(unhash, headers, genesis, k);
            PathShape(unhash, headers, genesis, header.value.parent);
          }
          return header.value.parent, number - 1, left;
        }
        return ZERO, 0, left;
      }
      h, n, left := WalkToAncestor(hash, number, ancestor, budget);
    }

    /** The loop of GetAncestor. */
    method WalkToAncestor(hash: Hash, number: nat, ancestor: nat, budget: nat) returns (h: Hash, n: nat, left: nat)
      requires Valid() && ancestor <= number
      ensures ancestor == 0 ==> h == hash && n == number && left == budget
      ensures ancestor > 0 && hash != ZERO && !Reaches(headers, canon, hash, number, ancestor, budget) ==>
        h == ZERO && n == 0
      ensures ancestor > 0 && hash != ZERO && Reaches(headers, canon, hash, number, ancestor, budget) ==>
        && number - ancestor < |Path(headers, hash)| && h == Path(headers, hash)[number - ancestor] && h != ZERO
        && n == number - ancestor && left == budget - Detour(headers, canon, hash, ancestor)
      ensures 0 < ancestor && hash == ZERO ==>
        h == if number > head.number then ReadCanonical(canon, number - ancestor) else ZERO
    {
      hide Derived, Path;
      IndexShape(unhash, genesis, State());
      h, n, left := hash, number, budget;
      var steps := ancestor;
      ghost var goal := number - ancestor;
      ghost var known := GetHeader(headers, hash, number).Some?;
      if known {
        PathShape(unhash, headers, genesis, hash);
      }
      while steps != 0
        invariant n - steps == goal && 0 <= steps <= ancestor
        invariant !known ==> h == hash && n == number && left == budget && steps == ancestor
        invariant known ==>
          GetHeader(headers, h, n).Some? && h != ZERO && |Path(headers, h)| == n + 1 && Path(headers, hash)[goal] == Path(headers, h)[goal]
        invariant known ==>
          left <= budget && Detour(headers, canon, hash, ancestor) == budget - left + Detour(headers, canon, h, steps)
        decreases steps
      {
        if ReadCanonical(canon, n) == h {
          if h != ZERO {
            CanonicalStored(unhash, genesis, State(), n);
            CanonicalAncestors(unhash, genesis, State(), h, goal);
          }
          return ReadCanonical(canon, n - steps), n - steps, left;
        }
        if left == 0 {
          return ZERO, 0, left;
        }
        left := left - 1;
        steps := steps - 1;
        var header := GetHeader(headers, h, n);
        if header.None? {
          return ZERO, 0, left;
        }
        PathDown(unhash, headers, genesis, h, goal);
        h, n := header.value.parent, n - 1;
      }
    }
  }

  /** The zero hash at number 2 of a chain that has only the genesis block: its ancestor two blocks
      before is the genesis block. */
  method ZeroHashAncestor() returns (chain: HeaderChain, h: Hash)
    ensures chain.Valid() && h == chain.genesis.hash != ZERO
  {
    var genesis := Header(1, ZERO, 0, 1);
    chain := new HeaderChain(genesis, k => genesis);
    var n, left;
    h, n, left := chain.GetAncestor(ZERO, 2, 2, 0);
    assert Path(chain.headers, genesis.hash) == [genesis.hash];
  }

  /** A header chain that is one header ahead of the block chain: reopened, it has the right index for
      the wrong head. */
  method ReopenedBehind() returns (chain: HeaderChain)
    ensures !chain.Valid() && chain.head == chain.genesis && chain.marker != chain.head.hash
  {
    var genesis, ahead := Header(1, ZERO, 0, 1), Header(2, 1, 1, 1);
    var s: Store := map[1 := genesis, 2 := ahead];
    assert ParentStored(s, 2) && !ParentStored(s, 1);
    chain := new HeaderChain.Reopen(genesis, Derived(s, ahead), genesis.hash, k => if k == 1 then genesis else ahead);
  }
}
