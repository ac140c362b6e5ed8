/**
 The immutable part of the chain: headers linked by parent hashes.

 Hashes are opaque numbers; 0 plays the role of the zero hash, which names no
 header.  Collision freedom of the hash function is stated through an `Oracle`:
 a function from hashes to the one header that carries that hash.  A header is
 genuine when the oracle agrees with it, so two genuine headers with one hash
 are one header.
 */
module BlockTree {
  import opened Basics

  type Hash = nat

  const ZERO: Hash := 0

  datatype Header = Header(hash: Hash, parent: Hash, number: nat, difficulty: nat)

  type Store = map<Hash, Header>

  type Oracle = Hash -> Header

  ghost predicate Genuine(unhash: Oracle, h: Header) {
    h.hash != ZERO && unhash(h.hash) == h
  }

  /** Reading a header by its full key, hash and number. */
  function GetHeader(s: Store, hash: Hash, number: int): Option<Header> {
    if hash in s && s[hash].number == number then Some(s[hash]) else None
  }

  /** The parent link of `k` leads to a stored header one level below. */
  predicate ParentStored(s: Store, k: Hash)
    requires k in s
  {
    s[k].parent in s && s[s[k].parent].number + 1 == s[k].number
  }

  /** A store of genuine headers, rooted in `genesis` and closed under parents. */
  ghost predicate Rooted(unhash: Oracle, s: Store, genesis: Header) {
    && genesis.number == 0
    && genesis.hash in s && s[genesis.hash] == genesis
    && (forall k <- s :: s[k].hash == k && Genuine(unhash, s[k]))
    && (forall k <- s :: s[k].number == 0 ==> k == genesis.hash)
    && (forall k {:trigger ParentStored(s, k)} :: k in s && s[k].number > 0 ==> ParentStored(s, k) && s[k].difficulty > 0)
  }

  /** The ancestor path of `k`, indexed by block number once the store is rooted. */
  function Path(s: Store, k: Hash): (p: seq<Hash>)
    ensures |p| > 0 && p[|p| - 1] == k
    decreases if k in s then s[k].number else 0
  {
    if k in s && ParentStored(s, k) then Path(s, s[k].parent) + [k] else [k]
  }

  /** Sum of the difficulties along the ancestor path. */
  function TotalDifficulty(s: Store, k: Hash): (d: nat)
    requires k in s
    decreases s[k].number
  {
    if ParentStored(s, k) then TotalDifficulty(s, s[k].parent) + s[k].difficulty else s[k].difficulty
  }

  /** A path as a number-to-hash index. */
  function Numbered(p: seq<Hash>): map<nat, Hash> {
    map i: nat | i < |p| :: p[i]
  }

  lemma {:induction false} PathShape(unhash: Oracle, s: Store, genesis: Header, k: Hash)
    requires Rooted(unhash, s, genesis) && k in s
    ensures |Path(s, k)| == s[k].number + 1
    ensures Path(s, k)[0] == genesis.hash
    ensures forall i :: 0 <= i < |Path(s, k)| ==> Path(s, k)[i] in s && s[Path(s, k)[i]].number == i
    ensures forall i :: 0 < i < |Path(s, k)| ==> s[Path(s, k)[i]].parent == Path(s, k)[i - 1]
    decreases s[k].number
  {
    if s[k].number > 0 {
      assert ParentStored(s, k);
      PathShape(unhash, s, genesis, s[k].parent);
    }
  }

  /** `p` is a path of stored headers. */
  ghost predicate OnTree(s: Store, p: seq<Hash>) {
    && (forall j :: 0 <= j < |p| ==> p[j] in s && s[p[j]].hash == p[j] && s[p[j]].number == j)
    && (forall j {:trigger StepDown(s, p, j)} :: 0 < j < |p| ==> StepDown(s, p, j))
  }

  predicate StepDown(s: Store, p: seq<Hash>, j: int)
    requires 0 < j < |p| && p[j] in s
  {
    s[p[j]].parent == p[j - 1]
  }

  lemma PathOnTree(unhash: Oracle, s: Store, genesis: Header, k: Hash)
    requires Rooted(unhash, s, genesis) && k in s
    ensures |Path(s, k)| == s[k].number + 1 && Path(s, k)[0] == genesis.hash && Path(s, k)[s[k].number] == k
    ensures OnTree(s, Path(s, k))
  {
    PathShape(unhash, s, genesis, k);
  }

  /** The path to a block on a path is the part of the path up to that block. */
  lemma {:induction false} PathPrefix(unhash: Oracle, s: Store, genesis: Header, k: Hash, i: nat)
    requires Rooted(unhash, s, genesis) && k in s && i <= s[k].number
    ensures |Path(s, k)| == s[k].number + 1
    ensures Path(s, Path(s, k)[i]) == Path(s, k)[..i + 1]
    decreases s[k].number
  {
    PathShape(unhash, s, genesis, k);
    if i < s[k].number {
      PathPrefix(unhash, s, genesis, s[k].parent, i);
      PathShape(unhash, s, genesis, s[k].parent);
      assert Path(s, k)[..i + 1] == Path(s, s[k].parent)[..i + 1];
    } else {
      assert Path(s, k)[..i + 1] == Path(s, k);
    }
  }

  /** Two paths that meet at some number agree everywhere below it. */
  lemma PathsMeet(unhash: Oracle, s: Store, genesis: Header, a: Hash, b: Hash, i: nat)
    requires Rooted(unhash, s, genesis) && a in s && b in s
    requires i <= s[a].number && i <= s[b].number
    requires i < |Path(s, a)| && i < |Path(s, b)| && Path(s, a)[i] == Path(s, b)[i]
    ensures forall j :: 0 <= j <= i ==> j < |Path(s, a)| && j < |Path(s, b)| && Path(s, a)[j] == Path(s, b)[j]
  {
    PathPrefix(unhash, s, genesis, a, i);
    PathPrefix(unhash, s, genesis, b, i);
    forall j | 0 <= j <= i
      ensures j < |Path(s, a)| && j < |Path(s, b)| && Path(s, a)[j] == Path(s, b)[j]
    {
      assert Path(s, a)[j] == Path(s, a)[..i + 1][j];
      assert Path(s, b)[j] == Path(s, b)[..i + 1][j];
    }
  }

  /** Two paths carry the same hashes on the numbers from `lo` up to `hi`. */
  predicate Agree(p: seq<Hash>, q: seq<Hash>, lo: nat, hi: nat) {
    forall j: nat :: lo <= j < hi ==> j < |p| && j < |q| && p[j] == q[j]
  }

  /** Paths of one tree: wherever they meet, they agree below. */
  predicate Confluent(p: seq<Hash>, q: seq<Hash>) {
    forall j: nat {:trigger Agree(p, q, 0, j)} :: j < |p| && j < |q| && p[j] == q[j] ==> Agree(p, q, 0, j)
  }

  lemma PathsConfluent(unhash: Oracle, s: Store, genesis: Header, a: Hash, b: Hash)
    requires Rooted(unhash, s, genesis) && a in s && b in s
    ensures Confluent(Path(s, a), Path(s, b))
  {
    var p, q := Path(s, a), Path(s, b);
    PathShape(unhash, s, genesis, a);
    PathShape(unhash, s, genesis, b);
    forall i: nat | i < |p| && i < |q| && p[i] == q[i] ensures Agree(p, q, 0, i) {
      PathsMeet(unhash, s, genesis, a, b, i);
    }
  }

  /** Paths and total difficulties of stored headers do not depend on later additions. */
  lemma {:induction false} PathStable(unhash: Oracle, s: Store, t: Store, genesis: Header, k: Hash)
    requires Rooted(unhash, s, genesis) && k in s
    requires forall x <- s :: x in t && t[x] == s[x]
    ensures Path(t, k) == Path(s, k)
    ensures TotalDifficulty(t, k) == TotalDifficulty(s, k)
    decreases s[k].number
  {
    if s[k].number > 0 {
      assert ParentStored(s, k);
      PathStable(unhash, s, t, genesis, s[k].parent);
    } else {
      assert !ParentStored(s, k) && !ParentStored(t, k);
    }
  }

  /** The ancestor at number `i` has at most the total difficulty of its descendant,
      and strictly less unless it is that descendant. */
  lemma {:induction false} AncestorLighter(unhash: Oracle, s: Store, genesis: Header, k: Hash, i: nat)
    requires Rooted(unhash, s, genesis) && k in s && i < s[k].number
    ensures i < |Path(s, k)| && Path(s, k)[i] in s
    ensures TotalDifficulty(s, Path(s, k)[i]) < TotalDifficulty(s, k)
    decreases s[k].number
  {
    PathShape(unhash, s, genesis, k);
    PathShape(unhash, s, genesis, s[k].parent);
    if i + 1 < s[k].number {
      AncestorLighter(unhash, s, genesis, s[k].parent, i);
    }
  }
}
