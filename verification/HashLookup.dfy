/**
 The block hash lookup handed to the EVM (core/evm.go): a closure that answers hash queries
 below a reference header and remembers the part of the parent walk it has already made.
 */
module HashLookups {
  import opened Basics
  import opened BlockTree

  /** The plain parent walk: the hash at number `n` below header `h`, or zero. */
  function AncestorHash(s: Store, h: Header, n: nat): Hash
    decreases h.number
  {
    if n >= h.number then ZERO
    else if n == h.number - 1 then h.parent
    else
      match GetHeader(s, h.parent, h.number - 1)
      case None => ZERO
      case Some(p) => AncestorHash(s, p, n)
  }

  /** In a rooted store the walk gives the ancestor path. */
  lemma {:induction false} WalkIsPath(unhash: Oracle, s: Store, genesis: Header, h: Header, n: nat)
    requires Rooted(unhash, s, genesis) && GetHeader(s, h.parent, h.number - 1).Some? && n < h.number
    ensures |Path(s, h.parent)| == h.number && AncestorHash(s, h, n) == Path(s, h.parent)[n]
    decreases h.number
  {
    PathShape(unhash, s, genesis, h.parent);
    if n < h.number - 1 {
      var p := s[h.parent];
      assert ParentStored(s, p.hash);
      WalkIsPath(unhash, s, genesis, p, n);
    }
  }

  /** The `i`-th remembered hash leads to a stored header whose parent is remembered next. */
  predicate Hop(s: Store, ref: Header, cache: seq<Hash>, i: nat)
    requires i + 1 < |cache|
  {
    var h := GetHeader(s, cache[i], ref.number - 1 - i);
    h.Some? && h.value.parent == cache[i + 1]
  }

  /** The remembered hashes are the first steps of the parent walk from `ref`. */
  ghost predicate Walked(s: Store, ref: Header, cache: seq<Hash>) {
    && (cache != [] ==> cache[0] == ref.parent)
    && |cache| <= ref.number + 1
    && (forall i: nat {:trigger Hop(s, ref, cache, i)} :: i + 1 < |cache| ==> Hop(s, ref, cache, i))
  }

  /** Walking on from a remembered header gives the same answers. */
  lemma {:induction false} WalkOn(s: Store, ref: Header, cache: seq<Hash>, i: nat, n: nat)
    requires Walked(s, ref, cache) && i < |cache| && i < ref.number && n < ref.number - 1 - i
    ensures AncestorHash(s, ref, n) == match GetHeader(s, cache[i], ref.number - 1 - i) case None => ZERO case Some(p) => AncestorHash(s, p, n)
  {
    if i > 0 {
      assert Hop(s, ref, cache, i - 1);
      WalkOn(s, ref, cache, i - 1, n);
    }
  }

  /** A remembered hash below the reference is the right answer for its number. */
  lemma Remembered(s: Store, ref: Header, cache: seq<Hash>, i: nat)
    requires Walked(s, ref, cache) && i < |cache| && i < ref.number
    ensures AncestorHash(s, ref, ref.number - 1 - i) == cache[i]
  {
    if i > 0 {
      assert Hop(s, ref, cache, i - 1);
      WalkOn(s, ref, cache, i - 1, ref.number - 1 - i);
    }
  }

  class HashLookup {
    const ref: Header
    const headers: Store
    var cache: seq<Hash>

    /** The zero hash names no header, headers at number 0 have no parent, numbers are 64 bits wide. */
    ghost predicate Valid()
      reads this
    {
      && ref.number < TWO64 && (ref.number == 0 ==> ref.parent == ZERO)
      && ZERO !in headers
      && (forall k <- headers :: headers[k].number == 0 ==> headers[k].parent == ZERO)
      && Walked(headers, ref, cache)
    }

    constructor (ref: Header, headers: Store)
      requires ref.number < TWO64 && (ref.number == 0 ==> ref.parent == ZERO) && ZERO !in headers
      requires forall k <- headers :: headers[k].number == 0 ==> headers[k].parent == ZERO
      ensures Valid() && this.ref == ref && this.headers == headers
    {
      this.ref, this.headers, cache := ref, headers, [];
    }

    /** Answers any query, in any order, as the plain parent walk would. */
    method GetHash(n: nat) returns (r: Hash)
      requires Valid() && n < TWO64
      modifies this
      ensures Valid()
      ensures r == AncestorHash(headers, ref, n)
    {
      if |cache| == 0 {
        cache := cache + [ref.parent];
      }
      var idx := (ref.number - n - 1) % TWO64;
      if idx < |cache| {
        Cached(n, idx);
        return cache[idx];
      }
      r := WalkFurther(n);
    }

    /** A hit in the cache, also when the index has wrapped around, is right. */
    lemma Cached(n: nat, idx: nat)
      requires Valid() && n < TWO64 && idx == (ref.number - n - 1) % TWO64 && idx < |cache|
      ensures cache[idx] == AncestorHash(headers, ref, n)
    {
      if n < ref.number {
        assert idx == ref.number - n - 1;
        Remembered(headers, ref, cache, idx);
      } else {
        assert idx == TWO64 + ref.number - n - 1;
        EndOfWalk();
      }
    }

    /** The hash remembered beyond the root is zero. */
    lemma EndOfWalk()
      requires Valid() && |cache| == ref.number + 1
      ensures cache[ref.number] == ZERO
    {
      if ref.number > 0 {
        assert Hop(headers, ref, cache, ref.number - 1);
      }
    }

    /** The loop behind a cache miss. */
    method WalkFurther(n: nat) returns (r: Hash)
      requires Valid() && n < TWO64 && cache != [] && (ref.number - n - 1) % TWO64 >= |cache|
      modifies this
      ensures Valid()
      ensures r == AncestorHash(headers, ref, n)
    {
      var hash := cache[|cache| - 1];
      var number := (ref.number - |cache|) % TWO64;
      while true
        invariant Valid() && cache != [] && hash == cache[|cache| - 1] && number == (ref.number - |cache|) % TWO64
        invariant n < ref.number ==> n < ref.number - |cache|
        decreases ref.number + 1 - |cache|
      {
        if |cache| == ref.number + 1 {
          EndOfWalk();
        }
        var header := GetHeader(headers, hash, number);
        if header.None? {
          break;
        }
        Extend(header.value);
        cache := cache + [header.value.parent];
        hash, number := header.value.parent, (header.value.number - 1) % TWO64;
        if n == number {
          if n < ref.number {
            Remembered(headers, ref, cache, |cache| - 1);
          } else {
            EndOfWalk();
          }
          return hash;
        }
      }
      if n < ref.number {
        WalkOn(headers, ref, cache, |cache| - 1, n);
      }
      r := ZERO;
    }

    lemma Extend(h: Header)
      requires Valid() && cache != [] && |cache| <= ref.number
      requires GetHeader(headers, cache[|cache| - 1], ref.number - |cache|) == Some(h)
      ensures Walked(headers, ref, cache + [h.parent])
    {
      forall i: nat | i + 1 < |cache| + 1 ensures Hop(headers, ref, cache + [h.parent], i) {
        if i + 1 < |cache| {
          assert Hop(headers, ref, cache, i);
        }
      }
    }
  }
}
