/**
 The section indexer of core/chain_indexer.go.

 The canonical chain may change between any two seen, so every read is a parameter that may
 return anything.  The index is a value; a run is a sequence of steps taken under the lock, with
 the processing of a section, which holds no lock, spread over two of them.
 */
module ChainIndexers {
  import opened Basics
  import opened BlockTree

  /** Section size, confirmations, and the checkpoint fixed before the start. */
  datatype Params = Params(size: Positive, confirms: nat, checkpoint: nat, checkpointHead: Hash)

  /** A section being processed, and the head it has to connect to. */
  datatype Job = Job(section: nat, oldHead: Hash)

  datatype Index = Index(stored: nat, known: nat, heads: map<nat, Hash>, job: Option<Job>)

  function SectionHead(heads: map<nat, Hash>, section: nat): Hash {
    if section in heads then heads[section] else ZERO
  }

  /** What the section starting after `section` sections has to connect to. */
  function Base(heads: map<nat, Hash>, section: nat): Hash {
    if section > 0 then SectionHead(heads, section - 1) else ZERO
  }

  // ---------- the steps ----------

  function Trim(i: Index, sections: nat): Index {
    i.(heads := map s | s in i.heads && !(sections <= s < i.stored) :: i.heads[s], stored := sections)
  }

  /** Rolls back until the last section matches the chain; `seen(k)` is what the read for `k`
      stored sections returns. */
  function Verify(p: Params, i: Index, seen: nat -> Hash): Index
    decreases i.stored
  {
    if i.stored > p.checkpoint && SectionHead(i.heads, i.stored - 1) != seen(i.stored) then
      Verify(p, Trim(i, i.stored - 1), seen)
    else
      i
  }

  function Reorged(p: Params, i: Index, head: nat): Index {
    var sections := (head + 1) / p.size;
    var known := if sections < p.checkpoint then 0 else sections;
    var stored := if sections < p.checkpoint then p.checkpoint else sections;
    var j := if known < i.known then i.(known := known) else i;
    if stored < j.stored then Trim(j, stored) else j
  }

  function Extended(p: Params, i: Index, head: nat, checkpointRead: Hash): Index {
    if head < p.confirms then
      i
    else
      var sections := (head + 1 - p.confirms) / p.size;
      var known := if sections < p.checkpoint then 0 else sections;
      if known > i.known && (i.known >= p.checkpoint || checkpointRead == p.checkpointHead) then i.(known := known) else i
  }

  function Begun(p: Params, i: Index, seen: nat -> Hash): Index {
    if i.known > i.stored then
      var v := Verify(p, i, seen);
      v.(job := Some(Job(v.stored, Base(v.heads, v.stored))))
    else
      i
  }

  /** The processed section is stored if the section before it is still the one it connects to. */
  function Finished(p: Params, i: Index, job: Job, result: Option<Hash>, seen: nat -> Hash): Index {
    var done := i.(job := None);
    if result.Some? && (job.section == 0 || job.oldHead == SectionHead(i.heads, job.section - 1)) then
      Trim(done.(heads := i.heads[job.section := result.value]), job.section + 1)
    else
      var v := Verify(p, done, seen);
      v.(known := v.stored)
  }

  datatype Event =
    | HeadReorg(head: nat)
    | HeadNew(head: nat, checkpointRead: Hash)
    | Start(seen: nat -> Hash)
    | Finish(result: Option<Hash>, lastSeen: nat -> Hash)
    | Query(querySeen: nat -> Hash)

  function Apply(p: Params, i: Index, e: Event): Index {
    match e
    case HeadReorg(head) => Reorged(p, i, head)
    case HeadNew(head, read) => Extended(p, i, head, read)
    case Start(seen) => if i.job.None? then Begun(p, i, seen) else i
    case Finish(result, seen) => if i.job.Some? then Finished(p, i, i.job.value, result, seen) else i
    case Query(seen) => Verify(p, i, seen)
  }

  // ---------- what the index means ----------

  /** From `head`, `n` parent steps through genuine headers numbered from `lo` lead to `base`. */
  ghost predicate Segment(unhash: Oracle, head: Hash, n: nat, base: Hash, lo: nat)
    decreases n
  {
    if n == 0 then
      head == base
    else
      && Genuine(unhash, unhash(head)) && unhash(head).hash == head && unhash(head).number == lo + n - 1
      && Segment(unhash, unhash(head).parent, n - 1, base, lo)
  }

  /** The job connects to the last stored section, unless that was rolled back meanwhile. */
  ghost predicate JobFits(p: Params, i: Index) {
    i.job.Some? ==>
      var j := i.job.value;
      && j.section >= i.stored
      && (j.section == 0 <==> j.oldHead == ZERO)
      && (j.section == i.stored ==> j.oldHead == Base(i.heads, j.section))
  }

  /** Above the checkpoint exactly the stored sections have heads, each a whole section of headers
      above the one before. */
  ghost predicate Linked(unhash: Oracle, p: Params, i: Index) {
    && i.stored >= p.checkpoint
    && (p.checkpoint > 0 ==> p.checkpointHead != ZERO && SectionHead(i.heads, p.checkpoint - 1) == p.checkpointHead)
    && (forall s: nat :: s >= p.checkpoint ==> (s in i.heads <==> s < i.stored))
    && (forall s: nat :: p.checkpoint <= s < i.stored ==> Connected(unhash, p, i.heads, s))
  }

  /** A section's head is a whole section of headers above the head before it. */
  ghost predicate Connected(unhash: Oracle, p: Params, heads: map<nat, Hash>, s: nat) {
    Segment(unhash, SectionHead(heads, s), p.size, Base(heads, s), s * p.size)
  }

  lemma ConnectedSame(unhash: Oracle, p: Params, a: map<nat, Hash>, b: map<nat, Hash>, s: nat)
    requires SectionHead(a, s) == SectionHead(b, s) && (s > 0 ==> SectionHead(a, s - 1) == SectionHead(b, s - 1))
    ensures Connected(unhash, p, a, s) == Connected(unhash, p, b, s)
  {
  }

  /** Only the size of a section matters for whether it connects. */
  lemma SameSections(unhash: Oracle, p: Params, q: Params, heads: map<nat, Hash>)
    requires p.size == q.size
    ensures forall s: nat :: Connected(unhash, p, heads, s) == Connected(unhash, q, heads, s)
  {
  }

  ghost predicate Inv(unhash: Oracle, p: Params, i: Index) {
    Linked(unhash, p, i) && JobFits(p, i)
  }

  /** A finished job reports a head that connects to the base it was given. */
  ghost predicate Legal(unhash: Oracle, p: Params, i: Index, e: Event) {
    e.Finish? && e.result.Some? && i.job.Some? ==>
      Segment(unhash, e.result.value, p.size, i.job.value.oldHead, i.job.value.section * p.size)
  }

  lemma SegmentNonZero(unhash: Oracle, head: Hash, n: nat, base: Hash, lo: nat)
    requires Segment(unhash, head, n, base, lo) && n > 0
    ensures head != ZERO
  {
  }

  /** The base of the next section is a real block, except for the very first section. */
  lemma BaseNonZero(unhash: Oracle, p: Params, i: Index)
    requires Linked(unhash, p, i)
    ensures i.stored == 0 <==> Base(i.heads, i.stored) == ZERO
  {
    if i.stored > p.checkpoint {
      var s := i.stored - 1;
      assert Connected(unhash, p, i.heads, s);
      SegmentNonZero(unhash, SectionHead(i.heads, s), p.size, Base(i.heads, s), s * p.size);
    }
  }

  lemma TrimKeeps(unhash: Oracle, p: Params, i: Index, sections: nat)
    requires Inv(unhash, p, i) && p.checkpoint <= sections <= i.stored
    ensures Inv(unhash, p, Trim(i, sections))
  {
    hide Connected;
    var t := Trim(i, sections);
    forall s: nat | p.checkpoint <= s < t.stored ensures Connected(unhash, p, t.heads, s) {
      assert Connected(unhash, p, i.heads, s);
      ConnectedSame(unhash, p, t.heads, i.heads, s);
    }
  }

  lemma LinkedStored(unhash: Oracle, p: Params, i: Index)
    requires Linked(unhash, p, i)
    ensures i.stored >= p.checkpoint
  {
  }

  lemma {:induction false} VerifyKeeps(unhash: Oracle, p: Params, i: Index, seen: nat -> Hash)
    requires Inv(unhash, p, i)
    ensures var v := Verify(p, i, seen); Inv(unhash, p, v) && v.stored <= i.stored && v.job == i.job && v.known == i.known
    ensures var v := Verify(p, i, seen); v.stored == p.checkpoint || SectionHead(v.heads, v.stored - 1) == seen(v.stored)
    decreases i.stored
  {
    hide Linked, JobFits;
    LinkedStored(unhash, p, i);
    if i.stored > p.checkpoint && SectionHead(i.heads, i.stored - 1) != seen(i.stored) {
      TrimKeeps(unhash, p, i, i.stored - 1);
      VerifyKeeps(unhash, p, Trim(i, i.stored - 1), seen);
    }
  }

  /** The head of the last of `k` sections is not the block seen. */
  predicate Differs(heads: map<nat, Hash>, k: nat, seen: nat -> Hash) {
    k > 0 && SectionHead(heads, k - 1) != seen(k)
  }

  /** A rollback told by its outcome: the sections that are given up are those whose head was not the
      block seen, down to the first that was or to the checkpoint; everything else stays. */
  ghost predicate RolledBack(p: Params, before: Index, after: Index, seen: nat -> Hash) {
    && after.stored <= before.stored && after.known == before.known && after.job == before.job
    && (after.stored < before.stored ==> after.stored >= p.checkpoint)
    && (forall k: nat :: after.stored < k <= before.stored ==> Differs(before.heads, k, seen))
    && (after.stored > p.checkpoint ==> !Differs(before.heads, after.stored, seen))
    && (forall s: nat :: SectionHead(after.heads, s) ==
          if after.stored <= s < before.stored then ZERO else SectionHead(before.heads, s))
  }

  lemma RollFurther(p: Params, i: Index, t: Index, v: Index, seen: nat -> Hash)
    requires i.stored > p.checkpoint && SectionHead(i.heads, i.stored - 1) != seen(i.stored)
    requires t.stored == i.stored - 1 && t.known == i.known && t.job == i.job && RolledBack(p, t, v, seen)
    requires forall s: nat :: SectionHead(t.heads, s) == if s == t.stored then ZERO else SectionHead(i.heads, s)
    ensures RolledBack(p, i, v, seen)
  {
    hide SectionHead;
    forall k: nat | v.stored < k <= i.stored ensures Differs(i.heads, k, seen) {
      assert k < i.stored ==> Differs(t.heads, k, seen);
    }
    assert v.stored > p.checkpoint ==> !Differs(t.heads, v.stored, seen);
    forall s: nat
      ensures SectionHead(v.heads, s) == if v.stored <= s < i.stored then ZERO else SectionHead(i.heads, s)
    {
      assert SectionHead(v.heads, s) == if v.stored <= s < t.stored then ZERO else SectionHead(t.heads, s);
    }
  }

  lemma {:induction false} VerifyRolls(p: Params, i: Index, seen: nat -> Hash)
    ensures RolledBack(p, i, Verify(p, i, seen), seen)
    decreases i.stored
  {
    if i.stored > p.checkpoint && SectionHead(i.heads, i.stored - 1) != seen(i.stored) {
      hide RolledBack;
      var t := Trim(i, i.stored - 1);
      VerifyRolls(p, t, seen);
      RollFurther(p, i, t, Verify(p, t, seen), seen);
    }
  }

  lemma FinishKeeps(unhash: Oracle, p: Params, i: Index, result: Option<Hash>, seen: nat -> Hash)
    requires Inv(unhash, p, i) && i.job.Some?
    requires result.Some? ==> Segment(unhash, result.value, p.size, i.job.value.oldHead, i.job.value.section * p.size)
    ensures Inv(unhash, p, Finished(p, i, i.job.value, result, seen))
  {
    var job, done := i.job.value, i.(job := None);
    if result.Some? && (job.section == 0 || job.oldHead == SectionHead(i.heads, job.section - 1)) {
      assert job.section == i.stored;
      StoreNext(unhash, p, done, job, result.value);
    } else {
      VerifyKeeps(unhash, p, done, seen);
    }
  }

  /** Storing the section after the last. */
  lemma StoreNext(unhash: Oracle, p: Params, i: Index, job: Job, head: Hash)
    requires Linked(unhash, p, i) && i.job.None? && job.section == i.stored && job.oldHead == Base(i.heads, job.section)
    requires Segment(unhash, head, p.size, job.oldHead, job.section * p.size)
    ensures Inv(unhash, p, Trim(i.(heads := i.heads[job.section := head]), job.section + 1))
  {
    var t := Trim(i.(heads := i.heads[job.section := head]), job.section + 1);
    assert Connected(unhash, p, t.heads, job.section);
    hide Connected;
    forall s: nat | p.checkpoint <= s < t.stored ensures Connected(unhash, p, t.heads, s) {
      if s < i.stored {
        assert Connected(unhash, p, i.heads, s);
        ConnectedSame(unhash, p, t.heads, i.heads, s);
      }
    }
  }

  lemma StepKeeps(unhash: Oracle, p: Params, i: Index, e: Event)
    requires Inv(unhash, p, i) && Legal(unhash, p, i, e)
    ensures Inv(unhash, p, Apply(p, i, e))
  {
    match e
    case HeadReorg(head) =>
      var j := i.(known := Reorged(p, i, head).known);
      assert Inv(unhash, p, j);
      if Reorged(p, i, head).stored < i.stored {
        TrimKeeps(unhash, p, j, Reorged(p, i, head).stored);
      }
    case HeadNew(head, read) =>
    case Start(seen) =>
      VerifyKeeps(unhash, p, i, seen);
      BaseNonZero(unhash, p, Verify(p, i, seen));
    case Finish(result, seen) =>
      if i.job.Some? {
        FinishKeeps(unhash, p, i, result, seen);
      }
    case Query(seen) => VerifyKeeps(unhash, p, i, seen);
  }

  function Run(p: Params, i: Index, events: seq<Event>): Index {
    if events == [] then i else Apply(p, Run(p, i, events[..|events| - 1]), events[|events| - 1])
  }

  ghost predicate LegalRun(unhash: Oracle, p: Params, i: Index, events: seq<Event>) {
    events != [] ==>
      var k := |events| - 1;
      LegalRun(unhash, p, i, events[..k]) && Legal(unhash, p, Run(p, i, events[..k]), events[k])
  }

  /** In every interleaving of head events, reorganisations, queries and section processing, the
      stored section heads stay linked at exactly one section's worth of parent steps. */
  lemma {:induction false} RunLinked(unhash: Oracle, p: Params, i: Index, events: seq<Event>)
    requires Inv(unhash, p, i) && LegalRun(unhash, p, i, events)
    ensures Inv(unhash, p, Run(p, i, events))
  {
    if events != [] {
      var k := |events| - 1;
      RunLinked(unhash, p, i, events[..k]);
      StepKeeps(unhash, p, Run(p, i, events[..k]), events[k]);
    }
  }

  // ---------- verified sections are canonical ----------

  /** A canonical index up to `top`: real headers, each the parent of the next. */
  ghost predicate Canonical(unhash: Oracle, canon: nat -> Hash, top: nat) {
    forall n: nat {:trigger canon(n)} :: n <= top ==> unhash(canon(n)).parent == if n > 0 then canon(n - 1) else ZERO
  }

  lemma {:induction false} SegmentCanonical(unhash: Oracle, canon: nat -> Hash, top: nat, n: nat, base: Hash, lo: nat)
    requires Canonical(unhash, canon, top) && n > 0 && lo + n - 1 <= top
    requires Segment(unhash, canon(lo + n - 1), n, base, lo)
    ensures base == if lo > 0 then canon(lo - 1) else ZERO
    decreases n
  {
    if n > 1 {
      SegmentCanonical(unhash, canon, top, n - 1, base, lo);
    }
  }

  lemma CanonicalLess(unhash: Oracle, canon: nat -> Hash, low: nat, top: nat)
    requires Canonical(unhash, canon, top) && low <= top
    ensures Canonical(unhash, canon, low)
  {
  }

  function LastOf(p: Params, section: nat): nat {
    section * p.size + p.size - 1
  }

  /** Below a canonical section head lies a canonical one. */
  lemma SectionCanonical(unhash: Oracle, p: Params, heads: map<nat, Hash>, canon: nat -> Hash, k: nat)
    requires k > 0 && Connected(unhash, p, heads, k) && Canonical(unhash, canon, LastOf(p, k))
    requires SectionHead(heads, k) == canon(LastOf(p, k))
    ensures SectionHead(heads, k - 1) == canon(LastOf(p, k - 1))
  {
    LastBefore(p, k);
    hide LastOf;
    SegmentCanonical(unhash, canon, LastOf(p, k), p.size, Base(heads, k), k * p.size);
  }

  lemma LastBefore(p: Params, k: nat)
    requires k > 0
    ensures k * p.size > 0 && LastOf(p, k - 1) == k * p.size - 1 && LastOf(p, k) == k * p.size + p.size - 1
  {
    assert k * p.size == (k - 1) * p.size + p.size;
  }

  /** Below a canonical section head all heads are canonical. */
  lemma {:induction false} CanonicalBelow(unhash: Oracle, p: Params, i: Index, canon: nat -> Hash, k: nat, s: nat)
    requires Linked(unhash, p, i) && p.checkpoint <= s <= k < i.stored
    requires Canonical(unhash, canon, LastOf(p, k)) && SectionHead(i.heads, k) == canon(LastOf(p, k))
    ensures SectionHead(i.heads, s) == canon(LastOf(p, s))
    decreases k
  {
    hide LastOf, Connected, Canonical, SectionHead;
    if s < k {
      assert Connected(unhash, p, i.heads, k);
      SectionCanonical(unhash, p, i.heads, canon, k);
      LastMonotone(p, k - 1, k);
      CanonicalLess(unhash, canon, LastOf(p, k - 1), LastOf(p, k));
      CanonicalBelow(unhash, p, i, canon, k - 1, s);
    }
  }

  /** Reading the last block of the last of `k` sections from a chain that stays put. */
  function ReadAt(p: Params, canon: nat -> Hash, k: nat): Hash {
    if k > 0 then canon(LastOf(p, k - 1)) else ZERO
  }

  function ReadsOf(p: Params, canon: nat -> Hash): nat -> Hash {
    (k: nat) => ReadAt(p, canon, k)
  }

  /** If the chain stays put while the last head is verified, every stored section above the
      checkpoint is canonical afterwards, wherever the chain ends. */
  lemma VerifiedCanonical(unhash: Oracle, p: Params, i: Index, canon: nat -> Hash, top: nat, s: nat)
    requires Inv(unhash, p, i) && Canonical(unhash, canon, top) && forall n: nat :: n > top ==> canon(n) == ZERO
    requires p.checkpoint <= s < Verify(p, i, ReadsOf(p, canon)).stored
    ensures SectionHead(Verify(p, i, ReadsOf(p, canon)).heads, s) == canon(LastOf(p, s))
  {
    hide LastOf, JobFits, Verify, Canonical, Connected, SectionHead;
    var v := Verify(p, i, ReadsOf(p, canon));
    VerifyKeeps(unhash, p, i, ReadsOf(p, canon));
    var k := v.stored - 1;
    assert ReadAt(p, canon, v.stored) == canon(LastOf(p, k));
    HeadNonZero(unhash, p, v.heads, k);
    CanonicalLess(unhash, canon, LastOf(p, k), top);
    CanonicalBelow(unhash, p, v, canon, k, s);
  }

  /** If the chain stays put, verification keeps exactly the canonical ones of the stored sections above
      the checkpoint; an index whose last head is canonical is left alone. */
  lemma VerifiedExactly(unhash: Oracle, p: Params, i: Index, canon: nat -> Hash, top: nat, s: nat)
    requires Inv(unhash, p, i) && Canonical(unhash, canon, top) && forall n: nat :: n > top ==> canon(n) == ZERO
    requires p.checkpoint <= s < i.stored
    ensures s < Verify(p, i, ReadsOf(p, canon)).stored <==> SectionHead(i.heads, s) == canon(LastOf(p, s))
    ensures s == i.stored - 1 && SectionHead(i.heads, s) == canon(LastOf(p, s)) ==> Verify(p, i, ReadsOf(p, canon)) == i
  {
    hide LastOf, Inv, Canonical, SectionHead;
    VerifyRolls(p, i, ReadsOf(p, canon));
    assert Differs(i.heads, s + 1, ReadsOf(p, canon)) <==> SectionHead(i.heads, s) != ReadsOf(p, canon)(s + 1);
    assert ReadsOf(p, canon)(s + 1) == ReadAt(p, canon, s + 1) == canon(LastOf(p, s));
    if s < Verify(p, i, ReadsOf(p, canon)).stored {
      VerifiedCanonical(unhash, p, i, canon, top, s);
    }
  }

  // ---------- the steps in terms of blocks ----------

  lemma SectionsBelow(p: Params, n: nat, s: nat)
    ensures s < n / p.size <==> LastOf(p, s) < n
  {
    var q := n / p.size;
    assert n == q * p.size + n % p.size;
    if s < q {
      LastMonotone(p, s, q - 1);
      assert q * p.size == (q - 1) * p.size + p.size;
    } else {
      assert (s - q) * p.size >= 0;
      assert s * p.size == (s - q) * p.size + q * p.size;
    }
  }

  /** The last block below the checkpoint is there, with so many confirmations, once the head is `head`. */
  predicate PastCheckpoint(p: Params, head: nat, confirms: nat) {
    p.checkpoint > 0 ==> LastOf(p, p.checkpoint - 1) + confirms <= head
  }

  /** After a reorganisation down to `head`, exactly the sections that end no higher are still stored, and
      known unless the checkpoint itself is gone; sections below the checkpoint stay stored. */
  lemma ReorgMeans(p: Params, i: Index, head: nat, s: nat)
    ensures var r := Reorged(p, i, head);
      && r.job == i.job
      && (i.stored >= p.checkpoint ==>
            (s < r.stored <==> s < i.stored && (s < p.checkpoint || LastOf(p, s) <= head)))
      && (s < r.known <==> s < i.known && LastOf(p, s) <= head && PastCheckpoint(p, head, 0))
      && SectionHead(r.heads, s) == if r.stored <= s < i.stored then ZERO else SectionHead(i.heads, s)
  {
    hide LastOf;
    SectionsBelow(p, head + 1, s);
    if p.checkpoint > 0 {
      SectionsBelow(p, head + 1, p.checkpoint - 1);
    }
  }

  /** A new head makes those sections known whose last block has enough confirmations, once the chain has
      reached the checkpoint and agrees with it; nothing else changes. */
  lemma ExtendMeans(p: Params, i: Index, head: nat, checkpointRead: Hash, s: nat)
    ensures var r := Extended(p, i, head, checkpointRead);
      && r.(known := i.known) == i
      && (s < r.known <==>
          || s < i.known
          || (LastOf(p, s) + p.confirms <= head && PastCheckpoint(p, head, p.confirms)
              && (i.known >= p.checkpoint || checkpointRead == p.checkpointHead)))
  {
    hide LastOf;
    if head >= p.confirms {
      SectionsBelow(p, head + 1 - p.confirms, s);
      if p.checkpoint > 0 {
        SectionsBelow(p, head + 1 - p.confirms, p.checkpoint - 1);
      }
    }
  }

  /** Processing starts exactly if a known section is not stored: with the first that is not, on top of
      the last that is, after a rollback. */
  lemma StartMeans(p: Params, i: Index, seen: nat -> Hash)
    requires i.job.None?
    ensures var r := Begun(p, i, seen);
      && (i.known <= i.stored ==> r == i)
      && (i.known > i.stored ==>
            && r.job == Some(Job(r.stored, if r.stored > 0 then SectionHead(r.heads, r.stored - 1) else ZERO))
            && RolledBack(p, i, r.(job := None), seen))
  {
    VerifyRolls(p, i, seen);
  }

  /** A section that was processed is stored exactly if no section below it was rolled back meanwhile;
      otherwise there is a rollback, and no section is known that is not stored. */
  lemma FinishMeans(unhash: Oracle, p: Params, i: Index, result: Option<Hash>, seen: nat -> Hash)
    requires Inv(unhash, p, i) && i.job.Some?
    ensures var r, done := Finished(p, i, i.job.value, result, seen), i.(job := None);
      if result.Some? && i.job.value.section == i.stored then
        && r.stored == i.stored + 1 && r.known == i.known && r.job.None?
        && forall s: nat :: SectionHead(r.heads, s) == if s == i.stored then result.value else SectionHead(i.heads, s)
      else
        r.known == r.stored && RolledBack(p, done, r.(known := i.known), seen)
  {
    hide Connected;
    VerifyRolls(p, i.(job := None), seen);
  }

  lemma HeadNonZero(unhash: Oracle, p: Params, heads: map<nat, Hash>, s: nat)
    requires Connected(unhash, p, heads, s)
    ensures SectionHead(heads, s) != ZERO
  {
    SegmentNonZero(unhash, SectionHead(heads, s), p.size, Base(heads, s), s * p.size);
  }

  lemma LastMonotone(p: Params, a: nat, b: nat)
    requires a <= b
    ensures LastOf(p, a) <= LastOf(p, b)
  {
    assert (b - a) * p.size >= 0;
  }

  // ---------- the indexer ----------

  /** The database never returns a header for another hash or number. */
  ghost predicate Honest(unhash: Oracle, headerOf: (Hash, nat) -> Option<Header>) {
    forall h, n :: headerOf(h, n).Some? ==>
      headerOf(h, n).value.hash == h && headerOf(h, n).value.number == n && Genuine(unhash, headerOf(h, n).value)
  }

  /** Block `k` of the section from number `lo` on is read, follows the one before it, and is taken by
      the backend. */
  predicate Connects(lo: nat, k: nat, oldHead: Hash, hashAt: nat -> Hash, headerOf: (Hash, nat) -> Option<Header>,
                     accepts: Header -> bool) {
    var header := headerOf(hashAt(lo + k), lo + k);
    && hashAt(lo + k) != ZERO && header.Some?
    && header.value.parent == (if k == 0 then oldHead else hashAt(lo + k - 1)) && accepts(header.value)
  }

  class ChainIndexer {
    const params: Params
    var storedSections: nat
    var knownSections: nat
    var heads: map<nat, Hash>
    var job: Option<Job>  // what the update loop remembers while it holds no lock

    function State(): Index
      reads this
    {
      Index(storedSections, knownSections, heads, job)
    }

    constructor (params: Params)
      requires params.checkpoint > 0 ==> params.checkpointHead != ZERO
      ensures this.params == params && forall unhash :: Inv(unhash, params, State())
    {
      this.params := params;
      storedSections, knownSections, job := params.checkpoint, 0, None;
      heads := if params.checkpoint > 0 then map[params.checkpoint - 1 := params.checkpointHead] else map[];
    }

    /** Reopens the index on what an earlier run under `before` left, and adds a checkpoint, which is
        ignored if its section is stored already.  The checkpoint of the earlier run is forgotten, so
        the index is linked again only if all sections below it are there and connect. */
    constructor Reopen(size: Positive, confirms: nat, stored: nat, kept: map<nat, Hash>, section: nat, head: Hash,
                       ghost before: Params, ghost unhash: Oracle)
      requires before.size == size && Linked(unhash, before, Index(stored, 0, kept, None)) && head != ZERO
      ensures section < stored ==> params == Params(size, confirms, 0, ZERO) && State() == Index(stored, 0, kept, None)
      ensures section >= stored ==>
        params == Params(size, confirms, section + 1, head) && State() == Index(section + 1, 0, kept[section := head], None)
      ensures Inv(unhash, params, State()) <==>
        section >= stored || forall s: nat :: s < before.checkpoint ==> s in kept && Connected(unhash, before, kept, s)
    {
      storedSections, knownSections, heads, job := stored, 0, kept, None;
      if section < stored {
        params := Params(size, confirms, 0, ZERO);
      } else {
        params := Params(size, confirms, section + 1, head);
        heads := kept[section := head];
        storedSections := section + 1;
      }
      new;
      SameSections(unhash, before, params, kept);
    }

    method SetValidSections(sections: nat)
      modifies this
      ensures State() == Trim(old(State()), sections)
    {
      ghost var top := storedSections;
      while storedSections > sections
        invariant storedSections <= top && (top > sections ==> storedSections >= sections)
        invariant (top <= sections ==> storedSections == top)
        invariant knownSections == old(knownSections) && job == old(job)
        invariant heads == map s | s in old(heads) && !(storedSections <= s < top) :: old(heads)[s]
      {
        storedSections := storedSections - 1;
        heads := heads - {storedSections};
      }
      storedSections := sections;
    }

    /** `seen(k)` is what the read of the canonical hash returns while `k` sections are stored. */
    method VerifyLastHead(seen: nat -> Hash)
      modifies this
      ensures State() == Verify(params, old(State()), seen)
      ensures RolledBack(params, old(State()), State(), seen)
    {
      hide RolledBack;
      VerifyRolls(params, State(), seen);
      while storedSections > 0 && storedSections > params.checkpoint
        invariant Verify(params, State(), seen) == Verify(params, old(State()), seen)
        decreases storedSections
      {
        if SectionHead(heads, storedSections - 1) == seen(storedSections) {
          return;
        }
        SetValidSections(storedSections - 1);
      }
    }

    method NewHead(head: nat, reorg: bool, checkpointRead: Hash)
      modifies this
      ensures State() == Apply(params, old(State()), if reorg then HeadReorg(head) else HeadNew(head, checkpointRead))
    {
      if reorg {
        var known := (head + 1) / params.size;
        var stored := known;
        if known < params.checkpoint {
          known := 0;
        }
        if stored < params.checkpoint {
          stored := params.checkpoint;
        }
        if known < knownSections {
          knownSections := known;
        }
        if stored < storedSections {
          SetValidSections(stored);
        }
        return;
      }
      if head >= params.confirms {
        var sections := (head + 1 - params.confirms) / params.size;
        if sections < params.checkpoint {
          sections := 0;
        }
        if sections > knownSections {
          if knownSections < params.checkpoint && checkpointRead != params.checkpointHead {
            return;
          }
          knownSections := sections;
        }
      }
    }

    /** The update loop takes up the next section. */
    method Begin(seen: nat -> Hash)
      requires job.None?
      modifies this
      ensures State() == Apply(params, old(State()), Start(seen))
    {
      if knownSections > storedSections {
        VerifyLastHead(seen);
        var section := storedSections;
        var oldHead := ZERO;
        if section > 0 {
          oldHead := SectionHead(heads, section - 1);
        }
        job := Some(Job(section, oldHead));
      }
    }

    /** Processes a section without the lock.  `hashAt` and `headerOf` are the reads, one per block,
        and `accepts` says whether the backend takes a block; the last block commits.  It succeeds
        exactly if every block is read, connects and is taken, and the section is committed. */
    method ProcessSection(section: nat, oldHead: Hash, hashAt: nat -> Hash, headerOf: (Hash, nat) -> Option<Header>,
                          accepts: Header -> bool,
                          committed: bool, ghost unhash: Oracle) returns (result: Option<Hash>)
      requires Honest(unhash, headerOf)
      ensures result.Some? ==> Segment(unhash, result.value, params.size, oldHead, section * params.size)
      ensures result.Some? ==> result.value == hashAt(LastOf(params, section))
      ensures result.Some? <==>
        committed && forall k: nat :: k < params.size ==> Connects(section * params.size, k, oldHead, hashAt, headerOf,
                                                                   accepts)
    {
      var lastHead := oldHead;
      var lo := section * params.size;
      for k := 0 to params.size
        invariant Segment(unhash, lastHead, k, oldHead, lo)
        invariant lastHead == (if k == 0 then oldHead else hashAt(lo + k - 1))
        invariant forall j: nat :: j < k ==> Connects(lo, j, oldHead, hashAt, headerOf, accepts)
      {
        var hash := hashAt(lo + k);
        if hash == ZERO {
          assert !Connects(lo, k, oldHead, hashAt, headerOf, accepts);
          return None;
        }
        var header := headerOf(hash, lo + k);
        if header.None? || header.value.parent != lastHead || !accepts(header.value) {
          assert !Connects(lo, k, oldHead, hashAt, headerOf, accepts);
          return None;
        }
        lastHead := header.value.hash;
      }
      result := if committed then Some(lastHead) else None;
    }

    /** The update loop comes back with the outcome of processing. */
    method End(result: Option<Hash>, seen: nat -> Hash)
      requires job.Some?
      modifies this
      ensures State() == Apply(params, old(State()), Finish(result, seen))
    {
      var section, oldHead := job.value.section, job.value.oldHead;
      job := None;
      if result.Some? && (section == 0 || oldHead == SectionHead(heads, section - 1)) {
        heads := heads[section := result.value];
        SetValidSections(section + 1);
      } else {
        VerifyLastHead(seen);
        knownSections := storedSections;
      }
    }

    /** The number of valid sections and the last head, as reported to other parts of the program. */
    method Sections(seen: nat -> Hash) returns (sections: nat, head: Hash)
      modifies this
      ensures State() == Apply(params, old(State()), Query(seen)) && sections == storedSections
      ensures sections > 0 ==> head == SectionHead(heads, sections - 1)
      ensures RolledBack(params, old(State()), State(), seen)
    {
      VerifyLastHead(seen);
      sections := storedSections;
      head := if sections > 0 then SectionHead(heads, sections - 1) else ZERO;
    }
  }

  /** An index that began at a checkpoint after two sections, reopened with the same checkpoint, which
      is stored already: the first section is missing and no longer skipped. */
  method ReopenedWithout(head: Hash, ghost unhash: Oracle) returns (index: ChainIndexer)
    requires head != ZERO
    ensures index.params.checkpoint == 0 && index.storedSections == 2 && index.heads == map[1 := head]
    ensures !Inv(unhash, index.params, index.State())
  {
    ghost var before := Params(1, 0, 2, head);
    index := new ChainIndexer.Reopen(1, 0, 2, map[1 := head], 1, head, before, unhash);
  }
}
