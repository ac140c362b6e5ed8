/**
 Max-min fair truncation of the pending lists (core/tx_pool.go): cutting every offender down to
 one common level.
 */
module Fairness {
  import opened Basics
  import opened Transactions
  import opened PoolBooks
  import opened PoolLists
  import Sums

  /** Every offender's list is cut down to `level`; the other lists are untouched. */
  function CapAll(p: Shelf, offenders: set<Addr>, level: nat): Shelf {
    map a | a in p :: if a in offenders then Capped(p[a], level) else p[a]
  }

  ghost function LenOf(p: Shelf): Addr -> int {
    (a: Addr) => |ListOf(p, a)|
  }

  /** The number of transactions on a shelf. */
  ghost function Total(p: Shelf): int {
    Sums.Sum(p.Keys, LenOf(p))
  }

  /** Replacing one list changes the total by the difference in length. */
  lemma TotalUpdate(p: Shelf, a: Addr, items: Items)
    requires a in p
    ensures Total(p[a := items]) == Total(p) - |p[a]| + |items|
  {
    var q := p[a := items];
    assert q.Keys == p.Keys;
    Sums.SumRemove(p.Keys, LenOf(p), a);
    Sums.SumRemove(q.Keys, LenOf(q), a);
    Sums.SumSame(p.Keys - {a}, LenOf(p), LenOf(q));
  }

  lemma TotalApart(p: Shelf, a: Addr)
    ensures Total(p) == Sums.Sum(p.Keys - {a}, LenOf(p)) + |ListOf(p, a)|
  {
    if a in p {
      Sums.SumRemove(p.Keys, LenOf(p), a);
    } else {
      assert p.Keys - {a} == p.Keys;
    }
  }

  lemma OthersKept(p: Shelf, a: Addr, items: Items)
    ensures var q := WithList(p, a, items);
      && ListOf(q, a) == items && q.Keys - {a} == p.Keys - {a}
      && forall b <- p.Keys - {a} :: LenOf(p)(b) == LenOf(q)(b)
  {
  }

  lemma TotalWithList(p: Shelf, a: Addr, items: Items)
    ensures Total(WithList(p, a, items)) == Total(p) - |ListOf(p, a)| + |items|
  {
    hide Total, Sums.Sum, WithList, LenOf;
    var q := WithList(p, a, items);
    TotalApart(p, a);
    TotalApart(q, a);
    OthersKept(p, a, items);
    Sums.SumSame(p.Keys - {a}, LenOf(p), LenOf(q));
  }

  /** A level no offender exceeds changes nothing. */
  lemma CapAllNone(p: Shelf, offenders: set<Addr>, level: nat)
    requires forall a <- p :: a in offenders ==> |p[a]| <= level
    ensures CapAll(p, offenders, level) == p
  {
  }

  lemma CapStep(items: Items, level: nat, top: bool)
    requires level > 0 && (!top ==> |Capped(items, level)| < level)
    ensures (if top then Capped(Capped(items, level), level - 1) else Capped(items, level)) == Capped(items, level - 1)
  {
    CappedTwice(items, level, level - 1);
    CappedShape(items, level);
  }

  /** One round: taking one transaction from every offender at the level lowers the level by one. */
  lemma CapAllStep(p: Shelf, offenders: set<Addr>, level: nat, top: set<Addr>)
    requires top <= offenders && level > 0
    requires forall a <- p :: a in offenders && a !in top ==> |Capped(p[a], level)| < level
    ensures CapAll(CapAll(p, offenders, level), top, level - 1) == CapAll(p, offenders, level - 1)
  {
    hide Capped;
    forall a <- p | a in offenders
      ensures (if a in top then Capped(Capped(p[a], level), level - 1) else Capped(p[a], level)) == Capped(p[a], level - 1)
    {
      CapStep(p[a], level, a in top);
    }
  }

  /** Lowering the level by one frees at most one transaction per offender. */
  lemma LevelGap(p: Shelf, offenders: set<Addr>, level: nat)
    ensures Total(CapAll(p, offenders, level + 1)) <= Total(CapAll(p, offenders, level)) + |offenders|
  {
    var hi, lo := CapAll(p, offenders, level + 1), CapAll(p, offenders, level);
    assert hi.Keys == p.Keys && lo.Keys == p.Keys;
    forall a <- p.Keys ensures LenOf(hi)(a) <= LenOf(lo)(a) + if a in offenders then 1 else 0 {
      CappedShape(p[a], level);
      CappedShape(p[a], level + 1);
    }
    SumGap(p.Keys, LenOf(hi), LenOf(lo), offenders);
  }

  lemma {:induction false} SumGap(s: set<Addr>, f: Addr -> int, g: Addr -> int, extra: set<Addr>)
    requires forall a <- s :: f(a) <= g(a) + if a in extra then 1 else 0
    ensures Sums.Sum(s, f) <= Sums.Sum(s, g) + |extra|
  {
    if s != {} {
      var a :| a in s;
      Sums.SumRemove(s, f, a);
      Sums.SumRemove(s, g, a);
      if a in extra {
        SumGap(s - {a}, f, g, extra - {a});
      } else {
        SumGap(s - {a}, f, g, extra);
      }
    }
  }

  /** An account with the longest list. */
  predicate IsLongest(p: Shelf, s: set<Addr>, a: Addr) {
    a in s && forall b <- s :: |ListOf(p, b)| <= |ListOf(p, a)|
  }

  lemma {:induction false} LongestExists(p: Shelf, s: set<Addr>)
    requires s != {}
    ensures exists a :: IsLongest(p, s, a)
  {
    var k :| k in s;
    if s == {k} {
      assert IsLongest(p, s, k);
    } else {
      LongestExists(p, s - {k});
      var r :| IsLongest(p, s - {k}, r);
      Longer(p, s, k, r);
    }
  }

  lemma Longer(p: Shelf, s: set<Addr>, k: Addr, r: Addr)
    requires k in s && IsLongest(p, s - {k}, r)
    ensures IsLongest(p, s, if |ListOf(p, k)| <= |ListOf(p, r)| then r else k)
  {
    forall b <- s ensures |ListOf(p, b)| <= |ListOf(p, r)| || b == k {
      assert b == k || b in s - {k};
    }
  }

  // ---------- the state of the truncation loops ----------

  predicate NoRepeats(offs: seq<Addr>) {
    forall i, j :: 0 <= i < j < |offs| ==> offs[i] != offs[j]
  }

  ghost function Firsts(offs: seq<Addr>, k: nat): set<Addr>
    requires k <= |offs|
  {
    set a | a in offs[..k]
  }

  lemma CapAllStart(p: Shelf, offs: seq<Addr>, level: nat)
    ensures CapAll(p, Firsts(offs, 0), level) == p
  {
    CapAllNone(p, Firsts(offs, 0), level);
  }

  /** Capping one account more. */
  lemma CapAllOneMore(p: Shelf, offs: seq<Addr>, i: nat, level: nat)
    requires NoRepeats(offs) && i < |offs| && offs[i] in p
    ensures var q := CapAll(p, Firsts(offs, i), level);
      && offs[i] in q && q[offs[i]] == p[offs[i]]
      && CapAll(p, Firsts(offs, i + 1), level) == q[offs[i] := Capped(p[offs[i]], level)]
  {
    assert offs[..i + 1] == offs[..i] + [offs[i]];
    assert offs[i] !in Firsts(offs, i) && Firsts(offs, i + 1) == Firsts(offs, i) + {offs[i]};
  }

  /** The offenders are the ones already taken up, in `offs`, and those still waiting in `spam`. */
  ghost predicate Ranked(offenders: set<Addr>, offs: seq<Addr>, spam: set<Addr>) {
    NoRepeats(offs) && offenders == Firsts(offs, |offs|) + spam && Firsts(offs, |offs|) !! spam
  }

  /** The first `k` of `offs` have lists of length `level`. */
  ghost predicate AllAt(p: Shelf, offs: seq<Addr>, k: nat, level: nat)
    requires k <= |offs|
  {
    forall i :: 0 <= i < k ==> offs[i] in p && |p[offs[i]]| == level
  }

  /** All other offenders have shorter lists. */
  ghost predicate OthersBelow(p: Shelf, offenders: set<Addr>, top: set<Addr>, level: nat) {
    forall a <- offenders :: a !in top ==> a in p && |p[a]| <= level
  }

  /** Where the loops stand: everything is cut to `level` and the first `k` of `offs` are at the
      level, nobody else is above it, and one level higher was still too much for `limit`. */
  ghost predicate Standing(p0: Shelf, offenders: set<Addr>, p: Shelf, level: nat, offs: seq<Addr>, k: nat, limit: nat) {
    && k <= |offs| && NoRepeats(offs) && Firsts(offs, |offs|) <= offenders
    && p == CapAll(p0, offenders, level)
    && AllAt(p, offs, k, level)
    && Total(CapAll(p0, offenders, level + 1)) > limit
  }

  lemma FirstsAmong(offs: seq<Addr>, k: nat)
    requires k <= |offs|
    ensures Firsts(offs, k) <= Firsts(offs, |offs|)
  {
  }

  /** A round over the first `k`, who are at the level and above everyone else. */
  lemma RoundLowers(p0: Shelf, offenders: set<Addr>, p: Shelf, level: nat, offs: seq<Addr>, k: nat, threshold: nat,
                    limit: nat)
    requires Standing(p0, offenders, p, level, offs, k, limit) && level > threshold && Total(p) > limit
    requires OthersBelow(p, offenders, Firsts(offs, k), threshold)
    ensures Standing(p0, offenders, CapAll(p, Firsts(offs, k), level - 1), level - 1, offs, k, limit)
    ensures OthersBelow(CapAll(p, Firsts(offs, k), level - 1), offenders, Firsts(offs, k), threshold)
  {
    hide Capped, Total, NoRepeats;
    var top := Firsts(offs, k);
    FirstsAmong(offs, k);
    forall a <- p0 | a in offenders && a !in top ensures |Capped(p0[a], level)| < level {
      assert p[a] == Capped(p0[a], level);
    }
    CapAllStep(p0, offenders, level, top);
    forall i | 0 <= i < k ensures |Capped(p[offs[i]], level - 1)| == level - 1 {
      CappedShape(p[offs[i]], level - 1);
    }
  }

  // ---------- taking up the offenders, longest list first ----------

  /** The accounts that may lose transactions. */
  function Offenders(p: Shelf, locals: set<Addr>, allowance: nat): set<Addr> {
    set a | a in p && a !in locals && |p[a]| > allowance
  }

  /** The loop over the spammers: those taken up are level as long as the pool is too full. */
  ghost predicate Progress(p0: Shelf, offenders: set<Addr>, p: Shelf, level: nat, offs: seq<Addr>, spam: set<Addr>,
                           allowance: nat, limit: nat) {
    && Ranked(offenders, offs, spam)
    && (forall a <- offenders :: a in p0 && |p0[a]| > allowance)
    && (offs == [] ==> p == p0 && Total(p0) > limit)
    && (offs != [] ==> level > allowance && Standing(p0, offenders, p, level, offs, |offs| - 1, limit))
    && (offs != [] && Total(p) > limit ==> AllAt(p, offs, |offs|, level))
  }

  lemma RankedNext(offenders: set<Addr>, offs: seq<Addr>, spam: set<Addr>, o: Addr)
    requires Ranked(offenders, offs, spam) && o in spam
    ensures Ranked(offenders, offs + [o], spam - {o})
    ensures Firsts(offs + [o], |offs|) == Firsts(offs, |offs|)
  {
    var r := offs + [o];
    assert r[..|offs|] == offs && offs[..|offs|] == offs && r[..|r|] == r;
    assert Firsts(r, |r|) == Firsts(r, |offs|) + {o};
    forall i | 0 <= i < |offs| ensures offs[i] != o {
      assert offs[i] in Firsts(offs, |offs|);
    }
  }

  /** The first offender sets the level. */
  lemma TakeFirst(p0: Shelf, offenders: set<Addr>, level0: nat, spam: set<Addr>, o: Addr, allowance: nat, limit: nat)
    requires Progress(p0, offenders, p0, level0, [], spam, allowance, limit) && IsLongest(p0, spam, o)
    ensures o in p0 && Progress(p0, offenders, p0, |p0[o]|, [o], spam - {o}, allowance, limit)
  {
    hide Total, CapAll, NoRepeats, Firsts;
    RankedNext(offenders, [], spam, o);
    RankedStart(offenders, spam, o);
    forall a <- p0 | a in offenders ensures |p0[a]| <= |p0[o]| {
      assert ListOf(p0, a) == p0[a];
    }
    CapAllNone(p0, offenders, |p0[o]|);
    CapAllNone(p0, offenders, |p0[o]| + 1);
  }

  lemma RankedStart(offenders: set<Addr>, spam: set<Addr>, o: Addr)
    requires Ranked(offenders, [], spam)
    ensures offenders == spam && [] + [o] == [o]
    ensures Ranked(offenders, [o], spam - {o}) ==> Firsts([o], 1) <= offenders
  {
    assert Firsts([], 0) == {};
  }

  lemma LenAt(p0: Shelf, offenders: set<Addr>, level: nat, a: Addr)
    requires a in p0 && a in offenders
    ensures var p := CapAll(p0, offenders, level); a in p && |p[a]| == if |p0[a]| <= level then |p0[a]| else level
  {
    CappedShape(p0[a], level);
  }

  /** The next offender is no longer than those already level. */
  lemma TakeNext(p0: Shelf, offenders: set<Addr>, p: Shelf, level: nat, offs: seq<Addr>, spam: set<Addr>, o: Addr,
                 allowance: nat, limit: nat)
    requires Progress(p0, offenders, p, level, offs, spam, allowance, limit) && offs != [] && Total(p) > limit
    requires IsLongest(p, spam, o)
    ensures o in p && allowance < |p[o]| <= level
    ensures Standing(p0, offenders, p, level, offs + [o], |offs|, limit)
    ensures OthersBelow(p, offenders, Firsts(offs + [o], |offs|), |p[o]|)
  {
    hide Total, CapAll, Capped;
    RankedNext(offenders, offs, spam, o);
    LenAt(p0, offenders, level, o);
    forall a <- offenders | a !in Firsts(offs, |offs|) ensures a in p && |p[a]| <= |p[o]| {
      LenAt(p0, offenders, level, a);
      assert a in spam && ListOf(p, a) == p[a];
    }
  }

  /** Once it has been equalized, the loop goes on. */
  lemma TookNext(p0: Shelf, offenders: set<Addr>, q: Shelf, level0: nat, level: nat, offs: seq<Addr>, spam: set<Addr>,
                 o: Addr,
                 threshold: nat, allowance: nat, limit: nat)
    requires Ranked(offenders, offs, spam) && o in spam && (forall a <- offenders :: a in p0 && |p0[a]| > allowance)
    requires allowance < threshold <= level <= level0 && |Capped(p0[o], level0)| == threshold
    requires Standing(p0, offenders, q, level, offs + [o], |offs|, limit) && (Total(q) > limit ==> level == threshold)
    ensures Progress(p0, offenders, q, level, offs + [o], spam - {o}, allowance, limit)
  {
    hide Total, CapAll, Capped;
    RankedNext(offenders, offs, spam, o);
    LenAt(p0, offenders, level, o);
    CappedShape(p0[o], level0);
  }

  /** What truncation achieves: one common level, no lower than the allowance, and either the pool
      fits or the level is the allowance; one level higher it would not fit. */
  ghost predicate Fair(p0: Shelf, offenders: set<Addr>, p: Shelf, level: nat, allowance: nat, limit: nat) {
    && level >= allowance && p == CapAll(p0, offenders, level)
    && Total(CapAll(p0, offenders, level + 1)) > limit
    && (Total(p) > limit && offenders != {} ==> level == allowance)
  }

  lemma ProgressStart(p0: Shelf, offenders: set<Addr>, level: nat, allowance: nat, limit: nat)
    requires Total(p0) > limit && forall a <- offenders :: a in p0 && |p0[a]| > allowance
    ensures Progress(p0, offenders, p0, level, [], offenders, allowance, limit)
  {
    assert Firsts([], 0) == {};
  }

  /** When no spammer is left, all offenders are level. */
  lemma LastPhase(p0: Shelf, offenders: set<Addr>, p: Shelf, level: nat, offs: seq<Addr>, allowance: nat, limit: nat)
    requires Progress(p0, offenders, p, level, offs, {}, allowance, limit) && offs != [] && Total(p) > limit
    ensures level > allowance && Standing(p0, offenders, p, level, offs, |offs|, limit)
    ensures OthersBelow(p, offenders, Firsts(offs, |offs|), allowance)
  {
    hide Total, CapAll;
  }

  lemma PhaseFair(p0: Shelf, offenders: set<Addr>, p: Shelf, level: nat, offs: seq<Addr>, allowance: nat, limit: nat)
    requires Standing(p0, offenders, p, level, offs, |offs|, limit) && level >= allowance
    requires (Total(p) > limit ==> level == allowance)
    ensures Fair(p0, offenders, p, level, allowance, limit)
  {
    hide Total, CapAll;
  }

  lemma LoopFair(p0: Shelf, offenders: set<Addr>, p: Shelf, level: nat, offs: seq<Addr>, spam: set<Addr>,
                 allowance: nat, limit: nat)
    requires Progress(p0, offenders, p, level, offs, spam, allowance, limit) && (Total(p) <= limit || offs == [])
    requires (Total(p) <= limit || spam == {})
    ensures Fair(p0, offenders, p, if offs == [] then allowance else level, allowance, limit)
  {
    hide Total, CapAll;
    if offs == [] {
      assert Firsts([], 0) == {} && offenders == {};
      CapAllNone(p0, offenders, allowance);
      CapAllNone(p0, offenders, allowance + 1);
    }
  }

  lemma LongestIn(p: Shelf, s: set<Addr>, a: Addr)
    requires IsLongest(p, s, a)
    ensures a in s
  {
  }

  lemma CapAllAt(p0: Shelf, offenders: set<Addr>, level: nat, a: Addr)
    requires a in offenders && a in CapAll(p0, offenders, level)
    ensures a in p0 && CapAll(p0, offenders, level)[a] == Capped(p0[a], level)
  {
  }

  /** Counts the transactions on a shelf. */
  method CountAll(p: Shelf) returns (count: nat)
    ensures count == Total(p)
  {
    count := 0;
    var todo := p.Keys;
    while todo != {}
      invariant todo <= p.Keys && count + Sums.Sum(todo, LenOf(p)) == Total(p)
      decreases todo
    {
      var a :| a in todo;
      Sums.SumRemove(todo, LenOf(p), a);
      count, todo := count + |p[a]|, todo - {a};
    }
  }

  /** In terms of list lengths: every offender keeps as much as the level allows, everyone else
      everything.  Afterwards the pool fits or nobody but locals exceeds the allowance, and it is
      not truncated further than one round could. */
  lemma FairMeans(p0: Shelf, locals: set<Addr>, p: Shelf, level: nat, allowance: nat, limit: nat)
    requires Fair(p0, Offenders(p0, locals, allowance), p, level, allowance, limit)
    ensures p.Keys == p0.Keys
    ensures forall a <- Offenders(p0, locals, allowance) :: |p[a]| == if |p0[a]| <= level then |p0[a]| else level
    ensures forall a <- p0 :: a !in Offenders(p0, locals, allowance) ==> p[a] == p0[a]
    ensures Total(p) <= limit || forall a <- p :: a !in locals ==> |p[a]| <= allowance
    ensures Total(p) > limit - |Offenders(p0, locals, allowance)|
  {
    var offenders := Offenders(p0, locals, allowance);
    LevelGap(p0, offenders, level);
    forall a <- offenders ensures |p[a]| == if |p0[a]| <= level then |p0[a]| else level {
      LenAt(p0, offenders, level, a);
    }
  }
}
