/**
 The smoke limit of the next block (core/block_validator.go), with the 64-bit arithmetic of the
 program written out.
 */
module SmokeLimits {
  import opened Basics

  const HALF_WORD: nat := TWO64 / 2
  const BOUND_DIVISOR: nat := 1024
  const MIN_SMOKE_LIMIT: nat := 5000

  function Wrap(x: int): nat {
    x % TWO64
  }

  /** The limit that follows from the parent's limit and use alone. */
  function Drifted(limit: nat, used: nat): nat {
    var contrib := Wrap(used + used / 2) / BOUND_DIVISOR;
    var decay := Wrap(limit / BOUND_DIVISOR - 1);
    var next := Wrap(limit - decay + contrib);
    if next < MIN_SMOKE_LIMIT then MIN_SMOKE_LIMIT else next
  }

  function CalcSmokeLimit(limit: nat, used: nat, floor: nat, ceil: nat): nat {
    var decay := Wrap(limit / BOUND_DIVISOR - 1);
    var next := Drifted(limit, used);
    if next < floor then
      var up := Wrap(limit + decay);
      if up > floor then floor else up
    else if next > ceil then
      var down := Wrap(limit - decay);
      if down < ceil then ceil else down
    else
      next
  }

  /** A parent as header verification admits it: not below the minimum, within 63 bits, and no
      more smoke used than allowed. */
  predicate Admitted(limit: nat, used: nat) {
    MIN_SMOKE_LIMIT <= limit < HALF_WORD && used <= limit
  }

  /** The change header verification allows. */
  predicate Close(limit: nat, next: nat) {
    -(limit / BOUND_DIVISOR) < next - limit < limit / BOUND_DIVISOR
  }

  /** A small, nearly full parent, and no floor or ceiling in the way. */
  predicate TooSmall(limit: nat, used: nat, floor: nat, ceil: nat) {
    limit < 5 * BOUND_DIVISOR && used >= 4779 && floor <= limit + 4 <= ceil
  }

  lemma NoWrap(limit: nat, used: nat)
    requires Admitted(limit, used)
    ensures Wrap(limit / BOUND_DIVISOR - 1) == limit / BOUND_DIVISOR - 1
    ensures Wrap(used + used / 2) == used + used / 2
    ensures forall x :: 0 <= x <= 2 * limit ==> Wrap(x) == x
  {
  }

  /** Without floor and ceiling the limit moves by less than the bound, except that small and nearly
      full parents go up by exactly the bound. */
  lemma DriftBound(limit: nat, used: nat)
    requires Admitted(limit, used)
    ensures Drifted(limit, used) >= MIN_SMOKE_LIMIT && Drifted(limit, used) > limit - limit / BOUND_DIVISOR
    ensures limit < 5 * BOUND_DIVISOR && used >= 4779 ==>
      Drifted(limit, used) == limit + 4 && limit / BOUND_DIVISOR == 4
    ensures !(limit < 5 * BOUND_DIVISOR && used >= 4779) ==> Drifted(limit, used) < limit + limit / BOUND_DIVISOR
  {
    NoWrap(limit, used);
    hide Wrap;
    var bound := limit / BOUND_DIVISOR;
    var contrib := (used + used / 2) / BOUND_DIVISOR;
    Contribution(limit, used);
    assert Wrap(limit - (bound - 1) + contrib) == limit - (bound - 1) + contrib;
  }

  /** The limit drifts up exactly if three halves of what the parent used reach its limit in units of 1024:
      so if it used over two thirds of it, and not if it used clearly less.  The more it used, the higher
      the limit. */
  lemma DriftFollowsUse(limit: nat, used: nat, more: nat)
    requires Admitted(limit, used) && used <= more <= limit
    ensures Drifted(limit, used) > limit <==> (used + used / 2) / BOUND_DIVISOR >= limit / BOUND_DIVISOR
    ensures 3 * used >= 2 * limit + 1 ==> Drifted(limit, used) > limit
    ensures 3 * used <= 2 * (limit - BOUND_DIVISOR) ==> Drifted(limit, used) <= limit
    ensures Drifted(limit, used) <= Drifted(limit, more)
  {
    NoWrap(limit, used);
    NoWrap(limit, more);
    hide Wrap;
    Contribution(limit, used);
    Contribution(limit, more);
    var bound := limit / BOUND_DIVISOR;
    forall u: nat | u <= limit ensures var x := limit - (bound - 1) + (u + u / 2) / BOUND_DIVISOR; Wrap(x) == x {
      Contribution(limit, u);
    }
    assert (used + used / 2) / BOUND_DIVISOR <= (more + more / 2) / BOUND_DIVISOR;
  }

  /** How much a parent's use adds. */
  lemma Contribution(limit: nat, used: nat)
    requires Admitted(limit, used)
    ensures var bound, contrib := limit / BOUND_DIVISOR, (used + used / 2) / BOUND_DIVISOR;
      && bound >= 4 && contrib <= limit
      && (limit < 5 * BOUND_DIVISOR ==> bound == 4 && contrib <= 7 && (contrib == 7 <==> used >= 4779))
      && (limit >= 5 * BOUND_DIVISOR ==> contrib <= 2 * bound - 2)
  {
  }

  /** The next limit is never below the minimum, and it stays within the allowed change exactly if
      the parent is not too small and full. */
  lemma LimitClose(limit: nat, used: nat, floor: nat, ceil: nat)
    requires Admitted(limit, used) && ceil >= MIN_SMOKE_LIMIT
    ensures CalcSmokeLimit(limit, used, floor, ceil) >= MIN_SMOKE_LIMIT
    ensures Close(limit, CalcSmokeLimit(limit, used, floor, ceil)) <==> !TooSmall(limit, used, floor, ceil)
  {
    NoWrap(limit, used);
    DriftBound(limit, used);
    hide Wrap, Drifted;
  }

  /** Between floor and ceiling the limit stays there, and from outside it moves towards them without
      passing them. */
  lemma StaysBetween(limit: nat, used: nat, floor: nat, ceil: nat)
    requires Admitted(limit, used) && floor <= ceil && MIN_SMOKE_LIMIT <= ceil && floor < HALF_WORD
    ensures var next := CalcSmokeLimit(limit, used, floor, ceil);
      && (floor <= limit <= ceil ==> floor <= next <= ceil)
      && (limit < floor ==> limit < next <= ceil)
      && (limit > ceil ==> floor <= next < limit)
  {
    NoWrap(limit, used);
    DriftBound(limit, used);
    hide Wrap, Drifted;
  }

  /** A full parent at the minimum moves too far. */
  lemma MinimumMovesTooFar()
    ensures CalcSmokeLimit(5000, 5000, 0, 10_000_000) == 5004 && !Close(5000, 5004)
  {
  }

  // ---------- honing in on a target ----------

  /** The limit after `n` blocks when floor and ceiling are both `target`. */
  function Iterated(limit: nat, usage: (nat, nat) -> nat, target: nat, n: nat): nat {
    if n == 0 then limit
    else var before := Iterated(limit, usage, target, n - 1); CalcSmokeLimit(before, usage(n, before), target, target)
  }

  function Distance(a: nat, b: nat): nat {
    if a < b then b - a else a - b
  }

  /** One step towards the target: never past it, never away from it, and at least three closer. */
  lemma StepHones(limit: nat, used: nat, target: nat)
    requires Admitted(limit, used) && MIN_SMOKE_LIMIT <= target < HALF_WORD
    ensures var next := CalcSmokeLimit(limit, used, target, target);
      && (limit <= target ==> limit <= next <= target) && (limit >= target ==> target <= next <= limit)
      && (next == target || Distance(next, target) + 3 <= Distance(limit, target))
  {
    NoWrap(limit, used);
    DriftBound(limit, used);
    hide Wrap, Drifted;
  }

  /** Whatever the blocks use, the limit moves monotonically to the target, reaches it after at most
      as many blocks as it is away, and stays. */
  lemma {:induction false} Converges(limit: nat, usage: (nat, nat) -> nat, target: nat, n: nat)
    requires MIN_SMOKE_LIMIT <= limit < HALF_WORD && MIN_SMOKE_LIMIT <= target < HALF_WORD
    requires forall i, x :: usage(i, x) <= x
    ensures var now := Iterated(limit, usage, target, n);
      && (limit <= target ==> limit <= now <= target) && (limit >= target ==> target <= now <= limit)
      && (now == target || Distance(now, target) + 3 * n <= Distance(limit, target))
    ensures n > 0 ==> var before := Iterated(limit, usage, target, n - 1);
      Distance(Iterated(limit, usage, target, n), target) <= Distance(before, target)
    ensures 3 * n >= Distance(limit, target) ==> Iterated(limit, usage, target, n) == target
  {
    hide CalcSmokeLimit;
    if n > 0 {
      Converges(limit, usage, target, n - 1);
      var before := Iterated(limit, usage, target, n - 1);
      StepHones(before, usage(n, before), target);
    }
  }
}
