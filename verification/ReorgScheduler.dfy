/**
 The pool's reorganisation scheduler (core/tx_pool.go): requests that arrive while a run is active
 are merged into the next run.

 Every run has a done channel of its own, created when the run before it is launched, so channels
 are numbered like runs.  A request is answered with the channel of the run to come.
 */
module ReorgSchedulers {
  import opened Basics

  type Head = nat

  datatype Request = Reset(oldHead: Head, newHead: Head) | Promote(accounts: set<Addr>)

  /** A request and the channel it was answered with. */
  datatype Entry = Entry(request: Request, channel: nat)

  /** A launched run; `seen` is the number of requests received before. */
  datatype Launch = Launch(reset: Option<(Head, Head)>, dirty: Option<set<Addr>>, seen: nat)

  /** `active` while the loop waits for a run; the first `finished` runs have closed their channel. */
  datatype State = State(active: bool, launchNext: bool, reset: Option<(Head, Head)>, dirty: Option<set<Addr>>,
                         log: seq<Entry>, runs: seq<Launch>, finished: nat)

  datatype Event = Ask(request: Request) | RunEnds | Noticed

  const START := State(false, false, None, None, [], [], 0)

  // ---------- the loop ----------

  function Merge(s: State, r: Request): State {
    match r
    case Reset(o, n) => s.(reset := if s.reset.None? then Some((o, n)) else Some((s.reset.value.0, n)))
    case Promote(a) => s.(dirty := if s.dirty.None? then Some(a) else Some(s.dirty.value + a))
  }

  /** The top of the loop: launches the next run if one is due and none is active. */
  function LoopTop(s: State): State {
    if !s.active && s.launchNext then
      s.(active := true, launchNext := false, reset := None, dirty := None, runs := s.runs + [Launch(s.reset, s.dirty, |s.log|)])
    else
      s
  }

  function Apply(s: State, e: Event): State {
    match e
    case Ask(r) => LoopTop(Merge(s, r).(launchNext := true, log := s.log + [Entry(r, |s.runs|)]))
    case RunEnds => if s.finished < |s.runs| then s.(finished := s.finished + 1) else s
    case Noticed => if s.active && s.finished == |s.runs| then LoopTop(s.(active := false)) else s
  }

  function Run(events: seq<Event>): State {
    if events == [] then START else Apply(Run(events[..|events| - 1]), events[|events| - 1])
  }

  // ---------- what a run should get ----------

  /** The reset that the requests answered with channel `k` add up to. */
  function ResetOf(log: seq<Entry>, k: nat): Option<(Head, Head)> {
    if log == [] then None
    else
      var before, e := ResetOf(log[..|log| - 1], k), log[|log| - 1];
      if e.channel == k && e.request.Reset? then
        Some((if before.None? then e.request.oldHead else before.value.0, e.request.newHead))
      else
        before
  }

  /** The accounts that the requests answered with channel `k` add up to. */
  function DirtyOf(log: seq<Entry>, k: nat): Option<set<Addr>> {
    if log == [] then None
    else
      var before, e := DirtyOf(log[..|log| - 1], k), log[|log| - 1];
      if e.channel == k && e.request.Promote? then
        Some(if before.None? then e.request.accounts else before.value + e.request.accounts)
      else
        before
  }

  predicate IsReset(log: seq<Entry>, k: nat, i: nat)
    requires i < |log|
  {
    log[i].channel == k && log[i].request.Reset?
  }

  predicate IsFirst(log: seq<Entry>, k: nat, i: nat)
    requires i < |log|
  {
    IsReset(log, k, i) && forall j: nat :: j < i ==> !IsReset(log, k, j)
  }

  predicate IsLast(log: seq<Entry>, k: nat, i: nat)
    requires i < |log|
  {
    IsReset(log, k, i) && forall j: nat :: i < j < |log| ==> !IsReset(log, k, j)
  }

  /** The merged reset goes from the first old head to the last new head. */
  lemma {:induction false} ResetSpan(log: seq<Entry>, k: nat)
    ensures ResetOf(log, k).None? <==> forall i: nat :: i < |log| ==> !IsReset(log, k, i)
    ensures forall i: nat :: i < |log| && IsFirst(log, k, i) ==>
      ResetOf(log, k).Some? && ResetOf(log, k).value.0 == log[i].request.oldHead
    ensures forall i: nat :: i < |log| && IsLast(log, k, i) ==>
      ResetOf(log, k).Some? && ResetOf(log, k).value.1 == log[i].request.newHead
  {
    if log != [] {
      var t := |log| - 1;
      var front := log[..t];
      ResetSpan(front, k);
      assert forall i: nat :: i < t ==> IsReset(log, k, i) == IsReset(front, k, i);
      if IsReset(log, k, t) {
        assert ResetOf(log, k).Some?;
      } else {
        assert ResetOf(log, k) == ResetOf(front, k);
      }
      forall i: nat | i < |log| && IsFirst(log, k, i)
        ensures ResetOf(log, k).Some? && ResetOf(log, k).value.0 == log[i].request.oldHead
      {
        if i < t {
          assert IsFirst(front, k, i);
        } else {
          assert ResetOf(front, k).None?;
        }
      }
      forall i: nat | i < |log| && IsLast(log, k, i)
        ensures ResetOf(log, k).Some? && ResetOf(log, k).value.1 == log[i].request.newHead
      {
        if i < t {
          assert !IsReset(log, k, t);
          assert IsLast(front, k, i);
        }
      }
    }
  }

  /** Some request answered with channel `k` is about account `a`. */
  predicate AskedFor(log: seq<Entry>, k: nat, a: Addr) {
    exists i :: 0 <= i < |log| && log[i].channel == k && log[i].request.Promote? && a in log[i].request.accounts
  }

  /** The merged accounts are those of all promotion requests, and no others. */
  lemma {:induction false} DirtyUnion(log: seq<Entry>, k: nat, a: Addr)
    ensures (DirtyOf(log, k).Some? && a in DirtyOf(log, k).value) <==> AskedFor(log, k, a)
  {
    if log != [] {
      DirtyUnion(log[..|log| - 1], k, a);
    }
  }

  // ---------- what holds in every run of the loop ----------

  /** Some request was answered with channel `k`. */
  ghost predicate Asked(log: seq<Entry>, k: nat) {
    exists i :: 0 <= i < |log| && log[i].channel == k
  }

  /** The books: what is waiting for the next run, and what the launched runs were given. */
  ghost predicate Recorded(s: State) {
    && (forall i :: 0 <= i < |s.log| ==> s.log[i].channel <= |s.runs|)
    && (s.launchNext <==> Asked(s.log, |s.runs|))
    && s.reset == ResetOf(s.log, |s.runs|) && s.dirty == DirtyOf(s.log, |s.runs|)
    && (forall k: nat :: k < |s.runs| ==> RightRun(s.log, s.runs[k], k))
  }

  /** Run `k` was launched after its requests, with exactly what they add up to. */
  ghost predicate RightRun(log: seq<Entry>, run: Launch, k: nat) {
    && run.reset == ResetOf(log, k) && run.dirty == DirtyOf(log, k) && run.seen <= |log|
    && (forall i :: 0 <= i < |log| && log[i].channel == k ==> i < run.seen)
  }

  /** At most one run is not finished, and without one no request is waiting. */
  ghost predicate Inv(s: State) {
    && Recorded(s)
    && (if s.active then s.runs != [] && |s.runs| - 1 <= s.finished <= |s.runs| else s.finished == |s.runs| && !s.launchNext)
  }

  lemma {:induction false} NothingFor(log: seq<Entry>, k: nat)
    requires !Asked(log, k)
    ensures ResetOf(log, k).None? && DirtyOf(log, k).None?
  {
    if log != [] {
      var front := log[..|log| - 1];
      forall i | 0 <= i < |front| ensures front[i].channel != k {
        assert log[i].channel != k;
      }
      NothingFor(front, k);
    }
  }

  lemma LoopTopKeeps(s: State)
    requires Recorded(s)
    requires (if s.active then s.runs != [] && |s.runs| - 1 <= s.finished <= |s.runs| else s.finished == |s.runs|)
    ensures Inv(LoopTop(s))
  {
    if !s.active && s.launchNext {
      NothingFor(s.log, |s.runs| + 1);
    }
  }

  /** A request joins the ones waiting for the next run. */
  lemma AskKeeps(s: State, r: Request)
    requires Recorded(s)
    ensures Recorded(Merge(s, r).(launchNext := true, log := s.log + [Entry(r, |s.runs|)]))
  {
    var e := Entry(r, |s.runs|);
    var log := s.log + [e];
    assert log[..|log| - 1] == s.log;
    assert Asked(log, |s.runs|) by {
      assert log[|s.log|].channel == |s.runs|;
    }
    forall k: nat | k < |s.runs| ensures RightRun(log, s.runs[k], k) {
      assert RightRun(s.log, s.runs[k], k);
    }
  }

  lemma StepKeeps(s: State, e: Event)
    requires Inv(s)
    ensures Inv(Apply(s, e))
  {
    hide RightRun, ResetOf, DirtyOf, Asked;
    match e
    case Ask(r) =>
      AskKeeps(s, r);
      LoopTopKeeps(Merge(s, r).(launchNext := true, log := s.log + [Entry(r, |s.runs|)]));
    case RunEnds =>
    case Noticed =>
      if s.active && s.finished == |s.runs| {
        LoopTopKeeps(s.(active := false));
      }
  }

  lemma {:induction false} RunKeeps(events: seq<Event>)
    ensures Inv(Run(events))
  {
    hide Recorded;
    if events == [] {
      StartKeeps();
    } else {
      RunKeeps(events[..|events| - 1]);
      StepKeeps(Run(events[..|events| - 1]), events[|events| - 1]);
    }
  }

  lemma StartKeeps()
    ensures Inv(START)
  {
  }

  /** A run does what a request asked for: it resets, or it treats the request's accounts.  Whether
      it promotes what they were waiting for is another matter when it resets (see
      `PoolGaps.ResetStrands`). */
  predicate Covers(run: Launch, r: Request) {
    match r
    case Reset(o, n) => run.reset.Some?
    case Promote(a) => run.reset.Some? || (run.dirty.Some? && a <= run.dirty.value)
  }

  /** Whenever a request's channel is closed, a run that was launched after the request and covers
      it has finished; while it is not closed, that run is active or waiting to be launched. */
  lemma RequestServed(events: seq<Event>, i: nat)
    requires i < |Run(events).log|
    ensures var s, k := Run(events), Run(events).log[i].channel;
      && (k < s.finished ==> k < |s.runs|)
      && (k < |s.runs| ==> i < s.runs[k].seen && Covers(s.runs[k], s.log[i].request))
      && (k >= s.finished ==> (s.active && k == |s.runs| - 1) || (s.launchNext && k == |s.runs|))
  {
    RunKeeps(events);
    var s := Run(events);
    var e := s.log[i];
    if e.channel < |s.runs| {
      assert RightRun(s.log, s.runs[e.channel], e.channel);
      match e.request
      case Reset(o, n) =>
        ResetSpan(s.log, e.channel);
        assert IsReset(s.log, e.channel, i);
      case Promote(a) =>
        DirtyHas(s.log, e.channel, i);
    } else {
      assert Asked(s.log, |s.runs|);
    }
  }

  lemma DirtyHas(log: seq<Entry>, k: nat, i: nat)
    requires i < |log| && log[i].channel == k && log[i].request.Promote?
    ensures DirtyOf(log, k).Some? && log[i].request.accounts <= DirtyOf(log, k).value
  {
    DirtySome(log, k, i);
    forall a <- log[i].request.accounts ensures a in DirtyOf(log, k).value {
      DirtyUnion(log, k, a);
    }
  }

  lemma {:induction false} DirtySome(log: seq<Entry>, k: nat, i: nat)
    requires i < |log| && log[i].channel == k && log[i].request.Promote?
    ensures DirtyOf(log, k).Some?
  {
    if i < |log| - 1 {
      DirtySome(log[..|log| - 1], k, i);
    }
  }

  /** A launched run resets from the first old head to the last new head asked of it, and its
      accounts are exactly those asked of it. */
  lemma RunExact(events: seq<Event>, k: nat)
    requires k < |Run(events).runs|
    ensures var s, run := Run(events), Run(events).runs[k];
      && (forall i: nat :: i < |s.log| && IsFirst(s.log, k, i) ==> run.reset.Some? && run.reset.value.0 == s.log[i].request.oldHead)
      && (forall i: nat :: i < |s.log| && IsLast(s.log, k, i) ==> run.reset.Some? && run.reset.value.1 == s.log[i].request.newHead)
      && (run.reset.Some? ==> exists i: nat :: i < |s.log| && IsReset(s.log, k, i))
      && (forall a :: (run.dirty.Some? && a in run.dirty.value) <==> AskedFor(s.log, k, a))
  {
    RunKeeps(events);
    var s := Run(events);
    assert RightRun(s.log, s.runs[k], k);
    ResetSpan(s.log, k);
    forall a ensures (s.runs[k].dirty.Some? && a in s.runs[k].dirty.value) <==> AskedFor(s.log, k, a) {
      DirtyUnion(s.log, k, a);
    }
  }

  /** At most one run is active at a time, and no request waits while none is. */
  lemma OneAtATime(events: seq<Event>)
    ensures var s := Run(events); |s.runs| - 1 <= s.finished <= |s.runs| && (s.finished < |s.runs| ==> s.active) && (s.launchNext ==> s.active)
  {
    RunKeeps(events);
  }

  /** Whatever was asked is done once the active run ends, the loop notices it and the next run ends. */
  lemma ServedInTime(events: seq<Event>, i: nat)
    requires i < |Run(events).log|
    ensures Run(events).log[i].channel < Apply(Apply(Apply(Run(events), RunEnds), Noticed), RunEnds).finished
  {
    RequestServed(events, i);
    OneAtATime(events);
  }

  // ---------- the loop's variables ----------

  class ReorgScheduler {
    var curDone: Option<nat>  // the channel of the active run
    var nextDone: nat         // the channel of the run to come
    var launchNextRun: bool
    var reset: Option<(Head, Head)>
    var dirtyAccounts: Option<set<Addr>>
    ghost var log: seq<Entry>
    ghost var runs: seq<Launch>
    ghost var finished: nat   // advanced by the runs themselves

    ghost function Abs(): State
      reads this
    {
      State(curDone.Some?, launchNextRun, reset, dirtyAccounts, log, runs, finished)
    }

    /** Channels are numbered like runs. */
    ghost predicate Valid()
      reads this
    {
      nextDone == |runs| && (curDone.Some? ==> |runs| > 0 && curDone.value == |runs| - 1)
    }

    constructor ()
      ensures Valid() && Abs() == START
    {
      curDone, nextDone, launchNextRun, reset, dirtyAccounts := None, 0, false, None, None;
      log, runs, finished := [], [], 0;
    }

    /** The top of the loop. */
    method LaunchIfDue()
      requires Valid()
      modifies this
      ensures Valid() && Abs() == LoopTop(old(Abs()))
    {
      if curDone.None? && launchNextRun {
        runs := runs + [Launch(reset, dirtyAccounts, |log|)];
        curDone, nextDone := Some(nextDone), nextDone + 1;
        launchNextRun := false;
        reset, dirtyAccounts := None, None;
      }
    }

    method HandleReset(oldHead: Head, newHead: Head) returns (done: nat)
      requires Valid()
      modifies this
      ensures Valid() && Abs() == Apply(old(Abs()), Ask(Reset(oldHead, newHead)))
      ensures log == old(log) + [Entry(Reset(oldHead, newHead), done)]
    {
      if reset.None? {
        reset := Some((oldHead, newHead));
      } else {
        reset := Some((reset.value.0, newHead));
      }
      launchNextRun := true;
      done := nextDone;
      log := log + [Entry(Reset(oldHead, newHead), done)];
      LaunchIfDue();
    }

    method HandlePromote(accounts: set<Addr>) returns (done: nat)
      requires Valid()
      modifies this
      ensures Valid() && Abs() == Apply(old(Abs()), Ask(Promote(accounts)))
      ensures log == old(log) + [Entry(Promote(accounts), done)]
    {
      if dirtyAccounts.None? {
        dirtyAccounts := Some(accounts);
      } else {
        dirtyAccounts := Some(dirtyAccounts.value + accounts);
      }
      launchNextRun := true;
      done := nextDone;
      log := log + [Entry(Promote(accounts), done)];
      LaunchIfDue();
    }

    /** The loop receives from the active run's channel, which can only be when it is closed. */
    method HandleDone()
      requires Valid() && curDone.Some? && finished == |runs|
      modifies this
      ensures Valid() && Abs() == Apply(old(Abs()), Noticed)
    {
      curDone := None;
      LaunchIfDue();
    }
  }
}
