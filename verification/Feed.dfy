/**
 The one-to-many event feed of event/feed.go.

 `sendCases` starts with the case that receives removals; the others are subscriptions.  During a
 send the active cases are a prefix of it.  Which channels are ready, what a blocking select picks
 and when subscribers come and go is not determined.
 */
module Feeds {
  import opened Basics

  type Channel = nat

  datatype Case = RemoveSub | Sub(channel: Channel)

  /** The subscription cases: everything after the first. */
  function Subs(cases: seq<Case>): seq<Case> {
    if cases == [] then [] else cases[1..]
  }

  predicate AllSubs(cases: seq<Case>) {
    forall c <- cases :: c.Sub?
  }

  /** The active subscriptions among the first `n` cases. */
  ghost function Active(cases: seq<Case>, n: nat): multiset<Case>
    requires 1 <= n <= |cases|
  {
    multiset(cases[1..n])
  }

  function Without(cases: seq<Case>, i: nat): seq<Case>
    requires i < |cases|
  {
    cases[..i] + cases[i + 1..]
  }

  /** The removal case aside, as many subscriptions are left as were not removed. */
  lemma SubsAre(cases: seq<Case>, removed: multiset<Case>, all: seq<Case>)
    requires cases != [] && all != [] && cases[0] == all[0] && multiset(cases) + removed == multiset(all)
    ensures multiset(Subs(cases)) + removed == multiset(Subs(all))
  {
    assert cases == [cases[0]] + Subs(cases) && all == [all[0]] + Subs(all);
    assert multiset(Subs(cases)) + removed == multiset(cases) + removed - multiset{all[0]};
  }

  lemma SubAt(cases: seq<Case>, i: nat)
    requires AllSubs(Subs(cases)) && 1 <= i < |cases|
    ensures cases[i].Sub? && cases[i] in cases
  {
    assert Subs(cases)[i - 1] == cases[i];
    assert cases[i] in Subs(cases);
  }

  lemma SwapSubs(cases: seq<Case>, i: nat, j: nat)
    requires AllSubs(Subs(cases)) && 1 <= i < |cases| && 1 <= j < |cases|
    ensures AllSubs(Subs(Swap(cases, i, j)))
  {
    var r := Swap(cases, i, j);
    forall k | 0 <= k < |Subs(r)| ensures Subs(r)[k].Sub? {
      SubAt(cases, i);
      SubAt(cases, j);
      SubAt(cases, k + 1);
    }
  }

  /** Moving a case to the end of the active part and shrinking that part by one. */
  lemma Deactivated(cases: seq<Case>, n: nat, i: nat)
    requires 1 <= i < n <= |cases|
    ensures multiset(Swap(cases, i, n - 1)) == multiset(cases) && Swap(cases, i, n - 1)[0] == cases[0]
    ensures Active(Swap(cases, i, n - 1), n - 1) + multiset{cases[i]} == Active(cases, n)
  {
    SwapSame(cases, i, n - 1);
    SwapLast(cases[1..n], i - 1);
    assert Swap(cases, i, n - 1)[1..n - 1] == Swap(cases[1..n], i - 1, n - 2)[..n - 2];
  }

  lemma SwapLast(part: seq<Case>, i: nat)
    requires i < |part|
    ensures multiset(Swap(part, i, |part| - 1)[..|part| - 1]) + multiset{part[i]} == multiset(part)
  {
    SwapSame(part, i, |part| - 1);
    var after := Swap(part, i, |part| - 1);
    assert after == after[..|part| - 1] + [part[i]];
  }

  lemma WithoutOne(cases: seq<Case>, i: nat)
    requires i < |cases|
    ensures multiset(Without(cases, i)) + multiset{cases[i]} == multiset(cases)
  {
    assert cases == cases[..i] + [cases[i]] + cases[i + 1..];
  }

  lemma WithoutSub(cases: seq<Case>, i: nat)
    requires 0 < i < |cases| && AllSubs(Subs(cases))
    ensures multiset(Without(cases, i)) + multiset{cases[i]} == multiset(cases)
    ensures multiset(Subs(Without(cases, i))) + multiset{cases[i]} == multiset(Subs(cases))
    ensures AllSubs(Subs(Without(cases, i)))
  {
    WithoutOne(cases, i);
    WithoutOne(Subs(cases), i - 1);
    assert Subs(Without(cases, i)) == Without(Subs(cases), i - 1);
  }

  /** Deleting a case shrinks the active part exactly if it was active. */
  lemma Deleted(cases: seq<Case>, n: nat, i: nat)
    requires 1 <= n <= |cases| && 1 <= i < |cases|
    ensures |Without(cases, i)| == |cases| - 1 && Without(cases, i)[0] == cases[0]
    ensures i < n ==> Active(Without(cases, i), n - 1) + multiset{cases[i]} == Active(cases, n)
    ensures i >= n ==> Active(Without(cases, i), n) == Active(cases, n)
  {
    var r := Without(cases, i);
    if i < n {
      WithoutOne(cases[1..n], i - 1);
      assert r[1..n - 1] == Without(cases[1..n], i - 1);
    } else {
      assert r[1..n] == cases[1..n];
    }
  }

  /** What a send owes: everything subscribed was delivered once or removed before its turn. */
  ghost predicate Settled(original: multiset<Case>, active: multiset<Case>, delivered: multiset<Case>,
                          missed: multiset<Case>) {
    active + delivered + missed == original
  }

  /** A send starts with everything active that is subscribed. */
  lemma SendStart(cases: seq<Case>, inbox: seq<Case>)
    requires cases != [] && AllSubs(Subs(cases)) && AllSubs(inbox)
    ensures var all := cases + inbox;
      && AllSubs(Subs(all)) && AllSubs([]) && all[0] == cases[0]
      && multiset(Subs(all)) == multiset(Subs(cases)) + multiset(inbox)
      && Settled(multiset(Subs(all)), Active(all, |all|), multiset{}, multiset{})
  {
    var all := cases + inbox;
    assert Subs(all) == all[1..|all|] == Subs(cases) + inbox;
  }

  lemma NoneActive(cases: seq<Case>)
    requires cases != []
    ensures Active(cases, 1) == multiset{}
  {
  }

  /** For a channel subscribed once: delivered exactly once if it was not removed during the send,
      at most once if it was. */
  lemma OncePerChannel(original: multiset<Case>, delivered: multiset<Case>, missed: multiset<Case>,
                       removed: multiset<Case>, c: Case)
    requires Settled(original, multiset{}, delivered, missed) && missed <= removed && original[c] == 1
    ensures removed[c] == 0 ==> delivered[c] == 1
    ensures delivered[c] <= 1
  {
    assert (multiset{} + delivered + missed)[c] == delivered[c] + missed[c];
    assert missed[c] <= removed[c];
  }

  /** What others ask of the inbox while a send is in progress. */
  datatype Request = Join(channel: Channel) | Quit(channel: Channel)

  /** What the first `n` requests leave in an inbox that was empty; cancelling what is not there has
      no effect on it. */
  ghost function InboxAfter(others: seq<Request>, n: nat): multiset<Case>
    requires n <= |others|
  {
    if n == 0 then
      multiset{}
    else
      match others[n - 1]
      case Join(ch) => InboxAfter(others, n - 1) + multiset{Sub(ch)}
      case Quit(ch) => InboxAfter(others, n - 1) - multiset{Sub(ch)}
  }

  /** The first `n` subscriptions that ask to be cancelled. */
  ghost function Cancelled(cancels: seq<Channel>, n: nat): multiset<Case>
    requires n <= |cancels|
  {
    if n == 0 then multiset{} else Cancelled(cancels, n - 1) + multiset{Sub(cancels[n - 1])}
  }

  /** Whoever does not ask to be cancelled gets the value, as often as it is subscribed. */
  lemma {:induction false} Stayers(original: multiset<Case>, delivered: multiset<Case>, missed: multiset<Case>,
                                   cancels: seq<Channel>, n: nat, ch: Channel)
    requires n <= |cancels| && forall i :: 0 <= i < n ==> cancels[i] != ch
    ensures Cancelled(cancels, n)[Sub(ch)] == 0
    ensures Settled(original, multiset{}, delivered, missed) && missed <= Cancelled(cancels, n) ==>
      delivered[Sub(ch)] == original[Sub(ch)]
  {
    NotCancelled(cancels, n, ch);
    if Settled(original, multiset{}, delivered, missed) && missed <= Cancelled(cancels, n) {
      assert missed[Sub(ch)] <= Cancelled(cancels, n)[Sub(ch)];
      assert (multiset{} + delivered + missed)[Sub(ch)] == delivered[Sub(ch)] + missed[Sub(ch)];
    }
  }

  lemma {:induction false} NotCancelled(cancels: seq<Channel>, n: nat, ch: Channel)
    requires n <= |cancels| && forall i :: 0 <= i < n ==> cancels[i] != ch
    ensures Cancelled(cancels, n)[Sub(ch)] == 0
  {
    if n > 0 {
      NotCancelled(cancels, n - 1, ch);
    }
  }

  lemma CancelledStart(cancels: seq<Channel>)
    ensures Cancelled(cancels, 0) == multiset{}
  {
  }

  lemma InboxStep(others: seq<Request>, n: nat)
    requires n < |others|
    ensures InboxAfter(others, n + 1) ==
      match others[n]
      case Join(ch) => InboxAfter(others, n) + multiset{Sub(ch)}
      case Quit(ch) => InboxAfter(others, n) - multiset{Sub(ch)}
  {
  }

  lemma InboxStart(others: seq<Request>)
    ensures InboxAfter(others, 0) == multiset{}
  {
  }

  class Feed {
    var sendCases: seq<Case>
    var inbox: seq<Case>

    ghost predicate Valid()
      reads this
    {
      |sendCases| > 0 && sendCases[0] == RemoveSub && AllSubs(Subs(sendCases)) && AllSubs(inbox)
    }

    constructor ()
      ensures Valid() && sendCases == [RemoveSub] && inbox == []
    {
      sendCases, inbox := [RemoveSub], [];
    }

    /** All subscriptions, taken up by the sender or still waiting in the inbox. */
    ghost function Subscribed(): multiset<Case>
      reads this
    {
      multiset(Subs(sendCases)) + multiset(inbox)
    }

    /** Subscribes a channel once more; `Remove` undoes it. */
    method Subscribe(ch: Channel)
      requires Valid()
      modifies this`inbox
      ensures Valid() && Subscribed() == old(Subscribed()) + multiset{Sub(ch)}
      ensures multiset(inbox) == multiset(old(inbox)) + multiset{Sub(ch)}
    {
      inbox := inbox + [Sub(ch)];
    }

    /** Cancels a subscription that is still in the inbox. */
    method QuitInbox(ch: Channel) returns (found: bool)
      requires Valid()
      modifies this`inbox
      ensures Valid() && found == (Sub(ch) in old(inbox)) && multiset(inbox) == multiset(old(inbox)) - multiset{Sub(ch)}
      ensures found ==> multiset(inbox) + multiset{Sub(ch)} == multiset(old(inbox))
      ensures !found ==> inbox == old(inbox)
    {
      var index := Find(inbox, Sub(ch));
      found := index != -1;
      if found {
        WithoutOne(inbox, index);
        inbox := Without(inbox, index);
      }
    }

    /** Unsubscribes a channel while no send is in progress: from the inbox if it is there. */
    method Remove(ch: Channel)
      requires Valid() && (Sub(ch) in inbox || Sub(ch) in sendCases)
      modifies this
      ensures Valid() && Subscribed() + multiset{Sub(ch)} == old(Subscribed())
      ensures Sub(ch) in old(inbox) ==>
        sendCases == old(sendCases) && multiset(inbox) + multiset{Sub(ch)} == multiset(old(inbox))
      ensures Sub(ch) !in old(inbox) ==>
        inbox == old(inbox) && multiset(sendCases) + multiset{Sub(ch)} == multiset(old(sendCases))
    {
      hide AllSubs, Subs;
      var found := QuitInbox(ch);
      if found {
        return;
      }
      var index := Find(sendCases, Sub(ch));
      WithoutSub(sendCases, index);
      sendCases := Without(sendCases, index);
    }

    /** Delivers a value to every subscription.  Of those that ask to be cancelled the first `quits`
        are meanwhile, which are `removed`; `missed` are those of them that had not received the value
        yet.  The first `served` of `others` reach the inbox during the send, which touches it only
        at the start. */
    method Send(others: seq<Request>, cancels: seq<Channel>)
      returns (nsent: nat, served: nat, quits: nat, ghost delivered: multiset<Case>, ghost missed: multiset<Case>,
               ghost removed: multiset<Case>)
      requires Valid()
      modifies this
      ensures Valid() && nsent == |delivered| && served <= |others| && quits <= |cancels|
      ensures removed == Cancelled(cancels, quits) && multiset(inbox) == InboxAfter(others, served)
      ensures Subscribed() + removed == old(Subscribed()) + InboxAfter(others, served)
      ensures missed <= removed && Settled(old(Subscribed()), multiset{}, delivered, missed)
      ensures forall ch :: ch !in cancels ==> delivered[Sub(ch)] == old(Subscribed())[Sub(ch)]
    {
      hide InboxAfter, Cancelled, Settled, Active, AllSubs, Subs;
      ghost var all := sendCases + inbox;
      SendStart(sendCases, inbox);
      sendCases := sendCases + inbox;
      inbox := [];
      nsent, delivered, missed, removed, served, quits := 0, multiset{}, multiset{}, multiset{}, 0, 0;
      InboxStart(others);
      CancelledStart(cancels);
      var n := |sendCases|;
      while true
        invariant Valid() && 1 <= n <= |sendCases| && nsent == |delivered| && missed <= removed && served <= |others|
        invariant multiset(sendCases) + removed == multiset(all) && multiset(inbox) == InboxAfter(others, served)
        invariant quits <= |cancels| && removed == Cancelled(cancels, quits)
        invariant Settled(multiset(Subs(all)), Active(sendCases, n), delivered, missed)
        decreases n + |sendCases|
      {
        n, nsent, delivered := TryAll(n, nsent, delivered, missed, multiset(Subs(all)));
        if n == 1 {
          NoneActive(sendCases);
          SubsAre(sendCases, removed, all);
          break;
        }
        served := ServeOthers(others, served);
        n, nsent, quits, delivered, missed, removed :=
          SelectOne(n, nsent, cancels, quits, delivered, missed, removed, multiset(Subs(all)));
      }
      forall ch | ch !in cancels ensures delivered[Sub(ch)] == old(Subscribed())[Sub(ch)] {
        Stayers(old(Subscribed()), delivered, missed, cancels, quits, ch);
      }
    }

    /** Others subscribe, and unsubscribe what is still in the inbox. */
    method ServeOthers(others: seq<Request>, served0: nat) returns (served: nat)
      requires Valid() && served0 <= |others| && multiset(inbox) == InboxAfter(others, served0)
      modifies this`inbox
      ensures Valid() && served0 <= served <= |others| && multiset(inbox) == InboxAfter(others, served)
    {
      hide AllSubs, Subs, InboxAfter;
      var upto: nat :| served0 <= upto <= |others|;
      for i := served0 to upto
        invariant Valid() && multiset(inbox) == InboxAfter(others, i)
      {
        InboxStep(others, i);
        match others[i]
        case Join(ch) =>
          Subscribe(ch);
        case Quit(ch) =>
          var found := QuitInbox(ch);
      }
      served := upto;
    }

    /** The fast path: offers the value to every active channel without blocking. */
    method TryAll(n0: nat, nsent0: nat, ghost delivered0: multiset<Case>, ghost missed: multiset<Case>,
                  ghost original: multiset<Case>)
      returns (n: nat, nsent: nat, ghost delivered: multiset<Case>)
      requires Valid() && 1 <= n0 <= |sendCases| && nsent0 == |delivered0|
      requires Settled(original, Active(sendCases, n0), delivered0, missed)
      modifies this`sendCases
      ensures Valid() && 1 <= n <= n0 && nsent == |delivered| && |sendCases| == |old(sendCases)|
      ensures multiset(sendCases) == multiset(old(sendCases))
      ensures n <= |sendCases| && Settled(original, Active(sendCases, n), delivered, missed)
    {
      n, nsent, delivered := n0, nsent0, delivered0;
      var i := 1;
      while i < n
        invariant Valid() && 1 <= n <= n0 && 1 <= i <= n && nsent == |delivered| && |sendCases| == |old(sendCases)|
        invariant multiset(sendCases) == multiset(old(sendCases))
        invariant Settled(original, Active(sendCases, n), delivered, missed)
        decreases n - i
      {
        var sent: bool := *;
        if sent {
          nsent := nsent + 1;
          delivered := delivered + multiset{sendCases[i]};
          n := Deactivate(n, i);
        } else {
          i := i + 1;
        }
      }
    }

    /** Moves a case out of the active part. */
    method Deactivate(n: nat, i: nat) returns (last: nat)
      requires Valid() && 1 <= i < n <= |sendCases|
      modifies this`sendCases
      ensures Valid() && last == n - 1 && |sendCases| == |old(sendCases)|
      ensures multiset(sendCases) == multiset(old(sendCases))
      ensures Active(sendCases, last) + multiset{old(sendCases)[i]} == Active(old(sendCases), n)
    {
      hide AllSubs, Active;
      Deactivated(sendCases, n, i);
      SwapSubs(sendCases, i, n - 1);
      last := n - 1;
      sendCases := Swap(sendCases, i, last);
    }

    /** Deletes a subscription, active or not. */
    method Delete(n: nat, index: nat) returns (left: nat)
      requires Valid() && 1 <= n <= |sendCases| && 1 <= index < |sendCases|
      modifies this`sendCases
      ensures Valid() && left == (if index < n then n - 1 else n) && 1 <= left <= |sendCases| == |old(sendCases)| - 1
      ensures multiset(sendCases) + multiset{old(sendCases)[index]} == multiset(old(sendCases))
      ensures Active(sendCases, left) + (if index < n then multiset{old(sendCases)[index]} else multiset{}) == Active(old(sendCases), n)
    {
      Deleted(sendCases, n, index);
      WithoutOne(sendCases, index);
      sendCases := Without(sendCases, index);
      left := if index < n then n - 1 else n;
    }

    /** Blocks until a channel takes the value or the next subscription is cancelled. */
    method SelectOne(n0: nat, nsent0: nat, cancels: seq<Channel>, quits0: nat, ghost delivered0: multiset<Case>,
                     ghost missed0: multiset<Case>, ghost removed0: multiset<Case>, ghost original: multiset<Case>)
      returns (n: nat, nsent: nat, quits: nat, ghost delivered: multiset<Case>, ghost missed: multiset<Case>,
               ghost removed: multiset<Case>)
      requires Valid() && 1 < n0 <= |sendCases| && nsent0 == |delivered0| && missed0 <= removed0
      requires quits0 <= |cancels| && removed0 == Cancelled(cancels, quits0)
      requires Settled(original, Active(sendCases, n0), delivered0, missed0)
      modifies this`sendCases
      ensures Valid() && 1 <= n <= |sendCases| && nsent == |delivered| && missed <= removed
      ensures quits <= |cancels| && removed == Cancelled(cancels, quits)
      ensures multiset(sendCases) + removed == multiset(old(sendCases)) + removed0
      ensures Settled(original, Active(sendCases, n), delivered, missed)
      ensures n + |sendCases| < n0 + |old(sendCases)|
      ensures if quits == quits0 then nsent == nsent0 + 1 && missed == missed0 else quits == quits0 + 1 && nsent == nsent0
    {
      n, nsent, quits, delivered, missed, removed := n0, nsent0, quits0, delivered0, missed0, removed0;
      assert 1 < n;
      var chosen: nat :| chosen < n && (chosen == 0 ==> quits < |cancels| && Sub(cancels[quits]) in sendCases);
      if chosen == 0 {
        ghost var before, gone := n, Sub(cancels[quits]);
        var index: nat;
        n, index := ReceiveRemoval(n, cancels[quits]);
        removed := removed + multiset{gone};
        if index < before {
          missed := missed + multiset{gone};
        }
        quits := quits + 1;
      } else {
        delivered := delivered + multiset{sendCases[chosen]};
        n := Deactivate(n, chosen);
        nsent := nsent + 1;
      }
    }

    /** A subscription is cancelled. */
    method ReceiveRemoval(n: nat, ch: Channel) returns (left: nat, index: nat)
      requires Valid() && 1 < n <= |sendCases| && Sub(ch) in sendCases
      modifies this`sendCases
      ensures Valid() && 1 <= index < |old(sendCases)| && left == (if index < n then n - 1 else n)
      ensures 1 <= left <= |sendCases| == |old(sendCases)| - 1
      ensures old(sendCases)[index] == Sub(ch) && multiset(sendCases) + multiset{Sub(ch)} == multiset(old(sendCases))
      ensures Active(sendCases, left) + (if index < n then multiset{Sub(ch)} else multiset{}) == Active(old(sendCases), n)
    {
      hide Active;
      index := Find(sendCases, Sub(ch));
      left := Delete(n, index);
    }
  }

  /** The first index of a case, or -1. */
  method Find(cases: seq<Case>, c: Case) returns (index: int)
    ensures index == -1 <==> c !in cases
    ensures index != -1 ==> 0 <= index < |cases| && cases[index] == c && forall k :: 0 <= k < index ==> cases[k] != c
  {
    for i := 0 to |cases|
      invariant forall k :: 0 <= k < i ==> cases[k] != c
    {
      if cases[i] == c {
        return i;
      }
    }
    index := -1;
  }
}
