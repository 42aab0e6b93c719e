/**
  The one-to-many event feed (event/feed.go) as a state machine.

  A run interleaves Subscribe, Unsubscribe and Send freely. `cases` is the
  backing array of sendCases; the slice `cases` of a running Send is its prefix
  of length `active`, so the in-place swaps and deletes of the source act on one
  sequence. Whether a receiver is ready, and what the runtime's select picks,
  is left open.
 */
module Feeds {
  type Chan = nat

  /** Case 0 receives from removeSub, all others send to a subscriber. */
  datatype Case = RemoveSub | Sub(ch: Chan)

  // ---------- caseList ----------

  ghost predicate IsFirst(cs: seq<Case>, ch: Chan, i: int) {
    0 <= i < |cs| && cs[i] == Sub(ch) && Sub(ch) !in cs[..i]
  }

  method Find(cs: seq<Case>, ch: Chan) returns (i: int)
    ensures if Sub(ch) in cs then IsFirst(cs, ch, i) else i == -1
  {
    for j := 0 to |cs|
      invariant Sub(ch) !in cs[..j]
    {
      if cs[j] == Sub(ch) {
        return j;
      }
    }
    return -1;
  }

  function Delete(cs: seq<Case>, i: nat): seq<Case>
    requires i < |cs|
  {
    cs[..i] + cs[i + 1..]
  }

  /** Swaps case i with the last active one. */
  function Deactivate(cs: seq<Case>, active: nat, i: nat): seq<Case>
    requires i < active <= |cs|
  {
    cs[i := cs[active - 1]][active - 1 := cs[i]]
  }

  function One(x: Case, y: Case): nat {
    if x == y then 1 else 0
  }

  /** How often x occurs among the cases from lo up to hi. */
  ghost function Count(cs: seq<Case>, lo: nat, hi: nat, x: Case): nat
    requires lo <= hi <= |cs|
    decreases hi - lo
  {
    if lo == hi then 0 else One(cs[lo], x) + Count(cs, lo + 1, hi, x)
  }

  lemma {:induction false} CountJoin(cs: seq<Case>, lo: nat, mid: nat, hi: nat, x: Case)
    requires lo <= mid <= hi <= |cs|
    ensures Count(cs, lo, hi, x) == Count(cs, lo, mid, x) + Count(cs, mid, hi, x)
    decreases mid - lo
  {
    if lo < mid {
      CountJoin(cs, lo + 1, mid, hi, x);
    }
  }

  /** Equal stretches, possibly shifted by d, count alike. */
  lemma {:induction false} CountSame(cs: seq<Case>, lo: nat, hi: nat, ds: seq<Case>, d: int, x: Case)
    requires lo <= hi <= |cs| && 0 <= lo + d && hi + d <= |ds|
    requires forall j | lo <= j < hi :: cs[j] == ds[j + d]
    ensures Count(cs, lo, hi, x) == Count(ds, lo + d, hi + d, x)
    decreases hi - lo
  {
    if lo < hi {
      CountSame(cs, lo + 1, hi, ds, d, x);
    }
  }

  lemma CountAround(cs: seq<Case>, lo: nat, i: nat, hi: nat, x: Case)
    requires lo <= i < hi <= |cs|
    ensures Count(cs, lo, hi, x) == Count(cs, lo, i, x) + One(cs[i], x) + Count(cs, i + 1, hi, x)
  {
    CountJoin(cs, lo, i, hi, x);
  }

  lemma {:induction false} CountIsMultiset(cs: seq<Case>, lo: nat, hi: nat, x: Case)
    requires lo <= hi <= |cs|
    ensures Count(cs, lo, hi, x) == multiset(cs[lo..hi])[x]
    decreases hi - lo
  {
    if lo < hi {
      CountIsMultiset(cs, lo + 1, hi, x);
      assert cs[lo..hi] == [cs[lo]] + cs[lo + 1..hi];
    }
  }

  /** Deleting case i takes exactly that case out, from whichever part it is in. */
  lemma DeleteParts(cs: seq<Case>, lo: nat, i: nat, hi: nat, x: Case)
    requires lo <= i < hi <= |cs|
    ensures |Delete(cs, i)| == |cs| - 1
    ensures Count(Delete(cs, i), lo, hi - 1, x) + One(cs[i], x) == Count(cs, lo, hi, x)
  {
    var r := Delete(cs, i);
    CountAround(cs, lo, i, hi, x);
    CountJoin(r, lo, i, hi - 1, x);
    CountSame(r, lo, i, cs, 0, x);
    CountSame(r, i, hi - 1, cs, 1, x);
  }

  /** Deactivating case i moves it from the owed part to the front of the served part. */
  lemma DeactivateParts(cs: seq<Case>, a: nat, i: nat, x: Case)
    requires 1 <= i < a <= |cs|
    ensures var r := Deactivate(cs, a, i);
            && |r| == |cs| && r[0] == cs[0]
            && Count(r, 1, a - 1, x) + One(cs[i], x) == Count(cs, 1, a, x)
            && Count(r, a - 1, |r|, x) == One(cs[i], x) + Count(cs, a, |cs|, x)
  {
    var r := Deactivate(cs, a, i);
    CountSame(r, a, |r|, cs, 0, x);
    CountAround(cs, 1, i, a, x);
    CountSame(r, 1, i, cs, 0, x);
    if i < a - 1 {
      CountAround(r, 1, i, a - 1, x);
      CountSame(r, i + 1, a - 1, cs, 0, x);
      CountAround(cs, i + 1, a - 1, a, x);
    }
  }

  // ---------- the state ----------

  /** Where a running Send is: in the fast path at case i, or blocked in select. */
  datatype Sender =
    | Idle
    | Trying(i: nat, active: nat, nsent: nat)
    | Selecting(active: nat, nsent: nat)

  /** What has happened to the channels merged by the Send that ran last or is running. */
  datatype Log = Log(
    merged: multiset<Case>,      // subscribed when Send took the lock
    delivered: multiset<Case>,   // received the value
    dropped: multiset<Case>,     // removed before they received it
    removed: multiset<Case>)     // removed after they received it

  /**
    subs: subscriptions not yet cancelled. waiting: cancelled ones whose remover
    is blocked until a Send serves it or the send lock is free.
   */
  datatype Feed = Feed(cases: seq<Case>, inbox: seq<Case>, subs: multiset<Case>, waiting: multiset<Case>,
                       sender: Sender, log: Log)

  const EMPTY: multiset<Case> := multiset{}

  ghost predicate Init(f: Feed) {
    f == Feed([RemoveSub], [], EMPTY, EMPTY, Idle, Log(EMPTY, EMPTY, EMPTY, EMPTY))
  }

  // ---------- the steps ----------

  ghost predicate Subscribe(f: Feed, f': Feed, ch: Chan) {
    f' == f.(inbox := f.inbox + [Sub(ch)], subs := f.subs + multiset{Sub(ch)})
  }

  /** The first part of remove, under the mutex: delete from the inbox, or go on to wait. */
  ghost predicate Unsubscribe(f: Feed, f': Feed, ch: Chan) {
    && Sub(ch) in f.subs
    && if Sub(ch) in f.inbox then
         exists i ::
           && IsFirst(f.inbox, ch, i)
           && f' == f.(inbox := Delete(f.inbox, i), subs := f.subs - multiset{Sub(ch)})
       else
         f' == f.(waiting := f.waiting + multiset{Sub(ch)}, subs := f.subs - multiset{Sub(ch)})
  }

  /** The remover gets the send lock and deletes the case itself. */
  ghost predicate RemoveIdle(f: Feed, f': Feed, ch: Chan, i: nat) {
    && f.sender.Idle? && Sub(ch) in f.waiting && IsFirst(f.cases, ch, i)
    && f' == f.(cases := Delete(f.cases, i), waiting := f.waiting - multiset{Sub(ch)})
  }

  /** Send takes the lock and merges the inbox. */
  ghost predicate Begin(f: Feed, f': Feed) {
    && f.sender.Idle? && |f.cases| >= 1
    && var cases := f.cases + f.inbox;
    && f' == f.(cases := cases, inbox := [], sender := Trying(1, |cases|, 0),
                log := Log(multiset(cases[1..]), EMPTY, EMPTY, EMPTY))
  }

  /** The value goes to case i, which leaves the active part. */
  ghost function Deliver(f: Feed, i: nat, active: nat, nsent: nat): Feed
    requires i < active <= |f.cases|
  {
    f.(cases := Deactivate(f.cases, active, i),
       sender := Trying(if f.sender.Trying? then i else 1, active - 1, nsent + 1),
       log := f.log.(delivered := f.log.delivered + multiset{f.cases[i]}))
  }

  ghost predicate TrySend(f: Feed, f': Feed, ready: bool) {
    && f.sender.Trying? && f.sender.i < f.sender.active <= |f.cases|
    && f' == if ready then Deliver(f, f.sender.i, f.sender.active, f.sender.nsent)
             else f.(sender := f.sender.(i := f.sender.i + 1))
  }

  ghost predicate FastPathDone(f: Feed, f': Feed) {
    && f.sender.Trying? && f.sender.i >= f.sender.active
    && f' == f.(sender := if f.sender.active == 1 then Idle else Selecting(f.sender.active, f.sender.nsent))
  }

  ghost predicate SelectSend(f: Feed, f': Feed, chosen: nat) {
    && f.sender.Selecting? && 1 <= chosen < f.sender.active <= |f.cases|
    && f' == Deliver(f, chosen, f.sender.active, f.sender.nsent)
  }

  /** Send serves a remover: the case goes away, from the active part if it was still there. */
  ghost predicate SelectRemove(f: Feed, f': Feed, ch: Chan, i: nat) {
    && f.sender.Selecting? && Sub(ch) in f.waiting && IsFirst(f.cases, ch, i)
    && var stillActive := i < f.sender.active;
    && (stillActive ==> f.sender.active >= 1)
    && f' == f.(cases := Delete(f.cases, i), waiting := f.waiting - multiset{Sub(ch)},
                sender := Trying(1, if stillActive then f.sender.active - 1 else f.sender.active, f.sender.nsent),
                log := if stillActive then f.log.(dropped := f.log.dropped + multiset{Sub(ch)})
                       else f.log.(removed := f.log.removed + multiset{Sub(ch)}))
  }

  ghost predicate Step(f: Feed, f': Feed) {
    || (exists ch :: Subscribe(f, f', ch))
    || (exists ch :: Unsubscribe(f, f', ch))
    || (exists ch, i: nat :: RemoveIdle(f, f', ch, i))
    || Begin(f, f')
    || (exists ready :: TrySend(f, f', ready))
    || FastPathDone(f, f')
    || (exists chosen :: SelectSend(f, f', chosen))
    || (exists ch, i: nat :: SelectRemove(f, f', ch, i))
  }

  // ---------- what every step keeps ----------

  ghost function Active(f: Feed): nat {
    match f.sender
    case Idle => 1
    case Trying(_, active, _) => active
    case Selecting(active, _) => active
  }

  /** Every merged case is owed the value, has received it, or was dropped; those served are still there or removed. */
  ghost predicate Accounted(log: Log, cases: seq<Case>, a: nat, x: Case)
    requires 1 <= a <= |cases|
  {
    && log.merged[x] == Count(cases, 1, a, x) + log.delivered[x] + log.dropped[x]
    && log.delivered[x] == Count(cases, a, |cases|, x) + log.removed[x]
  }

  /** While a Send runs: its active cases are those still owed the value, the rest have received it. */
  ghost predicate SendOk(f: Feed) {
    && 1 <= Active(f) <= |f.cases|
    && (forall x :: Accounted(f.log, f.cases, Active(f), x))
    && (f.sender.Trying? ==> f.sender.i >= 1 && f.sender.nsent == |f.log.delivered|)
    && (f.sender.Selecting? ==> f.sender.nsent == |f.log.delivered|)
  }

  /** Every subscription, and every cancelled one not yet served, is in the inbox or a case. */
  ghost predicate Conserved(f: Feed, x: Case)
    requires |f.cases| >= 1
  {
    && Count(f.inbox, 0, |f.inbox|, x) + Count(f.cases, 1, |f.cases|, x) == f.subs[x] + f.waiting[x]
    && f.waiting[x] <= Count(f.cases, 1, |f.cases|, x)
  }

  ghost predicate Inv(f: Feed) {
    && |f.cases| >= 1 && f.cases[0] == RemoveSub
    && (forall x :: Conserved(f, x))
    && RemoveSub !in f.subs && RemoveSub !in f.waiting
    && (!f.sender.Idle? ==> SendOk(f))
  }

  /** A remover that is served always finds its case: delete is never called with index -1. */
  lemma RemovalFinds(f: Feed, ch: Chan)
    requires Inv(f) && Sub(ch) in f.waiting
    ensures Sub(ch) in f.cases
  {
    assert Conserved(f, Sub(ch));
    CountIsMultiset(f.cases, 1, |f.cases|, Sub(ch));
    assert Sub(ch) in multiset(f.cases[1..|f.cases|]);
  }

  lemma SubscribeInv(f: Feed, f': Feed, ch: Chan)
    requires Inv(f) && Subscribe(f, f', ch)
    ensures Inv(f')
  {
    var n := |f.inbox|;
    forall x ensures Conserved(f', x) {
      assert Conserved(f, x);
      CountAround(f'.inbox, 0, n, n + 1, x);
      CountSame(f'.inbox, 0, n, f.inbox, 0, x);
    }
  }

  lemma UnsubscribeInv(f: Feed, f': Feed, ch: Chan)
    requires Inv(f) && Unsubscribe(f, f', ch)
    ensures Inv(f')
  {
    var n := |f.inbox|;
    if Sub(ch) in f.inbox {
      var i :| IsFirst(f.inbox, ch, i) && f' == f.(inbox := Delete(f.inbox, i), subs := f.subs - multiset{Sub(ch)});
      forall x ensures Conserved(f', x) {
        assert Conserved(f, x);
        DeleteParts(f.inbox, 0, i, n, x);
      }
    } else {
      forall x ensures Conserved(f', x) {
        assert Conserved(f, x);
        CountIsMultiset(f.inbox, 0, n, x);
        assert f.inbox[0..n] == f.inbox;
      }
    }
  }

  lemma RemoveIdleInv(f: Feed, f': Feed, ch: Chan, i: nat)
    requires Inv(f) && RemoveIdle(f, f', ch, i)
    ensures Inv(f')
  {
    forall x ensures Conserved(f', x) {
      assert Conserved(f, x);
      DeleteParts(f.cases, 1, i, |f.cases|, x);
    }
  }

  lemma BeginInv(f: Feed, f': Feed)
    requires Inv(f) && Begin(f, f')
    ensures Inv(f')
  {
    var n := |f.cases|;
    forall x ensures Conserved(f', x) && Accounted(f'.log, f'.cases, |f'.cases|, x) {
      assert Conserved(f, x);
      CountJoin(f'.cases, 1, n, |f'.cases|, x);
      CountSame(f'.cases, 1, n, f.cases, 0, x);
      CountSame(f'.cases, n, |f'.cases|, f.inbox, -n, x);
      CountIsMultiset(f'.cases, 1, |f'.cases|, x);
      assert f'.cases[1..|f'.cases|] == f'.cases[1..];
    }
  }

  lemma DeliverOk(f: Feed, i: nat)
    requires Inv(f) && !f.sender.Idle? && 1 <= i < Active(f)
    requires f.sender.Trying? ==> i == f.sender.i
    ensures Inv(Deliver(f, i, Active(f), f.sender.nsent))
  {
    var a := Active(f);
    var f' := Deliver(f, i, a, f.sender.nsent);
    DeactivateParts(f.cases, a, i, RemoveSub);
    assert Active(f') == a - 1;
    forall x ensures Conserved(f', x) && Accounted(f'.log, f'.cases, Active(f'), x) {
      assert Conserved(f, x) && Accounted(f.log, f.cases, a, x);
      DeactivateParts(f.cases, a, i, x);
      CountJoin(f.cases, 1, a, |f.cases|, x);
      CountJoin(f'.cases, 1, a - 1, |f'.cases|, x);
    }
  }

  lemma SelectRemoveInv(f: Feed, f': Feed, ch: Chan, i: nat)
    requires Inv(f) && SelectRemove(f, f', ch, i)
    ensures Inv(f')
  {
    var a, n := f.sender.active, |f.cases|;
    var r := f'.cases;
    forall x ensures Conserved(f', x) {
      assert Conserved(f, x);
      DeleteParts(f.cases, 1, i, n, x);
    }
    forall x ensures Accounted(f'.log, r, Active(f'), x) {
      assert Accounted(f.log, f.cases, a, x);
      if i < a {
        DeleteParts(f.cases, 1, i, a, x);
        CountSame(r, a - 1, n - 1, f.cases, 1, x);
      } else {
        DeleteParts(f.cases, a, i, n, x);
        CountSame(r, 1, a, f.cases, 0, x);
      }
    }
  }

  /** Steps that only move the program counter of Send. */
  lemma PcInv(f: Feed, f': Feed)
    requires Inv(f) && (TrySend(f, f', false) || FastPathDone(f, f'))
    ensures Inv(f')
  {
    forall x ensures Conserved(f', x) {
      assert Conserved(f, x);
    }
    if !f'.sender.Idle? {
      assert Active(f') == Active(f);
      forall x ensures Accounted(f'.log, f'.cases, Active(f'), x) {
        assert Accounted(f.log, f.cases, Active(f), x);
      }
    }
  }

  lemma StepInv(f: Feed, f': Feed)
    requires Inv(f) && Step(f, f')
    ensures Inv(f')
  {
    if ch :| Subscribe(f, f', ch) {
      SubscribeInv(f, f', ch);
    } else if ch :| Unsubscribe(f, f', ch) {
      UnsubscribeInv(f, f', ch);
    } else if ch, i: nat :| RemoveIdle(f, f', ch, i) {
      RemoveIdleInv(f, f', ch, i);
    } else if Begin(f, f') {
      BeginInv(f, f');
    } else if ready :| TrySend(f, f', ready) {
      if ready {
        DeliverOk(f, f.sender.i);
      } else {
        PcInv(f, f');
      }
    } else if FastPathDone(f, f') {
      PcInv(f, f');
    } else if chosen :| SelectSend(f, f', chosen) {
      DeliverOk(f, chosen);
    } else {
      var ch, i: nat :| SelectRemove(f, f', ch, i);
      SelectRemoveInv(f, f', ch, i);
    }
  }

  ghost predicate IsRun(run: seq<Feed>) {
    |run| >= 1 && Init(run[0]) && forall i | 0 <= i < |run| - 1 :: Step(run[i], run[i + 1])
  }

  /** In every interleaving, the invariant holds throughout. */
  lemma {:induction false} RunInv(run: seq<Feed>, i: nat)
    requires IsRun(run) && i < |run|
    ensures Inv(run[i])
  {
    if i > 0 {
      RunInv(run, i - 1);
      StepInv(run[i - 1], run[i]);
    }
  }

  /**
    When a Send ends, every channel merged at its start has received the value
    once per subscription, except those whose removal was served first; nsent
    counts the deliveries; and sendCases is a permutation of the merged cases
    less the removed ones, with case 0 in place.
   */
  lemma SendIsExactlyOnce(run: seq<Feed>, i: nat)
    requires IsRun(run) && i + 1 < |run| && !run[i].sender.Idle? && run[i + 1].sender.Idle?
    ensures var log := run[i].log;
            && log == run[i + 1].log
            && log.merged == log.delivered + log.dropped
            && run[i].sender.Trying? && run[i].sender.nsent == |log.delivered|
            && |run[i + 1].cases| >= 1 && run[i + 1].cases[0] == RemoveSub
            && multiset(run[i + 1].cases[1..]) + log.removed + log.dropped == log.merged
            && forall ch | log.merged[Sub(ch)] == 1 ::
                 log.delivered[Sub(ch)] == if Sub(ch) in log.dropped then 0 else 1
  {
    RunInv(run, i);
    RunInv(run, i + 1);
    var f, f' := run[i], run[i + 1];
    assert Step(f, f');
    OnlyFastPathEnds(f, f');
    var log, left := f.log, f.cases[1..];
    forall x
      ensures log.merged[x] == log.delivered[x] + log.dropped[x]
      ensures log.merged[x] == multiset(left)[x] + log.removed[x] + log.dropped[x]
    {
      assert Accounted(log, f.cases, 1, x);
      CountIsMultiset(f.cases, 1, |f.cases|, x);
      assert f.cases[1..|f.cases|] == left;
    }
    assert log.merged == log.delivered + log.dropped;
    assert multiset(left) + log.removed + log.dropped == log.merged;
  }

  lemma OnlyFastPathEnds(f: Feed, f': Feed)
    requires Step(f, f') && !f.sender.Idle? && f'.sender.Idle?
    ensures FastPathDone(f, f') && f.sender.active == 1
  {
  }
}
