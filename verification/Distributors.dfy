/**
  The LES request distributor (les/distributor.go) as a state machine. The
  locked sections of queue and cancel are one step each; the loop takes a wake
  token, takes the lock, and then decides request by request. What peers can
  serve, and how long they need, may be different each time it asks.
 */
module Distributors {
  type Peer = nat

  datatype Req = Req(id: nat, order: nat)

  /** The channel on which a request's peer is reported: it has room for one. */
  datatype Chan = Open | Sent(peer: Peer) | Closed

  // ---------- the queue ----------

  ghost predicate Sorted(queue: seq<Req>) {
    forall i, j | 0 <= i < j < |queue| :: queue[i].order <= queue[j].order
  }

  /** The request goes before the first one that is not older. */
  function Insert(queue: seq<Req>, r: Req): seq<Req> {
    if queue == [] || queue[0].order >= r.order then [r] + queue else [queue[0]] + Insert(queue[1..], r)
  }

  lemma {:induction false} InsertAt(queue: seq<Req>, r: Req, k: nat)
    requires k <= |queue| && (forall i | 0 <= i < k :: queue[i].order < r.order)
              && (k < |queue| ==> queue[k].order >= r.order)
    ensures Insert(queue, r) == queue[..k] + [r] + queue[k..]
  {
    if k > 0 {
      InsertAt(queue[1..], r, k - 1);
      assert queue[..k] == [queue[0]] + queue[1..][..k - 1];
    }
  }

  /** queue's search: the end is tried first, then the list from its front. */
  method Enqueue(queue: seq<Req>, r: Req) returns (q: seq<Req>)
    requires Sorted(queue)
    ensures q == Insert(queue, r)
  {
    var before := |queue|;
    if queue != [] && r.order <= queue[|queue| - 1].order {
      before := 0;
      while queue[before].order < r.order
        invariant before < |queue| && forall i | 0 <= i < before :: queue[i].order < r.order
        decreases |queue| - before
      {
        before := before + 1;
      }
    }
    InsertAt(queue, r, before);
    q := queue[..before] + [r] + queue[before..];
  }

  // ---------- nextRequest ----------

  datatype Choice = Send(peer: Peer, req: Req) | Wait(time: nat) | Nothing

  /** What the peers answer during one call: whether they can serve a request, and after which wait. */
  datatype Answers = Answers(can: (Req, Peer) -> bool, wait: (Req, Peer) -> nat)

  ghost predicate Servable(queue: seq<Req>, peers: set<Peer>, a: Answers, i: int)
    requires 0 <= i < |queue|
  {
    exists p :: p in peers && a.can(queue[i], p)
  }

  /** Request i is the earliest from k on that the peer can serve. */
  ghost predicate Earliest(queue: seq<Req>, k: nat, a: Answers, p: Peer, i: int) {
    k <= i < |queue| && a.can(queue[i], p) && forall j | k <= j < i :: !a.can(queue[j], p)
  }

  /**
    The first k requests, which nobody can serve, are given up; every peer is considered for its
    earliest request only.
   */
  ghost predicate NextOk(queue: seq<Req>, peers: set<Peer>, a: Answers, k: nat, choice: Choice) {
    && k <= |queue| && (forall i | 0 <= i < k :: !Servable(queue, peers, a, i))
       && (k < |queue| ==> Servable(queue, peers, a, k))
    && match choice
       case Send(p, r) => exists i :: Offer(queue, k, peers, a, p, i) && queue[i] == r && a.wait(r, p) == 0
       case Wait(time) =>
         && time > 0 && (exists p, i :: Offer(queue, k, peers, a, p, i) && a.wait(queue[i], p) == time)
         && (forall p, i :: Offer(queue, k, peers, a, p, i) ==> a.wait(queue[i], p) >= time)
       case Nothing => k == |queue|
  }

  ghost predicate Offer(queue: seq<Req>, k: nat, peers: set<Peer>, a: Answers, p: Peer, i: int) {
    p in peers && Earliest(queue, k, a, p, i)
  }

  /** The scan so far: peers with an offer, those among them that need not wait, and the shortest wait of the others. */
  datatype Scan = Scan(checked: set<Peer>, sel: map<Peer, nat>, best: nat)

  /** The peer can serve one of the requests k..h. */
  ghost predicate Seen(queue: seq<Req>, k: nat, a: Answers, p: Peer, h: nat) {
    exists j: nat :: k <= j < h && j < |queue| && a.can(queue[j], p)
  }

  /**
    What the scan knows of a peer that was asked about the requests k..h; best == 0 means that
    nobody is waited for.
   */
  ghost predicate PeerOk(queue: seq<Req>, k: nat, a: Answers, s: Scan, p: Peer, h: nat) {
    && (p in s.checked <==> Seen(queue, k, a, p, h))
    && (p in s.sel ==> p in s.checked && Earliest(queue, k, a, p, s.sel[p]) && a.wait(queue[s.sel[p]], p) == 0)
    && (p in s.checked && p !in s.sel ==> s.best > 0 && exists i ::
       Earliest(queue, k, a, p, i) && a.wait(queue[i], p) >= s.best)
  }

  ghost predicate BestOk(queue: seq<Req>, k: nat, peers: set<Peer>, a: Answers, s: Scan) {
    s.best > 0 ==> exists p, i :: p in s.checked && Offer(queue, k, peers, a, p, i) && a.wait(queue[i], p) == s.best
  }

  lemma SeenStep(queue: seq<Req>, k: nat, a: Answers, p: Peer, h: nat)
    requires k <= h < |queue|
    ensures Seen(queue, k, a, p, h + 1) <==> Seen(queue, k, a, p, h) || a.can(queue[h], p)
    ensures !Seen(queue, k, a, p, h) && a.can(queue[h], p) ==> Earliest(queue, k, a, p, h)
  {
  }

  /** One peer is asked about request e. */
  method Ask(queue: seq<Req>, ghost k: nat, ghost peers: set<Peer>, a: Answers, s: Scan, p: Peer, e: nat)
    returns (s': Scan)
    requires k <= e < |queue| && p in peers && PeerOk(queue, k, a, s, p, e) && BestOk(queue, k, peers, a, s)
    ensures PeerOk(queue, k, a, s', p, e + 1) && BestOk(queue, k, peers, a, s')
    ensures s'.checked == if a.can(queue[e], p) then s.checked + {p} else s.checked
    ensures p in s.checked || !a.can(queue[e], p) ==> s' == s
    ensures s'.sel - {p} == s.sel - {p} && (s.best == 0 || 0 < s'.best <= s.best)
  {
    s' := s;
    SeenStep(queue, k, a, p, e);
    if p !in s.checked && a.can(queue[e], p) {
      assert Offer(queue, k, peers, a, p, e);
      var wait := a.wait(queue[e], p);
      if wait == 0 {
        s' := s'.(sel := s.sel[p := e]);
      } else if s.best == 0 || wait < s.best {
        s' := s'.(best := wait);
      }
      s' := s'.(checked := s.checked + {p});
    } else {
      assert s.checked + {p} == s.checked || !a.can(queue[e], p);
    }
  }

  /** What is known of other peers survives a shorter wait. */
  lemma StillOk(queue: seq<Req>, k: nat, a: Answers, s: Scan, s': Scan, p: Peer, q: Peer, h: nat)
    requires PeerOk(queue, k, a, s, q, h) && q != p
    requires s'.checked - {p} == s.checked - {p} && s'.sel - {p} == s.sel - {p}
              && (s.best == 0 || 0 < s'.best <= s.best)
    ensures PeerOk(queue, k, a, s', q, h)
  {
    assert q in s'.checked <==> q in s'.checked - {p};
    assert q in s.checked <==> q in s.checked - {p};
    assert q in s'.sel <==> q in s'.sel - {p};
    assert q in s.sel <==> q in s.sel - {p};
    assert q in s.sel ==> s'.sel[q] == (s'.sel - {p})[q];
  }

  ghost predicate ScanOk(queue: seq<Req>, k: nat, peers: set<Peer>, a: Answers, s: Scan, todo: set<Peer>, e: nat) {
    && s.checked <= peers && (forall p | p in s.sel :: p in s.checked) && todo <= peers && BestOk(queue, k, peers, a, s)
    && (forall p | p in todo :: PeerOk(queue, k, a, s, p, e))
    && (forall p | p in peers && p !in todo :: PeerOk(queue, k, a, s, p, e + 1))
  }

  lemma AskedOk(queue: seq<Req>, k: nat, peers: set<Peer>, a: Answers, s: Scan, s': Scan, todo: set<Peer>, p: Peer,
      e: nat)
    requires ScanOk(queue, k, peers, a, s, todo, e) && p in todo
    requires PeerOk(queue, k, a, s', p, e + 1) && BestOk(queue, k, peers, a, s')
    requires s'.checked == s.checked || s'.checked == s.checked + {p}
    requires s'.sel - {p} == s.sel - {p} && (s.best == 0 || 0 < s'.best <= s.best)
    ensures ScanOk(queue, k, peers, a, s', todo - {p}, e)
  {
    assert s'.checked - {p} == s.checked - {p};
    forall q | q in peers && q != p ensures PeerOk(queue, k, a, s', q, if q in todo then e else e + 1) {
      StillOk(queue, k, a, s, s', p, q, if q in todo then e else e + 1);
    }
    forall q | q in s'.sel ensures q in s'.checked {
      assert q != p ==> q in s'.sel - {p};
    }
  }

  /** The inner loop of nextRequest: all peers are asked about request e. */
  method AskAll(queue: seq<Req>, ghost k: nat, peers: set<Peer>, a: Answers, s: Scan, e: nat)
    returns (s': Scan, canSend: bool)
    requires k <= e < |queue| && ScanOk(queue, k, peers, a, s, peers, e)
    ensures ScanOk(queue, k, peers, a, s', {}, e)
    ensures k == e ==> (canSend <==> Servable(queue, peers, a, e)) && (!canSend ==> s' == s)
    ensures canSend ==> Servable(queue, peers, a, e)
  {
    var todo := peers;
    s', canSend := s, false;
    while todo != {}
      invariant ScanOk(queue, k, peers, a, s', todo, e)
      invariant canSend ==> Servable(queue, peers, a, e)
      invariant !canSend ==> s' == s
      invariant k == e && !canSend ==> forall p | p in peers && p !in todo :: !a.can(queue[e], p)
      decreases todo
    {
      var p :| p in todo;
      if p !in s'.checked && a.can(queue[e], p) {
        canSend := true;
      }
      ghost var before := s';
      s' := Ask(queue, k, peers, a, s', p, e);
      AskedOk(queue, k, peers, a, before, s', todo, p, e);
      todo := todo - {p};
    }
  }

  lemma NoneSeen(queue: seq<Req>, k: nat, peers: set<Peer>, a: Answers, s: Scan, e: nat)
    requires k <= e < |queue| && ScanOk(queue, k, peers, a, s, {}, e)
    ensures ScanOk(queue, k, peers, a, s, peers, e + 1)
  {
  }

  /** While the front is given up nothing was found, and the scan starts over behind it. */
  lemma FrontGone(queue: seq<Req>, peers: set<Peer>, a: Answers, s: Scan, e: nat)
    requires e < |queue| && ScanOk(queue, e, peers, a, s, peers, e) && !Servable(queue, peers, a, e)
    ensures ScanOk(queue, e + 1, peers, a, s, peers, e + 1)
  {
    forall p | p in peers ensures PeerOk(queue, e + 1, a, s, p, e + 1) {
      assert PeerOk(queue, e, a, s, p, e);
      assert !Seen(queue, e, a, p, e) && !Seen(queue, e + 1, a, p, e + 1);
    }
    assert s.checked == {};
    assert s.best == 0;
  }

  /**
    nextRequest. The peers answer as `a` says; which of several ready peers is
    taken is left open, as it is drawn at random.
   */
  method NextRequest(queue: seq<Req>, peers: set<Peer>, a: Answers) returns (k: nat, choice: Choice)
    ensures NextOk(queue, peers, a, k, choice)
  {
    var e, s := 0, Scan({}, map[], 0);
    k := 0;
    while (peers != {} || e == k) && e < |queue|
      invariant k <= e <= |queue| && (peers == {} ==> k == e) && ScanOk(queue, k, peers, a, s, peers, e)
      invariant forall i | 0 <= i < k :: !Servable(queue, peers, a, i)
      invariant k < e ==> Servable(queue, peers, a, k)
    {
      var s', canSend := AskAll(queue, k, peers, a, s, e);
      if !canSend && e == k {
        FrontGone(queue, peers, a, s, e);
        k := k + 1;
      } else {
        NoneSeen(queue, k, peers, a, s', e);
        s := s';
      }
      e := e + 1;
    }
    choice := Choose(queue, k, peers, a, s);
  }

  method Choose(queue: seq<Req>, ghost k: nat, ghost peers: set<Peer>, a: Answers, s: Scan) returns (choice: Choice)
    requires k <= |queue| && ScanOk(queue, k, peers, a, s, peers, |queue|)
    requires (forall i | 0 <= i < k :: !Servable(queue, peers, a, i)) && (k < |queue| ==> Servable(queue, peers, a, k))
    ensures NextOk(queue, peers, a, k, choice)
  {
    if s.sel != map[] {
      var p :| p in s.sel;
      assert Offer(queue, k, peers, a, p, s.sel[p]) by {
        assert PeerOk(queue, k, a, s, p, |queue|);
      }
      choice := Send(p, queue[s.sel[p]]);
    } else if s.best > 0 {
      ShortestWait(queue, k, peers, a, s);
      choice := Wait(s.best);
    } else {
      NobodyServes(queue, k, peers, a, s);
      choice := Nothing;
    }
  }

  lemma ShortestWait(queue: seq<Req>, k: nat, peers: set<Peer>, a: Answers, s: Scan)
    requires k <= |queue| && ScanOk(queue, k, peers, a, s, peers, |queue|) && s.sel == map[] && s.best > 0
    ensures exists p, i :: Offer(queue, k, peers, a, p, i) && a.wait(queue[i], p) == s.best
    ensures forall p, i :: Offer(queue, k, peers, a, p, i) ==> a.wait(queue[i], p) >= s.best
  {
    forall p, i | Offer(queue, k, peers, a, p, i) ensures a.wait(queue[i], p) >= s.best {
      assert PeerOk(queue, k, a, s, p, |queue|);
      assert Seen(queue, k, a, p, |queue|);
      var j :| Earliest(queue, k, a, p, j) && a.wait(queue[j], p) >= s.best;
      assert i == j;
    }
  }

  lemma NobodyServes(queue: seq<Req>, k: nat, peers: set<Peer>, a: Answers, s: Scan)
    requires k <= |queue| && ScanOk(queue, k, peers, a, s, peers, |queue|) && s.sel == map[] && s.best == 0
    ensures k < |queue| ==> !Servable(queue, peers, a, k)
  {
    forall p | k < |queue| && p in peers ensures !a.can(queue[k], p) {
      assert PeerOk(queue, k, a, s, p, |queue|);
    }
  }
}
