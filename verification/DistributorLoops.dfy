/**
  The wake-up protocol of the request distributor (les/distributor.go): the
  loop sleeps on a channel of wake tokens, and the flag loopNextSent says that a
  token is on its way. It may be in the channel, with a timer, or already taken
  by the loop, which then waits for the lock.
 */
module DistributorLoops {
  import opened Distributors

  datatype Pc = Asleep | Woken | Serving | Gone

  /** The loop holds the lock exactly while it is Serving. Closing a closed channel crashes the program. */
  datatype State = State(queue: seq<Req>, lastOrder: nat, peers: set<Peer>, flag: bool, tokens: nat, timers: nat,
                         pc: Pc, stopped: bool, chans: map<nat, Chan>, crashed: bool)

  const CHANNEL_CAPACITY := 2

  datatype Event =
    | Queue(id: nat, order: nat)
    | Cancel(id: nat)
    | SetPeers(peers: set<Peer>)
    | Fire
    | Receive
    | Lock
    | Serve(answers: Answers, k: nat, choice: Choice)
    | Stop
    | Exit

  ghost predicate Queued(queue: seq<Req>, id: nat) {
    exists i :: 0 <= i < |queue| && queue[i].id == id
  }

  ghost predicate HasRoom(chans: map<nat, Chan>, id: nat) {
    id in chans && chans[id] == Open
  }

  function Without(queue: seq<Req>, id: nat): seq<Req> {
    if queue == [] then [] else if queue[0].id == id then queue[1..] else [queue[0]] + Without(queue[1..], id)
  }

  function CloseAll(chans: map<nat, Chan>, queue: seq<Req>): map<nat, Chan>
    decreases queue
  {
    if queue == [] then chans else CloseAll(chans[queue[0].id := Closed], queue[1..])
  }

  /** The callers of queue pass a new request, with order 0, or one they got back, with the order it had. */
  ghost predicate Enabled(s: State, e: Event) {
    !s.crashed &&
    match e
    case Queue(id, order) => s.pc != Serving && !Queued(s.queue, id) && order <= s.lastOrder
    case Cancel(id) => s.pc != Serving
    case SetPeers(peers) => true
    case Fire => s.timers > 0
    case Receive => s.pc == Asleep && s.tokens > 0
    case Lock => s.pc == Woken
    case Serve(a, k, choice) => s.pc == Serving && NextOk(s.queue, s.peers, a, k, choice)
    case Stop => true
    case Exit => s.pc == Asleep && s.stopped
  }

  ghost function Next(s: State, e: Event): State
    requires Enabled(s, e)
  {
    match e
    case Queue(id, order) =>
      var last := if order == 0 then s.lastOrder + 1 else s.lastOrder;
      var q := Insert(s.queue, Req(id, if order == 0 then last else order));
      var s1 := s.(queue := q, lastOrder := last, chans := s.chans[id := Open]);
      if s.flag then s1 else s1.(flag := true, tokens := s.tokens + 1)
    case Cancel(id) =>
      if !Queued(s.queue, id) then s
      else if HasRoom(s.chans, id) then s.(queue := Without(s.queue, id), chans := s.chans[id := Closed])
      else s.(crashed := true)
    case SetPeers(peers) => s.(peers := peers)
    case Fire => s.(timers := s.timers - 1, tokens := s.tokens + 1)
    case Receive => s.(tokens := s.tokens - 1, pc := Woken)
    case Lock => s.(flag := false, pc := Serving)
    case Serve(a, k, choice) =>
      var s1 := s.(queue := s.queue[k..], chans := CloseAll(s.chans, s.queue[..k]));
      (match choice
       case Send(p, r) => s1.(queue := Without(s1.queue, r.id), chans := s1.chans[r.id := Sent(p)])
       case Wait(time) => s1.(flag := true, timers := s1.timers + 1, pc := Asleep)
       case Nothing => s1.(pc := Asleep))
    case Stop => s.(stopped := true)
    case Exit => s.(pc := Gone, chans := CloseAll(s.chans, s.queue))
  }

  // ---------- the invariant ----------

  /** Where the wake token can be. */
  ghost function Outstanding(s: State): nat {
    s.tokens + s.timers + if s.pc == Woken then 1 else 0
  }

  ghost predicate QueueOk(queue: seq<Req>, lastOrder: nat) {
    && Sorted(queue) && (forall i, j | 0 <= i < j < |queue| :: queue[i].id != queue[j].id)
    && (forall i | 0 <= i < |queue| :: queue[i].order <= lastOrder)
  }

  /** Nobody was told the outcome of a queued request. */
  ghost predicate ChansOpen(queue: seq<Req>, chans: map<nat, Chan>) {
    forall i | 0 <= i < |queue| :: HasRoom(chans, queue[i].id)
  }

  ghost predicate Inv(s: State) {
    && QueueOk(s.queue, s.lastOrder) && (s.pc != Gone ==> ChansOpen(s.queue, s.chans))
    && Outstanding(s) == (if s.flag then 1 else 0)
    && (s.pc in {Asleep, Woken} && s.queue != [] ==> s.flag)
    && (s.pc == Serving ==> !s.flag) && (s.crashed ==> s.pc == Gone)
  }

  ghost function Init(peers: set<Peer>): State {
    State([], 0, peers, false, 0, 0, Asleep, false, map[], false)
  }

  lemma {:induction false} WithoutIs(queue: seq<Req>, id: nat, i: int)
    requires 0 <= i < |queue| && queue[i].id == id && forall j | 0 <= j < i :: queue[j].id != id
    ensures Without(queue, id) == queue[..i] + queue[i + 1..]
  {
    if i > 0 {
      WithoutIs(queue[1..], id, i - 1);
      assert queue[..i] == [queue[0]] + queue[1..][..i - 1];
    }
  }

  lemma WithoutOk(queue: seq<Req>, lastOrder: nat, chans: map<nat, Chan>, id: nat, i: int, c: Chan)
    requires QueueOk(queue, lastOrder) && 0 <= i < |queue| && queue[i].id == id
    ensures QueueOk(Without(queue, id), lastOrder)
    ensures ChansOpen(queue, chans) ==> ChansOpen(Without(queue, id), chans[id := c])
    ensures |Without(queue, id)| == |queue| - 1
  {
    WithoutIs(queue, id, i);
    var q := queue[..i] + queue[i + 1..];
    forall j | 0 <= j < |q| ensures q[j] == queue[if j < i then j else j + 1] && q[j].id != id {
    }
  }

  lemma {:induction false} InsertMembers(queue: seq<Req>, r: Req, x: Req)
    ensures x in Insert(queue, r) <==> x in queue || x == r
  {
    if queue != [] && queue[0].order < r.order {
      InsertMembers(queue[1..], r, x);
      assert queue == [queue[0]] + queue[1..];
    }
  }

  lemma InsertOk(queue: seq<Req>, lastOrder: nat, r: Req)
    requires QueueOk(queue, lastOrder) && !Queued(queue, r.id) && r.order <= lastOrder
    ensures QueueOk(Insert(queue, r), lastOrder)
  {
    var k := Place(queue, r);
    InsertAt(queue, r, k);
    InsertedOk(queue, lastOrder, r, k, queue[..k] + [r] + queue[k..]);
  }

  lemma InsertedOk(queue: seq<Req>, lastOrder: nat, r: Req, k: nat, q: seq<Req>)
    requires QueueOk(queue, lastOrder) && !Queued(queue, r.id) && r.order <= lastOrder && k <= |queue|
    requires (forall i | 0 <= i < k :: queue[i].order < r.order) && (k < |queue| ==> queue[k].order >= r.order)
    requires q == queue[..k] + [r] + queue[k..]
    ensures QueueOk(q, lastOrder)
  {
    forall i | 0 <= i < |q| ensures q[i] == if i < k then queue[i] else if i == k then r else queue[i - 1] {
    }
  }

  ghost function Place(queue: seq<Req>, r: Req): (k: nat)
    ensures k <= |queue| && (forall i | 0 <= i < k :: queue[i].order < r.order)
              && (k < |queue| ==> queue[k].order >= r.order)
  {
    if queue == [] || queue[0].order >= r.order then 0 else
      var k := Place(queue[1..], r) + 1;
      assert forall i | 0 < i < k :: queue[i] == queue[1..][i - 1];
      k
  }

  lemma QueuedHead(queue: seq<Req>, id: nat)
    requires queue != []
    ensures Queued(queue, id) <==> queue[0].id == id || Queued(queue[1..], id)
  {
    if Queued(queue[1..], id) {
      var i :| 0 <= i < |queue[1..]| && queue[1..][i].id == id;
      assert queue[i + 1].id == id;
    }
    if Queued(queue, id) && queue[0].id != id {
      var i :| 0 <= i < |queue| && queue[i].id == id;
      assert queue[1..][i - 1].id == id;
    }
  }

  lemma {:induction false} CloseAllIs(chans: map<nat, Chan>, queue: seq<Req>, id: nat)
    ensures id in CloseAll(chans, queue) <==> id in chans || Queued(queue, id)
    ensures id in CloseAll(chans, queue) ==>
              CloseAll(chans, queue)[id] == if Queued(queue, id) then Closed else chans[id]
    decreases queue
  {
    if queue != [] {
      CloseAllIs(chans[queue[0].id := Closed], queue[1..], id);
      QueuedHead(queue, id);
    }
  }

  /** Giving up the first k requests keeps the rest queued and open. */
  lemma DropOk(queue: seq<Req>, lastOrder: nat, chans: map<nat, Chan>, k: nat)
    requires QueueOk(queue, lastOrder) && ChansOpen(queue, chans) && k <= |queue|
    ensures QueueOk(queue[k..], lastOrder) && ChansOpen(queue[k..], CloseAll(chans, queue[..k]))
  {
    forall i | 0 <= i < |queue[k..]| ensures HasRoom(CloseAll(chans, queue[..k]), queue[k..][i].id) {
      CloseAllIs(chans, queue[..k], queue[k + i].id);
      assert !Queued(queue[..k], queue[k + i].id);
    }
  }

  lemma QueueStep(s: State, id: nat, order: nat)
    requires Inv(s) && Enabled(s, Queue(id, order))
    ensures Inv(Next(s, Queue(id, order)))
  {
    var last := if order == 0 then s.lastOrder + 1 else s.lastOrder;
    var r := Req(id, if order == 0 then last else order);
    InsertOk(s.queue, last, r);
    var q := Insert(s.queue, r);
    forall i | 0 <= i < |q| && s.pc != Gone ensures HasRoom(s.chans[id := Open], q[i].id) {
      InsertMembers(s.queue, r, q[i]);
    }
  }

  lemma ServeStep(s: State, a: Answers, k: nat, choice: Choice)
    requires Inv(s) && Enabled(s, Serve(a, k, choice))
    ensures Inv(Next(s, Serve(a, k, choice)))
    ensures choice.Send? ==> |Next(s, Serve(a, k, choice)).queue| < |s.queue|
    ensures choice.Send? ==> HasRoom(CloseAll(s.chans, s.queue[..k]), choice.req.id)
    ensures choice.Wait? ==> Next(s, Serve(a, k, choice)).queue != []
  {
    DropOk(s.queue, s.lastOrder, s.chans, k);
    var q := s.queue[k..];
    if choice.Send? {
      var i :| Offer(s.queue, k, s.peers, a, choice.peer, i) && s.queue[i] == choice.req;
      assert q[i - k] == choice.req;
      WithoutOk(q, s.lastOrder, CloseAll(s.chans, s.queue[..k]), choice.req.id, i - k, Sent(choice.peer));
    }
  }

  lemma StepInv(s: State, e: Event)
    requires Inv(s) && Enabled(s, e)
    ensures Inv(Next(s, e))
  {
    match e
    case Queue(id, order) => QueueStep(s, id, order);
    case Cancel(id) =>
      if Queued(s.queue, id) {
        var i :| 0 <= i < |s.queue| && s.queue[i].id == id;
        WithoutOk(s.queue, s.lastOrder, s.chans, id, i, Closed);
      }
    case Serve(a, k, choice) => ServeStep(s, a, k, choice);
    case _ =>
  }

  // ---------- whole runs ----------

  ghost predicate Run(states: seq<State>, events: seq<Event>) {
    && |states| == |events| + 1 && states[0] == Init(states[0].peers)
    && forall k | 0 <= k < |events| :: Enabled(states[k], events[k]) && states[k + 1] == Next(states[k], events[k])
  }

  lemma {:induction false} RunInv(states: seq<State>, events: seq<Event>, k: nat)
    requires Run(states, events) && k < |states|
    ensures Inv(states[k])
  {
    if k > 0 {
      RunInv(states, events, k - 1);
      StepInv(states[k - 1], events[k - 1]);
    }
  }

  /**
    No lost wake-up and no self-block: at every point of every run the queue is
    sorted, at most one token is outstanding, a send to the wake channel has
    room, and if the lock is free with the queue non-empty, a token is on its way.
   */
  lemma WakeUps(states: seq<State>, events: seq<Event>, k: nat)
    requires Run(states, events) && k < |states|
    ensures Sorted(states[k].queue) && Outstanding(states[k]) <= 1 && states[k].tokens < CHANNEL_CAPACITY
    ensures states[k].pc in {Asleep, Woken} && states[k].queue != [] ==> Outstanding(states[k]) == 1
    ensures k < |events| && events[k].Serve? && events[k].choice.Send? ==>
              HasRoom(CloseAll(states[k].chans, states[k].queue[..events[k].k]), events[k].choice.req.id)
  {
    RunInv(states, events, k);
    if k < |events| && events[k].Serve? {
      ServeStep(states[k], events[k].answers, events[k].k, events[k].choice);
    }
  }

  /** How far the loop is from serving a queue that is not empty. */
  ghost function Distance(s: State): nat {
    if s.timers > 0 then 3 else if s.pc == Asleep then 2 else if s.pc == Woken then 1 else 0
  }

  /**
    A queue that is not empty is always about to be served: some move of the token brings the loop
    closer to the lock.
   */
  lemma Progress(s: State) returns (e: Event)
    requires Inv(s) && s.pc in {Asleep, Woken} && s.queue != []
    ensures Enabled(s, e) && e in {Fire, Receive, Lock}
  {
    e := if s.timers > 0 then Fire else if s.pc == Asleep then Receive else Lock;
  }

  /** Every move of the token brings the loop closer to the lock, and nothing else sets it back. */
  lemma NeverSetBack(s: State, e: Event)
    requires Inv(s) && s.pc in {Asleep, Woken} && s.queue != [] && Enabled(s, e)
    ensures Distance(Next(s, e)) <= Distance(s)
    ensures e in {Fire, Receive, Lock} ==> Distance(Next(s, e)) < Distance(s) && Next(s, e).queue == s.queue
  {
  }

  // ---------- channels ----------

  /** The event closes the channel of request id. */
  ghost predicate Closes(s: State, e: Event, id: nat)
    requires Enabled(s, e)
  {
    match e
    case Cancel(i) => i == id && Queued(s.queue, id)
    case Serve(_, k, choice) => Queued(s.queue[..k], id) || (choice.Send? && choice.req.id == id)
    case Exit => Queued(s.queue, id)
    case _ => false
  }

  /** The request was queued when the loop ended. */
  ghost predicate LeftAtExit(states: seq<State>, events: seq<Event>, k: nat, id: nat)
    requires Run(states, events) && k <= |events|
  {
    exists x :: LeftAt(states, events, x, id) && x < k
  }

  ghost predicate LeftAt(states: seq<State>, events: seq<Event>, x: int, id: nat)
    requires Run(states, events)
  {
    0 <= x < |events| && events[x] == Exit && Queued(states[x].queue, id)
  }

  /**
    A channel that is closed was open before, at every step of every run, except
    when a request is cancelled that was queued when the loop ended. The program
    crashes in exactly this case.
   */
  lemma ClosesOnce(states: seq<State>, events: seq<Event>, k: nat, id: nat)
    requires Run(states, events) && k < |events| && Closes(states[k], events[k], id)
    ensures HasRoom(states[k].chans, id) <==> !LeftAtExit(states, events, k, id)
    ensures states[k + 1].crashed <==> LeftAtExit(states, events, k, id)
  {
    RunInv(states, events, k);
    if LeftAtExit(states, events, k, id) {
      var x :| LeftAt(states, events, x, id) && x < k;
      LeftStays(states, events, x, k, id);
    } else if states[k].pc == Gone {
      var x := WhenGone(states, events, k);
      assert !LeftAt(states, events, x, id);
      OthersOpen(states, events, x, k, id);
    } else if events[k].Serve? {
      ServesQueued(states[k], events[k].answers, events[k].k, events[k].choice, id);
    }
  }

  /** No other event crashes the program. */
  lemma OnlyCloseCrashes(states: seq<State>, events: seq<Event>, k: nat)
    requires Run(states, events) && k < |events| && states[k + 1].crashed
    ensures events[k].Cancel? && Closes(states[k], events[k], events[k].id)
  {
  }

  lemma ServesQueued(s: State, a: Answers, k: nat, choice: Choice, id: nat)
    requires Enabled(s, Serve(a, k, choice)) && Closes(s, Serve(a, k, choice), id)
    ensures Queued(s.queue, id)
  {
    if Queued(s.queue[..k], id) {
      var i :| 0 <= i < k && s.queue[..k][i].id == id;
      assert s.queue[i].id == id;
    } else {
      var i :| Offer(s.queue, k, s.peers, a, choice.peer, i) && s.queue[i] == choice.req;
    }
  }

  lemma {:induction false} WhenGone(states: seq<State>, events: seq<Event>, k: nat) returns (x: nat)
    requires Run(states, events) && k < |states| && states[k].pc == Gone
    ensures x < k && events[x] == Exit
  {
    assert k > 0 && Enabled(states[k - 1], events[k - 1]) && states[k] == Next(states[k - 1], events[k - 1]);
    if states[k - 1].pc == Gone {
      x := WhenGone(states, events, k - 1);
    } else {
      x := k - 1;
    }
  }

  lemma {:induction false} WithoutKeeps(queue: seq<Req>, id: nat, other: nat)
    requires forall i, j | 0 <= i < j < |queue| :: queue[i].id != queue[j].id
    ensures Queued(Without(queue, id), other) <==> Queued(queue, other) && other != id
  {
    if queue != [] {
      QueuedHead(queue, other);
      if queue[0].id != id {
        WithoutKeeps(queue[1..], id, other);
        QueuedHead(Without(queue, id), other);
        assert Without(queue, id)[1..] == Without(queue[1..], id);
      }
    }
  }

  lemma InsertKeeps(queue: seq<Req>, r: Req, id: nat)
    ensures Queued(Insert(queue, r), id) <==> Queued(queue, id) || r.id == id
  {
    var q := Insert(queue, r);
    if Queued(q, id) {
      var i :| 0 <= i < |q| && q[i].id == id;
      InsertMembers(queue, r, q[i]);
    }
    InsertMembers(queue, r, r);
    if Queued(queue, id) {
      var i :| 0 <= i < |queue| && queue[i].id == id;
      InsertMembers(queue, r, queue[i]);
    }
  }

  ghost predicate SameChan(chans: map<nat, Chan>, chans': map<nat, Chan>, id: nat) {
    (id in chans' <==> id in chans) && (id in chans ==> chans'[id] == chans[id])
  }

  /** What a step after the end of the loop does to a request. */
  lemma GoneStep(s: State, e: Event, id: nat)
    requires Inv(s) && s.pc == Gone && Enabled(s, e)
    ensures var s' := Next(s, e);
            && s'.pc == Gone
            && (Queued(s'.queue, id) <==> (Queued(s.queue, id) && !(e == Cancel(id) && HasRoom(s.chans, id)))
                                          || (e.Queue? && e.id == id))
            && (((e.Queue? || e.Cancel?) && e.id == id) || SameChan(s.chans, s'.chans, id))
  {
    if e.Queue? {
      var last := if e.order == 0 then s.lastOrder + 1 else s.lastOrder;
      InsertKeeps(s.queue, Req(e.id, if e.order == 0 then last else e.order), id);
    } else if e.Cancel? && Queued(s.queue, e.id) {
      WithoutKeeps(s.queue, e.id, id);
    }
  }

  lemma {:induction false} LeftStays(states: seq<State>, events: seq<Event>, x: nat, k: nat, id: nat)
    requires Run(states, events) && x < k < |states| && LeftAt(states, events, x, id)
    ensures states[k].pc == Gone && Queued(states[k].queue, id) && id in states[k].chans
              && states[k].chans[id] == Closed
  {
    if k == x + 1 {
      CloseAllIs(states[x].chans, states[x].queue, id);
    } else {
      LeftStays(states, events, x, k - 1, id);
      RunInv(states, events, k - 1);
      GoneStep(states[k - 1], events[k - 1], id);
    }
  }

  lemma {:induction false} OthersOpen(states: seq<State>, events: seq<Event>, x: nat, k: nat, id: nat)
    requires Run(states, events) && x < k < |states| && events[x] == Exit && !Queued(states[x].queue, id)
    ensures states[k].pc == Gone && (Queued(states[k].queue, id) ==> HasRoom(states[k].chans, id))
  {
    if k > x + 1 {
      OthersOpen(states, events, x, k - 1, id);
      RunInv(states, events, k - 1);
      GoneStep(states[k - 1], events[k - 1], id);
    }
  }

  /** A request queued, the loop stopped, and the request cancelled. */
  lemma CancelledTooLate(peers: set<Peer>, id: nat) returns (states: seq<State>, events: seq<Event>)
    ensures Run(states, events) && |events| == 4 && events[3] == Cancel(id) && states[4].crashed
  {
    events := [Queue(id, 0), Stop, Exit, Cancel(id)];
    var s0 := Init(peers);
    var s1 := Next(s0, events[0]);
    assert s1.queue == [Req(id, 1)];
    var s2 := Next(s1, events[1]);
    var s3 := Next(s2, events[2]);
    states := [s0, s1, s2, s3, Next(s3, events[3])];
    assert LeftAt(states, events, 2, id) by { assert s2.queue[0].id == id; }
    assert Queued(s3.queue, id) by { assert s3.queue[0].id == id; }
    ClosesOnce(states, events, 3, id);
  }
}
