/**
  The operations of the transaction pool that go over all accounts
  (core/tx_pool.go): promoteExecutables and demoteUnexecutables.
  Heartbeats are a parameter.
 */
module PoolCycles {
  import opened SortedMaps
  import opened AccountLists
  import opened TxLists
  import opened FairCuts
  import opened TxPools
  import opened PoolLimits
  import opened BinaryHeaps

  /** Account b has the same lists, known transactions and managed nonce. */
  ghost predicate Untouched(before: Book, now: Book, b: nat) {
    && Get(now.pending, b) == Get(before.pending, b) && Get(now.queue, b) == Get(before.queue, b)
    && (forall tx: Tx | tx.from == b :: tx in now.all <==> tx in before.all)
    && SameNonce(before, now, b) && (b in now.pending <==> b in before.pending)
  }

  ghost predicate SameNonce(before: Book, now: Book, b: nat) {
    (b in now.nonces <==> b in before.nonces) && (b in now.nonces ==> now.nonces[b] == before.nonces[b])
  }

  lemma StillUntouched(before: Book, now: Book, next: Book, b: nat)
    requires Untouched(before, now, b) && Untouched(now, next, b)
    ensures Untouched(before, next, b)
  {
  }

  lemma OthersUntouched(mid: Book, now: Book, a: nat, b: nat)
    requires b != a && OthersKept(mid.pending, mid.queue, now.pending, now.queue, a)
              && now.nonces - {a} == mid.nonces - {a}
    requires forall tx: Tx | tx.from != a :: tx in now.all <==> tx in mid.all
    ensures Untouched(mid, now, b)
  {
    OtherSame(mid.pending, now.pending, a, b);
    OtherSame(mid.queue, now.queue, a, b);
    assert b in now.nonces <==> b in now.nonces - {a};
    assert b in mid.nonces <==> b in mid.nonces - {a};
    assert b in now.pending <==> b in now.pending - {a};
    assert b in mid.pending <==> b in mid.pending - {a};
  }

  // ---------- demotion ----------

  /** What is pending for the account starts at its nonce, is valid, and the account can pay for it. */
  ghost predicate Executable(chain: Chain, pending: Lists, a: nat) {
    var items := Get(pending, a);
    forall n | n in items ::
      && n >= chain.nonce(a) && !Exceeds(items[n], chain.balance(a), chain.maxGas)
      && !chain.bad(items[n]) && chain.nonce(a) in items
  }

  /**
    The account keeps pending what is young, payable and valid, unless it has a
    gap in front; what follows an unpayable transaction is queued; and exactly
    the pending transactions that are on neither list then are forgotten.
   */
  ghost predicate Demoted(chain: Chain, before: Book, now: Book, a: nat) {
    var items, f := Get(before.pending, a), Exceeding(chain.balance(a), chain.maxGas);
    var sound, later := Sound(items, chain.nonce(a), f, chain.bad), Unsettled(From(items, chain.nonce(a)), f);
    && (if sound != map[] && chain.nonce(a) !in sound
        then Get(now.pending, a) == map[] && Get(now.queue, a) == Get(before.queue, a) + later + sound
        else Get(now.pending, a) == sound && Get(now.queue, a) == Get(before.queue, a) + later)
    && SameNonce(before, now, a)
    && forall tx: Tx | tx.from == a ::
         tx in now.all <==> tx in before.all && (In(before.pending, tx) ==> In(now.pending, tx) || In(now.queue, tx))
  }

  lemma NothingToDemote(chain: Chain, before: Book, a: nat)
    requires a !in before.pending
    ensures Demoted(chain, before, before, a)
  {
    var f := Exceeding(chain.balance(a), chain.maxGas);
    assert From(map[], chain.nonce(a)) == map[];
    assert Sound(map[], chain.nonce(a), f, chain.bad) == map[] && Unsettled(map[], f) == map[];
  }

  lemma DemotedStays(chain: Chain, before: Book, now: Book, next: Book, b: nat)
    requires Demoted(chain, before, now, b) && Untouched(now, next, b)
    ensures Demoted(chain, before, next, b)
  {
  }

  lemma ExecutableStays(chain: Chain, now: Book, next: Book, b: nat)
    requires Untouched(now, next, b) && Executable(chain, now.pending, b)
    ensures Executable(chain, next.pending, b)
  {
  }

  /** The demotion of one account, seen from all. */
  method DemoteOne(pool: TxPool, a: nat, ghost before: Book)
    requires pool.Valid() && Untouched(before, pool.Contents(), a)
    modifies pool`pending, pool`queue, pool`all, pool.priced
    ensures pool.Valid() && Executable(pool.chain, pool.pending, a) && Demoted(pool.chain, before, pool.Contents(), a)
    ensures Tidy(pool.pending, a)
    ensures forall b: nat | b != a :: Untouched(old(pool.Contents()), pool.Contents(), b)
  {
    ghost var mid := pool.Contents();
    AccountOk(pool.pending, pool.queue, pool.all, a);
    DemoteAccount(pool, a);
    ghost var now := pool.Contents();
    Forgotten(pool.chain, mid, now, a);
    DemotedFrom(pool.chain, before, mid, now, a);
    forall b: nat | b != a ensures Untouched(mid, now, b) {
      OthersUntouched(mid, now, a, b);
    }
  }

  lemma Forgotten(chain: Chain, mid: Book, now: Book, a: nat)
    requires Own(Get(mid.pending, a), a) && (forall n | n in Get(mid.pending, a) :: n !in Get(mid.queue, a))
              && now.nonces == mid.nonces
    requires var items, f := Get(mid.pending, a), Exceeding(chain.balance(a), chain.maxGas);
             var sound, later := Sound(items, chain.nonce(a), f, chain.bad), Unsettled(From(items, chain.nonce(a)), f);
             && now.all == mid.all - Lost(items, later + sound)
             && if sound != map[] && chain.nonce(a) !in sound
                then Get(now.pending, a) == map[] && Get(now.queue, a) == Get(mid.queue, a) + later + sound
                else Get(now.pending, a) == sound && Get(now.queue, a) == Get(mid.queue, a) + later
    ensures Demoted(chain, mid, now, a)
    ensures forall tx: Tx | tx.from != a :: tx in now.all <==> tx in mid.all
  {
    var items, f := Get(mid.pending, a), Exceeding(chain.balance(a), chain.maxGas);
    var sound, later := Sound(items, chain.nonce(a), f, chain.bad), Unsettled(From(items, chain.nonce(a)), f);
    StaysIn(items, chain.nonce(a), f, chain.bad);
    forall tx: Tx | tx.from == a
      ensures tx in Lost(items, later + sound) <==> In(mid.pending, tx) && !In(now.pending, tx) && !In(now.queue, tx)
    {
      LostIs(items, later, sound, Get(mid.queue, a), Get(now.pending, a), Get(now.queue, a), a, tx);
    }
  }

  lemma StaysIn(items: Items, nonce: nat, f: Tx -> bool, bad: Tx -> bool)
    ensures SubItems(Sound(items, nonce, f, bad), items) && SubItems(Unsettled(From(items, nonce), f), items)
  {
  }

  /** Lost is what was pending and is on neither list then, wherever the sound part went. */
  lemma LostIs(items: Items, later: Items, sound: Items, queued: Items, p: Items, q: Items, a: nat, tx: Tx)
    requires Own(items, a) && SubItems(later, items) && SubItems(sound, items) && forall n | n in items :: n !in queued
    requires (p == map[] && q == queued + later + sound) || (p == sound && q == queued + later)
    ensures tx in Lost(items, later + sound) <==>
              && tx.nonce in items && items[tx.nonce] == tx
              && !(tx.nonce in p && p[tx.nonce] == tx) && !(tx.nonce in q && q[tx.nonce] == tx)
  {
  }

  lemma DemotedFrom(chain: Chain, before: Book, mid: Book, now: Book, a: nat)
    requires Untouched(before, mid, a) && Demoted(chain, mid, now, a)
    ensures Demoted(chain, before, now, a)
  {
    forall tx: Tx | tx.from == a ensures In(before.pending, tx) <==> In(mid.pending, tx) {
      assert Get(mid.pending, tx.from) == Get(before.pending, tx.from);
    }
  }

  /** How far a demotion of all accounts has come: those in `todo` are as before, the others done. */
  ghost predicate Demoting(chain: Chain, before: Book, now: Book, todo: set<nat>) {
    && (forall a: nat {:trigger Untouched(before, now, a)} :: a in todo ==> Untouched(before, now, a))
    && (forall a: nat {:trigger Demoted(chain, before, now, a)} :: a !in todo ==> Demoted(chain, before, now, a))
    && (forall a: nat {:trigger Executable(chain, now.pending, a)} :: a !in todo ==> Executable(chain, now.pending, a))
    && (forall a: nat {:trigger Tidy(now.pending, a)} :: a !in todo ==> Tidy(now.pending, a))
  }

  lemma DemotingStep(chain: Chain, before: Book, now: Book, next: Book, todo: set<nat>, a: nat)
    requires Demoting(chain, before, now, todo) && a in todo
    requires Executable(chain, next.pending, a) && Tidy(next.pending, a) && Demoted(chain, before, next, a)
    requires forall b: nat {:trigger Untouched(now, next, b)} | b != a :: Untouched(now, next, b)
    ensures Demoting(chain, before, next, todo - {a})
  {
    forall b: nat | b in todo - {a} ensures Untouched(before, next, b) {
      assert Untouched(before, now, b) && Untouched(now, next, b);
      StillUntouched(before, now, next, b);
    }
    forall b: nat | b !in todo && b != a
      ensures Demoted(chain, before, next, b) && Executable(chain, next.pending, b) && Tidy(next.pending, b)
    {
      assert Demoted(chain, before, now, b) && Executable(chain, now.pending, b) && Tidy(now.pending, b);
      assert Untouched(now, next, b);
      DemotedStays(chain, before, now, next, b);
      ExecutableStays(chain, now, next, b);
    }
  }

  lemma DemotingStart(chain: Chain, before: Book)
    ensures Demoting(chain, before, before, before.pending.Keys)
  {
    forall a: nat | a !in before.pending ensures Demoted(chain, before, before, a) {
      NothingToDemote(chain, before, a);
    }
  }

  /**
    demoteUnexecutables: afterwards everything pending is executable, and every account was demoted
    as it had to be.
   */
  method DemoteUnexecutables(pool: TxPool)
    requires pool.Valid()
    modifies pool`pending, pool`queue, pool`all, pool.priced
    ensures pool.Valid()
    ensures forall a: nat :: Executable(pool.chain, pool.pending, a)
    ensures forall a: nat :: Tidy(pool.pending, a)
    ensures forall a: nat :: Demoted(pool.chain, old(pool.Contents()), pool.Contents(), a)
  {
    ghost var before := pool.Contents();
    DemotingStart(pool.chain, before);
    var todo := pool.pending.Keys;
    while todo != {}
      invariant pool.Valid() && Demoting(pool.chain, before, pool.Contents(), todo)
      decreases todo
    {
      var a :| a in todo;
      ghost var now := pool.Contents();
      assert Untouched(before, now, a);
      DemoteOne(pool, a, before);
      DemotingStep(pool.chain, before, now, pool.Contents(), todo, a);
      todo := todo - {a};
    }
  }

  // ---------- promotion ----------

  /** The remote accounts with queued transactions. */
  method RemoteQueued(queue: Lists, locals: set<nat>) returns (accounts: seq<nat>)
    ensures Distinct(accounts) && forall a :: a in accounts <==> a in queue && a !in locals
  {
    accounts := [];
    var todo := queue.Keys;
    while todo != {}
      invariant todo <= queue.Keys && Distinct(accounts)
      invariant forall a :: a in accounts <==> a in queue && a !in todo && a !in locals
      decreases todo
    {
      var a :| a in todo;
      todo := todo - {a};
      if a !in locals {
        assert a !in accounts;
        accounts := accounts + [a];
      }
    }
  }

  /** The same accounts by heartbeat, the most recent last. */
  method ByHeartbeat(accounts: seq<nat>, beat: nat -> int) returns (order: seq<nat>)
    requires Distinct(accounts)
    ensures Distinct(order) && (forall a :: a in order <==> a in accounts)
    ensures forall i, j | 0 <= i < j < |order| :: beat(order[i]) <= beat(order[j])
  {
    order := Sort(beat, accounts);
    forall a ensures a in order <==> a in accounts {
      assert a in multiset(order) <==> a in multiset(accounts);
    }
    StillDistinct(accounts, order);
  }

  lemma StillDistinct(s: seq<nat>, r: seq<nat>)
    requires Distinct(s) && multiset(r) == multiset(s)
    ensures Distinct(r)
  {
    forall i, j | 0 <= i < j < |r| ensures r[i] != r[j] {
      if r[i] == r[j] {
        Twice(r, i, j);
        Once(s, r[i]);
      }
    }
  }

  lemma {:induction false} Once(s: seq<nat>, x: nat)
    requires Distinct(s)
    ensures multiset(s)[x] <= 1
  {
    if s != [] {
      var rest := s[..|s| - 1];
      Once(rest, x);
      assert s == rest + [s[|s| - 1]];
      assert s[|s| - 1] !in rest;
    }
  }

  /** No remote account has more than n transactions. */
  ghost predicate AtMost(lists: Lists, locals: set<nat>, n: nat) {
    forall a: nat | a !in locals :: |Get(lists, a)| <= n
  }

  lemma CutToSlots(before: Lists, now: Lists, locals: set<nat>, slots: nat)
    requires WaterFilled(before, now, locals, slots, slots)
    ensures AtMost(now, locals, slots)
  {
    forall a: nat | a !in locals ensures |Get(now, a)| <= slots {
      if a in before {
        assert Spams(before, locals, slots, a) || |before[a]| <= slots;
      }
    }
  }

  /**
    The account's young, payable and valid queued transactions stay: the run that
    is executable from its next nonce on becomes pending, and the next nonce moves
    behind it; of the rest a remote account keeps its lowest nonces up to the
    limit. What was queued and is on neither list then is forgotten.
   */
  ghost predicate Promoted(chain: Chain, locals: set<nat>, limit: nat, before: Book, now: Book, a: nat) {
    exists cut: nat :: PromotedAt(chain, locals, limit, cut, before, now, a)
  }

  ghost predicate PromotedAt(chain: Chain, locals: set<nat>, limit: nat, cut: nat, before: Book, now: Book, a: nat) {
    && Run(FitQueue(chain, Get(before.queue, a), a), NextNonce(before.nonces, chain, a), cut, a in locals, limit,
           Get(before.pending, a), Get(now.pending, a), Get(now.queue, a))
    && (if cut == 0 then SameNonce(before, now, a) else a in now.nonces && now.nonces[a] == cut)
    && QueuedForgotten(before, now, a)
  }

  /** The lists of one account: of what fits, the part below the cut joins what is pending. */
  ghost predicate Run(fit: Items, next: nat, cut: nat, exempt: bool, limit: nat, p: Items, p': Items, q': Items) {
    ReadyCut(fit, next, cut) && p' == p + Under(fit, cut) && TopCut(q', From(fit, cut), exempt, limit)
  }

  ghost predicate QueuedForgotten(before: Book, now: Book, a: nat) {
    forall tx: Tx | tx.from == a ::
      tx in now.all <==> tx in before.all && (In(before.queue, tx) ==> In(now.pending, tx) || In(now.queue, tx))
  }

  /** How far the promotion has come: the accounts done are promoted, the others as before. */
  ghost predicate Promoting(chain: Chain, locals: set<nat>, limit: nat, before: Book, now: Book, done: set<nat>) {
    && (forall a: nat {:trigger Promoted(chain, locals, limit, before, now, a)} ::
          a in done ==> Promoted(chain, locals, limit, before, now, a))
    && (forall a: nat {:trigger Untouched(before, now, a)} :: a !in done ==> Untouched(before, now, a))
  }

  lemma PromotedStays(chain: Chain, locals: set<nat>, limit: nat, before: Book, now: Book, later: Book, b: nat)
    requires Promoted(chain, locals, limit, before, now, b) && Untouched(now, later, b)
    ensures Promoted(chain, locals, limit, before, later, b)
  {
    var cut: nat :| PromotedAt(chain, locals, limit, cut, before, now, b);
    ForgottenStays(before, now, later, b);
    assert PromotedAt(chain, locals, limit, cut, before, later, b);
  }

  lemma ForgottenStays(before: Book, now: Book, later: Book, b: nat)
    requires QueuedForgotten(before, now, b) && Untouched(now, later, b)
    ensures QueuedForgotten(before, later, b)
  {
    forall tx: Tx | tx.from == b
      ensures (In(now.queue, tx) <==> In(later.queue, tx)) && (In(now.pending, tx) <==> In(later.pending, tx))
    {
      assert Get(later.queue, tx.from) == Get(now.queue, tx.from)
          && Get(later.pending, tx.from) == Get(now.pending, tx.from);
    }
  }

  lemma PromotedFrom(chain: Chain, locals: set<nat>, limit: nat, cut: nat, before: Book, mid: Book, now: Book, a: nat)
    requires Untouched(before, mid, a) && PromotedAt(chain, locals, limit, cut, mid, now, a)
    ensures PromotedAt(chain, locals, limit, cut, before, now, a)
  {
    forall tx: Tx | tx.from == a ensures In(before.queue, tx) <==> In(mid.queue, tx) {
      assert Get(mid.queue, tx.from) == Get(before.queue, tx.from);
    }
  }

  lemma PromotingStep(chain: Chain, locals: set<nat>, limit: nat, before: Book, now: Book, later: Book, done: set<nat>,
      a: nat)
    requires Promoting(chain, locals, limit, before, now, done) && Promoted(chain, locals, limit, before, later, a)
    requires forall b: nat {:trigger Untouched(now, later, b)} | b != a :: Untouched(now, later, b)
    ensures Promoting(chain, locals, limit, before, later, done + {a})
  {
    RestUntouched(before, now, later, done, a);
    forall b: nat | b in done && b != a ensures Promoted(chain, locals, limit, before, later, b) {
      PromotedStays(chain, locals, limit, before, now, later, b);
    }
  }

  lemma RestUntouched(before: Book, now: Book, later: Book, done: set<nat>, a: nat)
    requires forall b: nat {:trigger Untouched(before, now, b)} :: b !in done ==> Untouched(before, now, b)
    requires forall b: nat {:trigger Untouched(now, later, b)} | b != a :: Untouched(now, later, b)
    ensures forall b: nat {:trigger Untouched(before, later, b)} :: b !in done + {a} ==> Untouched(before, later, b)
  {
    forall b: nat | b !in done + {a} ensures Untouched(before, later, b) {
      StillUntouched(before, now, later, b);
    }
  }

  /** What the pool forgets when account a is promoted, by transactions instead of as a set. */
  lemma ForgottenQueued(mid: Book, now: Book, a: nat, run: Items)
    requires Own(Get(mid.queue, a), a) && SubItems(run, Get(mid.queue, a))
              && SubItems(Get(now.queue, a), Get(mid.queue, a))
    requires Get(now.pending, a) == Get(mid.pending, a) + run
              && forall n | n in Get(mid.pending, a) :: n !in Get(mid.queue, a)
    requires now.all == mid.all - Lost(Get(mid.queue, a), run + Get(now.queue, a))
    ensures QueuedForgotten(mid, now, a)
    ensures forall tx: Tx | tx.from != a :: tx in now.all <==> tx in mid.all
  {
    forall tx: Tx | tx.from == a
      ensures tx in Lost(Get(mid.queue, a), run + Get(now.queue, a)) <==>
                In(mid.queue, tx) && !In(now.pending, tx) && !In(now.queue, tx)
    {
      assert In(mid.queue, tx) <==> tx.nonce in Get(mid.queue, a) && Get(mid.queue, a)[tx.nonce] == tx;
      assert In(now.queue, tx) <==> tx.nonce in Get(now.queue, a) && Get(now.queue, a)[tx.nonce] == tx;
      assert In(now.pending, tx) <==> tx.nonce in Get(now.pending, a) && Get(now.pending, a)[tx.nonce] == tx;
    }
  }

  /** What PromoteAccount leaves, put together. */
  lemma PromotedOne(chain: Chain, locals: set<nat>, limit: nat, cut: nat, mid: Book, now: Book, a: nat)
    requires Own(Get(mid.queue, a), a) && forall n | n in Get(mid.pending, a) :: n !in Get(mid.queue, a)
    requires var fit := FitQueue(chain, Get(mid.queue, a), a);
             && Run(fit, NextNonce(mid.nonces, chain, a), cut, a in locals, limit,
                    Get(mid.pending, a), Get(now.pending, a), Get(now.queue, a))
             && now.all == mid.all - Lost(Get(mid.queue, a), Under(fit, cut) + Get(now.queue, a))
    requires if cut == 0 then SameNonce(mid, now, a) else a in now.nonces && now.nonces[a] == cut
    ensures PromotedAt(chain, locals, limit, cut, mid, now, a)
    ensures forall tx: Tx | tx.from != a :: tx in now.all <==> tx in mid.all
  {
    var fit := FitQueue(chain, Get(mid.queue, a), a);
    FitIn(chain, Get(mid.queue, a), a);
    RunKeepsPart(Get(mid.queue, a), fit, cut, Get(now.queue, a), a in locals, limit);
    ForgottenQueued(mid, now, a, Under(fit, cut));
  }

  lemma FitIn(chain: Chain, items: Items, a: nat)
    ensures SubItems(FitQueue(chain, items, a), items)
  {
  }

  lemma RunKeepsPart(queued: Items, fit: Items, cut: nat, keep: Items, exempt: bool, limit: nat)
    requires SubItems(fit, queued) && TopCut(keep, From(fit, cut), exempt, limit)
    ensures SubItems(Under(fit, cut), queued) && SubItems(keep, queued)
  {
  }

  lemma NonceMoved(mid: Book, now: Book, a: nat, cut: nat)
    requires now.nonces == if cut == 0 then mid.nonces else mid.nonces[a := cut]
    ensures if cut == 0 then SameNonce(mid, now, a) else a in now.nonces && now.nonces[a] == cut
    ensures now.nonces - {a} == mid.nonces - {a}
  {
  }

  /** The promotion of one account, seen from all. */
  method PromoteOne(pool: TxPool, a: nat, ghost before: Book)
    requires pool.Valid() && Untouched(before, pool.Contents(), a)
    modifies pool`pending, pool`queue, pool`all, pool`pendingNonce, pool.priced
    ensures pool.Valid() && Promoted(pool.chain, pool.locals, pool.accountQueue, before, pool.Contents(), a)
    ensures forall b: nat | b != a :: Untouched(old(pool.Contents()), pool.Contents(), b)
  {
    ghost var mid := pool.Contents();
    AccountOk(pool.pending, pool.queue, pool.all, a);
    var cut := pool.PromoteAccount(a);
    ghost var now := pool.Contents();
    NonceMoved(mid, now, a, cut);
    PromotedOne(pool.chain, pool.locals, pool.accountQueue, cut, mid, now, a);
    PromotedFrom(pool.chain, pool.locals, pool.accountQueue, cut, before, mid, now, a);
    forall b: nat | b != a ensures Untouched(mid, now, b) {
      OthersUntouched(mid, now, a, b);
    }
  }

  /** The loop of promoteExecutables over accounts, none of them listed twice. */
  method PromoteAll(pool: TxPool, accounts: seq<nat>) returns (ghost done: set<nat>)
    requires pool.Valid() && Distinct(accounts)
    modifies pool`pending, pool`queue, pool`all, pool`pendingNonce, pool.priced
    ensures pool.Valid() && forall a :: a in done <==> a in accounts
    ensures Promoting(pool.chain, pool.locals, pool.accountQueue, old(pool.Contents()), pool.Contents(), done)
  {
    ghost var before := pool.Contents();
    done := {};
    for i := 0 to |accounts|
      invariant pool.Valid() && Promoting(pool.chain, pool.locals, pool.accountQueue, before, pool.Contents(), done)
      invariant forall a :: a in done <==> a in accounts[..i]
    {
      ghost var now, a := pool.Contents(), accounts[i];
      assert Untouched(before, now, a);
      PromoteOne(pool, accounts[i], before);
      PromotingStep(pool.chain, pool.locals, pool.accountQueue, before, now, pool.Contents(), done, a);
      done := done + {a};
      assert accounts[..i + 1] == accounts[..i] + [a];
    }
    assert accounts[..|accounts|] == accounts;
  }

  /** Both cuts together: what left either list is forgotten. */
  ghost predicate CutDown(mid: Book, now: Book) {
    forall tx: Tx {:trigger tx in now.all} ::
      tx in now.all <==>
          tx in mid.all && (In(mid.pending, tx) ==> In(now.pending, tx)) && (In(mid.queue, tx) ==> In(now.queue, tx))
  }

  /** A next nonce is kept or falls to a nonce that its account lost, and is not above any of them. */
  ghost predicate NoncesCut(chain: Chain, mid: Book, now: Book) {
    && Sits(mid.pending)
    && (forall a: nat {:trigger NextNonce(now.nonces, chain, a)} ::
          LoweredBy(mid.pending, now.pending, a, NextNonce(mid.nonces, chain, a), NextNonce(now.nonces, chain, a)))
    && (forall tx | In(mid.pending, tx) && !In(now.pending, tx) :: NextNonce(now.nonces, chain, tx.from) <= tx.nonce)
  }

  /**
    promoteExecutables on values: the accounts in `done` are promoted, the pending
    lists cut to the level c and the queue from the end of `order`, down to its
    k-th account; and what left a list is forgotten.
   */
  ghost predicate Cycled(chain: Chain, locals: set<nat>, limit: nat, slots: nat, before: Book, mid: Book, now: Book,
                         done: set<nat>, c: nat, order: seq<nat>, k: nat) {
    && Promoting(chain, locals, limit, before, mid, done)
    && WaterFilled(mid.pending, now.pending, locals, slots, c) && CutFrom(mid.queue, now.queue, order, k)
    && NoncesCut(chain, mid, now) && CutDown(mid, now)
  }

  /**
    promoteExecutables. The accounts are promoted, the pending lists cut to a
    common level, and the queue cut by heartbeat. Afterwards the pool keeps to its
    limits: what is pending fits the global slots, or no remote account has more
    than its own; what is queued fits the queue, or only locals have anything queued.
   */
  method PromoteExecutables(pool: TxPool, accounts: seq<nat>, beat: nat -> int)
    returns (ghost done: set<nat>, ghost mid: Book, ghost c: nat, ghost order: seq<nat>, ghost k: nat)
    requires pool.Valid() && Distinct(accounts)
    modifies pool`pending, pool`queue, pool`all, pool`pendingNonce, pool.priced
    ensures pool.Valid() && forall a :: a in done <==> a in accounts
    ensures PoolOk(mid.pending, mid.queue, mid.all)
    ensures Cycled(pool.chain, pool.locals, pool.accountQueue, pool.accountSlots, old(pool.Contents()), mid,
                   pool.Contents(), done, c, order, k)
    ensures forall i, j | 0 <= i < j < |order| :: beat(order[i]) <= beat(order[j])
    ensures Total(pool.pending) <= pool.globalSlots || AtMost(pool.pending, pool.locals, pool.accountSlots)
    ensures Total(pool.queue) <= pool.globalQueue || AtMost(pool.queue, pool.locals, 0)
  {
    done := PromoteAll(pool, accounts);
    mid := pool.Contents();
    c := CutPending(pool);
    if c == pool.accountSlots {
      CutToSlots(mid.pending, pool.pending, pool.locals, pool.accountSlots);
    }
    var remote := RemoteQueued(pool.queue, pool.locals);
    var sorted := ByHeartbeat(remote, beat);
    order := sorted;
    k := CutQueue(pool, sorted);
  }
}
