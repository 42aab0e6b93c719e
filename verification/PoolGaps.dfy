/**
  Two things that the transaction pool does not always keep (core/tx_pool.go):
  that every known transaction is on a list, and that pending lists have no
  gaps. When each is lost is stated exactly, and a pool is led there.
 */
module PoolGaps {
  import opened SortedMaps
  import opened AccountLists
  import opened TxLists
  import opened FairCuts
  import opened TxPools
  import opened PoolLimits
  import opened PoolCycles
  import opened PoolResets

  /** Every transaction that the pool knows is pending or queued. */
  ghost predicate AllListed(pending: Lists, queue: Lists, all: set<Tx>) {
    forall tx: Tx {:trigger Listed(pending, queue, tx)} :: tx in all ==> Listed(pending, queue, tx)
  }

  ghost predicate Listed(pending: Lists, queue: Lists, tx: Tx) {
    In(pending, tx) || In(queue, tx)
  }

  /** The transaction is the first of several that its account has pending. */
  ghost predicate LeadsOthers(pending: Lists, tx: Tx) {
    var list := Get(pending, tx.from);
    tx.nonce in list && Under(list, tx.nonce) == map[] && From(list, tx.nonce + 1) != map[]
  }

  /**
    Removing a known transaction keeps all others listed exactly if it does not
    lead others that are pending: those are taken off the list and not queued.
   */
  lemma RemovalListsAll(pending: Lists, queue: Lists, all: set<Tx>, pending': Lists, queue': Lists, tx: Tx)
    requires PoolOk(pending, queue, all) && AllListed(pending, queue, all) && tx in all
    requires TakenOff(pending, queue, pending', queue', tx)
    ensures AllListed(pending', queue', all - {tx}) <==> !LeadsOthers(pending, tx)
  {
    var a := tx.from;
    AccountOk(pending, queue, all, a);
    assert Listed(pending, queue, tx);
    if LeadsOthers(pending, tx) {
      var n :| n in From(Get(pending, a), tx.nonce + 1);
      var x := Get(pending, a)[n];
      LeftBehind(pending, queue, pending', queue', tx, x);
      assert x in all by { assert KnownTx(pending, queue, all, x); }
      assert !Listed(pending', queue', x);
    } else {
      forall x: Tx | x in all - {tx} ensures Listed(pending', queue', x) {
        assert Listed(pending, queue, x);
        if x.from == a {
          StillListed(pending, queue, pending', queue', tx, x);
        } else {
          ElsewhereListed(pending, queue, pending', queue', a, x);
        }
      }
    }
  }

  lemma LeftBehind(pending: Lists, queue: Lists, pending': Lists, queue': Lists, tx: Tx, x: Tx)
    requires TakenOff(pending, queue, pending', queue', tx) && LeadsOthers(pending, tx)
    requires In(pending, x) && x.from == tx.from
    requires Apart(pending, queue, tx.from) && x.nonce > tx.nonce
    ensures !Listed(pending', queue', x)
  {
    assert x.nonce in Get(pending, x.from) && x.nonce !in Get(queue, x.from);
    assert Get(pending', x.from) == map[] && Get(queue', x.from) == Get(queue, x.from);
  }

  lemma StillListed(pending: Lists, queue: Lists, pending': Lists, queue': Lists, tx: Tx, x: Tx)
    requires TakenOff(pending, queue, pending', queue', tx) && !LeadsOthers(pending, tx)
    requires x.from == tx.from && x != tx && Listed(pending, queue, x) && Listed(pending, queue, tx)
    requires Apart(pending, queue, tx.from)
    ensures Listed(pending', queue', x)
  {
    var p, q, p', q' := Get(pending, x.from), Get(queue, x.from), Get(pending', x.from), Get(queue', x.from);
    assert In(pending', x) <==> x.nonce in p' && p'[x.nonce] == x;
    assert In(queue', x) <==> x.nonce in q' && q'[x.nonce] == x;
    if tx.nonce in p && x.nonce in p && x.nonce > tx.nonce {
      assert x.nonce in From(p, tx.nonce + 1);
    }
  }

  lemma ElsewhereListed(pending: Lists, queue: Lists, pending': Lists, queue': Lists, a: nat, x: Tx)
    requires OthersKept(pending, queue, pending', queue', a) && x.from != a && Listed(pending, queue, x)
    ensures Listed(pending', queue', x)
  {
    if In(pending, x) {
      assert x.from in pending - {a} && (pending - {a})[x.from] == pending[x.from];
    } else {
      assert x.from in queue - {a} && (queue - {a})[x.from] == queue[x.from];
    }
  }

  // ---------- gaps ----------

  /** The nonces of a list are consecutive, from the first to the last. */
  ghost predicate Spans(p: Items, first: nat, last: nat) {
    first <= last && forall n: nat :: n in p <==> first <= n <= last
  }

  /** What promotion may find in the queue of an account: young transactions at nonces that are not pending. */
  ghost predicate Offered(p: Items, nonce: nat, fit: Items) {
    forall n | n in fit :: n >= nonce && n !in p
  }

  /** Promotion leaves no gap, whatever is queued. */
  ghost predicate NeverBreaks(p: Items, nonce: nat, next: nat) {
    forall fit: Items, cut: nat | Offered(p, nonce, fit) && ReadyCut(fit, next, cut) :: GapFree(p + Under(fit, cut))
  }

  /**
    Promotion keeps a gap-free pending list gap-free, whatever is queued, if and
    only if nothing can be promoted, or the list starts at the account's nonce or
    right above it and the next nonce is not beyond its end.
   */
  lemma PromotionGapFree(p: Items, first: nat, last: nat, nonce: nat, next: nat)
    requires Spans(p, first, last)
    ensures NeverBreaks(p, nonce, next) <==> next < nonce || (first <= nonce + 1 && next <= last + 1)
  {
    if next < nonce || (first <= nonce + 1 && next <= last + 1) {
      forall fit: Items, cut: nat | Offered(p, nonce, fit) && ReadyCut(fit, next, cut)
        ensures GapFree(p + Under(fit, cut))
      {
        NoBreak(p, first, last, nonce, next, fit, cut);
      }
    } else {
      var n := if first > nonce + 1 || nonce > last + 2 then nonce else last + 2;
      Breaks(p, first, last, nonce, next, n);
    }
  }

  lemma NoBreak(p: Items, first: nat, last: nat, nonce: nat, next: nat, fit: Items, cut: nat)
    requires Spans(p, first, last) && Offered(p, nonce, fit) && ReadyCut(fit, next, cut)
    requires next < nonce || (first <= nonce + 1 && next <= last + 1)
    ensures GapFree(p + Under(fit, cut))
  {
    var run := Under(fit, cut);
    if cut == 0 {
      assert run == map[];
    } else {
      var n :| n in fit && n < cut && n <= next;
      assert first !in fit && (n + 1 == first || n == last + 1);
      if n + 1 == first {
        assert cut == first;
      } else {
        assert forall m | m in run :: m > last;
      }
    }
  }

  /** A single queued transaction that is ready and does not touch the list breaks it. */
  lemma Breaks(p: Items, first: nat, last: nat, nonce: nat, next: nat, n: nat)
    requires Spans(p, first, last) && nonce <= n <= next && (n + 1 < first || n > last + 1)
    ensures !NeverBreaks(p, nonce, next)
  {
    var fit: Items := map[n := p[first]];
    assert first in p;
    assert n in fit && n <= next;
    assert Offered(p, nonce, fit) && ReadyCut(fit, next, n + 1);
    var all := p + Under(fit, n + 1);
    assert n in all && first in all && last in all;
    assert !GapFree(all) by {
      if n + 1 < first {
        assert n + 1 !in all;
      } else {
        assert last + 1 !in all;
      }
    }
  }

  // ---------- pools that are led there ----------

  /** A transaction whose account has nothing queued, and nothing pending at its nonce, is added. */
  method Offer(pool: TxPool, tx: Tx)
    requires pool.Valid() && tx !in pool.all && |pool.all| < pool.globalSlots + pool.globalQueue
    requires Get(pool.queue, tx.from) == map[] && tx.nonce !in Get(pool.pending, tx.from)
    modifies pool`pending, pool`queue, pool`all, pool`locals, pool`pendingNonce, pool.priced
    ensures pool.Valid() && pool.all == old(pool.all) + {tx} && pool.pendingNonce == old(pool.pendingNonce)
    ensures Get(pool.queue, tx.from) == map[tx.nonce := tx] && pool.locals == old(pool.locals)
    ensures Get(pool.pending, tx.from) == Get(old(pool.pending), tx.from)
  {
    var r, drops, mid := pool.Add(tx, false, true);
    assert mid == old(pool.Contents());
  }

  /** The only queued transaction of an account has the next nonce, and is promoted. */
  method PromoteSingle(pool: TxPool, tx: Tx)
    requires pool.Valid() && Get(pool.queue, tx.from) == map[tx.nonce := tx]
    requires pool.chain.nonce(tx.from) <= tx.nonce == NextNonce(pool.pendingNonce, pool.chain, tx.from)
    requires !Exceeds(tx, pool.chain.balance(tx.from), pool.chain.maxGas) && !pool.chain.bad(tx)
    modifies pool`pending, pool`queue, pool`all, pool`pendingNonce, pool.priced
    ensures pool.Valid() && pool.all == old(pool.all) && Get(pool.queue, tx.from) == map[]
    ensures NextNonce(pool.pendingNonce, pool.chain, tx.from) == tx.nonce + 1
    ensures Get(pool.pending, tx.from) == Get(old(pool.pending), tx.from) + map[tx.nonce := tx]
  {
    ghost var queued := Get(pool.queue, tx.from);
    var cut := pool.PromoteAccount(tx.from);
    SingleRun(pool.chain, tx, queued, cut, Get(pool.queue, tx.from), tx.from in pool.locals, pool.accountQueue);
    assert Under(FitQueue(pool.chain, queued, tx.from), cut) == queued;
  }

  lemma SingleRun(chain: Chain, tx: Tx, queued: Items, cut: nat, keep: Items, exempt: bool, limit: nat)
    requires queued == map[tx.nonce := tx] && chain.nonce(tx.from) <= tx.nonce
    requires !Exceeds(tx, chain.balance(tx.from), chain.maxGas) && !chain.bad(tx)
    requires ReadyCut(FitQueue(chain, queued, tx.from), tx.nonce, cut)
    requires TopCut(keep, From(FitQueue(chain, queued, tx.from), cut), exempt, limit)
    ensures cut == tx.nonce + 1 && keep == map[] && Under(FitQueue(chain, queued, tx.from), cut) == queued
    ensures Lost(queued, queued + keep) == {}
  {
    assert FitQueue(chain, queued, tx.from) == queued;
    assert From(queued, tx.nonce + 1) == map[];
  }

  /** A transaction with the account's next nonce is added and becomes pending. */
  method Give(pool: TxPool, tx: Tx)
    requires pool.Valid() && tx !in pool.all && |pool.all| < pool.globalSlots + pool.globalQueue
    requires Get(pool.queue, tx.from) == map[] && tx.nonce !in Get(pool.pending, tx.from)
    requires pool.chain.nonce(tx.from) <= tx.nonce == NextNonce(pool.pendingNonce, pool.chain, tx.from)
    requires !Exceeds(tx, pool.chain.balance(tx.from), pool.chain.maxGas) && !pool.chain.bad(tx)
    modifies pool`pending, pool`queue, pool`all, pool`locals, pool`pendingNonce, pool.priced
    ensures pool.Valid() && pool.all == old(pool.all) + {tx} && Get(pool.queue, tx.from) == map[]
    ensures NextNonce(pool.pendingNonce, pool.chain, tx.from) == tx.nonce + 1
    ensures Get(pool.pending, tx.from) == Get(old(pool.pending), tx.from) + map[tx.nonce := tx]
  {
    Offer(pool, tx);
    PromoteSingle(pool, tx);
  }

  /** A chain on which every account has this nonce and everything is free and valid. */
  function FreeChain(nonce: nat): Chain {
    Chain((a: nat) => nonce, (a: nat) => 0, 0, (tx: Tx) => false)
  }

  function Sample(nonce: nat): Tx {
    Tx(0, nonce, 1, 0, 0, Normal, 0)
  }

  /** Two transactions become pending, and the first is removed: the pool knows the second, on no list. */
  method UnlistedPool() returns (pool: TxPool)
    ensures fresh(pool) && pool.Valid() && Sample(1) in pool.all && !Listed(pool.pending, pool.queue, Sample(1))
    ensures !AllListed(pool.pending, pool.queue, pool.all)
  {
    pool := new TxPool(10, 10, 10, 10, 10, FreeChain(0));
    Give(pool, Sample(0));
    Give(pool, Sample(1));
    ghost var list := Get(pool.pending, 0);
    assert list == map[0 := Sample(0), 1 := Sample(1)];
    pool.RemoveTx(Sample(0), {});
    assert Under(list, 0) == map[];
    assert !Listed(pool.pending, pool.queue, Sample(1));
  }

  /** A new pool with one pending transaction. */
  method SinglePool(tx: Tx) returns (pool: TxPool)
    requires tx == Sample(tx.nonce)
    ensures fresh(pool) && fresh(pool.priced) && pool.Valid() && pool.all == {tx} && pool.locals == {}
    ensures RulesOf(pool) == Rules(20, 10, 10, 10)
    ensures Get(pool.pending, 0) == map[tx.nonce := tx] && Get(pool.queue, 0) == map[]
  {
    pool := new TxPool(10, 10, 10, 10, 10, FreeChain(tx.nonce));
    Offer(pool, tx);
    PromoteSingle(pool, tx);
    assert map[] + map[tx.nonce := tx] == map[tx.nonce := tx];
  }

  /**
    Nonce 5 is pending when a reorganisation takes the account back to nonce 3 and
    gives only that transaction back: reset leaves 3 and 5 pending.
   */
  method GappedPool(beat: nat -> int) returns (pool: TxPool)
    ensures fresh(pool) && pool.Valid() && pool.chain == FreeChain(3)
    ensures Get(pool.pending, 0) == map[3 := Sample(3), 5 := Sample(5)] && !GapFree(Get(pool.pending, 0))
  {
    pool := SinglePool(Sample(5));
    SamplesFit(Get(pool.pending, 0) + map[3 := Sample(3)]);
    GiveBack(pool, FreeChain(3), Sample(3), beat);
  }

  /** A new head gives one transaction back, which has its account's nonce, and all of the account's are payable. */
  method GiveBack(pool: TxPool, chain: Chain, tx: Tx, beat: nat -> int)
    requires pool.Valid() && tx !in pool.all && |pool.all| < pool.globalSlots + pool.globalQueue
    requires Get(pool.queue, tx.from) == map[] && tx.nonce !in Get(pool.pending, tx.from)
    requires var items := Get(pool.pending, tx.from) + map[tx.nonce := tx];
             tx.nonce == chain.nonce(tx.from) && AllPayable(chain, items, tx.from) && |items| <= pool.accountSlots
    modifies pool, pool.priced
    ensures pool.Valid() && pool.chain == chain
    ensures Get(pool.pending, tx.from) == Get(old(pool.pending), tx.from) + map[tx.nonce := tx]
  {
    ghost var before := pool.Now();
    var snaps, outcomes, added, demoted, ready := Reset(pool, chain, [tx], [true], beat);
    GivenBackStays(chain, RulesOf(pool), before, tx, pool.locals, pool.Contents(),
                   snaps, outcomes, added, demoted, ready);
  }

  lemma SamplesFit(items: Items)
    requires items == map[5 := Sample(5)] + map[3 := Sample(3)]
    ensures items == map[3 := Sample(3), 5 := Sample(5)] && |items| == 2 && AllPayable(FreeChain(3), items, 0)
    ensures !GapFree(items)
  {
    GapAtFour(items);
  }

  lemma GapAtFour(items: Items)
    requires 3 in items && 4 !in items && 5 in items
    ensures !GapFree(items)
  {
  }

  // ---------- what reset does to such a pool ----------

  /** A single transaction given back, with its account's nonce, is queued and promoted beside what is pending. */
  lemma GivenBack(chain: Chain, rules: Rules, snaps: seq<Snapshot>, tx: Tx, outcomes: seq<Outcome>, added: Book)
    requires Batched(chain, rules, snaps, [tx], false, [true], outcomes, added)
    requires var before := snaps[0].book;
             && tx !in before.all && |before.all| < rules.capacity && Get(before.queue, tx.from) == map[]
             && tx.nonce !in Get(before.pending, tx.from) && before.nonces == map[]
             && |Get(before.pending, tx.from) + map[tx.nonce := tx]| <= rules.accountSlots
    requires tx.nonce == chain.nonce(tx.from)
    requires !Exceeds(tx, chain.balance(tx.from), chain.maxGas) && !chain.bad(tx)
    ensures Get(added.pending, tx.from) == Get(snaps[0].book.pending, tx.from) + map[tx.nonce := tx]
    ensures Get(added.queue, tx.from) == map[]
  {
    BatchOfOne(chain, rules, snaps, tx, outcomes, added);
    QueuedAlone(chain, rules, snaps[0], snaps[1], tx, outcomes[0]);
    PromotedBeside(chain, rules, snaps[1], added, tx);
  }

  /** It stays so through the rest of reset, if all of it is payable and valid. */
  lemma GivenBackStays(chain: Chain, rules: Rules, before: Snapshot, tx: Tx, locals: set<nat>, now: Book,
                       snaps: seq<Snapshot>, outcomes: seq<Outcome>, added: Book, demoted: Book, ready: Book)
    requires ResetTo(chain, rules, before, [tx], [true], locals, now, snaps, outcomes, added, demoted, ready)
    requires tx !in before.book.all && |before.book.all| < rules.capacity && Get(before.book.queue, tx.from) == map[]
    requires tx.nonce !in Get(before.book.pending, tx.from) && tx.nonce == chain.nonce(tx.from)
    requires var items := Get(before.book.pending, tx.from) + map[tx.nonce := tx];
             AllPayable(chain, items, tx.from) && |items| <= rules.accountSlots
    ensures Get(now.pending, tx.from) == Get(before.book.pending, tx.from) + map[tx.nonce := tx]
  {
    var items := Get(before.book.pending, tx.from) + map[tx.nonce := tx];
    assert items[tx.nonce] == tx;
    GivenBack(chain, rules, snaps, tx, outcomes, added);
    assert Demoted(chain, added, demoted, tx.from);
    StaysPending(chain, rules, added, demoted, ready, locals, now, tx.from, items);
  }

  lemma BatchOfOne(chain: Chain, rules: Rules, snaps: seq<Snapshot>, tx: Tx, outcomes: seq<Outcome>, added: Book)
    requires Batched(chain, rules, snaps, [tx], false, [true], outcomes, added)
    ensures |snaps| == 2 && |outcomes| == 1 && AddOk(chain, rules, snaps[0], snaps[1], tx, false, true, outcomes[0])
    ensures outcomes[0] == Added(false) ==> PromotedFor(chain, rules, snaps[1].locals, snaps[1].book, added, {tx.from})
  {
    assert AddOk(chain, rules, snaps[0], snaps[1], [tx][0], false, [true][0], outcomes[0]);
    assert outcomes[..0] == [];
    assert outcomes[0] == Added(false) ==> Newcomers([tx], outcomes) == {tx.from};
  }

  lemma QueuedAlone(chain: Chain, rules: Rules, before: Snapshot, after: Snapshot, tx: Tx, r: Outcome)
    requires AddOk(chain, rules, before, after, tx, false, true, r) && tx !in before.book.all
    requires |before.book.all| < rules.capacity && tx.nonce !in Get(before.book.pending, tx.from)
    requires Get(before.book.queue, tx.from) == map[]
    ensures r == Added(false) && after.locals == before.locals && after.book.nonces == before.book.nonces
    ensures Get(after.book.pending, tx.from) == Get(before.book.pending, tx.from)
    ensures Get(after.book.queue, tx.from) == map[tx.nonce := tx]
  {
    var drops, mid :| AddStep(chain, rules.capacity, rules.priceBump, before, after, tx, false, true, r, drops, mid);
    assert r !in {Known, Rejected, Underpriced};
    assert drops == [] && mid == before.book;
  }

  lemma PromotedBeside(chain: Chain, rules: Rules, before: Snapshot, now: Book, tx: Tx)
    requires PromotedFor(chain, rules, before.locals, before.book, now, {tx.from})
    requires Get(before.book.queue, tx.from) == map[tx.nonce := tx]
    requires chain.nonce(tx.from) <= tx.nonce == NextNonce(before.book.nonces, chain, tx.from)
    requires !Exceeds(tx, chain.balance(tx.from), chain.maxGas) && !chain.bad(tx)
    requires |Get(before.book.pending, tx.from) + map[tx.nonce := tx]| <= rules.accountSlots
    ensures Get(now.pending, tx.from) == Get(before.book.pending, tx.from) + map[tx.nonce := tx]
    ensures Get(now.queue, tx.from) == map[]
  {
    var a, queued := tx.from, map[tx.nonce := tx];
    var mid, c: nat, order, k: nat :|
      Cycled(chain, before.locals, rules.accountQueue, rules.accountSlots, before.book, mid, now, {a}, c, order, k);
    assert Promoted(chain, before.locals, rules.accountQueue, before.book, mid, a);
    var cut: nat :| PromotedAt(chain, before.locals, rules.accountQueue, cut, before.book, mid, a);
    SingleRun(chain, tx, queued, cut, Get(mid.queue, a), a in before.locals, rules.accountQueue);
    ShortUncut(mid.pending, now.pending, before.locals, rules.accountSlots, c, a);
    EmptyUncut(mid.queue, now.queue, order, k, a);
  }

  /** The cut leaves lists within the account's slots alone. */
  lemma ShortUncut(before: Lists, now: Lists, locals: set<nat>, slots: nat, c: nat, a: nat)
    requires WaterFilled(before, now, locals, slots, c) && |Get(before, a)| <= slots
    ensures Get(now, a) == Get(before, a)
  {
    assert a in now <==> a in before;
  }

  lemma EmptyUncut(before: Lists, now: Lists, order: seq<nat>, k: nat, a: nat)
    requires CutFrom(before, now, order, k) && Get(before, a) == map[]
    ensures Get(now, a) == map[]
  {
    if a in order {
      var i :| 0 <= i < |order| && order[i] == a;
      if i < k - 1 {
        assert Same(before, now, order[i]);
      } else if i == k - 1 {
        assert Trimmed(before, now, order[k - 1]);
      } else {
        assert Empty(now, order[i]);
      }
    } else {
      assert Same(before, now, a);
    }
  }

  /** What is pending is young, payable and valid, and nothing is queued: nothing more changes for the account. */
  lemma StaysPending(chain: Chain, rules: Rules, added: Book, demoted: Book, ready: Book, locals: set<nat>, now: Book,
                     a: nat, items: Items)
    requires Get(added.pending, a) == items && Get(added.queue, a) == map[]
    requires AllPayable(chain, items, a) && chain.nonce(a) in items && |items| <= rules.accountSlots
    requires Demoted(chain, added, demoted, a) && NoncesSet(demoted, ready)
    requires PromotedFor(chain, rules, locals, ready, now, ready.queue.Keys)
    ensures Get(now.pending, a) == items
  {
    NothingUnsound(items, chain.nonce(a), Exceeding(chain.balance(a), chain.maxGas), chain.bad);
    assert Get(ready.pending, a) == items && Get(ready.queue, a) == map[];
    var mid, c: nat, order, k: nat :|
      Cycled(chain, locals, rules.accountQueue, rules.accountSlots, ready, mid, now, ready.queue.Keys, c, order, k);
    if a in ready.queue.Keys {
      assert Promoted(chain, locals, rules.accountQueue, ready, mid, a);
      NothingToPromote(chain, locals, rules.accountQueue, ready, mid, a);
    } else {
      assert Untouched(ready, mid, a);
    }
    ShortUncut(mid.pending, now.pending, locals, rules.accountSlots, c, a);
  }

  lemma NothingToPromote(chain: Chain, locals: set<nat>, limit: nat, before: Book, now: Book, a: nat)
    requires Promoted(chain, locals, limit, before, now, a) && Get(before.queue, a) == map[]
    ensures Get(now.pending, a) == Get(before.pending, a)
  {
    var cut: nat :| PromotedAt(chain, locals, limit, cut, before, now, a);
    assert FitQueue(chain, map[], a) == map[];
  }

  lemma NothingUnsound(items: Items, nonce: nat, f: Tx -> bool, bad: Tx -> bool)
    requires forall n | n in items :: n >= nonce && !f(items[n]) && !bad(items[n])
    ensures Sound(items, nonce, f, bad) == items && Unsettled(From(items, nonce), f) == map[]
  {
    assert From(items, nonce) == items;
    assert BelowAll(items, f) == items && BelowAll(items, bad) == items;
  }
}
