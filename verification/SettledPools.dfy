/**
  What the transaction pool keeps between two heads of the chain (core/tx_pool.go):
  every pending list runs exactly from the account's nonce on the chain to its
  next nonce in the pool. Each operation is taken as the relation that its method
  ensures.
 */
module SettledPools {
  import opened SortedMaps
  import opened AccountLists
  import opened FairCuts
  import opened TxPools
  import opened PoolLimits
  import opened PoolCycles

  ghost predicate Settled(items: Items, nonce: nat, next: nat) {
    nonce <= next && forall n: nat :: n in items <==> nonce <= n < next
  }

  ghost predicate SettledAt(chain: Chain, now: Book, a: nat) {
    Settled(Get(now.pending, a), chain.nonce(a), NextNonce(now.nonces, chain, a))
  }

  ghost predicate AllSettled(chain: Chain, now: Book) {
    forall a: nat {:trigger SettledAt(chain, now, a)} :: SettledAt(chain, now, a)
  }

  lemma NewPoolSettled(chain: Chain)
    ensures AllSettled(chain, Book(map[], map[], {}, map[]))
  {
    forall a: nat ensures SettledAt(chain, Book(map[], map[], {}, map[]), a) {
    }
  }

  // ---------- promotion ----------

  /** A run that is measured by the next nonce of a settled list starts right there. */
  lemma RunSettles(chain: Chain, a: nat, p: Items, queued: Items, next: nat, cut: nat)
    requires Settled(p, chain.nonce(a), next) && forall n | n in p :: n !in queued
    requires ReadyCut(FitQueue(chain, queued, a), next, cut)
    ensures Settled(p + Under(FitQueue(chain, queued, a), cut), chain.nonce(a), if cut == 0 then next else cut)
  {
    var fit := FitQueue(chain, queued, a);
    assert forall n | n in fit :: n >= next;
    if cut == 0 {
      assert Under(fit, cut) == map[];
    } else {
      assert next in fit && cut > next;
    }
  }

  lemma PromotionSettles(chain: Chain, locals: set<nat>, limit: nat, before: Book, now: Book, a: nat)
    requires Promoted(chain, locals, limit, before, now, a)
    requires SettledAt(chain, before, a) && Apart(before.pending, before.queue, a)
    ensures SettledAt(chain, now, a)
  {
    var cut: nat :| PromotedAt(chain, locals, limit, cut, before, now, a);
    RunSettles(chain, a, Get(before.pending, a), Get(before.queue, a), NextNonce(before.nonces, chain, a), cut);
  }

  // ---------- the cut of the pending lists ----------

  /** A list cut to its lowest nonces, and a next nonce that falls to the lowest one lost. */
  lemma LowestSettles(items: Items, all: Items, nonce: nat, was: nat, next: nat)
    requires Settled(all, nonce, was) && exists cut: nat :: items == Under(all, cut)
    requires forall n | n in all && n !in items :: next <= n
    requires next == was || (next in all && next !in items)
    ensures Settled(items, nonce, next)
  {
    var cut: nat :| items == Under(all, cut);
    if next == was {
      assert forall n | n in all :: n in items;
    } else {
      assert cut <= next;
      if nonce <= cut {
        assert cut in all && cut !in items;
      } else {
        assert nonce in all && nonce !in items;
      }
    }
  }

  lemma CutSettles(chain: Chain, mid: Book, now: Book, locals: set<nat>, slots: nat, c: nat, a: nat)
    requires WaterFilled(mid.pending, now.pending, locals, slots, c) && NoncesCut(chain, mid, now)
    requires SettledAt(chain, mid, a)
    ensures SettledAt(chain, now, a)
  {
    var all, items := Get(mid.pending, a), Get(now.pending, a);
    var was, next := NextNonce(mid.nonces, chain, a), NextNonce(now.nonces, chain, a);
    assert Own(all, a);
    WaterIsUnder(mid.pending, now.pending, locals, slots, c, a);
    forall n | n in all && n !in items ensures next <= n {
      assert In(mid.pending, all[n]) && !In(now.pending, all[n]);
    }
    assert LoweredBy(mid.pending, now.pending, a, was, next);
    if next != was {
      var tx :| In(mid.pending, tx) && !In(now.pending, tx) && tx.from == a && next == tx.nonce < was;
      UnderHas(items, all, tx);
    }
    LowestSettles(items, all, chain.nonce(a), was, next);
  }

  lemma WaterIsUnder(before: Lists, now: Lists, locals: set<nat>, slots: nat, c: nat, a: nat)
    requires WaterFilled(before, now, locals, slots, c)
    ensures exists cut: nat :: Get(now, a) == Under(Get(before, a), cut)
  {
    assert a in now <==> a in before;
    var all := Get(before, a);
    if Get(now, a) == all {
      var cut := Beyond(all);
      assert Under(all, cut) == all;
    }
  }

  /** A transaction that a cut took off is not there under its nonce either. */
  lemma UnderHas(items: Items, all: Items, tx: Tx)
    requires exists cut: nat :: items == Under(all, cut)
    requires tx.nonce in all && all[tx.nonce] == tx && !(tx.nonce in items && items[tx.nonce] == tx)
    ensures tx.nonce !in items
  {
  }

  lemma CycleSettles(chain: Chain, locals: set<nat>, limit: nat, slots: nat, before: Book, mid: Book, now: Book,
                     done: set<nat>, c: nat, order: seq<nat>, k: nat)
    requires Cycled(chain, locals, limit, slots, before, mid, now, done, c, order, k)
    requires PoolOk(before.pending, before.queue, before.all)
    ensures forall a: nat {:trigger SettledAt(chain, now, a)} ::
              SettledAt(chain, before, a) ==> SettledAt(chain, now, a)
  {
    forall a: nat | SettledAt(chain, before, a) ensures SettledAt(chain, now, a) {
      if a in done {
        assert Promoted(chain, locals, limit, before, mid, a) && Apart(before.pending, before.queue, a);
        PromotionSettles(chain, locals, limit, before, mid, a);
      } else {
        assert Untouched(before, mid, a);
      }
      CutSettles(chain, mid, now, locals, slots, c, a);
    }
  }

  // ---------- removals and insertions ----------

  lemma RemovalSettles(chain: Chain, before: Book, after: Book, tx: Tx)
    requires Removal(chain, before, after, tx) && AllSettled(chain, before)
    ensures AllSettled(chain, after)
  {
    forall a: nat ensures SettledAt(chain, after, a) {
      assert SettledAt(chain, before, a);
      if tx in before.all && a != tx.from {
        OtherSame(before.pending, after.pending, tx.from, a);
      }
    }
  }

  lemma {:induction false} RemovalsSettle(chain: Chain, before: Book, after: Book, drops: seq<Tx>)
    requires Removals(chain, before, after, drops) && AllSettled(chain, before)
    ensures AllSettled(chain, after)
    decreases |drops|
  {
    if drops != [] {
      var i := |drops| - 1;
      var mid :| Removals(chain, before, mid, drops[..i]) && Removal(chain, mid, after, drops[i]);
      RemovalsSettle(chain, before, mid, drops[..i]);
      RemovalSettles(chain, mid, after, drops[i]);
    }
  }

  lemma InsertSettles(chain: Chain, before: Book, after: Book, tx: Tx, r: Outcome, priceBump: nat)
    requires InsertedInto(before, after, tx, r, priceBump) && AllSettled(chain, before)
    ensures AllSettled(chain, after)
  {
    forall a: nat ensures SettledAt(chain, after, a) {
      assert SettledAt(chain, before, a);
      if r.Added? && a != tx.from {
        OtherSame(before.pending, after.pending, tx.from, a);
      }
    }
  }

  // ---------- whole runs between two heads ----------

  /** An insertion after room was made for it, removals, or a round of promotions and cuts. */
  ghost predicate Operation(chain: Chain, before: Book, after: Book) {
    || (exists drops :: Removals(chain, before, after, drops))
    || (exists mid, drops, tx, r, bump: nat ::
          Removals(chain, before, mid, drops) && InsertedInto(mid, after, tx, r, bump))
    || (exists locals, limit: nat, slots: nat, mid, done, c: nat, order, k: nat ::
          Cycled(chain, locals, limit, slots, before, mid, after, done, c, order, k))
  }

  lemma OperationSettles(chain: Chain, before: Book, after: Book)
    requires Operation(chain, before, after) && PoolOk(before.pending, before.queue, before.all)
    requires AllSettled(chain, before)
    ensures AllSettled(chain, after)
  {
    if drops :| Removals(chain, before, after, drops) {
      RemovalsSettle(chain, before, after, drops);
    } else if mid, drops, tx, r, bump: nat :|
              Removals(chain, before, mid, drops) && InsertedInto(mid, after, tx, r, bump) {
      RemovalsSettle(chain, before, mid, drops);
      InsertSettles(chain, mid, after, tx, r, bump);
    } else {
      var locals, limit: nat, slots: nat, mid, done, c: nat, order, k: nat :|
        Cycled(chain, locals, limit, slots, before, mid, after, done, c, order, k);
      CycleSettles(chain, locals, limit, slots, before, mid, after, done, c, order, k);
      forall a: nat ensures SettledAt(chain, after, a) {
        assert SettledAt(chain, before, a);
      }
    }
  }

  /**
    Between two heads, in every run of operations, every pending list runs exactly
    from its account's nonce to its next nonce.
   */
  lemma {:induction false} SettledBetweenHeads(chain: Chain, run: seq<Book>, i: nat)
    requires i < |run| && AllSettled(chain, run[0])
    requires forall j | 0 <= j < |run| :: PoolOk(run[j].pending, run[j].queue, run[j].all)
    requires forall j | 0 < j < |run| :: Operation(chain, run[j - 1], run[j])
    ensures AllSettled(chain, run[i])
  {
    if i > 0 {
      SettledBetweenHeads(chain, run, i - 1);
      OperationSettles(chain, run[i - 1], run[i]);
    }
  }
}
