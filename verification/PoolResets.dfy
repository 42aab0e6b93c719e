/**
  Batches of transactions, and a new head of the chain (core/tx_pool.go,
  addTxsLocked and reset). The verdicts of validateTx, the heartbeats and the
  transactions that a reorganisation gives back are parameters.
 */
module PoolResets {
  import opened SortedMaps
  import opened AccountLists
  import opened TxLists
  import opened FairCuts
  import opened TxPools
  import opened PoolLimits
  import opened PoolCycles
  import opened SettledPools

  /** The pool keeps to its limits, or to those of each account. */
  ghost predicate WithinLimits(pool: TxPool)
    reads pool
  {
    && (Total(pool.pending) <= pool.globalSlots || AtMost(pool.pending, pool.locals, pool.accountSlots))
    && (Total(pool.queue) <= pool.globalQueue || AtMost(pool.queue, pool.locals, 0))
  }

  /** The limits and the price bump of a pool. */
  datatype Rules = Rules(capacity: nat, accountSlots: nat, accountQueue: nat, priceBump: nat)

  ghost function RulesOf(pool: TxPool): Rules {
    Rules(pool.globalSlots + pool.globalQueue, pool.accountSlots, pool.accountQueue, pool.priceBump)
  }

  ghost predicate AddOk(chain: Chain, rules: Rules, before: Snapshot, after: Snapshot, tx: Tx, local: bool, valid: bool,
                        r: Outcome) {
    exists drops, mid :: AddStep(chain, rules.capacity, rules.priceBump, before, after, tx, local, valid, r, drops, mid)
  }

  /** The transactions are added one by one. */
  ghost predicate AllAdded(chain: Chain, rules: Rules, snaps: seq<Snapshot>, txs: seq<Tx>, local: bool,
                           verdicts: seq<bool>, outcomes: seq<Outcome>) {
    && |snaps| == |outcomes| + 1 && |outcomes| <= |txs| == |verdicts|
    && forall i | 0 <= i < |outcomes| ::
         AddOk(chain, rules, snaps[i], snaps[i + 1], txs[i], local, verdicts[i], outcomes[i])
  }

  lemma AddedMore(chain: Chain, rules: Rules, snaps: seq<Snapshot>, txs: seq<Tx>, local: bool, verdicts: seq<bool>,
                  outcomes: seq<Outcome>, next: Snapshot, r: Outcome)
    requires AllAdded(chain, rules, snaps, txs, local, verdicts, outcomes) && |outcomes| < |txs|
    requires AddOk(chain, rules, snaps[|outcomes|], next, txs[|outcomes|], local, verdicts[|outcomes|], r)
    ensures AllAdded(chain, rules, snaps + [next], txs, local, verdicts, outcomes + [r])
  {
    var snaps', outcomes' := snaps + [next], outcomes + [r];
    forall i | 0 <= i < |outcomes'|
      ensures AddOk(chain, rules, snaps'[i], snaps'[i + 1], txs[i], local, verdicts[i], outcomes'[i])
    {
      assert i < |outcomes| ==> AddOk(chain, rules, snaps[i], snaps[i + 1], txs[i], local, verdicts[i], outcomes[i]);
    }
  }

  /** The senders of the transactions that replaced nothing. */
  ghost function Newcomers(txs: seq<Tx>, outcomes: seq<Outcome>): set<nat>
    requires |outcomes| <= |txs|
  {
    if outcomes == [] then {} else
      var i := |outcomes| - 1;
      Newcomers(txs, outcomes[..i]) + if outcomes[i] == Added(false) then {txs[i].from} else {}
  }

  /** promoteExecutables for the accounts in `done`. */
  ghost predicate PromotedFor(chain: Chain, rules: Rules, locals: set<nat>, before: Book, now: Book, done: set<nat>) {
    exists mid, c: nat, order, k: nat ::
      Cycled(chain, locals, rules.accountQueue, rules.accountSlots, before, mid, now, done, c, order, k)
  }

  /** A batch: the transactions are added one by one, and the accounts that got new ones, if any, promoted together. */
  ghost predicate Batched(chain: Chain, rules: Rules, snaps: seq<Snapshot>, txs: seq<Tx>, local: bool,
                          verdicts: seq<bool>, outcomes: seq<Outcome>, now: Book) {
    && |outcomes| == |txs| && AllAdded(chain, rules, snaps, txs, local, verdicts, outcomes)
    && var last, news := snaps[|txs|], Newcomers(txs, outcomes);
       if news == {} then now == last.book else PromotedFor(chain, rules, last.locals, last.book, now, news)
  }

  /** addTxsLocked. With something new in the batch, the pool keeps to its limits afterwards. */
  method AddTxsLocked(pool: TxPool, txs: seq<Tx>, local: bool, verdicts: seq<bool>, beat: nat -> int)
    returns (outcomes: seq<Outcome>, ghost snaps: seq<Snapshot>)
    requires pool.Valid() && |verdicts| == |txs|
    modifies pool`pending, pool`queue, pool`all, pool`locals, pool`pendingNonce, pool.priced
    ensures pool.Valid() && Batched(pool.chain, RulesOf(pool), snaps, txs, local, verdicts, outcomes, pool.Contents())
    ensures snaps[0] == old(pool.Now()) && snaps[|txs|].locals == pool.locals
    ensures PoolOk(snaps[|txs|].book.pending, snaps[|txs|].book.queue, snaps[|txs|].book.all)
    ensures Newcomers(txs, outcomes) != {} ==> WithinLimits(pool)
  {
    var dirty;
    outcomes, dirty, snaps := AddEach(pool, txs, local, verdicts);
    ghost var before, news := pool.Contents(), Newcomers(txs, outcomes);
    if dirty != [] {
      assert dirty[0] in news;
      var done, mid, c, order, k := PromoteExecutables(pool, dirty, beat);
      assert done == news;
      assert Cycled(pool.chain, pool.locals, pool.accountQueue, pool.accountSlots, before, mid, pool.Contents(), news,
                    c, order, k);
    }
  }

  /** The loop of addTxsLocked; `dirty` lists the accounts that got new transactions, each once. */
  method AddEach(pool: TxPool, txs: seq<Tx>, local: bool, verdicts: seq<bool>)
    returns (outcomes: seq<Outcome>, dirty: seq<nat>, ghost snaps: seq<Snapshot>)
    requires pool.Valid() && |verdicts| == |txs|
    modifies pool`pending, pool`queue, pool`all, pool`locals, pool`pendingNonce, pool.priced
    ensures pool.Valid() && |outcomes| == |txs|
    ensures AllAdded(pool.chain, RulesOf(pool), snaps, txs, local, verdicts, outcomes)
    ensures snaps[0] == old(pool.Now()) && snaps[|txs|] == pool.Now()
    ensures Distinct(dirty) && forall a :: a in dirty <==> a in Newcomers(txs, outcomes)
  {
    outcomes, dirty, snaps := [], [], [pool.Now()];
    for i := 0 to |txs|
      invariant pool.Valid() && |outcomes| == i
      invariant AllAdded(pool.chain, RulesOf(pool), snaps, txs, local, verdicts, outcomes)
      invariant snaps[0] == old(pool.Now()) && snaps[i] == pool.Now()
      invariant Distinct(dirty) && forall a :: a in dirty <==> a in Newcomers(txs, outcomes)
    {
      var r, drops, mid := pool.Add(txs[i], local, verdicts[i]);
      assert AddOk(pool.chain, RulesOf(pool), snaps[i], pool.Now(), txs[i], local, verdicts[i], r);
      AddedMore(pool.chain, RulesOf(pool), snaps, txs, local, verdicts, outcomes, pool.Now(), r);
      assert (outcomes + [r])[..i] == outcomes;
      outcomes, snaps := outcomes + [r], snaps + [pool.Now()];
      if r == Added(false) && txs[i].from !in dirty {
        dirty := dirty + [txs[i].from];
      }
    }
  }

  // ---------- what a batch keeps ----------

  lemma AddKeeps(chain: Chain, rules: Rules, before: Snapshot, after: Snapshot, tx: Tx, local: bool, valid: bool,
                 r: Outcome)
    requires AddOk(chain, rules, before, after, tx, local, valid, r)
    ensures NoncesFall(chain, before.book.nonces, after.book.nonces)
    ensures AllSettled(chain, before.book) ==> AllSettled(chain, after.book)
  {
    var drops, mid :| AddStep(chain, rules.capacity, rules.priceBump, before, after, tx, local, valid, r, drops, mid);
    if r !in {Known, Rejected, Underpriced} {
      RemovalsFall(chain, before.book, mid, drops);
      if AllSettled(chain, before.book) {
        RemovalsSettle(chain, before.book, mid, drops);
        InsertSettles(chain, mid, after.book, tx, r, rules.priceBump);
      }
    }
  }

  lemma {:induction false} AddsKeep(chain: Chain, rules: Rules, snaps: seq<Snapshot>, txs: seq<Tx>, local: bool,
                                    verdicts: seq<bool>, outcomes: seq<Outcome>, i: nat)
    requires AllAdded(chain, rules, snaps, txs, local, verdicts, outcomes) && i <= |outcomes|
    ensures NoncesFall(chain, snaps[0].book.nonces, snaps[i].book.nonces)
    ensures AllSettled(chain, snaps[0].book) ==> AllSettled(chain, snaps[i].book)
    decreases i
  {
    if i > 0 {
      AddsKeep(chain, rules, snaps, txs, local, verdicts, outcomes, i - 1);
      AddKeeps(chain, rules, snaps[i - 1], snaps[i], txs[i - 1], local, verdicts[i - 1], outcomes[i - 1]);
      FallTwice(chain, snaps[0].book.nonces, snaps[i - 1].book.nonces, snaps[i].book.nonces);
    }
  }

  lemma FallTwice(chain: Chain, before: map<nat, nat>, mid: map<nat, nat>, now: map<nat, nat>)
    requires NoncesFall(chain, before, mid) && NoncesFall(chain, mid, now)
    ensures NoncesFall(chain, before, now)
  {
    forall a: nat ensures NextNonce(now, chain, a) <= NextNonce(before, chain, a) {
      assert NextNonce(mid, chain, a) <= NextNonce(before, chain, a);
    }
  }

  /** A batch keeps every pending list running from its account's nonce to its next nonce. */
  lemma BatchSettles(chain: Chain, rules: Rules, snaps: seq<Snapshot>, txs: seq<Tx>, local: bool, verdicts: seq<bool>,
                     outcomes: seq<Outcome>, now: Book)
    requires Batched(chain, rules, snaps, txs, local, verdicts, outcomes, now) && AllSettled(chain, snaps[0].book)
    requires PoolOk(snaps[|txs|].book.pending, snaps[|txs|].book.queue, snaps[|txs|].book.all)
    ensures AllSettled(chain, now)
  {
    var last, news := snaps[|txs|], Newcomers(txs, outcomes);
    AddsKeep(chain, rules, snaps, txs, local, verdicts, outcomes, |txs|);
    if news != {} {
      PromotionsSettle(chain, rules, last.locals, last.book, now, news);
    }
  }

  lemma PromotionsSettle(chain: Chain, rules: Rules, locals: set<nat>, before: Book, now: Book, done: set<nat>)
    requires PromotedFor(chain, rules, locals, before, now, done) && PoolOk(before.pending, before.queue, before.all)
    ensures forall a: nat {:trigger SettledAt(chain, now, a)} ::
              SettledAt(chain, before, a) ==> SettledAt(chain, now, a)
    ensures AllSettled(chain, before) ==> AllSettled(chain, now)
  {
    var mid, c: nat, order, k: nat :|
      Cycled(chain, locals, rules.accountQueue, rules.accountSlots, before, mid, now, done, c, order, k);
    CycleSettles(chain, locals, rules.accountQueue, rules.accountSlots, before, mid, now, done, c, order, k);
    if AllSettled(chain, before) {
      forall a: nat ensures SettledAt(chain, now, a) {
        assert SettledAt(chain, before, a);
      }
    }
  }

  /** After a batch on next nonces that are not above the accounts' own, they stand on something pending. */
  lemma BatchGrounds(chain: Chain, rules: Rules, snaps: seq<Snapshot>, txs: seq<Tx>, local: bool, verdicts: seq<bool>,
                     outcomes: seq<Outcome>, now: Book, a: nat)
    requires Batched(chain, rules, snaps, txs, local, verdicts, outcomes, now) && AtStart(chain, snaps[0].book.nonces)
    ensures Grounded(chain, now, a)
  {
    var last, news := snaps[|txs|], Newcomers(txs, outcomes);
    AddsKeep(chain, rules, snaps, txs, local, verdicts, outcomes, |txs|);
    StillAtStart(chain, snaps[0].book.nonces, last.book.nonces);
    if news == {} {
      assert NextNonce(now.nonces, chain, a) <= chain.nonce(a);
    } else {
      var mid, c: nat, order, k: nat :|
        Cycled(chain, last.locals, rules.accountQueue, rules.accountSlots, last.book, mid, now, news, c, order, k);
      PromotedGrounded(chain, last.locals, rules.accountQueue, rules.accountSlots, last.book, mid, now, news,
                       c, order, k, a);
    }
  }

  lemma StillAtStart(chain: Chain, before: map<nat, nat>, now: map<nat, nat>)
    requires AtStart(chain, before) && NoncesFall(chain, before, now)
    ensures AtStart(chain, now)
  {
    forall a: nat ensures NextNonce(now, chain, a) <= chain.nonce(a) {
      assert NextNonce(before, chain, a) <= chain.nonce(a);
    }
  }

  // ---------- next nonces that stand on something ----------

  /** No account's next nonce is above its own. */
  ghost predicate AtStart(chain: Chain, nonces: map<nat, nat>) {
    forall a: nat {:trigger NextNonce(nonces, chain, a)} :: NextNonce(nonces, chain, a) <= chain.nonce(a)
  }

  /** If the account's next nonce is above its own, a transaction with its own nonce is pending, payable and valid. */
  ghost predicate Grounded(chain: Chain, now: Book, a: nat) {
    NextNonce(now.nonces, chain, a) > chain.nonce(a) ==> HasFirst(chain, Get(now.pending, a), a)
  }

  ghost predicate HasFirst(chain: Chain, items: Items, a: nat) {
    && chain.nonce(a) in items
    && !Exceeds(items[chain.nonce(a)], chain.balance(a), chain.maxGas) && !chain.bad(items[chain.nonce(a)])
  }

  lemma PromotedGrounded(chain: Chain, locals: set<nat>, limit: nat, slots: nat, before: Book, mid: Book, now: Book,
                         done: set<nat>, c: nat, order: seq<nat>, k: nat, a: nat)
    requires AtStart(chain, before.nonces)
    requires Cycled(chain, locals, limit, slots, before, mid, now, done, c, order, k)
    ensures Grounded(chain, now, a)
  {
    assert NextNonce(before.nonces, chain, a) <= chain.nonce(a);
    if a in done {
      assert Promoted(chain, locals, limit, before, mid, a);
      PromotionGrounds(chain, locals, limit, before, mid, a);
    } else {
      assert Untouched(before, mid, a);
    }
    assert LoweredBy(mid.pending, now.pending, a, NextNonce(mid.nonces, chain, a), NextNonce(now.nonces, chain, a));
    if HasFirst(chain, Get(mid.pending, a), a) && !HasFirst(chain, Get(now.pending, a), a) {
      var tx := mid.pending[a][chain.nonce(a)];
      assert Own(Get(mid.pending, a), a);
      FirstIsCut(chain, mid.pending, now.pending, locals, slots, c, a, tx);
    }
  }

  lemma PromotionGrounds(chain: Chain, locals: set<nat>, limit: nat, before: Book, now: Book, a: nat)
    requires Promoted(chain, locals, limit, before, now, a) && NextNonce(before.nonces, chain, a) <= chain.nonce(a)
    ensures Grounded(chain, now, a)
  {
    var cut: nat :| PromotedAt(chain, locals, limit, cut, before, now, a);
    if cut > 0 {
      RunGrounds(chain, a, Get(before.queue, a), NextNonce(before.nonces, chain, a), cut, Get(before.pending, a));
    }
  }

  lemma RunGrounds(chain: Chain, a: nat, queued: Items, next: nat, cut: nat, p: Items)
    requires ReadyCut(FitQueue(chain, queued, a), next, cut) && next <= chain.nonce(a) && cut > 0
    ensures HasFirst(chain, p + Under(FitQueue(chain, queued, a), cut), a)
  {
    var fit := FitQueue(chain, queued, a);
    var n :| n in fit && n < cut && n <= next;
    assert n == chain.nonce(a) && n in Under(fit, cut);
  }

  /** A cut that takes a transaction away takes it from both lists. */
  lemma FirstIsCut(chain: Chain, before: Lists, now: Lists, locals: set<nat>, slots: nat, c: nat, a: nat, tx: Tx)
    requires WaterFilled(before, now, locals, slots, c) && HasFirst(chain, Get(before, a), a)
              && !HasFirst(chain, Get(now, a), a)
    requires tx == Get(before, a)[chain.nonce(a)] && tx.nonce == chain.nonce(a) && tx.from == a
    ensures In(before, tx) && !In(now, tx)
  {
  }

  /** A first transaction that is payable and valid survives demotion. */
  lemma DemotionKeepsFirst(chain: Chain, before: Book, now: Book, a: nat)
    requires Demoted(chain, before, now, a) && Grounded(chain, before, a)
    ensures Starts(chain, now, a)
  {
    if HasFirst(chain, Get(before.pending, a), a) {
      SoundKeepsFirst(Get(before.pending, a), chain.nonce(a), Exceeding(chain.balance(a), chain.maxGas), chain.bad);
    }
  }

  lemma SoundKeepsFirst(items: Items, nonce: nat, f: Tx -> bool, bad: Tx -> bool)
    requires nonce in items && !f(items[nonce]) && !bad(items[nonce])
    ensures nonce in Sound(items, nonce, f, bad)
  {
    var young := From(items, nonce);
    assert nonce in BelowAll(young, f);
  }

  // ---------- the next nonces ----------

  /** The next nonce is right behind the list. */
  ghost predicate Behind(items: Items, next: nat) {
    next > 0 && next - 1 in items && forall n | n in items :: n < next
  }

  /** The next nonces of accounts with pending transactions are behind them, the others, and all else, as before. */
  ghost predicate NoncesSet(before: Book, now: Book) {
    && now.pending == before.pending && now.queue == before.queue && now.all == before.all
    && (forall a | a in now.pending :: a in now.nonces && Behind(now.pending[a], now.nonces[a]))
    && (forall a: nat {:trigger SameNonce(before, now, a)} | a !in now.pending :: SameNonce(before, now, a))
  }

  method Highest(items: Items) returns (n: nat)
    requires items != map[]
    ensures n in items && forall m | m in items :: m <= n
  {
    var todo := items.Keys;
    n :| n in todo;
    todo := todo - {n};
    while todo != {}
      invariant n in items && todo <= items.Keys && forall m | m in items && m !in todo :: m <= n
      decreases todo
    {
      var m :| m in todo;
      todo := todo - {m};
      if m > n {
        n := m;
      }
    }
  }

  /** The loop of reset that moves the next nonce of every account behind what it has pending. */
  method SetNonces(pool: TxPool)
    requires forall a: nat :: Tidy(pool.pending, a)
    modifies pool`pendingNonce
    ensures NoncesSet(old(pool.Contents()), pool.Contents())
  {
    var todo := pool.pending.Keys;
    while todo != {}
      invariant todo <= pool.pending.Keys
      invariant forall a | a in pool.pending && a !in todo ::
                  a in pool.pendingNonce && Behind(pool.pending[a], pool.pendingNonce[a])
      invariant forall a: nat | a !in pool.pending :: SameNonce(old(pool.Contents()), pool.Contents(), a)
      decreases todo
    {
      var a :| a in todo;
      assert Tidy(pool.pending, a);
      var last := Highest(pool.pending[a]);
      pool.pendingNonce := pool.pendingNonce[a := last + 1];
      todo := todo - {a};
    }
  }

  // ---------- what stays executable ----------

  /** What is pending for the account is young and valid, and it can pay for it. */
  ghost predicate Payable(chain: Chain, pending: Lists, a: nat) {
    AllPayable(chain, Get(pending, a), a)
  }

  ghost predicate AllPayable(chain: Chain, items: Items, a: nat) {
    forall n | n in items ::
      n >= chain.nonce(a) && !Exceeds(items[n], chain.balance(a), chain.maxGas) && !chain.bad(items[n])
  }

  ghost predicate NoGap(chain: Chain, items: Items, a: nat) {
    items != map[] ==> chain.nonce(a) in items
  }

  lemma ExecutableIs(chain: Chain, pending: Lists, a: nat)
    ensures Executable(chain, pending, a) <==> Payable(chain, pending, a) && NoGap(chain, Get(pending, a), a)
  {
    var items := Get(pending, a);
    if items != map[] {
      var n :| n in items;
    }
  }

  /** Where nothing is pending, the next nonce is not above the account's own. */
  ghost predicate Starts(chain: Chain, now: Book, a: nat) {
    Get(now.pending, a) == map[] ==> NextNonce(now.nonces, chain, a) <= chain.nonce(a)
  }

  lemma PromotionKeeps(chain: Chain, locals: set<nat>, limit: nat, before: Book, now: Book, a: nat)
    requires Promoted(chain, locals, limit, before, now, a) && Payable(chain, before.pending, a)
    ensures Payable(chain, now.pending, a)
    ensures NoGap(chain, Get(before.pending, a), a) && Starts(chain, before, a) ==> NoGap(chain, Get(now.pending, a), a)
  {
    var cut: nat :| PromotedAt(chain, locals, limit, cut, before, now, a);
    RunKeeps(chain, a, Get(before.queue, a), NextNonce(before.nonces, chain, a), cut, Get(before.pending, a));
  }

  /**
    The run that joins what is pending is young and payable, and starts at the account's nonce if
    that is the next one.
   */
  lemma RunKeeps(chain: Chain, a: nat, queued: Items, next: nat, cut: nat, p: Items)
    requires ReadyCut(FitQueue(chain, queued, a), next, cut) && AllPayable(chain, p, a)
    ensures var p' := p + Under(FitQueue(chain, queued, a), cut);
            && AllPayable(chain, p', a)
            && (NoGap(chain, p, a) && (p == map[] ==> next <= chain.nonce(a)) ==> NoGap(chain, p', a))
  {
    var fit := FitQueue(chain, queued, a);
    var p' := p + Under(fit, cut);
    if p == map[] && next <= chain.nonce(a) && p' != map[] {
      var m :| m in p';
      var n :| n in fit && n < cut && n <= next;
      assert n == chain.nonce(a) && n in p';
    }
  }

  /** A cut to the lowest nonces keeps the start. */
  lemma LowestKeeps(chain: Chain, items: Items, all: Items, n: nat, a: nat)
    requires Lowest(items, all, n) && AllPayable(chain, all, a)
    ensures AllPayable(chain, items, a) && (NoGap(chain, all, a) ==> NoGap(chain, items, a))
  {
    var cut: nat :| items == Under(all, cut);
    if items != map[] {
      var m :| m in items;
    }
  }

  lemma CutKeeps(chain: Chain, before: Lists, now: Lists, locals: set<nat>, slots: nat, c: nat, a: nat)
    requires WaterFilled(before, now, locals, slots, c) && Payable(chain, before, a)
    ensures Payable(chain, now, a)
    ensures NoGap(chain, Get(before, a), a) ==> NoGap(chain, Get(now, a), a)
  {
    assert a in now <==> a in before;
    if a in before && now[a] != before[a] {
      LowestKeeps(chain, now[a], before[a], c, a);
    }
  }

  // ---------- reset ----------

  lemma NoncesStart(chain: Chain, before: Book, now: Book)
    requires forall a: nat {:trigger Starts(chain, before, a)} :: Starts(chain, before, a)
    requires NoncesSet(before, now) && forall a: nat {:trigger Tidy(now.pending, a)} :: Tidy(now.pending, a)
    ensures forall a: nat {:trigger Starts(chain, now, a)} :: Starts(chain, now, a)
  {
    forall a: nat ensures Starts(chain, now, a) {
      assert Starts(chain, before, a) && Tidy(now.pending, a);
      assert a !in now.pending ==> SameNonce(before, now, a);
    }
  }

  /** The account's list has no gap and, if it is empty, its next nonce is the one on the chain. */
  ghost predicate Unbroken(chain: Chain, now: Book, a: nat) {
    && GapFree(Get(now.pending, a))
    && (Get(now.pending, a) == map[] ==> NextNonce(now.nonces, chain, a) == chain.nonce(a))
  }

  /** Once the next nonces are set, a list runs from its account's nonce to the next one exactly if it has no gap. */
  lemma SettledIfGapFree(chain: Chain, before: Book, now: Book, a: nat)
    requires NoncesSet(before, now) && Tidy(now.pending, a) && Executable(chain, now.pending, a)
    ensures SettledAt(chain, now, a) <==> Unbroken(chain, now, a)
  {
    var items, next := Get(now.pending, a), NextNonce(now.nonces, chain, a);
    if items == map[] {
      assert SettledAt(chain, now, a) ==> next == chain.nonce(a) by {
        assert SettledAt(chain, now, a) && chain.nonce(a) < next ==> chain.nonce(a) in items;
      }
    } else {
      assert Behind(items, next);
      FilledIfGapFree(items, chain.nonce(a), next);
    }
  }

  lemma FilledIfGapFree(items: Items, nonce: nat, next: nat)
    requires Behind(items, next) && nonce in items && forall n | n in items :: n >= nonce
    ensures Settled(items, nonce, next) <==> GapFree(items)
  {
    if GapFree(items) {
      forall n: nat | nonce <= n < next ensures n in items {
        assert next - 1 in items;
      }
    }
  }

  /** With nothing given back, demotion leaves the lists of a settled pool gap-free, and next nonces on the chain. */
  lemma DemotionSettles(chain0: Chain, chain: Chain, was: Book, before: Book, now: Book, a: nat)
    requires SettledAt(chain0, was, a) && before.pending == was.pending && before.nonces == map[]
    requires Demoted(chain, before, now, a)
    ensures GapFree(Get(now.pending, a)) && NextNonce(now.nonces, chain, a) == chain.nonce(a)
  {
    var items, f := Get(before.pending, a), Exceeding(chain.balance(a), chain.maxGas);
    assert GapFree(items);
    StaysGapFree(items, f, chain.nonce(a));
    var young := From(items, chain.nonce(a));
    StaysGapFree(young, f, 0);
    StaysGapFree(BelowAll(young, f), chain.bad, 0);
  }

  /** reset, up to the point where the queue is looked at. */
  method TakeHead(pool: TxPool, chain: Chain, reinject: seq<Tx>, verdicts: seq<bool>, beat: nat -> int)
    returns (ghost snaps: seq<Snapshot>, ghost outcomes: seq<Outcome>, ghost added: Book, ghost demoted: Book)
    requires pool.Valid() && |verdicts| == |reinject|
    modifies pool, pool.priced
    ensures pool.Valid() && pool.chain == chain
    ensures snaps != [] && snaps[0] == Snapshot(old(pool.Contents()).(nonces := map[]), old(pool.locals))
    ensures Batched(chain, RulesOf(pool), snaps, reinject, false, verdicts, outcomes, added)
    ensures forall a: nat :: Demoted(chain, added, demoted, a)
    ensures NoncesSet(demoted, pool.Contents())
    ensures forall a: nat :: Tidy(pool.pending, a)
    ensures forall a: nat :: Executable(chain, pool.pending, a)
    ensures forall a: nat :: Starts(chain, pool.Contents(), a)
  {
    pool.chain, pool.pendingNonce := chain, map[];
    var rs;
    rs, snaps := AddTxsLocked(pool, reinject, false, verdicts, beat);
    outcomes, added := rs, pool.Contents();
    DemoteUnexecutables(pool);
    demoted := pool.Contents();
    forall a: nat ensures Starts(chain, demoted, a) {
      BatchGrounds(chain, RulesOf(pool), snaps, reinject, false, verdicts, outcomes, added, a);
      assert Demoted(pool.chain, added, pool.Contents(), a);
      DemotionKeepsFirst(chain, added, demoted, a);
    }
    SetNonces(pool);
    NoncesStart(chain, demoted, pool.Contents());
  }

  /**
    reset on values: on the emptied next nonces, what was given back is added as a
    batch, every account is demoted, the next nonces are set, and every account
    with queued transactions is promoted.
   */
  ghost predicate ResetTo(chain: Chain, rules: Rules, before: Snapshot, reinject: seq<Tx>, verdicts: seq<bool>,
                          locals: set<nat>, now: Book, snaps: seq<Snapshot>, outcomes: seq<Outcome>, added: Book,
                          demoted: Book, ready: Book) {
    && Batched(chain, rules, snaps, reinject, false, verdicts, outcomes, added)
    && snaps[0] == Snapshot(before.book.(nonces := map[]), before.locals)
    && (forall a: nat {:trigger Demoted(chain, added, demoted, a)} :: Demoted(chain, added, demoted, a))
    && NoncesSet(demoted, ready) && PromotedFor(chain, rules, locals, ready, now, ready.queue.Keys)
  }

  /**
    reset, with the new state of the chain. Whatever the pool held before,
    everything pending is valid and payable now, each list starts at its account's
    nonce, and the pool keeps to its limits. Lists without a gap in `ready` run to
    the next nonce; and without transactions given back, a settled pool stays so.
   */
  method Reset(pool: TxPool, chain: Chain, reinject: seq<Tx>, verdicts: seq<bool>, beat: nat -> int)
    returns (ghost snaps: seq<Snapshot>, ghost outcomes: seq<Outcome>, ghost added: Book, ghost demoted: Book,
             ghost ready: Book)
    requires pool.Valid() && |verdicts| == |reinject|
    modifies pool, pool.priced
    ensures pool.Valid() && pool.chain == chain && WithinLimits(pool)
    ensures forall a: nat :: Executable(chain, pool.pending, a)
    ensures ResetTo(chain, RulesOf(pool), old(pool.Now()), reinject, verdicts, pool.locals, pool.Contents(),
                    snaps, outcomes, added, demoted, ready)
    ensures forall a: nat {:trigger Unbroken(chain, ready, a)} ::
              Unbroken(chain, ready, a) ==> SettledAt(chain, pool.Contents(), a)
    ensures reinject == [] && old(AllSettled(pool.chain, pool.Contents())) ==> AllSettled(chain, pool.Contents())
  {
    ghost var chain0, was := pool.chain, pool.Contents();
    snaps, outcomes, added, demoted := TakeHead(pool, chain, reinject, verdicts, beat);
    ready := pool.Contents();
    var accounts := RemoteQueued(pool.queue, {});
    var done, mid, c, order, k := PromoteExecutables(pool, accounts, beat);
    assert done == ready.queue.Keys;
    assert Cycled(chain, pool.locals, pool.accountQueue, pool.accountSlots, ready, mid, pool.Contents(),
                  ready.queue.Keys, c, order, k);
    forall a: nat ensures Executable(chain, pool.pending, a) {
      assert Executable(chain, ready.pending, a) && Starts(chain, ready, a);
      StaysExecutable(chain, pool.locals, pool.accountQueue, pool.accountSlots, ready, mid, pool.pending, done, c, a);
    }
    ResetSettles(chain, RulesOf(pool), pool.locals, demoted, ready, pool.Contents());
    if reinject == [] && AllSettled(chain0, was) {
      assert Newcomers([], []) == {};
      NothingGivenBack(chain0, chain, was, added, demoted, ready, pool.Contents());
    }
  }

  lemma ResetSettles(chain: Chain, rules: Rules, locals: set<nat>, demoted: Book, ready: Book, now: Book)
    requires NoncesSet(demoted, ready) && PoolOk(ready.pending, ready.queue, ready.all)
    requires forall a: nat {:trigger Tidy(ready.pending, a)} :: Tidy(ready.pending, a)
    requires forall a: nat {:trigger Executable(chain, ready.pending, a)} :: Executable(chain, ready.pending, a)
    requires PromotedFor(chain, rules, locals, ready, now, ready.queue.Keys)
    ensures forall a: nat {:trigger SettledAt(chain, now, a)} :: Unbroken(chain, ready, a) ==> SettledAt(chain, now, a)
  {
    PromotionsSettle(chain, rules, locals, ready, now, ready.queue.Keys);
    forall a: nat | Unbroken(chain, ready, a) ensures SettledAt(chain, now, a) {
      assert Tidy(ready.pending, a) && Executable(chain, ready.pending, a);
      SettledIfGapFree(chain, demoted, ready, a);
    }
  }

  /** A new head that gives nothing back leaves a settled pool settled, whatever it does to nonces and balances. */
  lemma NothingGivenBack(chain0: Chain, chain: Chain, was: Book, added: Book, demoted: Book, ready: Book, now: Book)
    requires AllSettled(chain0, was) && added == was.(nonces := map[])
    requires forall a: nat {:trigger Demoted(chain, added, demoted, a)} :: Demoted(chain, added, demoted, a)
    requires NoncesSet(demoted, ready) && forall a: nat {:trigger Tidy(ready.pending, a)} :: Tidy(ready.pending, a)
    requires forall a: nat {:trigger SettledAt(chain, now, a)} :: Unbroken(chain, ready, a) ==> SettledAt(chain, now, a)
    ensures AllSettled(chain, now)
  {
    forall a: nat ensures SettledAt(chain, now, a) {
      assert SettledAt(chain0, was, a) && Demoted(chain, added, demoted, a) && Tidy(ready.pending, a);
      DemotionSettles(chain0, chain, was, added, demoted, a);
      assert a !in ready.pending ==> SameNonce(demoted, ready, a);
      assert Unbroken(chain, ready, a);
    }
  }

  lemma StaysExecutable(chain: Chain, locals: set<nat>, limit: nat, slots: nat, before: Book, mid: Book, now: Lists,
                        done: set<nat>, c: nat, a: nat)
    requires Promoting(chain, locals, limit, before, mid, done) && WaterFilled(mid.pending, now, locals, slots, c)
    requires Executable(chain, before.pending, a) && Starts(chain, before, a)
    ensures Executable(chain, now, a)
  {
    ExecutableIs(chain, before.pending, a);
    ExecutableIs(chain, now, a);
    if a in done {
      assert Promoted(chain, locals, limit, before, mid, a);
      PromotionKeeps(chain, locals, limit, before, mid, a);
    } else {
      assert Untouched(before, mid, a);
    }
    CutKeeps(chain, mid.pending, now, locals, slots, c, a);
  }
}
