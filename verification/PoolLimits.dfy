/**
  The parts of the transaction pool that enforce its limits and follow the chain
  (core/tx_pool.go): the fairness cut of the pending lists, the cut of the queue,
  and the demotion of what is no longer executable.
 */
module PoolLimits {
  import opened SortedMaps
  import opened AccountLists
  import opened TxLists
  import opened FairCuts
  import opened TxPools

  /** Lists only lost transactions, and the pool forgot exactly those. */
  ghost predicate Forgets(before: Lists, now: Lists, all: set<Tx>, all': set<Tx>) {
    && (forall tx: Tx {:trigger In(now, tx)} :: In(now, tx) ==> In(before, tx))
    && (forall tx: Tx {:trigger tx in all'} :: tx in all' <==> tx in all && (In(before, tx) ==> In(now, tx)))
  }

  lemma ForgetsBoth(before: Lists, now: Lists, later: Lists, all: set<Tx>, all': set<Tx>, all'': set<Tx>)
    requires Forgets(before, now, all, all') && Forgets(now, later, all', all'')
    ensures Forgets(before, later, all, all'')
  {
  }

  // ---------- the pending limit ----------

  /** Pending lists may shrink, on any number of accounts, while the pool forgets what went. */
  lemma CutOkAll(pending: Lists, queue: Lists, all: set<Tx>, now: Lists, dropped: seq<Tx>)
    requires PoolOk(pending, queue, all) && Sits(now) && Dropped(dropped, pending, now)
    ensures PoolOk(now, queue, all - SetOf(dropped))
  {
    forall tx: Tx ensures KnownTx(now, queue, all - SetOf(dropped), tx) {
      AccountOk(pending, queue, all, tx.from);
      assert KnownTx(pending, queue, all, tx);
      assert tx in dropped ==> In(pending, tx) && !In(now, tx);
    }
    forall a: nat ensures Apart(now, queue, a) {
      AccountOk(pending, queue, all, a);
      assert Own(Get(now, a), a);
      forall n | n in Get(now, a) ensures n !in Get(queue, a) {
        assert In(now, Get(now, a)[n]);
        assert In(pending, Get(now, a)[n]);
      }
    }
  }

  /** A nonce is kept, or lowered to one that the account lost. */
  ghost predicate FellTo(dropped: seq<Tx>, a: nat, was: nat, now: nat) {
    now == was || exists tx :: tx in dropped && tx.from == a && now == tx.nonce < was
  }

  /** The managed nonce of an account falls to the lowest nonce it lost, and is otherwise kept. */
  ghost predicate Fell(chain: Chain, before: map<nat, nat>, after: map<nat, nat>, dropped: seq<Tx>) {
    && (forall tx | tx in dropped :: NextNonce(after, chain, tx.from) <= tx.nonce)
    && (forall a: nat :: FellTo(dropped, a, NextNonce(before, chain, a), NextNonce(after, chain, a)))
  }

  method LowerNonces(chain: Chain, before: map<nat, nat>, dropped: seq<Tx>) returns (after: map<nat, nat>)
    ensures Fell(chain, before, after, dropped)
  {
    after := before;
    assert dropped[..0] == [];
    for i := 0 to |dropped|
      invariant Fell(chain, before, after, dropped[..i])
    {
      FellMore(chain, before, after, dropped[..i], dropped[i]);
      assert dropped[..i + 1] == dropped[..i] + [dropped[i]];
      after := Lowered(after, chain, dropped[i]);
    }
    assert dropped[..|dropped|] == dropped;
  }

  lemma FellMore(chain: Chain, before: map<nat, nat>, after: map<nat, nat>, dropped: seq<Tx>, tx: Tx)
    requires Fell(chain, before, after, dropped)
    ensures Fell(chain, before, Lowered(after, chain, tx), dropped + [tx])
  {
    forall a: nat
      ensures FellTo(dropped + [tx], a, NextNonce(before, chain, a), NextNonce(Lowered(after, chain, tx), chain, a))
    {
      FellToMore(dropped, tx, a, NextNonce(before, chain, a), NextNonce(after, chain, a));
    }
  }

  lemma FellToMore(dropped: seq<Tx>, tx: Tx, a: nat, was: nat, now: nat)
    requires FellTo(dropped, a, was, now)
    ensures FellTo(dropped + [tx], a, was, if tx.from == a && now > tx.nonce then tx.nonce else now)
  {
    var all := dropped + [tx];
    assert tx in all;
    if now != was {
      var x :| x in dropped && x.from == a && now == x.nonce < was;
      assert x in all;
    }
  }

  /**
    The pending limit of promoteExecutables: every remote list above c loses its
    highest nonces down to c, for one c that is at least the slots guaranteed to
    an account, and no more is dropped than one round of cuts too many.
   */
  method CutPending(pool: TxPool) returns (ghost c: nat)
    requires pool.Valid()
    modifies pool`pending, pool`all, pool`pendingNonce, pool.priced
    ensures pool.Valid() && Forgets(old(pool.pending), pool.pending, old(pool.all), pool.all)
    ensures WaterFilled(old(pool.pending), pool.pending, pool.locals, pool.accountSlots, c) && c >= pool.accountSlots
    ensures Total(old(pool.pending)) <= pool.globalSlots ==>
              pool.pending == old(pool.pending) && pool.all == old(pool.all)
    ensures Total(pool.pending) <= pool.globalSlots || c == pool.accountSlots
    ensures pool.pending != old(pool.pending) ==>
              Total(pool.pending) + |CutAccounts(old(pool.pending), pool.pending)| > pool.globalSlots
    ensures forall tx | In(old(pool.pending), tx) && !In(pool.pending, tx) ::
              NextNonce(pool.pendingNonce, pool.chain, tx.from) <= tx.nonce
    ensures forall a: nat :: LoweredBy(old(pool.pending), pool.pending, a,
                                       NextNonce(old(pool.pendingNonce), pool.chain, a),
                                       NextNonce(pool.pendingNonce, pool.chain, a))
  {
    var now, dropped, level := Equalize(pool.pending, pool.locals, pool.accountSlots, pool.globalSlots);
    c := level;
    CutOkAll(pool.pending, pool.queue, pool.all, now, dropped);
    pool.pending := now;
    pool.Forget(SetOf(dropped), {});
    ghost var nonces := pool.pendingNonce;
    pool.pendingNonce := LowerNonces(pool.chain, pool.pendingNonce, dropped);
    forall a: nat
      ensures LoweredBy(old(pool.pending), now, a, NextNonce(nonces, pool.chain, a),
                        NextNonce(pool.pendingNonce, pool.chain, a))
    {
      assert FellTo(dropped, a, NextNonce(nonces, pool.chain, a), NextNonce(pool.pendingNonce, pool.chain, a));
    }
  }

  /** A nonce is kept, or lowered to one at which the account's list lost a transaction. */
  ghost predicate LoweredBy(before: Lists, now: Lists, a: nat, was: nat, next: nat) {
    next == was || exists tx :: In(before, tx) && !In(now, tx) && tx.from == a && next == tx.nonce < was
  }

  // ---------- the queue limit ----------

  /** The n highest nonces of an account's queue leave the pool, one removeTx each. */
  method DropHighest(pool: TxPool, a: nat, n: nat)
    requires pool.Valid() && n <= |Get(pool.queue, a)|
    modifies pool`pending, pool`queue, pool`all, pool`pendingNonce, pool.priced
    ensures pool.Valid() && pool.pending == old(pool.pending) && pool.pendingNonce == old(pool.pendingNonce)
              && Elsewhere(old(pool.queue), pool.queue, a)
    ensures Lowest(Get(pool.queue, a), Get(old(pool.queue), a), |Get(old(pool.queue), a)| - n)
    ensures Forgets(old(pool.queue), pool.queue, old(pool.all), pool.all)
  {
    ghost var items := Get(pool.queue, a);
    LowestSelf(items);
    for i := 0 to n
      invariant pool.Valid() && pool.pending == old(pool.pending) && pool.pendingNonce == old(pool.pendingNonce)
                && Elsewhere(old(pool.queue), pool.queue, a)
      invariant Lowest(Get(pool.queue, a), items, |items| - i)
                && Forgets(old(pool.queue), pool.queue, old(pool.all), pool.all)
    {
      ghost var queue, all := pool.queue, pool.all;
      DropTop(pool, a, items);
      ForgetsBoth(old(pool.queue), queue, pool.queue, old(pool.all), all, pool.all);
    }
  }

  method DropTop(pool: TxPool, a: nat, ghost items: Items)
    requires pool.Valid() && Get(pool.queue, a) != map[] && Lowest(Get(pool.queue, a), items, |Get(pool.queue, a)|)
    modifies pool`pending, pool`queue, pool`all, pool`pendingNonce, pool.priced
    ensures pool.Valid() && pool.pending == old(pool.pending) && pool.pendingNonce == old(pool.pendingNonce)
              && Elsewhere(old(pool.queue), pool.queue, a)
    ensures Lowest(Get(pool.queue, a), items, |Get(old(pool.queue), a)| - 1)
    ensures Forgets(old(pool.queue), pool.queue, old(pool.all), pool.all)
  {
    ghost var list := Get(pool.queue, a);
    AccountOk(pool.pending, pool.queue, pool.all, a);
    var rest, top := CapOne(Get(pool.queue, a));
    LowestTwice(rest, list, items, |list| - 1, |list|);
    ghost var queue, all := pool.queue, pool.all;
    pool.RemoveTx(top, {});
    OneForgotten(queue, pool.queue, all, top);
  }

  lemma OneForgotten(before: Lists, now: Lists, all: set<Tx>, tx: Tx)
    requires In(before, tx) && tx in all && now - {tx.from} == before - {tx.from}
              && Get(now, tx.from) == Get(before, tx.from) - {tx.nonce}
    requires Own(Get(before, tx.from), tx.from)
    ensures Forgets(before, now, all, all - {tx})
  {
    forall x: Tx ensures In(now, x) <==> In(before, x) && x != tx {
      assert x.from != tx.from ==> (x.from in now <==> x.from in now - {tx.from});
      assert x.from != tx.from ==> (x.from in before <==> x.from in before - {tx.from});
      assert In(now, x) <==> x.nonce in Get(now, x.from) && Get(now, x.from)[x.nonce] == x;
      assert In(before, x) <==> x.nonce in Get(before, x.from) && Get(before, x.from)[x.nonce] == x;
    }
  }

  ghost predicate Same(before: Lists, now: Lists, a: nat) {
    Get(now, a) == Get(before, a)
  }

  /**
    What is left of the queue when the accounts order[k..] lost everything and order[k - 1] all but
    its lowest nonces.
   */
  ghost predicate CutFrom(before: Lists, now: Lists, order: seq<nat>, k: nat) {
    && k <= |order|
    && (forall a: nat {:trigger Same(before, now, a)} :: a in order || Same(before, now, a))
    && (forall i: nat {:trigger Same(before, now, order[i])} :: i < k - 1 ==> Same(before, now, order[i]))
    && (k > 0 ==> Trimmed(before, now, order[k - 1]))
    && (forall i: nat {:trigger Empty(now, order[i])} :: k <= i < |order| ==> Empty(now, order[i]))
  }

  ghost predicate Empty(now: Lists, a: nat) {
    Get(now, a) == map[]
  }

  /** Only the lowest nonces of the account are left. */
  ghost predicate Trimmed(before: Lists, now: Lists, a: nat) {
    Lowest(Get(now, a), Get(before, a), |Get(now, a)|)
  }

  lemma OtherSame(now: Lists, next: Lists, a: nat, b: nat)
    requires Elsewhere(now, next, a) && b != a
    ensures Get(next, b) == Get(now, b)
  {
    assert b in next <==> b in next - {a};
    assert b in now <==> b in now - {a};
  }

  lemma CutWhole(before: Lists, now: Lists, next: Lists, order: seq<nat>, k: nat)
    requires Distinct(order) && 0 < k <= |order| && CutFrom(before, now, order, k)
    requires Elsewhere(now, next, order[k - 1]) && Get(next, order[k - 1]) == map[]
    ensures CutFrom(before, next, order, k - 1)
    ensures k > 1 ==> Get(next, order[k - 2]) == Get(before, order[k - 2])
  {
    var a := order[k - 1];
    forall b: nat ensures b in order || Same(before, next, b) {
      if b !in order {
        assert Same(before, now, b);
        OtherSame(now, next, a, b);
      }
    }
    forall i: nat | i < k - 1 ensures Same(before, next, order[i]) {
      assert Same(before, now, order[i]);
      OtherSame(now, next, a, order[i]);
    }
    forall i: nat | k - 1 <= i < |order| ensures Empty(next, order[i]) {
      if i >= k {
        assert Empty(now, order[i]);
        OtherSame(now, next, a, order[i]);
      }
    }
    if k > 1 {
      assert Same(before, next, order[k - 2]);
      LowestSelf(Get(before, order[k - 2]));
    }
  }

  lemma CutPart(before: Lists, now: Lists, next: Lists, order: seq<nat>, k: nat)
    requires Distinct(order) && 0 < k <= |order| && CutFrom(before, now, order, k)
    requires Get(now, order[k - 1]) == Get(before, order[k - 1])
    requires Elsewhere(now, next, order[k - 1])
    requires Trimmed(before, next, order[k - 1])
    ensures CutFrom(before, next, order, k)
  {
    var a := order[k - 1];
    forall b: nat ensures b in order || Same(before, next, b) {
      if b !in order {
        assert Same(before, now, b);
        OtherSame(now, next, a, b);
      }
    }
    forall i: nat | i < k - 1 ensures Same(before, next, order[i]) {
      assert Same(before, now, order[i]);
      OtherSame(now, next, a, order[i]);
    }
    forall i: nat | k <= i < |order| ensures Empty(next, order[i]) {
      assert Empty(now, order[i]);
      OtherSame(now, next, a, order[i]);
    }
  }

  lemma TotalWithout(m: Lists, a: nat)
    ensures Total(m) == |Get(m, a)| + Total(m - {a})
  {
    if a in m {
      TotalTake(m, a);
    } else {
      assert m - {a} == m;
    }
  }

  /** Only account a's list differs. */
  ghost predicate Elsewhere(m: Lists, m': Lists, a: nat) {
    m' - {a} == m - {a}
  }

  /** A measure of all lists that adds up over the accounts. */
  ghost predicate Additive(size: Lists -> int) {
    forall m, m', a {:trigger Elsewhere(m, m', a)} ::
      Elsewhere(m, m', a) ==> size(m') - |Get(m', a)| == size(m) - |Get(m, a)|
  }

  lemma TotalAdditive(size: Lists -> int)
    requires forall m :: size(m) == Total(m)
    ensures Additive(size)
  {
    forall m: Lists, m': Lists, a: nat | Elsewhere(m, m', a) ensures size(m') - |Get(m', a)| == size(m) - |Get(m, a)| {
      TotalWithout(m, a);
      TotalWithout(m', a);
    }
  }

  /** When every account of the order is empty, only locals are left. */
  lemma OnlyLocals(before: Lists, now: Lists, order: seq<nat>, locals: set<nat>)
    requires CutFrom(before, now, order, 0) && forall a | a in before :: a in order <==> a !in locals
    ensures forall a | a !in locals :: Get(now, a) == map[]
  {
    forall a | a !in locals ensures Get(now, a) == map[] {
      if a in order {
        var i: nat :| i < |order| && order[i] == a;
        assert Empty(now, order[i]);
      } else {
        assert Same(before, now, a);
      }
    }
  }

  /**
    The queue limit of promoteExecutables. `order` lists the
    remote accounts of the queue by heartbeat. Accounts are emptied from its end on until
    the queue is down to the limit exactly, or only locals remain.
   */
  method CutQueue(pool: TxPool, order: seq<nat>) returns (ghost k: nat)
    requires pool.Valid() && Distinct(order)
    requires forall a | a in pool.queue :: a in order <==> a !in pool.locals
    modifies pool`pending, pool`queue, pool`all, pool`pendingNonce, pool.priced
    ensures pool.Valid() && pool.pending == old(pool.pending) && pool.pendingNonce == old(pool.pendingNonce)
              && Forgets(old(pool.queue), pool.queue, old(pool.all), pool.all)
    ensures CutFrom(old(pool.queue), pool.queue, order, k)
    ensures Total(old(pool.queue)) <= pool.globalQueue ==> pool.queue == old(pool.queue) && pool.all == old(pool.all)
    ensures Total(old(pool.queue)) > pool.globalQueue ==>
              || Total(pool.queue) == pool.globalQueue
              || (Total(pool.queue) > pool.globalQueue && forall a | a !in pool.locals :: Get(pool.queue, a) == map[])
  {
    var queued := CountAll(pool.queue);
    ghost var size := (m: Lists) => Total(m);
    TotalAdditive(size);
    k := CutOverflow(pool, order, queued, size);
  }

  method CutOverflow(pool: TxPool, order: seq<nat>, queued: nat, ghost size: Lists -> int) returns (ghost k: nat)
    requires pool.Valid() && Additive(size) && Distinct(order) && size(pool.queue) == queued
    requires forall a | a in pool.queue :: a in order <==> a !in pool.locals
    modifies pool`pending, pool`queue, pool`all, pool`pendingNonce, pool.priced
    ensures pool.Valid() && pool.pending == old(pool.pending) && pool.pendingNonce == old(pool.pendingNonce)
              && Forgets(old(pool.queue), pool.queue, old(pool.all), pool.all)
    ensures CutFrom(old(pool.queue), pool.queue, order, k)
    ensures queued <= pool.globalQueue ==> pool.queue == old(pool.queue) && pool.all == old(pool.all)
    ensures queued > pool.globalQueue ==>
              || size(pool.queue) == pool.globalQueue
              || (size(pool.queue) > pool.globalQueue && forall a | a !in pool.locals :: Get(pool.queue, a) == map[])
  {
    ghost var before := pool.queue;
    NothingCut(before, order);
    k := |order|;
    if queued > pool.globalQueue {
      var left, drop := CutInOrder(pool, order, queued - pool.globalQueue, before, size);
      k := left;
      if left == 0 {
        OnlyLocals(before, pool.queue, order, pool.locals);
      }
    }
  }

  lemma NothingCut(before: Lists, order: seq<nat>)
    ensures CutFrom(before, before, order, |order|)
  {
    if order != [] {
      LowestSelf(Get(before, order[|order| - 1]));
    }
  }

  method CutInOrder(pool: TxPool, order: seq<nat>, overflow: nat, ghost before: Lists, ghost size: Lists -> int)
    returns (left: nat, drop: nat)
    requires pool.Valid() && Additive(size) && Distinct(order) && CutFrom(before, pool.queue, order, |order|)
              && pool.queue == before
    modifies pool`pending, pool`queue, pool`all, pool`pendingNonce, pool.priced
    ensures pool.Valid() && pool.pending == old(pool.pending) && pool.pendingNonce == old(pool.pendingNonce)
              && Forgets(old(pool.queue), pool.queue, old(pool.all), pool.all)
    ensures CutFrom(before, pool.queue, order, left)
    ensures size(pool.queue) == size(before) - overflow + drop && (drop > 0 ==> left == 0)
  {
    left, drop := |order|, overflow;
    while drop > 0 && left > 0
      invariant pool.Valid() && pool.pending == old(pool.pending) && pool.pendingNonce == old(pool.pendingNonce)
                && Forgets(old(pool.queue), pool.queue, old(pool.all), pool.all)
      invariant left <= |order| && CutFrom(before, pool.queue, order, left)
      invariant size(pool.queue) == size(before) - overflow + drop
      invariant drop > 0 && left > 0 ==> Same(before, pool.queue, order[left - 1])
      decreases left, drop
    {
      if |Get(pool.queue, order[left - 1])| <= drop {
        drop := CutWholeAccount(pool, order, left, drop, before, size);
        left := left - 1;
      } else {
        CutPartAccount(pool, order, left, drop, before, size);
        drop := 0;
      }
    }
  }

  /** An account with no more than what is to be dropped loses everything. */
  method CutWholeAccount(pool: TxPool, order: seq<nat>, left: nat, drop: nat, ghost before: Lists,
                         ghost size: Lists -> int)
    returns (drop': nat)
    requires pool.Valid() && Additive(size) && Distinct(order) && 0 < left <= |order|
              && CutFrom(before, pool.queue, order, left)
    requires |Get(pool.queue, order[left - 1])| <= drop && Same(before, pool.queue, order[left - 1])
    modifies pool`pending, pool`queue, pool`all, pool`pendingNonce, pool.priced
    ensures pool.Valid() && pool.pending == old(pool.pending) && pool.pendingNonce == old(pool.pendingNonce)
              && Forgets(old(pool.queue), pool.queue, old(pool.all), pool.all)
    ensures CutFrom(before, pool.queue, order, left - 1) && size(pool.queue) - drop' == size(old(pool.queue)) - drop
    ensures left > 1 ==> Same(before, pool.queue, order[left - 2])
  {
    ghost var queue := pool.queue;
    var size := |Get(pool.queue, order[left - 1])|;
    DropHighest(pool, order[left - 1], size);
    CutWhole(before, queue, pool.queue, order, left);
    drop' := drop - size;
  }

  /** A longer one loses its highest nonces, and that is enough. */
  method CutPartAccount(pool: TxPool, order: seq<nat>, left: nat, drop: nat, ghost before: Lists,
                        ghost size: Lists -> int)
    requires pool.Valid() && Additive(size) && Distinct(order) && 0 < left <= |order|
              && CutFrom(before, pool.queue, order, left)
    requires Same(before, pool.queue, order[left - 1])
    requires |Get(pool.queue, order[left - 1])| > drop
    modifies pool`pending, pool`queue, pool`all, pool`pendingNonce, pool.priced
    ensures pool.Valid() && pool.pending == old(pool.pending) && pool.pendingNonce == old(pool.pendingNonce)
              && Forgets(old(pool.queue), pool.queue, old(pool.all), pool.all)
    ensures CutFrom(before, pool.queue, order, left) && size(pool.queue) == size(old(pool.queue)) - drop
  {
    ghost var queue := pool.queue;
    DropHighest(pool, order[left - 1], drop);
    CutPart(before, queue, pool.queue, order, left);
  }

  // ---------- demotion ----------

  /** What follows the first unpayable transaction of a pending list without being unpayable itself. */
  function Unsettled(items: Items, f: Tx -> bool): Items {
    map n | n in items && n !in BelowAll(items, f) && !f(items[n]) :: items[n]
  }

  /** What of an account's pending list stays: what lies below the first unpayable and the first invalid nonce. */
  function Sound(items: Items, nonce: nat, f: Tx -> bool, bad: Tx -> bool): Items {
    BelowAll(BelowAll(From(items, nonce), f), bad)
  }

  lemma DemotionLoses(items: Items, nonce: nat, f: Tx -> bool, bad: Tx -> bool)
    ensures var young := From(items, nonce);
            var payable := BelowAll(young, f);
            Lost(items, Unsettled(young, f) + Sound(items, nonce, f, bad)) ==
            Lost(items, young) + Unpayable(young, f) + Lost(payable, BelowAll(payable, bad))
  {
    var young := From(items, nonce);
    var payable := BelowAll(young, f);
    var stays := Unsettled(young, f) + Sound(items, nonce, f, bad);
    forall tx | tx in Lost(items, stays)
      ensures tx in Lost(items, young) + Unpayable(young, f) + Lost(payable, BelowAll(payable, bad))
    {
      var n :| n in items && n !in stays && items[n] == tx;
      assert n in young ==> young[n] == tx;
      assert n in payable ==> payable[n] == tx;
    }
    forall tx | tx in Lost(items, young) + Unpayable(young, f) + Lost(payable, BelowAll(payable, bad))
      ensures tx in Lost(items, stays)
    {
      var n :| n in items && items[n] == tx && (n !in young || f(tx) || (n in payable && n !in BelowAll(payable, bad)));
      assert n !in stays;
    }
  }

  function Unpayable(items: Items, f: Tx -> bool): set<Tx> {
    set n | n in items && f(items[n]) :: items[n]
  }

  /**
    One account of demoteUnexecutables. Afterwards what is pending is payable,
    valid and starts at the account's nonce; what may still become executable
    went back to the queue; the pool forgot exactly the rest.
   */
  method DemoteAccount(pool: TxPool, a: nat)
    requires pool.Valid()
    modifies pool`pending, pool`queue, pool`all, pool.priced
    ensures pool.Valid() && OthersKept(old(pool.pending), old(pool.queue), pool.pending, pool.queue, a)
    ensures var items, nonce := Get(old(pool.pending), a), pool.chain.nonce(a);
            var f := Exceeding(pool.chain.balance(a), pool.chain.maxGas);
            var sound, later := Sound(items, nonce, f, pool.chain.bad), Unsettled(From(items, nonce), f);
            && pool.all == old(pool.all) - Lost(items, later + sound)
            && if sound != map[] && nonce !in sound
               then Get(pool.pending, a) == map[] && Get(pool.queue, a) == Get(old(pool.queue), a) + later + sound
               else Get(pool.pending, a) == sound && Get(pool.queue, a) == Get(old(pool.queue), a) + later
    ensures forall n | n in Get(pool.pending, a) ::
              && n >= pool.chain.nonce(a) && !Exceeds(Get(pool.pending, a)[n], pool.chain.balance(a), pool.chain.maxGas)
              && !pool.chain.bad(Get(pool.pending, a)[n]) && pool.chain.nonce(a) in Get(pool.pending, a)
    ensures Tidy(pool.pending, a)
  {
    var nonce, f := pool.chain.nonce(a), Exceeding(pool.chain.balance(a), pool.chain.maxGas);
    ghost var items := Get(pool.pending, a);
    DemotionLoses(items, nonce, f, pool.chain.bad);
    var young := From(Get(pool.pending, a), nonce);
    pool.ShrinkPending(a, young, Lost(Get(pool.pending, a), young), {});
    DemoteUnpayable(pool, a, f);
    var sound := BelowAll(Get(pool.pending, a), pool.chain.bad);
    pool.ShrinkPending(a, sound, Lost(Get(pool.pending, a), sound), {});
    CloseGap(pool, a, nonce);
    SoundIs(items, nonce, pool.chain.balance(a), pool.chain.maxGas, pool.chain.bad);
  }

  lemma SoundIs(items: Items, nonce: nat, balance: nat, maxGas: nat, bad: Tx -> bool)
    ensures var sound := Sound(items, nonce, Exceeding(balance, maxGas), bad);
            forall n | n in sound :: n >= nonce && !Exceeds(sound[n], balance, maxGas) && !bad(sound[n])
  {
  }

  /** The strict Filter of the pending list: what is unpayable is forgotten, what follows it is queued. */
  method DemoteUnpayable(pool: TxPool, a: nat, f: Tx -> bool)
    requires pool.Valid()
    modifies pool`pending, pool`queue, pool`all, pool.priced
    ensures pool.Valid() && OthersKept(old(pool.pending), old(pool.queue), pool.pending, pool.queue, a)
    ensures var items := Get(old(pool.pending), a);
            && Get(pool.pending, a) == BelowAll(items, f)
               && Get(pool.queue, a) == Get(old(pool.queue), a) + Unsettled(items, f)
            && pool.all == old(pool.all) - Unpayable(items, f)
  {
    var items := Get(pool.pending, a);
    AccountOk(pool.pending, pool.queue, pool.all, a);
    pool.ShrinkPending(a, BelowAll(items, f), Unpayable(items, f), {});
    StillKnown(items, f);
    pool.EnqueueAll(a, Unsettled(items, f), {});
  }

  lemma StillKnown(items: Items, f: Tx -> bool)
    ensures forall n | n in Unsettled(items, f) :: Unsettled(items, f)[n] !in Unpayable(items, f)
  {
  }

  /** A gap in front, which sends everything back to the queue; and an empty list loses its entry. */
  method CloseGap(pool: TxPool, a: nat, nonce: nat)
    requires pool.Valid()
    modifies pool`pending, pool`queue, pool`all, pool.priced
    ensures pool.Valid() && OthersKept(old(pool.pending), old(pool.queue), pool.pending, pool.queue, a)
              && pool.all == old(pool.all)
    ensures var items := Get(old(pool.pending), a);
            if items != map[] && nonce !in items
            then Get(pool.pending, a) == map[] && Get(pool.queue, a) == Get(old(pool.queue), a) + items
            else Get(pool.pending, a) == items && Get(pool.queue, a) == Get(old(pool.queue), a)
    ensures Tidy(old(pool.pending), a) ==> Tidy(pool.pending, a)
  {
    var items := Get(pool.pending, a);
    if items != map[] && nonce !in items {
      AccountOk(pool.pending, pool.queue, pool.all, a);
      pool.ShrinkPending(a, map[], {}, {});
      pool.EnqueueAll(a, items, {});
    }
  }
}
