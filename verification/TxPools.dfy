/**
  The transaction pool (core/tx_pool.go). Lists are values here; what each list
  operation does to them is what SortedMaps and TxLists prove of the lists
  themselves. Account nonces, balances, gas limits and validity tests of the
  chain state are parameters; timers, events and the journal are not modelled.
 */
module TxPools {
  import opened SortedMaps
  import opened AccountLists
  import opened PricedLists
  import opened TxLists
  import opened FairCuts

  /** What `list` had and `keep` has not. */
  function Lost(items: Items, keep: Items): set<Tx> {
    set n | n in items && n !in keep :: items[n]
  }

  ghost predicate SubItems(keep: Items, items: Items) {
    forall n | n in keep :: n in items && keep[n] == items[n]
  }

  /** A listed transaction is known to the pool. */
  ghost predicate KnownTx(pending: Lists, queue: Lists, all: set<Tx>, tx: Tx) {
    In(pending, tx) || In(queue, tx) ==> tx in all
  }

  /** The account has no nonce both pending and queued. */
  ghost predicate Apart(pending: Lists, queue: Lists, a: nat) {
    forall n | n in Get(pending, a) :: n !in Get(queue, a)
  }

  /**
    Every listed transaction sits under its own sender and nonce and is known to
    the pool, and no account has a nonce both pending and queued.
   */
  ghost predicate PoolOk(pending: Lists, queue: Lists, all: set<Tx>) {
    && Sits(pending) && Sits(queue)
    && (forall tx: Tx {:trigger KnownTx(pending, queue, all, tx)} :: KnownTx(pending, queue, all, tx))
    && (forall a: nat {:trigger Apart(pending, queue, a)} :: Apart(pending, queue, a))
  }

  // ---------- what changes to one account's lists keep ----------

  /** Account a's lists become p and q, and the pool now knows all'. */
  lemma ChangeOk(pending: Lists, queue: Lists, all: set<Tx>, a: nat, p: Items, q: Items, all': set<Tx>)
    requires PoolOk(pending, queue, all) && Own(p, a) && Own(q, a)
    requires forall n | n in p :: n !in q && p[n] in all'
    requires forall n | n in q :: q[n] in all'
    requires forall tx | tx in all && tx.from != a :: tx in all'
    ensures PoolOk(Set(pending, a, p), Set(queue, a, q), all')
  {
    var pending', queue' := Set(pending, a, p), Set(queue, a, q);
    SetSits(pending, a, p);
    SetSits(queue, a, q);
    SetGet(pending, a, p);
    SetGet(queue, a, q);
    forall tx: Tx ensures KnownTx(pending', queue', all', tx) {
      SetIn(pending, a, p, tx);
      SetIn(queue, a, q, tx);
      assert KnownTx(pending, queue, all, tx);
    }
    forall b: nat ensures Apart(pending', queue', b) {
      assert Apart(pending, queue, b);
    }
  }

  /** What PoolOk says about account a. */
  lemma AccountOk(pending: Lists, queue: Lists, all: set<Tx>, a: nat)
    requires PoolOk(pending, queue, all)
    ensures Own(Get(pending, a), a) && Own(Get(queue, a), a)
    ensures forall n | n in Get(pending, a) :: n !in Get(queue, a) && Get(pending, a)[n] in all
    ensures forall n | n in Get(queue, a) :: Get(queue, a)[n] in all
  {
    assert Own(Get(pending, a), a) && Own(Get(queue, a), a) && Apart(pending, queue, a);
    forall n | n in Get(pending, a) ensures Get(pending, a)[n] in all {
      assert KnownTx(pending, queue, all, Get(pending, a)[n]);
    }
    forall n | n in Get(queue, a) ensures Get(queue, a)[n] in all {
      assert KnownTx(pending, queue, all, Get(queue, a)[n]);
    }
  }

  /** Setting a list to what it is only ever drops an empty entry. */
  lemma SameOk(pending: Lists, queue: Lists, all: set<Tx>, pending': Lists, queue': Lists)
    requires PoolOk(pending, queue, all)
    requires forall a :: Get(pending', a) == Get(pending, a)
    requires forall a :: Get(queue', a) == Get(queue, a)
    ensures PoolOk(pending', queue', all)
  {
    forall a: nat ensures Own(Get(pending', a), a) && Own(Get(queue', a), a) && Apart(pending', queue', a) {
      assert Own(Get(pending, a), a) && Own(Get(queue, a), a) && Apart(pending, queue, a);
    }
    forall tx: Tx ensures KnownTx(pending', queue', all, tx) {
      assert KnownTx(pending, queue, all, tx);
      assert Get(pending', tx.from) == Get(pending, tx.from) && Get(queue', tx.from) == Get(queue, tx.from);
    }
  }

  lemma ChangePendingOk(pending: Lists, queue: Lists, all: set<Tx>, a: nat, p: Items, all': set<Tx>)
    requires PoolOk(pending, queue, all) && Own(p, a)
    requires forall n | n in p :: n !in Get(queue, a) && p[n] in all'
    requires forall n | n in Get(queue, a) :: Get(queue, a)[n] in all'
    requires forall tx | tx in all && tx.from != a :: tx in all'
    ensures PoolOk(Set(pending, a, p), queue, all')
  {
    AccountOk(pending, queue, all, a);
    ChangeOk(pending, queue, all, a, p, Get(queue, a), all');
    SetGet(queue, a, Get(queue, a));
    SameOk(Set(pending, a, p), Set(queue, a, Get(queue, a)), all', Set(pending, a, p), queue);
  }

  lemma ChangeQueueOk(pending: Lists, queue: Lists, all: set<Tx>, a: nat, q: Items, all': set<Tx>)
    requires PoolOk(pending, queue, all) && Own(q, a)
    requires forall n | n in Get(pending, a) :: n !in q && Get(pending, a)[n] in all'
    requires forall n | n in q :: q[n] in all'
    requires forall tx | tx in all && tx.from != a :: tx in all'
    ensures PoolOk(pending, Set(queue, a, q), all')
  {
    AccountOk(pending, queue, all, a);
    ChangeOk(pending, queue, all, a, Get(pending, a), q, all');
    SetGet(pending, a, Get(pending, a));
    SameOk(Set(pending, a, Get(pending, a)), Set(queue, a, q), all', pending, Set(queue, a, q));
  }

  function SetOf(txs: seq<Tx>): set<Tx> {
    set tx | tx in txs
  }

  lemma SetOfStep(txs: seq<Tx>, i: nat)
    requires i < |txs|
    ensures SetOf(txs[i..]) == {txs[i]} + SetOf(txs[i + 1..]) && SetOf(txs[..i + 1]) == SetOf(txs[..i]) + {txs[i]}
  {
    assert txs[i..] == [txs[i]] + txs[i + 1..];
    assert txs[..i + 1] == txs[..i] + [txs[i]];
  }

  datatype Outcome = Known | Rejected | Underpriced | ReplaceUnderpriced | Added(replaced: bool)

  /** The maximal run of consecutive nonces from the smallest one on, if that is not above `start`. */
  method TakeReady(items: Items, start: nat) returns (rest: Items, ready: seq<Tx>)
    requires Keyed(items)
    ensures (ready == []) == (forall n | n in items :: n > start)
    ensures ready == [] ==> rest == items
    ensures ready != [] ==>
              var first := ready[0].nonce;
              && first <= start && (forall n | n in items :: first <= n)
              && (forall i | 0 <= i < |ready| ::
                 ready[i].nonce == first + i && ready[i].nonce in items && items[ready[i].nonce] == ready[i])
              && first + |ready| !in items && rest == From(items, first + |ready|)
  {
    rest, ready := items, [];
    if items == map[] {
      return;
    }
    var first :| first in items;
    var todo := items.Keys - {first};
    while todo != {}
      invariant first in items && todo <= items.Keys && forall n | n in items && n !in todo :: first <= n
      decreases todo
    {
      var n :| n in todo;
      todo := todo - {n};
      if n < first {
        first := n;
      }
    }
    if first > start {
      return;
    }
    var next := first;
    assert From(items, first) == items;
    while next in rest
      invariant next == first + |ready| && rest == From(items, next)
      invariant forall i | 0 <= i < |ready| ::
                ready[i].nonce == first + i && ready[i].nonce in items && items[ready[i].nonce] == ready[i]
      invariant ready == [] ==> next == first
      decreases rest.Keys
    {
      assert rest[next] == items[next] && items[next].nonce == next;
      ready := ready + [rest[next]];
      assert rest.Keys - {next} < rest.Keys;
      rest := rest - {next};
      assert rest == From(items, next + 1);
      next := next + 1;
    }
  }

  /** Cap: the `limit` lowest nonces. */
  method CapTo(items: Items, limit: nat) returns (keep: Items)
    requires Keyed(items)
    ensures Lowest(keep, items, if |items| <= limit then |items| else limit) && SubItems(keep, items) && Keyed(keep)
  {
    keep := items;
    LowestSelf(items);
    while |keep| > limit
      invariant Lowest(keep, items, |keep|) && SubItems(keep, items) && Keyed(keep) && |keep| <= |items|
      invariant |items| > limit ==> |keep| >= limit
      invariant |items| <= limit ==> keep == items
      decreases |keep|
    {
      var next, tx := CapOne(keep);
      LowestTwice(next, keep, items, |keep| - 1, |keep|);
      keep := next;
    }
  }

  /**
    The state of the chain the pool works on: nonces and balances of accounts, the
    block gas limit, and the validity tests of privacy and proof-of-stake transactions.
   */
  datatype Chain = Chain(nonce: nat -> nat, balance: nat -> nat, maxGas: nat, bad: Tx -> bool)

  /** The managed nonce of an account, or the one on the chain for an account that is not managed. */
  function NextNonce(m: map<nat, nat>, chain: Chain, a: nat): nat {
    if a in m then m[a] else chain.nonce(a)
  }

  /**
    The managed nonces once a pending transaction has left: its account goes back to its nonce,
    unless it is there already.
   */
  function Lowered(m: map<nat, nat>, chain: Chain, tx: Tx): map<nat, nat> {
    if NextNonce(m, chain, tx.from) > tx.nonce then m[tx.from := tx.nonce] else m
  }

  /** No account's next nonce has risen. */
  ghost predicate NoncesFall(chain: Chain, before: map<nat, nat>, now: map<nat, nat>) {
    forall a: nat {:trigger NextNonce(now, chain, a)} :: NextNonce(now, chain, a) <= NextNonce(before, chain, a)
  }

  /** Only account a's lists changed. */
  ghost predicate OthersKept(pending: Lists, queue: Lists, pending': Lists, queue': Lists, a: nat) {
    pending' - {a} == pending - {a} && queue' - {a} == queue - {a}
  }

  /**
    The lists of an account without a transaction: a pending one takes all later
    ones off the pending list, and they are queued unless nothing is left pending.
   */
  ghost predicate TakenOff(pending: Lists, queue: Lists, pending': Lists, queue': Lists, tx: Tx) {
    var list, queued := Get(pending, tx.from), Get(queue, tx.from);
    && OthersKept(pending, queue, pending', queue', tx.from)
    && if tx.nonce in list then
         && Get(pending', tx.from) == Under(list, tx.nonce)
         && Get(queue', tx.from) == if Under(list, tx.nonce) == map[] then queued else queued + From(list, tx.nonce + 1)
       else
         pending' == pending && Get(queue', tx.from) == queued - {tx.nonce}
  }

  /** What is left of a queued list without the old, the unpayable and the invalid. */
  ghost function Fit(items: Items, nonce: nat, balance: nat, maxGas: nat, bad: Tx -> bool): Items {
    map n | n in items && n >= nonce && !Exceeds(items[n], balance, maxGas) && !bad(items[n]) :: items[n]
  }

  ghost function FitQueue(chain: Chain, items: Items, a: nat): Items {
    Fit(items, chain.nonce(a), chain.balance(a), chain.maxGas, chain.bad)
  }

  /** What a list keeps under the queue limit of an account: everything if it is exempt, its lowest nonces otherwise. */
  ghost predicate TopCut(keep: Items, items: Items, exempt: bool, limit: nat) {
    if exempt || |items| <= limit then keep == items else Lowest(keep, items, limit)
  }

  lemma LostTwice(items: Items, mid: Items, keep: Items)
    requires SubItems(mid, items) && SubItems(keep, mid)
    ensures SubItems(keep, items) && Lost(items, keep) == Lost(items, mid) + Lost(mid, keep)
  {
  }

  /** What is lost is what did not fit and what the limit took off the rest. */
  lemma LostOnTheWay(items: Items, fit: Items, cut: nat, keep: Items)
    requires SubItems(fit, items) && SubItems(keep, From(fit, cut))
    ensures Lost(items, Under(fit, cut) + keep) == Lost(items, fit) + Lost(From(fit, cut), keep)
  {
  }

  lemma FitInSteps(items: Items, nonce: nat, balance: nat, maxGas: nat, bad: Tx -> bool)
    ensures Kept(Kept(From(items, nonce), Exceeding(balance, maxGas)), bad) == Fit(items, nonce, balance, maxGas, bad)
  {
  }

  /** The consecutive run from the smallest nonce, if that is not above `start`, ends before `cut`. */
  ghost predicate ReadyCut(items: Items, start: nat, cut: nat) {
    if forall n | n in items :: n > start then cut == 0
    else
      && cut > 0 && cut - 1 in items && cut !in items
      && (exists n :: n in items && n < cut && n <= start)
      && (forall n: nat, m | m in items && m <= n < cut :: n in items)
  }

  /** The listed transaction that a new one of its sender and nonce has to outbid. */
  ghost function Rival(pending: Lists, queue: Lists, tx: Tx): set<Tx> {
    var p, q := Get(pending, tx.from), Get(queue, tx.from);
    if tx.nonce in p then {p[tx.nonce]} else if tx.nonce in q then {q[tx.nonce]} else {}
  }

  ghost predicate SamePlace(x: Tx, tx: Tx) {
    x.from == tx.from && x.nonce == tx.nonce
  }

  /** The new price is above the old one by more than the bump, in percent. */
  ghost predicate Outbids(tx: Tx, rivals: set<Tx>, priceBump: nat) {
    forall x | x in rivals :: x.price * (100 + priceBump) / 100 < tx.price
  }

  /**
    The pool loses exactly the drops: at most `count` of them, all remote, none
    dearer than a remote transaction that stays; fewer only if no remote one stays.
   */
  ghost predicate RoomMade(all: set<Tx>, all': set<Tx>, drops: seq<Tx>, locals: set<nat>, count: int) {
    && all' == all - SetOf(drops) && |drops| <= (if count > 0 then count else 0)
    && (forall x | x in drops :: x in all && x.from !in locals)
    && (forall x, y | x in drops && y in all' && y.from !in locals :: x.price <= y.price)
    && (|drops| < count ==> forall y | y in all' :: y.from in locals)
  }

  /** The lists of the pool, all it knows, and the managed nonces. */
  datatype Book = Book(pending: Lists, queue: Lists, all: set<Tx>, nonces: map<nat, nat>)

  /** removeTx: a known transaction is forgotten and taken off its list, and a pending one lowers the next nonce. */
  ghost predicate Removal(chain: Chain, before: Book, after: Book, tx: Tx) {
    && after.all == before.all - {tx}
    && if tx in before.all then
         && TakenOff(before.pending, before.queue, after.pending, after.queue, tx)
         && after.nonces == if tx.nonce in Get(before.pending, tx.from) then Lowered(before.nonces, chain, tx)
                            else before.nonces
       else
         after.pending == before.pending && after.queue == before.queue && after.nonces == before.nonces
  }

  /** The transactions are removed one after the other. */
  ghost predicate Removals(chain: Chain, before: Book, after: Book, drops: seq<Tx>)
    decreases |drops|
  {
    if drops == [] then after == before else
      var i := |drops| - 1;
      exists mid :: Removals(chain, before, mid, drops[..i]) && Removal(chain, mid, after, drops[i])
  }

  lemma RemovalsMore(chain: Chain, before: Book, mid: Book, after: Book, drops: seq<Tx>, tx: Tx)
    requires Removals(chain, before, mid, drops) && Removal(chain, mid, after, tx)
    ensures Removals(chain, before, after, drops + [tx])
  {
    assert (drops + [tx])[..|drops|] == drops;
  }

  lemma {:induction false} RemovalsFall(chain: Chain, before: Book, after: Book, drops: seq<Tx>)
    requires Removals(chain, before, after, drops)
    ensures NoncesFall(chain, before.nonces, after.nonces)
    decreases |drops|
  {
    if drops != [] {
      var i := |drops| - 1;
      var mid :| Removals(chain, before, mid, drops[..i]) && Removal(chain, mid, after, drops[i]);
      RemovalsFall(chain, before, mid, drops[..i]);
      forall a: nat ensures NextNonce(after.nonces, chain, a) <= NextNonce(before.nonces, chain, a) {
        assert NextNonce(mid.nonces, chain, a) <= NextNonce(before.nonces, chain, a);
      }
    }
  }

  /**
    A new transaction takes the place of the one it outbids, on the list where
    that is, or is queued; nothing else on any list changes.
   */
  ghost predicate InsertedInto(before: Book, after: Book, tx: Tx, r: Outcome, priceBump: nat) {
    var p, q := Get(before.pending, tx.from), Get(before.queue, tx.from);
    var rival := Rival(before.pending, before.queue, tx);
    if !Outbids(tx, rival, priceBump) then
      r == ReplaceUnderpriced && after == before
    else
      && r == Added(rival != {}) && after.all == before.all - rival + {tx} && after.nonces == before.nonces
      && OthersKept(before.pending, before.queue, after.pending, after.queue, tx.from)
      && Get(after.pending, tx.from) == (if tx.nonce in p then p[tx.nonce := tx] else p)
      && Get(after.queue, tx.from) == (if tx.nonce in p then q else q[tx.nonce := tx])
  }

  datatype Snapshot = Snapshot(book: Book, locals: set<nat>)

  /**
    add, with the verdict of validateTx. A known transaction, an invalid one, and
    in a full pool a remote one that is no dearer than everything known change
    nothing. Otherwise the cheapest remote ones, `drops`, are removed to make room
    in a full pool, which leaves `mid`, and the transaction is inserted.
   */
  ghost predicate AddStep(chain: Chain, capacity: nat, priceBump: nat, before: Snapshot, after: Snapshot,
                          tx: Tx, local: bool, valid: bool, r: Outcome, drops: seq<Tx>, mid: Book) {
    var all := before.book.all;
    && (r == Known <==> tx in all)
    && (r == Rejected <==> tx !in all && !valid)
    && (r == Underpriced <==>
          && tx !in all && valid && |all| >= capacity
          && tx.from !in before.locals && all != {} && forall x | x in all :: x.price >= tx.price)
    && if r in {Known, Rejected, Underpriced} then after == before else
         && Removals(chain, before.book, mid, drops) && InsertedInto(mid, after.book, tx, r, priceBump)
         && (if |all| < capacity then drops == []
             else RoomMade(all, mid.all, drops, before.locals, |all| + 1 - capacity))
         && after.locals == if r.Added? && local && tx.nonce !in Get(mid.pending, tx.from)
                            then before.locals + {tx.from} else before.locals
  }

  class TxPool {
    const globalSlots: nat
    const globalQueue: nat
    const accountSlots: nat
    const accountQueue: nat
    const priceBump: nat
    const priced: PricedList
    var pending: Lists
    var queue: Lists
    var all: set<Tx>
    var locals: set<nat>
    var chain: Chain
    var pendingNonce: map<nat, nat>

    /** All but the transactions of `owed`, which are about to be removed, have a price point. */
    ghost predicate Priced(owed: set<Tx>)
      reads this, priced
    {
      priced.Valid() && Covers(priced.items, all - owed)
    }

    ghost predicate Valid()
      reads this, priced
    {
      PoolOk(pending, queue, all) && Priced({})
    }

    constructor (globalSlots: nat, globalQueue: nat, accountSlots: nat, accountQueue: nat, priceBump: nat, chain: Chain)
      ensures Valid() && fresh(priced) && all == {} && pending == map[] && queue == map[] && pendingNonce == map[]
      ensures this.chain == chain && locals == {}
      ensures this.globalSlots == globalSlots && this.globalQueue == globalQueue && this.accountSlots == accountSlots
      ensures this.accountQueue == accountQueue && this.priceBump == priceBump
    {
      this.globalSlots, this.globalQueue := globalSlots, globalQueue;
      this.accountSlots, this.accountQueue, this.priceBump := accountSlots, accountQueue, priceBump;
      priced := new PricedList();
      pending, queue, all, locals, pendingNonce := map[], map[], {}, {}, map[];
      this.chain := chain;
    }

    /** Some transactions leave the pool: each is no longer known, and the price list is told. */
    method Forget(gone: set<Tx>, ghost owed: set<Tx>)
      requires Priced(owed)
      modifies this`all, priced
      ensures all == old(all) - gone && Priced(owed)
    {
      var todo := gone;
      while todo != {}
        invariant todo <= gone && all == old(all) - (gone - todo) && Priced(owed)
        decreases todo
      {
        var tx :| tx in todo;
        todo := todo - {tx};
        all := all - {tx};
        priced.Removed(all);
      }
    }

    /** enqueueTx, for a transaction whose nonce is not pending. */
    method EnqueueTx(tx: Tx, ghost owed: set<Tx>) returns (ok: bool, replaced: bool)
      requires PoolOk(pending, queue, all) && Priced(owed)
      requires tx.nonce !in Get(pending, tx.from)
      modifies this`queue, this`all, priced
      ensures PoolOk(pending, queue, all) && Priced(owed) && OthersKept(pending, old(queue), pending, queue, tx.from)
      ensures ok <==> tx.nonce in Get(old(queue), tx.from) ==>
                Get(old(queue), tx.from)[tx.nonce].price * (100 + priceBump) / 100 < tx.price
      ensures replaced <==> ok && tx.nonce in Get(old(queue), tx.from)
      ensures !ok ==> queue == old(queue)
      ensures Get(queue, tx.from) == if ok then Get(old(queue), tx.from)[tx.nonce := tx] else Get(old(queue), tx.from)
      ensures all == if !ok then old(all)
                     else (if replaced then old(all) - {Get(old(queue), tx.from)[tx.nonce]} else old(all)) + {tx}
    {
      var list := Get(queue, tx.from);
      replaced := tx.nonce in list;
      if replaced && list[tx.nonce].price * (100 + priceBump) / 100 >= tx.price {
        return false, false;
      }
      var gone := if replaced then {list[tx.nonce]} else {};
      EnqueueOk(pending, queue, all, tx);
      Forget(gone, owed);
      queue := Set(queue, tx.from, list[tx.nonce := tx]);
      all := all + {tx};
      priced.Put(tx);
      ok := true;
    }

    /** Several transactions of one account go to the queue, at nonces free in both lists. */
    method EnqueueAll(a: nat, back: Items, ghost owed: set<Tx>)
      requires PoolOk(pending, queue, all) && Priced(owed) && Own(back, a)
      requires forall n | n in back :: n !in Get(pending, a) && n !in Get(queue, a) && back[n] in all
      modifies this`queue, this`all, priced
      ensures PoolOk(pending, queue, all) && Priced(owed) && all == old(all)
      ensures Get(queue, a) == Get(old(queue), a) + back && OthersKept(pending, old(queue), pending, queue, a)
    {
      var todo := back.Keys;
      ghost var base := Get(queue, a);
      assert base + Part(back, todo) == base;
      while todo != {}
        invariant todo <= back.Keys
        invariant PoolOk(pending, queue, all) && Priced(owed) && all == old(all)
        invariant Get(queue, a) == base + Part(back, todo)
        invariant OthersKept(pending, old(queue), pending, queue, a)
        decreases todo
      {
        var n :| n in todo;
        PartStep(base, back, todo, n);
        var ok, replaced := EnqueueTx(back[n], owed);
        todo := todo - {n};
      }
      assert Part(back, {}) == back;
    }

    /** Part of several operations: an account's queued list shrinks to `keep`, and the pool forgets the rest. */
    method ShrinkQueue(a: nat, keep: Items, ghost owed: set<Tx>)
      requires PoolOk(pending, queue, all) && Priced(owed) && SubItems(keep, Get(queue, a))
      modifies this`queue, this`all, priced
      ensures PoolOk(pending, queue, all) && Priced(owed)
      ensures Get(queue, a) == keep && OthersKept(pending, old(queue), pending, queue, a)
      ensures all == old(all) - Lost(Get(old(queue), a), keep)
    {
      var gone := Lost(Get(queue, a), keep);
      ShrinkQueueOk(pending, queue, all, a, keep);
      queue := Set(queue, a, keep);
      Forget(gone, owed);
    }

    /** An account's pending list shrinks to `keep`, and the pool forgets some of the rest. */
    method ShrinkPending(a: nat, keep: Items, gone: set<Tx>, ghost owed: set<Tx>)
      requires PoolOk(pending, queue, all) && Priced(owed) && SubItems(keep, Get(pending, a))
      requires gone <= Lost(Get(pending, a), keep)
      modifies this`pending, this`all, priced
      ensures PoolOk(pending, queue, all) && Priced(owed)
      ensures Get(pending, a) == keep && OthersKept(old(pending), queue, pending, queue, a) && all == old(all) - gone
      ensures Tidy(pending, a)
    {
      ShrinkPendingOk(pending, queue, all, a, keep, gone);
      pending := Set(pending, a, keep);
      Forget(gone, owed);
    }

    /**
      removeTx. A pending transaction takes all later ones of the account off the
      pending list; they go back to the queue, unless the list became empty.
     */
    method RemoveTx(tx: Tx, ghost owed: set<Tx>)
      requires PoolOk(pending, queue, all) && Priced(owed)
      modifies this`pending, this`queue, this`all, this`pendingNonce, priced
      ensures PoolOk(pending, queue, all) && Priced(owed) && Removal(chain, old(Contents()), Contents(), tx)
    {
      if tx !in all {
        return;
      }
      if tx.nonce in Get(pending, tx.from) {
        RemovePending(tx, owed);
        return;
      }
      RemoveQueuedOk(pending, queue, all, tx);
      if tx.from in queue {
        queue := Set(queue, tx.from, queue[tx.from] - {tx.nonce});
      }
      Forget({tx}, owed);
    }

    method RemovePending(tx: Tx, ghost owed: set<Tx>)
      requires PoolOk(pending, queue, all) && Priced(owed) && tx in all && tx.nonce in Get(pending, tx.from)
      modifies this`pending, this`queue, this`all, this`pendingNonce, priced
      ensures PoolOk(pending, queue, all) && Priced(owed) && all == old(all) - {tx}
      ensures TakenOff(old(pending), old(queue), pending, queue, tx)
      ensures pendingNonce == Lowered(old(pendingNonce), chain, tx)
    {
      var a, nonce := tx.from, tx.nonce;
      var list := Get(pending, a);
      var keep, invalids := Remaining(true, list, Exactly(nonce)), From(list, nonce + 1);
      RemovePendingOk(pending, queue, all, tx);
      pending := Set(pending, a, keep);
      Forget({tx}, owed);
      if keep != map[] {
        EnqueueAll(a, invalids, owed);
      }
      pendingNonce := Lowered(pendingNonce, chain, tx);
    }

    /** The transactions that Discard or Cap took off the price heap leave the pool. */
    method RemoveAll(drops: seq<Tx>)
      requires PoolOk(pending, queue, all) && Priced(SetOf(drops))
      modifies this`pending, this`queue, this`all, this`pendingNonce, priced
      ensures Valid() && all == old(all) - SetOf(drops) && Removals(chain, old(Contents()), Contents(), drops)
    {
      assert drops[0..] == drops;
      for i := 0 to |drops|
        invariant PoolOk(pending, queue, all) && Priced(SetOf(drops[i..]))
        invariant all == old(all) - SetOf(drops[..i])
        invariant Removals(chain, old(Contents()), Contents(), drops[..i])
      {
        SetOfStep(drops, i);
        ghost var mid := Contents();
        RemoveTx(drops[i], SetOf(drops[i..]));
        RemovalsMore(chain, old(Contents()), mid, Contents(), drops[..i], drops[i]);
        assert drops[..i + 1] == drops[..i] + [drops[i]];
        assert all - SetOf(drops[i..]) == all - SetOf(drops[i + 1..]);
      }
      assert drops[..|drops|] == drops;
      assert all - SetOf(drops[|drops|..]) == all - {};
    }

    /** SetGasPrice: every remote transaction below the new threshold leaves the pool, no local one does. */
    method SetGasPrice(price: nat) returns (ghost gone: seq<Tx>)
      requires Valid()
      modifies this`pending, this`queue, this`all, this`pendingNonce, priced
      ensures Valid() && all == set tx | tx in old(all) && (tx.from in locals || tx.price >= price)
      ensures Removals(chain, old(Contents()), Contents(), gone)
    {
      var drops := priced.Cap(all, price, locals);
      gone := drops;
      RemoveAll(drops);
    }

    ghost function Contents(): Book
      reads this
    {
      Book(pending, queue, all, pendingNonce)
    }

    ghost function Now(): Snapshot
      reads this
    {
      Snapshot(Contents(), locals)
    }

    /** add, with the verdict of validateTx as a parameter. */
    method Add(tx: Tx, local: bool, valid: bool) returns (r: Outcome, ghost drops: seq<Tx>, ghost mid: Book)
      requires Valid()
      modifies this`pending, this`queue, this`all, this`locals, this`pendingNonce, priced
      ensures Valid()
      ensures AddStep(chain, globalSlots + globalQueue, priceBump, old(Now()), Now(), tx, local, valid, r, drops, mid)
    {
      drops, mid := [], Contents();
      if tx in all {
        return Known, drops, mid;
      }
      if !valid {
        return Rejected, drops, mid;
      }
      if |all| >= globalSlots + globalQueue {
        var cheap;
        cheap, drops := MakeRoom(tx);
        if cheap {
          return Underpriced, drops, mid;
        }
      }
      mid := Contents();
      r := Insert(tx, local);
    }

    /** The pool is full: refuse a transaction no dearer than the cheapest, or discard the cheapest remote ones. */
    method MakeRoom(tx: Tx) returns (cheap: bool, ghost drops: seq<Tx>)
      requires Valid()
      modifies this`pending, this`queue, this`all, this`pendingNonce, priced
      ensures Valid() && Removals(chain, old(Contents()), Contents(), drops)
      ensures cheap <==> tx.from !in locals && old(all) != {} && forall x | x in old(all) :: x.price >= tx.price
      ensures cheap ==> Contents() == old(Contents()) && drops == []
      ensures !cheap ==> RoomMade(old(all), all, drops, locals, |old(all)| + 1 - globalSlots - globalQueue)
    {
      cheap := priced.Underpriced(all, tx, locals);
      if cheap {
        return cheap, [];
      }
      drops := Evict(|all| - (globalSlots + globalQueue - 1));
    }

    /** The cheapest remote transactions leave the pool. */
    method Evict(count: int) returns (ghost drops: seq<Tx>)
      requires Valid()
      modifies this`pending, this`queue, this`all, this`pendingNonce, priced
      ensures Valid() && Removals(chain, old(Contents()), Contents(), drops)
      ensures RoomMade(old(all), all, drops, locals, count)
    {
      var discarded := Discard(count);
      drops := discarded;
      RemoveAll(discarded);
    }

    /** The cheapest remote transactions leave the price heap; they are about to be removed. */
    method Discard(count: int) returns (drops: seq<Tx>)
      requires Valid()
      modifies priced
      ensures Priced(SetOf(drops)) && RoomMade(all, all - SetOf(drops), drops, locals, count)
    {
      drops := priced.Discard(all, count, locals);
    }

    /** The new transaction replaces a pending one of its nonce, or goes to the queue. */
    method Insert(tx: Tx, local: bool) returns (r: Outcome)
      requires Valid()
      modifies this`pending, this`queue, this`all, this`locals, priced
      ensures Valid() && InsertedInto(old(Contents()), Contents(), tx, r, priceBump)
      ensures locals == if r.Added? && local && tx.nonce !in Get(old(pending), tx.from) then old(locals) + {tx.from}
                        else old(locals)
    {
      AccountOk(pending, queue, all, tx.from);
      var list := Get(pending, tx.from);
      if tx.nonce in list {
        if list[tx.nonce].price * (100 + priceBump) / 100 >= tx.price {
          return ReplaceUnderpriced;
        }
        Enlist(tx);
        return Added(true);
      }
      var ok, replaced := EnqueueTx(tx, {});
      if ok && local {
        locals := locals + {tx.from};
      }
      return if ok then Added(replaced) else ReplaceUnderpriced;
    }

    /**
      One account of promoteExecutables. Old, unpayable and invalid queued
      transactions leave the pool; the executable run, up to nonce `cut`, becomes
      pending, and the account's next nonce follows it; a remote account keeps its
      lowest queued nonces only; and what left the queue without becoming pending
      is forgotten.
     */
    method PromoteAccount(a: nat) returns (ghost cut: nat)
      requires Valid()
      modifies this`pending, this`queue, this`all, this`pendingNonce, priced
      ensures Valid() && OthersKept(old(pending), old(queue), pending, queue, a)
      ensures pendingNonce == if cut == 0 then old(pendingNonce) else old(pendingNonce)[a := cut]
      ensures var fit := FitQueue(chain, Get(old(queue), a), a);
              && ReadyCut(fit, NextNonce(old(pendingNonce), chain, a), cut)
              && Get(pending, a) == Get(old(pending), a) + Under(fit, cut)
              && TopCut(Get(queue, a), From(fit, cut), a in locals, accountQueue)
              && all == old(all) - Lost(Get(old(queue), a), Under(fit, cut) + Get(queue, a))
    {
      ghost var items := Get(queue, a);
      CleanQueue(a);
      ghost var fit := Get(queue, a);
      cut := PromoteReady(a);
      CapQueue(a);
      LostOnTheWay(items, fit, cut, Get(queue, a));
    }

    /** Drop what is too old, too costly or invalid from an account's queue. */
    method CleanQueue(a: nat)
      requires Valid()
      modifies this`queue, this`all, priced
      ensures Valid() && OthersKept(pending, old(queue), pending, queue, a)
      ensures Get(queue, a) == FitQueue(chain, Get(old(queue), a), a) && SubItems(Get(queue, a), Get(old(queue), a))
      ensures all == old(all) - Lost(Get(old(queue), a), Get(queue, a))
    {
      ghost var items := Get(queue, a);
      ShrinkQueue(a, From(Get(queue, a), chain.nonce(a)), {});
      ghost var young := Get(queue, a);
      ShrinkQueue(a, Kept(Get(queue, a), Exceeding(chain.balance(a), chain.maxGas)), {});
      LostTwice(items, young, Get(queue, a));
      ghost var payable := Get(queue, a);
      ShrinkQueue(a, Kept(Get(queue, a), chain.bad), {});
      LostTwice(items, payable, Get(queue, a));
      FitInSteps(items, chain.nonce(a), chain.balance(a), chain.maxGas, chain.bad);
    }

    /** Drop the highest nonces of a remote account's queue that exceed its limit. */
    method CapQueue(a: nat)
      requires Valid()
      modifies this`queue, this`all, priced
      ensures Valid() && OthersKept(pending, old(queue), pending, queue, a)
      ensures TopCut(Get(queue, a), Get(old(queue), a), a in locals, accountQueue)
                && SubItems(Get(queue, a), Get(old(queue), a))
      ensures all == old(all) - Lost(Get(old(queue), a), Get(queue, a))
    {
      if a in locals {
        return;
      }
      assert Own(Get(queue, a), a);
      var keep := CapTo(Get(queue, a), accountQueue);
      if |Get(queue, a)| <= accountQueue {
        LowestAll(keep, Get(queue, a));
      }
      ShrinkQueue(a, keep, {});
    }

    /** The executable run of an account's queue, up to nonce `cut`, becomes pending. */
    method PromoteReady(a: nat) returns (ghost cut: nat)
      requires Valid()
      modifies this`pending, this`queue, this`all, this`pendingNonce, priced
      ensures Valid() && all == old(all) && OthersKept(old(pending), old(queue), pending, queue, a)
      ensures pendingNonce == if cut == 0 then old(pendingNonce) else old(pendingNonce)[a := cut]
      ensures ReadyCut(Get(old(queue), a), NextNonce(old(pendingNonce), chain, a), cut)
      ensures Get(queue, a) == From(Get(old(queue), a), cut)
      ensures Get(pending, a) == Get(old(pending), a) + Under(Get(old(queue), a), cut)
    {
      ghost var items, base := Get(queue, a), Get(pending, a);
      var ready, first, end := Dequeue(a);
      PromoteRun(a, ready, items, first);
      cut := end;
      PlusIsUnder(base, items, cut);
    }

    /** The executable run leaves the queue, and is for a moment on neither list. */
    method Dequeue(a: nat) returns (ready: seq<Tx>, ghost first: nat, ghost cut: nat)
      requires Valid()
      modifies this`queue
      ensures Valid() && queue - {a} == old(queue) - {a} && Get(queue, a) == From(Get(old(queue), a), cut)
      ensures ReadyCut(Get(old(queue), a), NextNonce(pendingNonce, chain, a), cut) && cut == first + |ready|
      ensures ready == [] <==> cut == 0
      ensures forall i | 0 <= i < |ready| :: ready[i].nonce == first + i
      ensures forall i | 0 <= i < |ready| :: Promotable(ready[i], a, Get(old(queue), a), Get(pending, a),
                Get(queue, a), all)
      ensures Get(pending, a) == Plus(Get(pending, a), Get(old(queue), a), first)
    {
      assert Own(Get(queue, a), a);
      var rest;
      rest, ready, first, cut := TakeRun(Get(queue, a), NextNonce(pendingNonce, chain, a), Get(pending, a));
      TakenOk(pending, queue, all, a, rest, ready);
      queue := Set(queue, a, rest);
    }

    method PromoteRun(a: nat, ready: seq<Tx>, ghost items: Items, ghost first: nat)
      requires Valid() && Get(pending, a) == Plus(Get(pending, a), items, first)
      requires forall i | 0 <= i < |ready| :: ready[i].nonce == first + i
      requires forall i | 0 <= i < |ready| :: Promotable(ready[i], a, items, Get(pending, a), Get(queue, a), all)
      modifies this`pending, this`all, this`pendingNonce, priced
      ensures Valid() && all == old(all) && OthersKept(old(pending), queue, pending, queue, a)
      ensures Get(pending, a) == Plus(Get(old(pending), a), items, first + |ready|)
      ensures pendingNonce == if ready == [] then old(pendingNonce) else old(pendingNonce)[a := first + |ready|]
    {
      ghost var base := Get(pending, a);
      for i := 0 to |ready|
        invariant Valid() && all == old(all) && OthersKept(old(pending), queue, pending, queue, a)
        invariant pendingNonce == if i == 0 then old(pendingNonce) else old(pendingNonce)[a := first + i]
        invariant Get(pending, a) == Plus(base, items, first + i)
      {
        PromoteOne(a, ready[i], base, items);
      }
    }

    method PromoteOne(a: nat, tx: Tx, ghost base: Items, ghost items: Items)
      requires Valid() && Promotable(tx, a, items, base, Get(queue, a), all)
      requires Get(pending, a) == Plus(base, items, tx.nonce)
      modifies this`pending, this`all, this`pendingNonce, priced
      ensures Valid() && all == old(all) && OthersKept(old(pending), queue, pending, queue, a)
      ensures Get(pending, a) == Plus(base, items, tx.nonce + 1) && pendingNonce == old(pendingNonce)[a := tx.nonce + 1]
    {
      PlusIsUnder(base, items, tx.nonce);
      var ok := PromoteTx(a, tx);
    }

    /** promoteTx, for a transaction of account a that is not, or no longer, queued. */
    method PromoteTx(a: nat, tx: Tx) returns (ok: bool)
      requires Valid() && tx.from == a && tx.nonce !in Get(queue, a) && !In(pending, tx)
      modifies this`pending, this`all, this`pendingNonce, priced
      ensures Valid()
      ensures ok <==> tx.nonce in Get(old(pending), a) ==>
                Get(old(pending), a)[tx.nonce].price * (100 + priceBump) / 100 < tx.price
      ensures OthersKept(old(pending), queue, pending, queue, a)
      ensures Get(pending, a) == if ok then Get(old(pending), a)[tx.nonce := tx] else Get(old(pending), a)
      ensures pendingNonce == if ok then old(pendingNonce)[a := tx.nonce + 1] else old(pendingNonce)
      ensures var list := Get(old(pending), a);
              all == if !ok then old(all) - {tx}
                  else (if tx.nonce in list then old(all) - {list[tx.nonce]} else old(all)) + {tx}
    {
      var list := Get(pending, a);
      if tx.nonce in list && list[tx.nonce].price * (100 + priceBump) / 100 >= tx.price {
        RejectOk(pending, queue, all, tx);
        Forget({tx}, {});
        return false;
      }
      Enlist(tx);
      pendingNonce := pendingNonce[a := tx.nonce + 1];
      ok := true;
    }

    /** The transaction goes on the pending list, in place of one of its nonce, and is known to the pool. */
    method Enlist(tx: Tx)
      requires Valid() && tx.nonce !in Get(queue, tx.from) && !In(pending, tx)
      modifies this`pending, this`all, priced
      ensures Valid()
      ensures OthersKept(old(pending), queue, pending, queue, tx.from)
      ensures Get(pending, tx.from) == Get(old(pending), tx.from)[tx.nonce := tx]
      ensures var list := Get(old(pending), tx.from);
              all == (if tx.nonce in list then old(all) - {list[tx.nonce]} else old(all)) + {tx}
    {
      var list := Get(pending, tx.from);
      EnlistOk(pending, queue, all, tx);
      var gone := if tx.nonce in list then {list[tx.nonce]} else {};
      pending := Set(pending, tx.from, list[tx.nonce := tx]);
      Forget(gone, {});
      if tx !in all {
        all := all + {tx};
        priced.Put(tx);
      } else {
        assert all + {tx} == all;
      }
    }
  }

  lemma ShrinkQueueOk(pending: Lists, queue: Lists, all: set<Tx>, a: nat, keep: Items)
    requires PoolOk(pending, queue, all) && SubItems(keep, Get(queue, a))
    ensures PoolOk(pending, Set(queue, a, keep), all - Lost(Get(queue, a), keep))
    ensures Get(Set(queue, a, keep), a) == keep && Set(queue, a, keep) - {a} == queue - {a}
  {
    AccountOk(pending, queue, all, a);
    SetGet(queue, a, keep);
    ChangeQueueOk(pending, queue, all, a, keep, all - Lost(Get(queue, a), keep));
  }

  lemma ShrinkPendingOk(pending: Lists, queue: Lists, all: set<Tx>, a: nat, keep: Items, gone: set<Tx>)
    requires PoolOk(pending, queue, all) && SubItems(keep, Get(pending, a)) && gone <= Lost(Get(pending, a), keep)
    ensures PoolOk(Set(pending, a, keep), queue, all - gone)
    ensures Get(Set(pending, a, keep), a) == keep && Set(pending, a, keep) - {a} == pending - {a}
  {
    AccountOk(pending, queue, all, a);
    SetGet(pending, a, keep);
    ChangePendingOk(pending, queue, all, a, keep, all - gone);
  }

  lemma EnqueueOk(pending: Lists, queue: Lists, all: set<Tx>, tx: Tx)
    requires PoolOk(pending, queue, all) && tx.nonce !in Get(pending, tx.from)
    ensures var list := Get(queue, tx.from);
            var gone := if tx.nonce in list then {list[tx.nonce]} else {};
            var after := Set(queue, tx.from, list[tx.nonce := tx]);
            && PoolOk(pending, after, all - gone + {tx})
            && Get(after, tx.from) == list[tx.nonce := tx] && after - {tx.from} == queue - {tx.from}
  {
    var list := Get(queue, tx.from);
    var gone := if tx.nonce in list then {list[tx.nonce]} else {};
    AccountOk(pending, queue, all, tx.from);
    SetGet(queue, tx.from, list[tx.nonce := tx]);
    ChangeQueueOk(pending, queue, all, tx.from, list[tx.nonce := tx], all - gone + {tx});
  }

  lemma RemovePendingOk(pending: Lists, queue: Lists, all: set<Tx>, tx: Tx)
    requires PoolOk(pending, queue, all) && tx.nonce in Get(pending, tx.from)
    ensures var a, list, keep := tx.from, Get(pending, tx.from), Under(Get(pending, tx.from), tx.nonce);
            && Remaining(true, list, Exactly(tx.nonce)) == keep
            && PoolOk(Set(pending, a, keep), queue, all - {tx})
            && Get(Set(pending, a, keep), a) == keep && Set(pending, a, keep) - {a} == pending - {a}
            && Own(From(list, tx.nonce + 1), a)
            && forall n | n in From(list, tx.nonce + 1) :: n !in keep && n !in Get(queue, a) && list[n] in all - {tx}
  {
    var a, list, keep := tx.from, Get(pending, tx.from), Under(Get(pending, tx.from), tx.nonce);
    AccountOk(pending, queue, all, a);
    assert Exactly(tx.nonce)(list[tx.nonce]);
    SetGet(pending, a, keep);
    ChangePendingOk(pending, queue, all, a, keep, all - {tx});
  }

  lemma RemoveQueuedOk(pending: Lists, queue: Lists, all: set<Tx>, tx: Tx)
    requires PoolOk(pending, queue, all) && tx.nonce !in Get(pending, tx.from)
    ensures var q := if tx.from in queue then Set(queue, tx.from, queue[tx.from] - {tx.nonce}) else queue;
            && PoolOk(pending, q, all - {tx})
            && q - {tx.from} == queue - {tx.from} && Get(q, tx.from) == Get(queue, tx.from) - {tx.nonce}
  {
    var a := tx.from;
    var left := Get(queue, a) - {tx.nonce};
    AccountOk(pending, queue, all, a);
    SetGet(queue, a, left);
    ChangeQueueOk(pending, queue, all, a, left, all - {tx});
    if a !in queue {
      SameOk(pending, Set(queue, a, left), all - {tx}, pending, queue);
    }
  }

  /** A transaction that is not on the pending list, but whose nonce is, can be forgotten. */
  lemma RejectOk(pending: Lists, queue: Lists, all: set<Tx>, tx: Tx)
    requires PoolOk(pending, queue, all) && tx.nonce in Get(pending, tx.from) && Get(pending, tx.from)[tx.nonce] != tx
    ensures PoolOk(pending, queue, all - {tx})
  {
    AccountOk(pending, queue, all, tx.from);
    ChangePendingOk(pending, queue, all, tx.from, Get(pending, tx.from), all - {tx});
    SetGet(pending, tx.from, Get(pending, tx.from));
    SameOk(Set(pending, tx.from, Get(pending, tx.from)), queue, all - {tx}, pending, queue);
  }

  /** A transaction at a nonce that is not queued joins the pending list, in place of the one there. */
  lemma EnlistOk(pending: Lists, queue: Lists, all: set<Tx>, tx: Tx)
    requires PoolOk(pending, queue, all) && tx.nonce !in Get(queue, tx.from)
    ensures var list := Get(pending, tx.from);
            var gone := if tx.nonce in list then {list[tx.nonce]} else {};
            var after := Set(pending, tx.from, list[tx.nonce := tx]);
            && PoolOk(after, queue, all - gone + {tx})
            && Get(after, tx.from) == list[tx.nonce := tx] && after - {tx.from} == pending - {tx.from}
  {
    var list := Get(pending, tx.from);
    var gone := if tx.nonce in list then {list[tx.nonce]} else {};
    AccountOk(pending, queue, all, tx.from);
    SetGet(pending, tx.from, list[tx.nonce := tx]);
    ChangePendingOk(pending, queue, all, tx.from, list[tx.nonce := tx], all - gone + {tx});
  }

  /** The part of a list whose nonces are not in `todo`. */
  ghost function Part(items: Items, todo: set<nat>): Items {
    map n | n in items && n !in todo :: items[n]
  }

  lemma PartStep(base: Items, back: Items, todo: set<nat>, n: nat)
    requires n in todo && n in back && n !in base
    ensures n !in base + Part(back, todo)
    ensures base + Part(back, todo - {n}) == (base + Part(back, todo))[n := back[n]]
  {
  }

  /** The executable run of a queue: its transactions, and what is left from nonce `cut` on. */
  method TakeRun(items: Items, start: nat, ghost base: Items)
    returns (rest: Items, ready: seq<Tx>, ghost first: nat, ghost cut: nat)
    requires Keyed(items)
    ensures ReadyCut(items, start, cut) && rest == From(items, cut) && cut == first + |ready|
    ensures ready == [] <==> cut == 0
    ensures forall i | 0 <= i < |ready| :: ready[i].nonce == first + i
    ensures forall i | 0 <= i < |ready| :: ready[i].nonce in items && items[ready[i].nonce] == ready[i]
              && ready[i].nonce !in rest
    ensures Plus(base, items, first) == base
  {
    rest, ready := TakeReady(items, start);
    first := if ready == [] then 0 else ready[0].nonce;
    cut := first + |ready|;
    RunIsUnder(items, ready, start, cut);
    PlusIsUnder(base, items, first);
  }

  lemma RunIsUnder(items: Items, ready: seq<Tx>, start: nat, cut: nat)
    requires Keyed(items) && (ready == []) == (forall n | n in items :: n > start)
    requires ready == [] ==> cut == 0
    requires ready != [] ==>
               var first := ready[0].nonce;
               && first <= start && (forall n | n in items :: first <= n) && cut == first + |ready| && cut !in items
               && (forall i | 0 <= i < |ready| ::
                  ready[i].nonce == first + i && ready[i].nonce in items && items[ready[i].nonce] == ready[i])
    ensures ReadyCut(items, start, cut)
    ensures ready == [] ==> From(items, cut) == items && Under(items, cut) == map[]
    ensures ready != [] ==>
              Under(items, ready[0].nonce) == map[] && forall n: nat | ready[0].nonce <= n < cut :: n in items
  {
    if ready != [] {
      var first := ready[0].nonce;
      forall n: nat | first <= n < cut ensures n in items {
        assert ready[n - first].nonce == n;
      }
      assert first in items && cut - 1 in items;
    }
  }

  /** Taking a run off the queue leaves its transactions known and on neither list. */
  lemma TakenOk(pending: Lists, queue: Lists, all: set<Tx>, a: nat, rest: Items, ready: seq<Tx>)
    requires PoolOk(pending, queue, all) && SubItems(rest, Get(queue, a))
    requires forall i | 0 <= i < |ready| :: ready[i].nonce in Get(queue, a)
              && Get(queue, a)[ready[i].nonce] == ready[i] && ready[i].nonce !in rest
    ensures PoolOk(pending, Set(queue, a, rest), all)
    ensures Get(Set(queue, a, rest), a) == rest && Set(queue, a, rest) - {a} == queue - {a}
    ensures forall i | 0 <= i < |ready| :: Promotable(ready[i], a, Get(queue, a), Get(pending, a), rest, all)
  {
    AccountOk(pending, queue, all, a);
    SetGet(queue, a, rest);
    ChangeQueueOk(pending, queue, all, a, rest, all);
  }

  /** tx is a transaction of account a, known to the pool and on neither list. */
  ghost predicate Promotable(tx: Tx, a: nat, items: Items, base: Items, queued: Items, all: set<Tx>) {
    && tx.from == a && tx in all && tx.nonce in items && items[tx.nonce] == tx
    && tx.nonce !in base && tx.nonce !in queued
  }

  /** A pending list and the queued nonces below n. */
  ghost function Plus(base: Items, items: Items, n: nat): Items {
    if n == 0 then base
    else if n - 1 in items then Plus(base, items, n - 1)[n - 1 := items[n - 1]]
    else Plus(base, items, n - 1)
  }

  lemma {:induction false} PlusIsUnder(base: Items, items: Items, n: nat)
    ensures Plus(base, items, n) == base + Under(items, n)
  {
    if n > 0 {
      PlusIsUnder(base, items, n - 1);
    }
  }

}
