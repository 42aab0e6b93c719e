/**
  txList (core/tx_list.go): the transactions of one account. The cost and gas
  caps bound everything the balance filter looks at, so its short circuit never
  misses anything; and a list without nonce gaps stays that way under every
  removal when it is strict.
 */
module TxLists {
  import opened Options
  import opened SortedMaps

  const MAX_NONCE := 0xffff_ffff_ffff_ffff

  /** The filter of Filter: only normal and proof-of-stake transactions pay from the sender's balance. */
  predicate Exceeds(tx: Tx, costLimit: nat, gasLimit: nat) {
    tx.kind != Privacy && (tx.cost > costLimit || tx.gas > gasLimit)
  }

  function Exceeding(costLimit: nat, gasLimit: nat): Tx -> bool {
    (tx: Tx) => Exceeds(tx, costLimit, gasLimit)
  }

  function Above(nonce: nat): Tx -> bool {
    (tx: Tx) => tx.nonce > nonce
  }

  function Exactly(nonce: nat): Tx -> bool {
    (tx: Tx) => tx.nonce == nonce
  }

  ghost predicate Capped(items: Items, costcap: nat, gascap: nat) {
    forall n | n in items :: !Exceeds(items[n], costcap, gascap)
  }

  /** What is left when a strict list loses the transactions for which f holds and all above them. */
  function BelowAll(items: Items, f: Tx -> bool): Items {
    map n | n in items && (forall m | m in items && f(items[m]) :: n < m) :: items[n]
  }

  /** What an operation that removes the f-transactions leaves. */
  function Remaining(strict: bool, items: Items, f: Tx -> bool): Items {
    if strict then BelowAll(items, f) else Kept(items, f)
  }

  /** `removed` and `invalids` list, once each, what is gone: those for which f holds, and the rest. */
  ghost predicate Gone(removed: seq<Tx>, invalids: seq<Tx>, items: Items, left: Items, f: Tx -> bool) {
    && TakenOut(removed, items, f)
    && (forall tx :: tx in invalids <==> tx.nonce in items && items[tx.nonce] == tx && !f(tx) && tx.nonce !in left)
    && (forall i, j | 0 <= i < j < |invalids| :: invalids[i].nonce != invalids[j].nonce)
  }

  // ---------- gaps ----------

  ghost predicate GapFree(items: Items) {
    forall a, b: nat, c | a in items && c in items && a < b < c :: b in items
  }

  /** Every removal from a strict list, and the cuts at either end, keep a gap-free list gap-free. */
  lemma StaysGapFree(items: Items, f: Tx -> bool, t: nat)
    requires GapFree(items)
    ensures GapFree(BelowAll(items, f)) && GapFree(Under(items, t)) && GapFree(From(items, t))
  {
    var left := BelowAll(items, f);
    forall a, b: nat, c | a in left && c in left && a < b < c ensures b in left {
      assert b in items;
    }
  }

  // ---------- the loops ----------

  /** The smallest nonce of a non-empty list of transactions. */
  method LowestNonce(txs: seq<Tx>) returns (lowest: nat)
    requires txs != [] && forall tx | tx in txs :: tx.nonce <= MAX_NONCE
    ensures (exists tx :: tx in txs && tx.nonce == lowest) && forall tx | tx in txs :: lowest <= tx.nonce
  {
    lowest := MAX_NONCE;
    for i := 0 to |txs|
      invariant lowest <= MAX_NONCE && forall tx | tx in txs[..i] :: lowest <= tx.nonce
      invariant lowest == MAX_NONCE || exists tx :: tx in txs && tx.nonce == lowest
    {
      assert txs[i] in txs;
      if lowest > txs[i].nonce {
        lowest := txs[i].nonce;
      }
    }
    assert txs[..|txs|] == txs;
    assert txs[0] in txs;
  }

  // ---------- what the filters remove ----------

  /** Below every removed transaction is below the lowest of them. */
  lemma BelowLowest(items: Items, f: Tx -> bool, removed: seq<Tx>, lowest: nat, n: nat)
    requires Keyed(items) && TakenOut(removed, items, f) && n in items
    requires (exists tx :: tx in removed && tx.nonce == lowest) && forall tx | tx in removed :: lowest <= tx.nonce
    ensures n in BelowAll(items, f) <==> !f(items[n]) && n <= lowest
  {
    var low :| low in removed && low.nonce == lowest;
    if n < lowest {
      forall m | m in items && f(items[m]) ensures n < m {
        assert items[m] in removed;
      }
    }
  }

  lemma StrikeStrict(items: Items, f: Tx -> bool, removed: seq<Tx>, lowest: nat, invalids: seq<Tx>)
    requires Keyed(items) && TakenOut(removed, items, f)
    requires (exists tx :: tx in removed && tx.nonce == lowest) && forall tx | tx in removed :: lowest <= tx.nonce
    requires TakenOut(invalids, Kept(items, f), Above(lowest))
    ensures Kept(Kept(items, f), Above(lowest)) == BelowAll(items, f)
    ensures Gone(removed, invalids, items, BelowAll(items, f), f)
  {
    var left := BelowAll(items, f);
    forall n | n in items ensures n in left <==> !f(items[n]) && n <= lowest {
      BelowLowest(items, f, removed, lowest, n);
    }
    StrikeCut(items, left, f, lowest);
    StrikeGone(items, left, f, removed, lowest, invalids);
  }

  lemma StrikeCut(items: Items, left: Items, f: Tx -> bool, lowest: nat)
    requires Keyed(items) && forall n | n in left :: n in items && left[n] == items[n]
    requires forall n | n in items :: n in left <==> !f(items[n]) && n <= lowest
    ensures Kept(Kept(items, f), Above(lowest)) == left
  {
  }

  lemma StrikeGone(items: Items, left: Items, f: Tx -> bool, removed: seq<Tx>, lowest: nat, invalids: seq<Tx>)
    requires Keyed(items) && TakenOut(removed, items, f) && TakenOut(invalids, Kept(items, f), Above(lowest))
    requires forall n | n in items :: n in left <==> !f(items[n]) && n <= lowest
    ensures Gone(removed, invalids, items, left, f)
  {
  }

  lemma StrikeNone(items: Items, f: Tx -> bool, removed: seq<Tx>, strict: bool)
    requires Keyed(items) && TakenOut(removed, items, f) && (!strict || removed == [])
    ensures Kept(items, f) == Remaining(strict, items, f)
    ensures Gone(removed, [], items, Kept(items, f), f)
  {
    if strict {
      forall n | n in items ensures !f(items[n]) {
        assert items[n] !in removed;
      }
    }
  }

  lemma NothingExceeds(items: Items, costcap: nat, gascap: nat, costLimit: nat, gasLimit: nat, strict: bool)
    requires Capped(items, costcap, gascap) && costcap <= costLimit && gascap <= gasLimit
    ensures Capped(items, costLimit, gasLimit)
    ensures Remaining(strict, items, Exceeding(costLimit, gasLimit)) == items
    ensures Gone([], [], items, items, Exceeding(costLimit, gasLimit))
  {
    forall n | n in items ensures !Exceeds(items[n], costLimit, gasLimit) {
      assert !Exceeds(items[n], costcap, gascap);
    }
  }

  lemma RemainingCapped(strict: bool, items: Items, costLimit: nat, gasLimit: nat)
    requires Keyed(items)
    ensures Capped(Remaining(strict, items, Exceeding(costLimit, gasLimit)), costLimit, gasLimit)
  {
  }

  lemma GoneIsGone(strict: bool, items: Items, f: Tx -> bool, removed: seq<Tx>, invalids: seq<Tx>)
    requires Keyed(items) && Gone(removed, invalids, items, Remaining(strict, items, f), f)
    ensures forall tx :: tx in removed + invalids <==>
              tx.nonce in items && items[tx.nonce] == tx && tx.nonce !in Remaining(strict, items, f)
  {
  }

  lemma RemovedOne(strict: bool, items: Items, nonce: nat, invalids: seq<Tx>)
    requires Keyed(items) && nonce in items
    requires if strict then TakenOut(invalids, items - {nonce}, Above(nonce)) else invalids == []
    ensures Remaining(strict, items, Exactly(nonce)) ==
              if strict then Kept(items - {nonce}, Above(nonce)) else items - {nonce}
    ensures forall x :: x in invalids <==>
              x.nonce in items && items[x.nonce] == x && x.nonce != nonce
                  && x.nonce !in Remaining(strict, items, Exactly(nonce))
  {
    assert Exactly(nonce)(items[nonce]);
  }

  class TxList {
    const strict: bool
    const txs: SortedMap
    var costcap: nat
    var gascap: nat

    ghost predicate Valid()
      reads this, txs
    {
      && txs.Valid()
      && (forall n | n in txs.items :: n <= MAX_NONCE)
      && Capped(txs.items, costcap, gascap)
    }

    constructor (strict: bool)
      ensures Valid() && fresh(txs) && this.strict == strict && txs.items == map[]
    {
      this.strict := strict;
      txs := new SortedMap();
      costcap, gascap := 0, 0;
    }

    /** A transaction replaces one of the same nonce only if it pays enough more. */
    method Add(tx: Tx, priceBump: nat) returns (ok: bool, replaced: Option<Tx>)
      requires Valid() && tx.nonce <= MAX_NONCE
      modifies this, txs
      ensures Valid()
      ensures ok <==> tx.nonce in old(txs.items) ==> old(txs.items)[tx.nonce].price * (100 + priceBump) / 100 < tx.price
      ensures txs.items == if ok then old(txs.items)[tx.nonce := tx] else old(txs.items)
      ensures replaced == if ok && tx.nonce in old(txs.items) then Some(old(txs.items)[tx.nonce]) else None
    {
      replaced := None;
      if tx.nonce in txs.items {
        var threshold := txs.items[tx.nonce].price * (100 + priceBump) / 100;
        if threshold >= tx.price {
          return false, None;
        }
        replaced := Some(txs.items[tx.nonce]);
      }
      txs.Put(tx);
      if costcap < tx.cost {
        costcap := tx.cost;
      }
      if gascap < tx.gas {
        gascap := tx.gas;
      }
      ok := true;
    }

    method Forward(threshold: nat) returns (removed: seq<Tx>)
      requires Valid()
      modifies txs
      ensures Valid() && txs.items == From(old(txs.items), threshold)
                && Sorts(removed, Under(old(txs.items), threshold))
    {
      removed := txs.Forward(threshold);
    }

    /** The part common to all filters: remove, and in a strict list everything above too. */
    method Strike(f: Tx -> bool) returns (removed: seq<Tx>, invalids: seq<Tx>)
      requires txs.Valid() && forall n | n in txs.items :: n <= MAX_NONCE
      modifies txs
      ensures txs.Valid() && txs.items == Remaining(strict, old(txs.items), f)
      ensures Gone(removed, invalids, old(txs.items), txs.items, f)
    {
      ghost var all := txs.items;
      removed := txs.Filter(f);
      invalids := [];
      if strict && |removed| > 0 {
        var lowest := LowestNonce(removed);
        invalids := txs.Filter(Above(lowest));
        StrikeStrict(all, f, removed, lowest, invalids);
      } else {
        StrikeNone(all, f, removed, strict);
      }
    }

    /** The balance filter, with its short circuit: what it removes does not depend on the caps. */
    method Filter(costLimit: nat, gasLimit: nat) returns (removed: seq<Tx>, invalids: seq<Tx>)
      requires Valid()
      modifies this, txs
      ensures Valid()
      ensures txs.items == Remaining(strict, old(txs.items), Exceeding(costLimit, gasLimit))
      ensures Gone(removed, invalids, old(txs.items), txs.items, Exceeding(costLimit, gasLimit))
    {
      if costcap <= costLimit && gascap <= gasLimit {
        NothingExceeds(txs.items, costcap, gascap, costLimit, gasLimit, strict);
        return [], [];
      }
      costcap := costLimit;
      gascap := gasLimit;
      RemainingCapped(strict, txs.items, costLimit, gasLimit);
      removed, invalids := Strike(Exceeding(costLimit, gasLimit));
    }

    /** InvalidPrivacyTx, InvalidPosRBTx and InvalidPosELTx, which differ in the validity test only. */
    method Invalid(bad: Tx -> bool) returns (dropped: seq<Tx>)
      requires Valid()
      modifies txs
      ensures Valid() && txs.items == Remaining(strict, old(txs.items), bad)
      ensures forall tx :: tx in dropped <==>
                tx.nonce in old(txs.items) && old(txs.items)[tx.nonce] == tx && tx.nonce !in txs.items
    {
      var removed, invalids := Strike(bad);
      dropped := removed + invalids;
      GoneIsGone(strict, old(txs.items), bad, removed, invalids);
    }

    method Cap(limit: nat) returns (drops: seq<Tx>, ghost cut: nat)
      requires Valid()
      modifies txs
      ensures Valid() && txs.items == Under(old(txs.items), cut)
      ensures |txs.items| == if |old(txs.items)| <= limit then |old(txs.items)| else limit
      ensures Sorts(Reversed(drops), From(old(txs.items), cut))
    {
      drops, cut := txs.Cap(limit);
    }

    method Remove(tx: Tx) returns (ok: bool, invalids: seq<Tx>)
      requires Valid()
      modifies txs
      ensures Valid() && ok == (tx.nonce in old(txs.items))
      ensures txs.items == if ok then Remaining(strict, old(txs.items), Exactly(tx.nonce)) else old(txs.items)
      ensures forall x :: x in invalids <==>
                && ok && x.nonce in old(txs.items) && old(txs.items)[x.nonce] == x && x.nonce != tx.nonce
                && x.nonce !in txs.items
    {
      ghost var all := txs.items;
      ok := txs.Remove(tx.nonce);
      invalids := [];
      if !ok {
        return;
      }
      if strict {
        invalids := txs.Filter(Above(tx.nonce));
      }
      RemovedOne(strict, all, tx.nonce, invalids);
    }
  }
}
