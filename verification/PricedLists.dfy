/**
  txPricedList (core/tx_list.go): a heap of the pool's transactions by price that
  is cleaned lazily. Entries of transactions no longer in the pool are stale;
  as long as every transaction of the pool has an entry, the lazy answers are
  those of a full scan of the pool.
 */
module PricedLists {
  import opened BinaryHeaps
  import opened SortedMaps

  const PriceKey: Tx -> int := (tx: Tx) => tx.price

  /** Every transaction of the pool has a price point. */
  ghost predicate Covers(items: seq<Tx>, all: set<Tx>) {
    forall tx | tx in all :: tx in items
  }

  /** Live and not protected as local. */
  ghost predicate Remote(tx: Tx, all: set<Tx>, local: set<nat>) {
    tx in all && tx.from !in local
  }

  method PushAll(items: seq<Tx>, txs: seq<Tx>) returns (r: seq<Tx>)
    requires IsHeap(PriceKey, items)
    ensures IsHeap(PriceKey, r) && forall tx :: tx in r <==> tx in items || tx in txs
  {
    r := items;
    for i := 0 to |txs|
      invariant IsHeap(PriceKey, r) && forall tx :: tx in r <==> tx in items || tx in txs[..i]
    {
      ghost var before := r;
      r := Push(PriceKey, r, txs[i]);
      PushedOne(before, r, txs[i]);
    }
  }

  lemma PushedOne(before: seq<Tx>, r: seq<Tx>, x: Tx)
    requires multiset(r) == multiset(before) + multiset{x}
    ensures forall tx :: tx in r <==> tx in before || tx == x
  {
    forall tx ensures tx in r <==> tx in before || tx == x {
      assert tx in r <==> tx in multiset(r);
      assert tx in before <==> tx in multiset(before);
    }
  }

  /** What is on the heap before a pop is what was popped and what is on it after. */
  lemma PoppedOne(before: seq<Tx>, items: seq<Tx>, x: Tx)
    requires multiset(items) + multiset{x} == multiset(before)
    ensures forall tx :: tx in before <==> tx in items || tx == x
  {
    assert multiset(items) + multiset{x} == multiset(before);
    PushedOne(items, before, x);
  }

  /** A fresh heap of the whole pool. */
  method Reheap(all: set<Tx>) returns (items: seq<Tx>)
    ensures IsHeap(PriceKey, items) && multiset(items) == multiset(all) && forall tx :: tx in items <==> tx in all
  {
    items := [];
    var todo := all;
    while todo != {}
      invariant todo <= all && multiset(items) == multiset(all - todo)
      invariant forall tx :: tx in items <==> tx in all && tx !in todo
      decreases todo
    {
      var tx :| tx in todo;
      assert all - (todo - {tx}) == (all - todo) + {tx};
      todo := todo - {tx};
      items := items + [tx];
    }
    assert all - todo == all;
    ghost var before := items;
    items := Heapify(PriceKey, items);
    forall tx ensures tx in items <==> tx in before {
      assert tx in items <==> tx in multiset(items);
      assert tx in before <==> tx in multiset(before);
    }
  }

  class PricedList {
    var items: seq<Tx>
    var stales: int

    ghost predicate Valid()
      reads this
    {
      IsHeap(PriceKey, items)
    }

    constructor ()
      ensures Valid() && items == []
    {
      items, stales := [], 0;
    }

    method Put(tx: Tx)
      requires Valid()
      modifies this
      ensures Valid() && multiset(items) == multiset(old(items)) + multiset{tx} && stales == old(stales)
      ensures forall x :: x in items <==> x in old(items) || x == tx
    {
      items := Push(PriceKey, items, tx);
      PushedOne(old(items), items, tx);
    }

    /** A transaction has left the pool `all`: count it stale, and start afresh when a quarter is. */
    method Removed(all: set<Tx>)
      requires Valid()
      modifies this
      ensures Valid()
      ensures if old(stales) + 1 <= |old(items)| / 4 then items == old(items) && stales == old(stales) + 1
              else stales == 0 && multiset(items) == multiset(all) && forall tx :: tx in items <==> tx in all
    {
      stales := stales + 1;
      if stales <= |items| / 4 {
        return;
      }
      stales := 0;
      items := Reheap(all);
    }

    /** Removes all remote transactions below the threshold and returns them. */
    method Cap(all: set<Tx>, threshold: nat, local: set<nat>) returns (drop: seq<Tx>)
      requires Valid()
      modifies this
      ensures Valid()
      ensures forall tx | tx in drop :: Remote(tx, all, local) && tx.price < threshold
      ensures forall tx | tx in items && Remote(tx, all, local) :: tx.price >= threshold
      ensures forall tx | tx in old(items) && tx in all :: tx in items || tx in drop
      ensures forall tx | tx in items :: tx in old(items)
    {
      var save;
      drop, save := [], [];
      while |items| > 0
        invariant Valid()
        invariant forall tx | tx in drop :: Remote(tx, all, local) && tx.price < threshold
        invariant forall tx | tx in save :: tx in all && tx.from in local && tx in old(items)
        invariant forall tx | tx in old(items) && tx in all :: tx in items || tx in drop || tx in save
        invariant forall tx | tx in items :: tx in old(items)
        decreases |items|
      {
        ghost var before := items;
        var tx;
        tx, items := Pop(PriceKey, items);
        PoppedOne(before, items, tx);
        if tx !in all {
          stales := stales - 1;
          continue;
        }
        if tx.price >= threshold {
          save := save + [tx];
          break;
        }
        if tx.from in local {
          save := save + [tx];
        } else {
          drop := drop + [tx];
        }
      }
      items := PushAll(items, save);
    }

    /**
      Whether a transaction is no dearer than the cheapest of the pool. Stale
      entries at the top of the heap go; the answer is that of a full scan.
     */
    method Underpriced(all: set<Tx>, tx: Tx, local: set<nat>) returns (r: bool)
      requires Valid() && Covers(items, all)
      modifies this
      ensures Valid() && Covers(items, all)
      ensures r <==> tx.from !in local && all != {} && forall x | x in all :: x.price >= tx.price
    {
      if tx.from in local {
        return false;
      }
      while |items| > 0 && items[0] !in all
        invariant Valid() && Covers(items, all)
        decreases |items|
      {
        ghost var before := items;
        stales := stales - 1;
        var head;
        head, items := Pop(PriceKey, items);
        PoppedOne(before, items, head);
      }
      if |items| == 0 {
        return false;
      }
      r := items[0].price >= tx.price;
      CheapestIsTop(items, all);
    }

    /**
      Takes the cheapest remote transactions off the heap, up to `count` of
      them: no local one, and none while a cheaper remote one stays.
     */
    method Discard(all: set<Tx>, count: int, local: set<nat>) returns (drop: seq<Tx>)
      requires Valid()
      modifies this
      ensures Valid()
      ensures forall tx | tx in drop :: Remote(tx, all, local) && tx in old(items)
      ensures forall d, tx | d in drop && tx in items && Remote(tx, all, local) :: d.price <= tx.price
      ensures |drop| <= if count > 0 then count else 0
      ensures |drop| < count ==> forall tx | tx in items :: !Remote(tx, all, local)
      ensures forall tx | tx in old(items) && tx in all :: tx in items || tx in drop
      ensures forall tx | tx in items :: tx in old(items)
    {
      var save, left := [], count;
      drop := [];
      while |items| > 0 && left > 0
        invariant Valid()
        invariant left == count - |drop| && (drop != [] ==> left >= 0)
        invariant forall tx | tx in drop :: Remote(tx, all, local) && tx in old(items)
        invariant forall d, tx | d in drop && tx in items :: d.price <= tx.price
        invariant forall tx | tx in save :: tx in all && tx.from in local && tx in old(items)
        invariant forall tx | tx in old(items) && tx in all :: tx in items || tx in drop || tx in save
        invariant forall tx | tx in items :: tx in old(items)
        decreases |items|
      {
        ghost var before := items;
        var tx;
        tx, items := Pop(PriceKey, items);
        PoppedOne(before, items, tx);
        if tx !in all {
          stales := stales - 1;
          continue;
        }
        if tx.from in local {
          save := save + [tx];
        } else {
          drop := drop + [tx];
          left := left - 1;
        }
      }
      items := PushAll(items, save);
    }
  }

  /** With stale entries off the top and every transaction on the heap, the top is the cheapest of the pool. */
  lemma CheapestIsTop(items: seq<Tx>, all: set<Tx>)
    requires IsHeap(PriceKey, items) && Covers(items, all) && |items| > 0 && items[0] in all
    ensures forall x | x in all :: items[0].price <= x.price
  {
    forall x | x in all ensures items[0].price <= x.price {
      var j :| 0 <= j < |items| && items[j] == x;
      RootIsLeast(PriceKey, items, j);
    }
  }
}
