/**
  txSortedMap (core/tx_list.go): transactions by nonce in a hash map, with a heap
  of nonces as index and a lazily built sorted cache. The three agree after
  every operation, so each operation is a simple cut of the map.
 */
module SortedMaps {
  import opened Options
  import opened BinaryHeaps

  datatype Kind = Normal | Pos | Privacy

  /**
    A pool transaction. `from` is its sender, `payload` the rest of it. A
    transaction stands for its own hash.
   */
  datatype Tx = Tx(from: nat, nonce: nat, price: nat, cost: nat, gas: nat, kind: Kind, payload: nat)

  type Items = map<nat, Tx>

  const Key: nat -> int := (n: nat) => n

  /** Every transaction sits under its own nonce. */
  ghost predicate Keyed(items: Items) {
    forall n | n in items :: items[n].nonce == n
  }

  /** s lists the transactions of the map by increasing nonce. */
  ghost predicate Sorts(s: seq<Tx>, items: Items) {
    && (forall i, j | 0 <= i < j < |s| :: s[i].nonce < s[j].nonce)
    && (forall i | 0 <= i < |s| :: s[i].nonce in items && items[s[i].nonce] == s[i])
    && (forall n | n in items :: Lists(s, n))
  }

  ghost predicate Lists(s: seq<Tx>, n: nat) {
    exists i :: 0 <= i < |s| && s[i].nonce == n
  }

  /** The index holds every nonce of the map once and nothing else. */
  ghost predicate Indexes(index: seq<nat>, items: Items) {
    forall n: nat :: multiset(index)[n] == if n in items then 1 else 0
  }

  function Under(items: Items, t: nat): Items {
    map n | n in items && n < t :: items[n]
  }

  function From(items: Items, t: nat): Items {
    map n | n in items && n >= t :: items[n]
  }

  // ---------- sorted lists ----------

  lemma {:induction false} SortsUnique(s: seq<Tx>, t: seq<Tx>, items: Items)
    requires Sorts(s, items) && Sorts(t, items)
    ensures s == t
    decreases |s|
  {
    if s == [] || t == [] {
      SortsEmpty(s, t, items);
    } else {
      SortsHead(s, t, items);
      SortsTail(s, items);
      SortsTail(t, items);
      SortsUnique(s[1..], t[1..], items - {s[0].nonce});
      Glue(s, t);
    }
  }

  lemma Glue(s: seq<Tx>, t: seq<Tx>)
    requires s != [] && t != [] && s[0] == t[0] && s[1..] == t[1..]
    ensures s == t
  {
    assert s == [s[0]] + s[1..];
    assert t == [t[0]] + t[1..];
  }

  lemma SortsEmpty(s: seq<Tx>, t: seq<Tx>, items: Items)
    requires Sorts(s, items) && Sorts(t, items) && (s == [] || t == [])
    ensures s == t
  {
    assert s != [] ==> s[0].nonce in items && Lists(t, s[0].nonce);
    assert t != [] ==> t[0].nonce in items && Lists(s, t[0].nonce);
  }

  lemma SortsHead(s: seq<Tx>, t: seq<Tx>, items: Items)
    requires Sorts(s, items) && Sorts(t, items) && s != [] && t != []
    ensures s[0] == t[0]
  {
    assert Lists(t, s[0].nonce) && Lists(s, t[0].nonce);
    var i :| 0 <= i < |t| && t[i].nonce == s[0].nonce;
    var j :| 0 <= j < |s| && s[j].nonce == t[0].nonce;
  }

  lemma SortsTail(s: seq<Tx>, items: Items)
    requires Sorts(s, items) && s != []
    ensures Sorts(s[1..], items - {s[0].nonce})
  {
    var rest := items - {s[0].nonce};
    forall n | n in rest ensures Lists(s[1..], n) {
      assert Lists(s, n);
      var i :| 0 <= i < |s| && s[i].nonce == n;
      assert s[1..][i - 1].nonce == n;
    }
  }

  /** Cutting a sorted list at position k cuts the map at the nonce there. */
  lemma SortsCut(s: seq<Tx>, items: Items, k: nat, t: nat)
    requires Sorts(s, items) && k <= |s|
    requires forall i | 0 <= i < k :: s[i].nonce < t
    requires forall i | k <= i < |s| :: s[i].nonce >= t
    ensures Sorts(s[..k], Under(items, t)) && Sorts(s[k..], From(items, t))
  {
    forall n | n in Under(items, t) ensures Lists(s[..k], n) {
      assert Lists(s, n);
      var i :| 0 <= i < |s| && s[i].nonce == n;
      assert s[..k][i].nonce == n;
    }
    forall n | n in From(items, t) ensures Lists(s[k..], n) {
      assert Lists(s, n);
      var i :| 0 <= i < |s| && s[i].nonce == n;
      assert s[k..][i - k].nonce == n;
    }
  }

  /** A sorted list of everything starts with the sorted list of what lies below t. */
  lemma SortsPrefix(s: seq<Tx>, items: Items, t: nat, low: seq<Tx>)
    requires Sorts(s, items) && Sorts(low, Under(items, t))
    ensures |low| <= |s| && s[..|low|] == low && Sorts(s[|low|..], From(items, t))
  {
    var k := Rank(s, t);
    SortsCut(s, items, k, t);
    SortsUnique(s[..k], low, Under(items, t));
  }

  ghost function Rank(s: seq<Tx>, t: nat): (k: nat)
    requires forall i, j | 0 <= i < j < |s| :: s[i].nonce < s[j].nonce
    ensures k <= |s|
    ensures forall i | 0 <= i < k :: s[i].nonce < t
    ensures forall i | k <= i < |s| :: s[i].nonce >= t
  {
    if s == [] then 0
    else if s[|s| - 1].nonce >= t then Rank(s[..|s| - 1], t)
    else |s|
  }

  // ---------- the index ----------

  lemma IndexHas(index: seq<nat>, items: Items, n: nat)
    requires Indexes(index, items)
    ensures n in index <==> n in items
  {
    assert n in index <==> n in multiset(index);
  }

  lemma IndexAdd(index: seq<nat>, index': seq<nat>, items: Items, tx: Tx)
    requires Indexes(index, items)
    requires tx.nonce !in items ==> multiset(index') == multiset(index) + multiset{tx.nonce}
    requires tx.nonce in items ==> index' == index
    ensures Indexes(index', items[tx.nonce := tx])
  {
    forall n: nat ensures multiset(index')[n] == if n in items[tx.nonce := tx] then 1 else 0 {
      assert multiset(index)[n] == if n in items then 1 else 0;
    }
  }

  lemma IndexDrop(index: seq<nat>, index': seq<nat>, items: Items, m: nat)
    requires Indexes(index, items) && multiset(index') + multiset{m} == multiset(index)
    ensures m in items && Indexes(index', items - {m})
  {
    assert (multiset(index') + multiset{m})[m] >= 1;
    forall n: nat ensures multiset(index')[n] == if n in items - {m} then 1 else 0 {
      assert multiset(index)[n] == if n in items then 1 else 0;
      assert multiset(index)[n] == (multiset(index') + multiset{m})[n];
    }
  }

  /** The index is as long as the map is large. */
  lemma {:induction false} IndexSize(index: seq<nat>, items: Items)
    requires Indexes(index, items)
    ensures |index| == |items|
    decreases |index|
  {
    if index == [] {
      assert forall n: nat :: n in items ==> multiset(index)[n] == 1;
      assert items == map[];
    } else {
      var m := index[|index| - 1];
      var front := index[..|index| - 1];
      assert index == front + [m];
      IndexDrop(index, front, items, m);
      IndexSize(front, items - {m});
      assert items.Keys == (items - {m}).Keys + {m};
    }
  }

  /** The top of the heap is the smallest nonce of the map. */
  lemma TopIsLeast(index: seq<nat>, items: Items)
    requires Indexes(index, items) && IsHeap(Key, index) && index != []
    ensures index[0] in items && forall n | n in items :: index[0] <= n
  {
    IndexHas(index, items, index[0]);
    forall n | n in items ensures index[0] <= n {
      IndexHas(index, items, n);
      var j :| 0 <= j < |index| && index[j] == n;
      RootIsLeast(Key, index, j);
    }
  }

  /** Moving the smallest remaining transaction to the removed ones. */
  lemma CutOne(all: Items, next: nat, nonce: nat, removed: seq<Tx>)
    requires Keyed(all) && next <= nonce && nonce in all
    requires forall n | n in From(all, next) :: nonce <= n
    requires removed != [] && removed[|removed| - 1] == all[nonce] && Sorts(removed[..|removed| - 1], Under(all, next))
    ensures From(all, next) - {nonce} == From(all, nonce + 1)
    ensures Sorts(removed, Under(all, nonce + 1))
  {
    var front := removed[..|removed| - 1];
    assert forall n | n in all && next <= n :: n in From(all, next);
    forall n | n in Under(all, nonce + 1) ensures Lists(removed, n) {
      if n == nonce {
        assert removed[|removed| - 1].nonce == n;
      } else {
        assert n in Under(all, next) && Lists(front, n);
        var i :| 0 <= i < |front| && front[i].nonce == n;
        assert removed[i].nonce == n;
      }
    }
    forall i, j | 0 <= i < j < |removed| ensures removed[i].nonce < removed[j].nonce {
      assert removed[i] == front[i];
    }
    forall i | 0 <= i < |removed|
      ensures removed[i].nonce in Under(all, nonce + 1) && Under(all, nonce + 1)[removed[i].nonce] == removed[i]
    {
      if i < |front| {
        assert removed[i] == front[i] && front[i].nonce in Under(all, next);
      }
    }
  }

  /** Once the top of the heap has reached the threshold, nothing below it is left. */
  lemma CutRest(all: Items, next: nat, threshold: nat, index: seq<nat>, items: Items)
    requires next <= threshold && items == From(all, next) && IsHeap(Key, index) && Indexes(index, items)
    requires index == [] || index[0] >= threshold
    ensures From(all, next) == From(all, threshold) && Under(all, next) == Under(all, threshold)
  {
    forall n | n in items ensures n >= threshold {
      IndexHas(index, items, n);
      if index != [] {
        TopIsLeast(index, items);
      }
    }
    assert forall n | n in all && next <= n :: n in From(all, next);
  }

  // ---------- the operations on values ----------

  /** The loop of Forward: pop nonces until the threshold is reached. */
  method PopBelow(index0: seq<nat>, all: Items, threshold: nat)
    returns (index: seq<nat>, items: Items, removed: seq<Tx>)
    requires Keyed(all) && IsHeap(Key, index0) && Indexes(index0, all)
    ensures IsHeap(Key, index) && Indexes(index, items)
    ensures items == From(all, threshold) && Sorts(removed, Under(all, threshold))
  {
    index, items, removed := index0, all, [];
    ghost var next: nat := 0;
    assert From(all, 0) == all && Under(all, 0) == map[];
    while |index| > 0 && index[0] < threshold
      invariant IsHeap(Key, index) && Indexes(index, items)
      invariant next <= threshold && items == From(all, next) && Sorts(removed, Under(all, next))
      decreases |index|
    {
      TopIsLeast(index, items);
      ghost var before := index;
      var nonce;
      nonce, index := Pop(Key, index);
      IndexDrop(before, index, items, nonce);
      removed := removed + [items[nonce]];
      items := items - {nonce};
      CutOne(all, next, nonce, removed);
      next := nonce + 1;
    }
    CutRest(all, next, threshold, index, items);
  }

  /** What a filter keeps. */
  function Kept(items: Items, f: Tx -> bool): Items {
    map n | n in items && !f(items[n]) :: items[n]
  }

  /** The transactions a filter takes out, each once, in any order. */
  ghost predicate TakenOut(removed: seq<Tx>, items: Items, f: Tx -> bool) {
    && (forall tx :: tx in removed <==> tx.nonce in items && items[tx.nonce] == tx && f(tx))
    && (forall i, j | 0 <= i < j < |removed| :: removed[i].nonce != removed[j].nonce)
  }

  method FilterItems(all: Items, f: Tx -> bool) returns (items: Items, removed: seq<Tx>)
    requires Keyed(all)
    ensures items == Kept(all, f) && TakenOut(removed, all, f)
  {
    items, removed := all, [];
    var todo := all.Keys;
    while todo != {}
      invariant todo <= all.Keys
      invariant items == map n | n in all && (n in todo || !f(all[n])) :: all[n]
      invariant forall tx :: tx in removed <==> tx.nonce in all && tx.nonce !in todo && all[tx.nonce] == tx && f(tx)
      invariant forall i, j | 0 <= i < j < |removed| :: removed[i].nonce != removed[j].nonce
      decreases todo
    {
      var nonce :| nonce in todo;
      todo := todo - {nonce};
      if f(all[nonce]) {
        assert forall i | 0 <= i < |removed| :: removed[i] in removed;
        removed := removed + [all[nonce]];
        items := items - {nonce};
      }
    }
  }

  method BuildIndex(items: Items) returns (index: seq<nat>)
    ensures IsHeap(Key, index) && Indexes(index, items)
  {
    index := [];
    var todo := items.Keys;
    while todo != {}
      invariant todo <= items.Keys
      invariant forall n: nat :: multiset(index)[n] == if n in items && n !in todo then 1 else 0
      decreases todo
    {
      var nonce :| nonce in todo;
      todo := todo - {nonce};
      index := index + [nonce];
    }
    index := Heapify(Key, index);
  }

  /** The nonces below position `size` of a sorted index. */
  ghost function LowestOf(all: Items, index: seq<nat>, size: nat): Items
    requires size <= |index|
  {
    if size < |index| then Under(all, index[size]) else all
  }

  /** The transactions from position `size` of the index on, highest first. */
  ghost predicate DropsOf(drops: seq<Tx>, all: Items, index: seq<nat>, size: nat)
    requires size <= |index|
  {
    && |drops| == |index| - size
    && (forall i | 0 <= i < |drops| :: drops[i].nonce == index[|index| - 1 - i])
    && (forall i | 0 <= i < |drops| :: drops[i].nonce in all && all[drops[i].nonce] == drops[i])
  }

  ghost predicate Increasing(index: seq<nat>) {
    forall i, j | 0 <= i < j < |index| :: index[i] < index[j]
  }

  /** The loop of Cap on a sorted index: drop the highest nonces down to the limit. */
  method DropTop(index: seq<nat>, all: Items, limit: nat) returns (items: Items, drops: seq<Tx>)
    requires Keyed(all) && Indexes(index, all) && limit < |index| && Increasing(index)
    ensures items == LowestOf(all, index, limit) && Indexes(index[..limit], items)
    ensures DropsOf(drops, all, index, limit)
  {
    items, drops := all, [];
    var size := |index|;
    assert index[..size] == index;
    while size > limit
      invariant limit <= size <= |index|
      invariant items == LowestOf(all, index, size) && Indexes(index[..size], items)
      invariant DropsOf(drops, all, index, size)
    {
      var top := index[size - 1];
      DropOne(index, all, items, size);
      DropsStep(drops, all, index, size);
      drops := drops + [items[top]];
      items := items - {top};
      size := size - 1;
    }
  }

  lemma DropsStep(drops: seq<Tx>, all: Items, index: seq<nat>, size: nat)
    requires Keyed(all) && 0 < size <= |index| && index[size - 1] in all && DropsOf(drops, all, index, size)
    ensures DropsOf(drops + [all[index[size - 1]]], all, index, size - 1)
  {
    var r := drops + [all[index[size - 1]]];
    forall i | 0 <= i < |r|
      ensures r[i].nonce == index[|index| - 1 - i] && r[i].nonce in all && all[r[i].nonce] == r[i]
    {
      if i < |drops| {
        assert r[i] == drops[i];
      }
    }
  }

  lemma DropOne(index: seq<nat>, all: Items, items: Items, size: nat)
    requires 0 < size <= |index| && Increasing(index)
    requires items == LowestOf(all, index, size) && Indexes(index[..size], items)
    ensures index[size - 1] in items && items - {index[size - 1]} == LowestOf(all, index, size - 1)
    ensures Indexes(index[..size - 1], items - {index[size - 1]})
    ensures index[size - 1] in all && items[index[size - 1]] == all[index[size - 1]]
  {
    var top := index[size - 1];
    assert index[..size] == index[..size - 1] + [top];
    IndexDrop(index[..size], index[..size - 1], items, top);
    forall n | n in items && n != top ensures n < top {
      IndexHas(index[..size - 1], items - {top}, n);
      var i :| 0 <= i < size - 1 && index[..size - 1][i] == n;
    }
  }

  /** Cap beyond its short circuit: sort the index, drop the top, restore the heap. */
  method CapItems(index0: seq<nat>, all: Items, limit: nat)
    returns (index: seq<nat>, items: Items, drops: seq<Tx>, ghost cut: nat)
    requires Keyed(all) && Indexes(index0, all) && limit < |index0|
    ensures IsHeap(Key, index) && Indexes(index, items) && |items| == limit
    ensures items == Under(all, cut) && Sorts(Reversed(drops), From(all, cut))
  {
    var sorted := Sort(Key, index0);
    StrictlySorted(index0, sorted, all);
    cut := sorted[limit];
    items, drops := DropTop(sorted, all, limit);
    DropsSort(sorted, all, limit, drops);
    IndexSize(sorted[..limit], items);
    index := Heapify(Key, sorted[..limit]);
  }

  /** A cached list loses the transactions that were dropped, from its end. */
  method TrimCache(cache: Option<seq<Tx>>, ghost all: Items, ghost cut: nat, drops: seq<Tx>)
    returns (r: Option<seq<Tx>>)
    requires cache.Some? ==> Sorts(cache.value, all)
    requires Sorts(Reversed(drops), From(all, cut))
    ensures r.Some? <==> cache.Some?
    ensures r.Some? ==> Sorts(r.value, Under(all, cut))
  {
    if cache.None? {
      return None;
    }
    CacheTop(cache.value, all, cut, drops);
    return Some(cache.value[..|cache.value| - |drops|]);
  }

  /** The loop of Ready: pop consecutive nonces from the smallest on. */
  method PopRun(index0: seq<nat>, all: Items) returns (index: seq<nat>, items: Items, ready: seq<Tx>)
    requires Keyed(all) && IsHeap(Key, index0) && Indexes(index0, all) && index0 != []
    ensures IsHeap(Key, index) && Indexes(index, items)
    ensures var next := index0[0] + |ready|;
            && ready != [] && items == From(all, next) && next !in all
            && forall i | 0 <= i < |ready| ::
               ready[i].nonce == index0[0] + i && ready[i].nonce in all && all[ready[i].nonce] == ready[i]
  {
    index, items, ready := index0, all, [];
    var first := index[0];
    var next := first;
    TopIsLeast(index, items);
    assert From(all, first) == all;
    while |index| > 0 && index[0] == next
      invariant IsHeap(Key, index) && Indexes(index, items)
      invariant next == first + |ready| && items == From(all, next)
      invariant forall i | 0 <= i < |ready| ::
                ready[i].nonce == first + i && ready[i].nonce in all && all[ready[i].nonce] == ready[i]
      invariant ready == [] ==> index == index0
      decreases |index|
    {
      TopIsLeast(index, items);
      ghost var before := index;
      ready := ready + [items[next]];
      var popped;
      popped, index := Pop(Key, index);
      IndexDrop(before, index, items, next);
      items := items - {next};
      assert From(all, next) - {next} == From(all, next + 1);
      next := next + 1;
    }
    if next in all {
      assert next in items;
      IndexHas(index, items, next);
      TopIsLeast(index, items);
    }
  }

  const NonceKey: Tx -> int := (tx: Tx) => tx.nonce

  /** A fresh sort of the map's transactions. */
  method SortItems(items: Items) returns (r: seq<Tx>)
    requires Keyed(items)
    ensures Sorts(r, items)
  {
    var txs: seq<Tx> := [];
    var todo := items.Keys;
    while todo != {}
      invariant todo <= items.Keys
      invariant forall tx :: tx in txs <==> tx.nonce in items && tx.nonce !in todo && items[tx.nonce] == tx
      invariant forall tx :: multiset(txs)[tx] <= 1
      decreases todo
    {
      var nonce :| nonce in todo;
      todo := todo - {nonce};
      assert items[nonce] !in txs;
      txs := txs + [items[nonce]];
    }
    r := Sort(NonceKey, txs);
    SortedIsSorts(txs, r, items);
  }

  lemma SortedIsSorts(txs: seq<Tx>, r: seq<Tx>, items: Items)
    requires Keyed(items) && multiset(r) == multiset(txs)
    requires forall tx :: tx in txs <==> tx.nonce in items && items[tx.nonce] == tx
    requires forall tx :: multiset(txs)[tx] <= 1
    requires forall i, j | 0 <= i < j < |r| :: NonceKey(r[i]) <= NonceKey(r[j])
    ensures Sorts(r, items)
  {
    forall tx ensures tx in r <==> tx in txs {
      assert tx in r <==> tx in multiset(r);
      assert tx in txs <==> tx in multiset(txs);
    }
    forall i, j | 0 <= i < j < |r| ensures r[i].nonce < r[j].nonce {
      assert r[i] in r && r[j] in r;
      if r[i].nonce == r[j].nonce {
        assert r[i] == r[j];
        Twice(r, i, j);
      }
    }
    forall n | n in items ensures Lists(r, n) {
      assert items[n] in txs;
      assert items[n] in r;
    }
    forall i | 0 <= i < |r| ensures r[i].nonce in items && items[r[i].nonce] == r[i] {
      assert r[i] in r;
    }
  }

  // ---------- the map ----------

  class SortedMap {
    var items: Items
    var index: seq<nat>
    var cache: Option<seq<Tx>>

    ghost predicate Valid()
      reads this
    {
      && Keyed(items)
      && IsHeap(Key, index) && Indexes(index, items)
      && (cache.Some? ==> Sorts(cache.value, items))
    }

    constructor ()
      ensures Valid() && items == map[]
    {
      items, index, cache := map[], [], None;
    }

    method Put(tx: Tx)
      requires Valid()
      modifies this
      ensures Valid() && items == old(items)[tx.nonce := tx]
    {
      if tx.nonce !in items {
        index := Push(Key, index, tx.nonce);
      }
      IndexAdd(old(index), index, items, tx);
      items, cache := items[tx.nonce := tx], None;
    }

    /** Removes everything below the threshold and returns it by increasing nonce. */
    method Forward(threshold: nat) returns (removed: seq<Tx>)
      requires Valid()
      modifies this
      ensures Valid() && items == From(old(items), threshold) && Sorts(removed, Under(old(items), threshold))
    {
      index, items, removed := PopBelow(index, items, threshold);
      if cache.Some? {
        SortsPrefix(cache.value, old(items), threshold, removed);
        cache := Some(cache.value[|removed|..]);
      }
    }

    /** Removes the transactions for which the filter holds. */
    method Filter(f: Tx -> bool) returns (removed: seq<Tx>)
      requires Valid()
      modifies this
      ensures Valid() && items == Kept(old(items), f) && TakenOut(removed, old(items), f)
    {
      items, removed := FilterItems(items, f);
      if |removed| > 0 {
        index := BuildIndex(items);
        cache := None;
      } else {
        NothingTaken(old(items), f, removed);
      }
    }

    /** Keeps the `limit` lowest nonces and returns the others, highest first. */
    method Cap(limit: nat) returns (drops: seq<Tx>, ghost cut: nat)
      requires Valid()
      modifies this
      ensures Valid() && items == Under(old(items), cut)
      ensures |items| == if |old(items)| <= limit then |old(items)| else limit
      ensures Sorts(Reversed(drops), From(old(items), cut))
    {
      if |items| <= limit {
        drops := [];
        cut := Beyond(items);
      } else {
        drops, cut := CutTop(limit);
      }
    }

    method CutTop(limit: nat) returns (drops: seq<Tx>, ghost cut: nat)
      requires Valid() && |items| > limit
      modifies this
      ensures Valid() && items == Under(old(items), cut) && |items| == limit
      ensures Sorts(Reversed(drops), From(old(items), cut))
    {
      IndexSize(index, items);
      index, items, drops, cut := CapItems(index, items, limit);
      KeyedUnder(old(items), cut);
      cache := TrimCache(cache, old(items), cut, drops);
    }

    method Remove(nonce: nat) returns (ok: bool)
      requires Valid()
      modifies this
      ensures Valid() && ok == (nonce in old(items)) && items == old(items) - {nonce}
    {
      if nonce !in items {
        return false;
      }
      IndexHas(index, items, nonce);
      var i := 0;
      while i < |index| && index[i] != nonce
        invariant 0 <= i <= |index| && nonce !in index[..i]
        invariant unchanged(this)
      {
        i := i + 1;
      }
      ghost var before := index;
      index := BinaryHeaps.Remove(Key, index, i);
      IndexDrop(before, index, items, nonce);
      items := items - {nonce};
      cache := None;
      return true;
    }

    /**
      The maximal run of consecutive nonces from the smallest one on, provided
      that one is not above `start`.
     */
    method Ready(start: nat) returns (ready: seq<Tx>)
      requires Valid()
      modifies this
      ensures Valid()
      ensures (ready == []) == (forall n | n in old(items) :: n > start)
      ensures ready == [] ==> items == old(items)
      ensures ready != [] ==>
                var first := ready[0].nonce;
                && first <= start && (forall n | n in old(items) :: first <= n)
                && (forall i | 0 <= i < |ready| ::
                   ready[i].nonce == first + i && ready[i].nonce in old(items) && old(items)[first + i] == ready[i])
                && first + |ready| !in old(items)
                && items == From(old(items), first + |ready|)
    {
      if |index| == 0 || index[0] > start {
        NoneReady(index, items, start);
        return [];
      }
      TopIsLeast(index, items);
      index, items, ready := PopRun(index, items);
      cache := None;
    }

    method Flatten() returns (txs: seq<Tx>)
      requires Valid()
      modifies this`cache
      ensures Valid() && Sorts(txs, items)
    {
      if cache.None? {
        var sorted := SortItems(items);
        cache := Some(sorted);
      }
      txs := cache.value;
    }
  }

  lemma KeyedUnder(items: Items, cut: nat)
    requires Keyed(items)
    ensures Keyed(Under(items, cut))
  {
  }

  lemma NothingTaken(items: Items, f: Tx -> bool, removed: seq<Tx>)
    requires Keyed(items) && TakenOut(removed, items, f) && removed == []
    ensures Kept(items, f) == items
  {
    forall n | n in items ensures !f(items[n]) {
      assert items[n] !in removed;
    }
  }

  lemma NoneReady(index: seq<nat>, items: Items, start: nat)
    requires IsHeap(Key, index) && Indexes(index, items) && (index == [] || index[0] > start)
    ensures forall n | n in items :: n > start
  {
    forall n | n in items ensures n > start {
      IndexHas(index, items, n);
      TopIsLeast(index, items);
    }
  }

  ghost function Reversed(s: seq<Tx>): seq<Tx> {
    seq(|s|, i requires 0 <= i < |s| => s[|s| - 1 - i])
  }

  /** A nonce above all those in the map, where cutting takes nothing off. */
  lemma {:induction false} Beyond(items: Items) returns (n: nat)
    ensures Under(items, n) == items && Sorts(Reversed([]), From(items, n))
    decreases |items|
  {
    if items == map[] {
      n := 0;
    } else {
      var m :| m in items;
      var rest := items - {m};
      assert items.Keys == rest.Keys + {m};
      n := Beyond(rest);
      assert forall k | k in items && k != m :: k in rest && k in Under(rest, n);
      n := if n > m then n else m + 1;
    }
    assert From(items, n) == map[];
  }

  lemma StrictlySorted(index: seq<nat>, sorted: seq<nat>, items: Items)
    requires Indexes(index, items) && multiset(sorted) == multiset(index)
    requires forall i, j | 0 <= i < j < |sorted| :: Key(sorted[i]) <= Key(sorted[j])
    ensures Indexes(sorted, items) && Increasing(sorted)
  {
    forall i, j | 0 <= i < j < |sorted| ensures sorted[i] < sorted[j] {
      if sorted[i] == sorted[j] {
        Twice(sorted, i, j);
      }
    }
  }

  /** The dropped transactions, turned round, are the sorted list of the high part. */
  lemma DropsSort(index: seq<nat>, all: Items, limit: nat, drops: seq<Tx>)
    requires Keyed(all) && Indexes(index, all) && limit < |index| && Increasing(index)
    requires DropsOf(drops, all, index, limit)
    ensures Sorts(Reversed(drops), From(all, index[limit]))
  {
    var r := Reversed(drops);
    assert forall i | 0 <= i < |r| :: r[i].nonce == index[limit + i];
    forall n | n in From(all, index[limit]) ensures Lists(r, n) {
      IndexHas(index, all, n);
      var i :| 0 <= i < |index| && index[i] == n;
      assert r[i - limit].nonce == n;
    }
  }

  lemma CacheTop(s: seq<Tx>, all: Items, cut: nat, drops: seq<Tx>)
    requires Sorts(s, all) && Sorts(Reversed(drops), From(all, cut))
    ensures |drops| <= |s| && Sorts(s[..|s| - |drops|], Under(all, cut))
  {
    var k := Rank(s, cut);
    SortsCut(s, all, k, cut);
    SortsUnique(s[k..], Reversed(drops), From(all, cut));
    assert |Reversed(drops)| == |drops|;
  }
}
