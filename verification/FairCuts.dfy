/**
  The pending overflow cut of promoteExecutables (core/tx_pool.go): while the
  pool holds more pending transactions than its slots, the longest remote lists
  lose their highest nonces. The outcome is water-filling: all cut lists end at
  one common level.
 */
module FairCuts {
  import opened SortedMaps
  import opened AccountLists

  // ---------- totals ----------

  ghost function Pick(m: Lists): (a: nat)
    requires m != map[]
    ensures a in m
  {
    var a :| a in m;
    a
  }

  ghost function Total(m: Lists): nat
    decreases |m|
  {
    if m == map[] then 0 else
      assert m.Keys == (m - {Pick(m)}).Keys + {Pick(m)};
      |m[Pick(m)]| + Total(m - {Pick(m)})
  }

  lemma {:induction false} TotalTake(m: Lists, a: nat)
    requires a in m
    ensures Total(m) == |m[a]| + Total(m - {a})
    decreases |m|
  {
    var b := Pick(m);
    SizeWithout(m, a);
    SizeWithout(m, b);
    if a != b {
      TotalTake(m - {b}, a);
      TotalTake(m - {a}, b);
      WithoutBoth(m, a, b);
    }
  }

  lemma SizeWithout(m: Lists, a: nat)
    requires a in m
    ensures |m - {a}| == |m| - 1
  {
    assert m.Keys == (m - {a}).Keys + {a};
  }

  lemma WithoutBoth(m: Lists, a: nat, b: nat)
    ensures m - {a} - {b} == m - {b} - {a}
  {
  }

  lemma TotalUpdate(m: Lists, a: nat, items: Items)
    requires a in m
    ensures Total(m[a := items]) == Total(m) - |m[a]| + |items|
  {
    TotalTake(m, a);
    TotalTake(m[a := items], a);
    assert m[a := items] - {a} == m - {a};
  }

  method CountAll(m: Lists) returns (total: nat)
    ensures total == Total(m)
  {
    total := 0;
    var rest := m;
    while rest != map[]
      invariant total + Total(rest) == Total(m)
      decreases |rest|
    {
      var a :| a in rest;
      TotalTake(rest, a);
      assert rest.Keys == (rest - {a}).Keys + {a};
      total := total + |rest[a]|;
      rest := rest - {a};
    }
  }

  // ---------- one list ----------

  /** `items` are the n lowest nonces of `all`. */
  ghost predicate Lowest(items: Items, all: Items, n: nat) {
    |items| == n && exists cut: nat :: items == Under(all, cut)
  }

  lemma LowestTwice(items: Items, mid: Items, all: Items, n: nat, m: nat)
    requires Lowest(items, mid, n) && Lowest(mid, all, m)
    ensures Lowest(items, all, n)
  {
    var a: nat :| items == Under(mid, a);
    var b: nat :| mid == Under(all, b);
    assert items == Under(all, if a < b then a else b);
  }

  /** Cap(Len - 1): the list without its highest nonce. */
  method CapOne(items: Items) returns (r: Items, tx: Tx)
    requires Keyed(items) && items != map[]
    ensures Lowest(r, items, |items| - 1) && tx.nonce in items && items[tx.nonce] == tx && r == items - {tx.nonce}
  {
    var top :| top in items;
    var todo := items.Keys - {top};
    while todo != {}
      invariant top in items && todo <= items.Keys && forall n | n in items && n !in todo :: n <= top
      decreases todo
    {
      var n :| n in todo;
      todo := todo - {n};
      if n > top {
        top := n;
      }
    }
    tx := items[top];
    r := items - {top};
    assert r == Under(items, top);
    assert items.Keys == r.Keys + {top};
  }

  // ---------- one round ----------

  /** `dropped` lists what the lists have lost. */
  ghost predicate Dropped(dropped: seq<Tx>, before: Lists, now: Lists) {
    && (forall tx :: In(before, tx) <==> In(now, tx) || tx in dropped)
    && (forall tx | tx in dropped :: !In(now, tx))
  }

  lemma DropMore(dropped: seq<Tx>, before: Lists, now: Lists, a: nat, items: Items, tx: Tx)
    requires Sits(now) && Dropped(dropped, before, now) && a in now
    requires tx.nonce in now[a] && now[a][tx.nonce] == tx && items == now[a] - {tx.nonce}
    ensures Sits(now[a := items]) && Dropped(dropped + [tx], before, now[a := items])
  {
    var next := now[a := items];
    assert Own(Get(now, a), a);
    forall b: nat ensures Own(Get(next, b), b) {
      if b != a {
        assert Own(Get(now, b), b);
      }
    }
    forall x ensures In(now, x) <==> In(next, x) || x == tx {
    }
  }

  ghost predicate Distinct(s: seq<nat>) {
    forall i, j | 0 <= i < j < |s| :: s[i] != s[j]
  }

  /** The first m offenders are down to a common level, all other lists are as they were. */
  ghost predicate Level(before: Lists, now: Lists, off: seq<nat>, m: nat, level: nat) {
    && m <= |off| && Distinct(off) && now.Keys == before.Keys
    && (forall i | 0 <= i < |off| :: off[i] in before)
    && (forall i | 0 <= i < m :: level <= |before[off[i]]| && Lowest(now[off[i]], before[off[i]], level))
    && (forall a | a in before && a !in off[..m] :: now[a] == before[a])
  }

  /** Part of a round: the first i offenders are one below the level. */
  ghost predicate Stepping(now0: Lists, now: Lists, off: seq<nat>, i: nat, level: nat)
    requires i <= |off| && level >= 1
  {
    && now.Keys == now0.Keys
    && (forall j | 0 <= j < i :: off[j] in now0 && Lowest(now[off[j]], now0[off[j]], level - 1))
    && (forall a | a in now0 && a !in off[..i] :: now[a] == now0[a])
  }

  lemma SteppingMore(now0: Lists, now: Lists, off: seq<nat>, i: nat, level: nat, items: Items)
    requires i < |off| && level >= 1 && Distinct(off) && Stepping(now0, now, off, i, level)
    requires off[i] in now0 && Lowest(items, now0[off[i]], level - 1)
    ensures off[i] !in off[..i] && Stepping(now0, now[off[i] := items], off, i + 1, level)
  {
    assert off[..i + 1] == off[..i] + [off[i]];
  }

  lemma SteppedDown(before: Lists, now0: Lists, now: Lists, off: seq<nat>, m: nat, level: nat)
    requires Level(before, now0, off, m, level) && level >= 1 && Stepping(now0, now, off, m, level)
    ensures Level(before, now, off, m, level - 1)
  {
    forall i | 0 <= i < m ensures Lowest(now[off[i]], before[off[i]], level - 1) {
      LowestTwice(now[off[i]], now0[off[i]], before[off[i]], level - 1, level);
    }
  }

  /** One round: each of the first m offenders loses its highest nonce. */
  method Round(ghost before: Lists, now0: Lists, off: seq<nat>, m: nat, ghost level: nat)
    returns (now: Lists, dropped: seq<Tx>)
    requires Level(before, now0, off, m, level) && level >= 1 && Sits(now0)
    ensures Level(before, now, off, m, level - 1) && Sits(now)
    ensures Total(now) == Total(now0) - m
    ensures Dropped(dropped, now0, now)
  {
    now, dropped := now0, [];
    for i := 0 to m
      invariant Stepping(now0, now, off, i, level) && Sits(now)
      invariant Total(now) == Total(now0) - i
      invariant Dropped(dropped, now0, now)
    {
      var a := off[i];
      assert Own(Get(now, a), a);
      var items, tx := CapOne(now[a]);
      SteppingMore(now0, now, off, i, level, items);
      TotalUpdate(now, a, items);
      DropMore(dropped, now0, now, a, items, tx);
      now := now[a := items];
      dropped := dropped + [tx];
    }
    SteppedDown(before, now0, now, off, m, level);
  }

  // ---------- rounds until the level or the limit is reached ----------

  lemma DroppedTwice(d: seq<Tx>, e: seq<Tx>, a: Lists, b: Lists, c: Lists)
    requires Dropped(d, a, b) && Dropped(e, b, c)
    ensures Dropped(d + e, a, c)
  {
  }

  /** Reduce the first m offenders until the total fits or they are down to `floor`. */
  method Lower(ghost before: Lists, now0: Lists, off: seq<nat>, m: nat, ghost level0: nat, total0: nat, slots: nat,
      floor: nat)
    returns (now: Lists, total: nat, dropped: seq<Tx>, ghost level: nat)
    requires 1 <= m && Level(before, now0, off, m, level0) && Sits(now0) && total0 == Total(now0) && floor <= level0
    ensures Level(before, now, off, m, level) && Sits(now) && total == Total(now) && floor <= level <= level0
    ensures Dropped(dropped, now0, now)
    ensures total <= slots || level == floor
    ensures level < level0 ==> total + m > slots
    ensures level == level0 ==> now == now0
  {
    now, total, dropped, level := now0, total0, [], level0;
    while total > slots && |now[off[m - 1]]| > floor
      invariant Level(before, now, off, m, level) && Sits(now) && total == Total(now) && floor <= level <= level0
      invariant Dropped(dropped, now0, now)
      invariant level < level0 ==> total + m > slots
      invariant level == level0 ==> now == now0
      decreases level
    {
      var next, more := Round(before, now, off, m, level);
      DroppedTwice(dropped, more, now0, now, next);
      now, dropped, level, total := next, dropped + more, level - 1, total - m;
    }
  }

  // ---------- the cut ----------

  predicate Spams(m: Lists, locals: set<nat>, accountSlots: nat, a: nat) {
    a in m && a !in locals && |m[a]| > accountSlots
  }

  /** The longest of some lists, as the priority queue hands it out. */
  method PopLongest(m: Lists, spammers: set<nat>) returns (a: nat)
    requires spammers != {} && forall b | b in spammers :: b in m
    ensures a in spammers && forall b | b in spammers :: |m[b]| <= |m[a]|
  {
    a :| a in spammers;
    var todo := spammers - {a};
    while todo != {}
      invariant a in spammers && todo <= spammers && forall b | b in spammers && b !in todo :: |m[b]| <= |m[a]|
      decreases todo
    {
      var b :| b in todo;
      todo := todo - {b};
      if |m[b]| > |m[a]| {
        a := b;
      }
    }
  }

  /** Every remote list above the account's slots is cut to its lowest c nonces, every other one is untouched. */
  ghost predicate WaterFilled(before: Lists, now: Lists, locals: set<nat>, accountSlots: nat, c: nat) {
    && now.Keys == before.Keys
    && forall a | a in before ::
         if Spams(before, locals, accountSlots, a) && |before[a]| > c then Lowest(now[a], before[a], c)
         else now[a] == before[a]
  }

  /** The accounts that lost transactions. */
  ghost function CutAccounts(before: Lists, now: Lists): set<nat> {
    set a | a in before && a in now && |now[a]| < |before[a]|
  }

  /** The state of the cut: `off` are the offenders so far, of which the first m are at the common level. */
  ghost predicate Filling(before: Lists, now: Lists, locals: set<nat>, accountSlots: nat,
                          off: seq<nat>, m: nat, level: nat, spammers: set<nat>) {
    && Level(before, now, off, m, level)
    && (forall a | Spams(before, locals, accountSlots, a) :: a in off || a in spammers)
    && (forall a | a in off || a in spammers :: Spams(before, locals, accountSlots, a))
    && (forall a | a in spammers || a in off[m..] :: a !in off[..m] && |before[a]| <= level)
  }

  lemma FillingIsWater(before: Lists, now: Lists, locals: set<nat>, accountSlots: nat,
                       off: seq<nat>, m: nat, level: nat, spammers: set<nat>)
    requires Filling(before, now, locals, accountSlots, off, m, level, spammers)
    ensures WaterFilled(before, now, locals, accountSlots, level)
  {
    assert off == off[..m] + off[m..];
    forall a | a in before
      ensures if Spams(before, locals, accountSlots, a) && |before[a]| > level then Lowest(now[a], before[a], level)
              else now[a] == before[a]
    {
      if a in off[..m] {
        var i :| 0 <= i < m && off[i] == a;
        if |before[a]| == level {
          LowestAll(now[a], before[a]);
        }
      }
    }
  }

  lemma LowestAll(items: Items, all: Items)
    requires Lowest(items, all, |all|)
    ensures items == all
  {
    assert items.Keys <= all.Keys;
    SubsetSize(items.Keys, all.Keys);
  }

  lemma SubsetSize(a: set<nat>, b: set<nat>)
    requires a <= b && |a| == |b|
    ensures a == b
  {
    assert b == a + (b - a);
  }

  lemma LowestSelf(all: Items)
    ensures Lowest(all, all, |all|)
  {
    var n := Beyond(all);
  }

  /** Since the last round, which cut the first k offenders, the total is above the limit less k. */
  ghost predicate CutOk(before: Lists, now: Lists, off: seq<nat>, level: nat, k: nat, slots: nat) {
    now == before ||
    (k <= |off| && Total(now) + k > slots && forall i | 0 <= i < k :: Shortened(before, now, off[i], level))
  }

  ghost predicate Shortened(before: Lists, now: Lists, a: nat, level: nat) {
    a in before && a in now && |now[a]| <= level < |before[a]|
  }

  lemma {:induction false} DistinctSize(off: seq<nat>, k: nat, s: set<nat>)
    requires Distinct(off) && k <= |off| && forall i | 0 <= i < k :: off[i] in s
    ensures |s| >= k
    decreases k
  {
    if k > 0 {
      DistinctSize(off, k - 1, s - {off[k - 1]});
    }
  }

  lemma CutTotal(before: Lists, now: Lists, off: seq<nat>, level: nat, k: nat, slots: nat)
    requires CutOk(before, now, off, level, k, slots) && Distinct(off)
    ensures now != before ==> Total(now) + |CutAccounts(before, now)| > slots
  {
    if now != before {
      forall i | 0 <= i < k ensures off[i] in CutAccounts(before, now) {
        assert Shortened(before, now, off[i], level);
      }
      DistinctSize(off, k, CutAccounts(before, now));
    }
  }

  /** The next offender joins: the others come down to its length, or as far as needed. */
  method Join(ghost before: Lists, now0: Lists, ghost locals: set<nat>, ghost accountSlots: nat, off0: seq<nat>,
              ghost level0: nat, ghost spammers0: set<nat>, a: nat, total0: nat, slots: nat, ghost k0: nat)
    returns (now: Lists, total: nat, dropped: seq<Tx>, ghost m: nat, ghost level: nat, ghost k: nat)
    requires Filling(before, now0, locals, accountSlots, off0, |off0|, level0, spammers0) && Sits(now0) && off0 != []
    requires a in spammers0 && forall b | b in spammers0 :: |before[b]| <= |before[a]|
    requires total0 == Total(now0) && CutOk(before, now0, off0, level0, k0, slots)
    ensures Filling(before, now, locals, accountSlots, off0 + [a], m, level, spammers0 - {a}) && Sits(now)
    ensures total == Total(now) && Dropped(dropped, now0, now)
    ensures m == |off0| + 1 || total <= slots
    ensures level >= |before[a]| && 1 <= m <= |off0| + 1
    ensures CutOk(before, now, off0 + [a], level, k, slots)
  {
    var off := off0 + [a];
    m := |off0|;
    assert off[..m] == off0[..m] == off0;
    assert now0[a] == before[a];
    assert Level(before, now0, off, m, level0);
    now, total, dropped, level := Lower(before, now0, off, |off0|, level0, total0, slots, |now0[a]|);
    k := if level < level0 then m else k0;
    CutKept(before, now0, now, off0, off, m, level0, level, k0, slots);
    if level == |before[a]| {
      LevelAll(before, now, off, m, level);
      m := m + 1;
    }
    FillingJoin(before, now0, now, locals, accountSlots, off0, a, m, level0, level, spammers0);
  }

  lemma CutKept(before: Lists, now0: Lists, now: Lists, off0: seq<nat>, off: seq<nat>, m: nat, level0: nat, level: nat,
      k0: nat, slots: nat)
    requires off0 <= off && m <= |off| && Level(before, now0, off, m, level0) && Level(before, now, off, m, level)
    requires CutOk(before, now0, off0, level0, k0, slots) && level <= level0
    requires level < level0 ==> Total(now) + m > slots
    requires level == level0 ==> now == now0
    ensures CutOk(before, now, off, level, if level < level0 then m else k0, slots)
  {
    if level < level0 {
      forall i | 0 <= i < m ensures Shortened(before, now, off[i], level) {
      }
    } else if now0 != before {
      forall i | 0 <= i < k0 ensures Shortened(before, now, off[i], level) {
        assert Shortened(before, now0, off0[i], level0);
      }
    }
  }

  /** An offender whose length is the level belongs to the levelled ones. */
  lemma LevelAll(before: Lists, now: Lists, off: seq<nat>, m: nat, level: nat)
    requires Level(before, now, off, m, level) && m == |off| - 1 && |before[off[m]]| == level
    ensures Level(before, now, off, m + 1, level)
  {
    assert off[m] !in off[..m];
    LowestSelf(before[off[m]]);
    assert off[..m + 1] == off[..m] + [off[m]];
  }

  lemma FillingJoin(before: Lists, now0: Lists, now: Lists, locals: set<nat>, accountSlots: nat, off0: seq<nat>, a: nat,
                    m: nat, level0: nat, level: nat, spammers0: set<nat>)
    requires Filling(before, now0, locals, accountSlots, off0, |off0|, level0, spammers0)
    requires a in spammers0 && forall b | b in spammers0 :: |before[b]| <= |before[a]|
    requires |off0| <= m <= |off0| + 1 && Level(before, now, off0 + [a], m, level) && level >= |before[a]|
    ensures Filling(before, now, locals, accountSlots, off0 + [a], m, level, spammers0 - {a})
  {
    var off := off0 + [a];
    assert off0[..|off0|] == off0;
    forall b | b in spammers0 - {a} || b in off[m..] ensures b !in off[..m] && |before[b]| <= level {
      if b in off[m..] {
        assert m == |off0| && off[m..] == [a] && off[..m] == off0;
      }
    }
  }

  /** How far the gathering of offenders has come. */
  ghost predicate Gathering(before: Lists, now: Lists, locals: set<nat>, accountSlots: nat, slots: nat, total: nat,
                            off: seq<nat>, m: nat, level: nat, waiting: set<nat>, k: nat) {
    && (off == [] ==>
          && now == before && total > slots && m == 0
          && waiting == set a | a in before && Spams(before, locals, accountSlots, a))
    && (off != [] ==> Filling(before, now, locals, accountSlots, off, m, level, waiting) && level > accountSlots)
    && Sits(now) && total == Total(now) && (m == |off| || total <= slots)
    && CutOk(before, now, off, level, k, slots)
  }

  /** Pop offenders, longest first, until the total fits or none is left. */
  method Gather(before: Lists, locals: set<nat>, accountSlots: nat, slots: nat)
    returns (now: Lists, total: nat, dropped: seq<Tx>, off: seq<nat>, ghost m: nat, ghost level: nat,
             ghost spammers: set<nat>, ghost k: nat)
    requires Sits(before) && Total(before) > slots
    ensures Filling(before, now, locals, accountSlots, off, m, level, spammers) && Sits(now)
    ensures total == Total(now) && Dropped(dropped, before, now)
    ensures total <= slots || (spammers == {} && m == |off|)
    ensures off == [] ==> now == before && spammers == {}
    ensures off != [] ==> level > accountSlots
    ensures CutOk(before, now, off, level, k, slots)
  {
    total := CountAll(before);
    var waiting := set a | a in before && Spams(before, locals, accountSlots, a);
    now, dropped, off, m, level, k := before, [], [], 0, accountSlots, 0;
    while total > slots && waiting != {}
      invariant Gathering(before, now, locals, accountSlots, slots, total, off, m, level, waiting, k)
      invariant Dropped(dropped, before, now)
      decreases waiting
    {
      var a := PopLongest(before, waiting);
      var next, more;
      next, total, more, m, level, k :=
        Offend(before, now, locals, accountSlots, slots, total, off, m, level, waiting, a, k);
      DroppedTwice(dropped, more, before, now, next);
      now, dropped, off, waiting := next, dropped + more, off + [a], waiting - {a};
    }
    spammers := waiting;
  }

  /** One more offender: the first only sets the level, the others join it. */
  method Offend(before: Lists, now0: Lists, ghost locals: set<nat>, ghost accountSlots: nat, slots: nat, total0: nat,
                off0: seq<nat>, ghost m0: nat, ghost level0: nat, ghost waiting: set<nat>, a: nat, ghost k0: nat)
    returns (now: Lists, total: nat, dropped: seq<Tx>, ghost m: nat, ghost level: nat, ghost k: nat)
    requires Gathering(before, now0, locals, accountSlots, slots, total0, off0, m0, level0, waiting, k0)
    requires total0 > slots
    requires a in waiting && a in before && forall b | b in waiting :: b in before && |before[b]| <= |before[a]|
    ensures Gathering(before, now, locals, accountSlots, slots, total, off0 + [a], m, level, waiting - {a}, k)
    ensures Dropped(dropped, now0, now)
  {
    if off0 == [] {
      now, total, dropped, m, level, k := now0, total0, [], 1, |before[a]|, k0;
      FirstOffender(before, locals, accountSlots, a, waiting);
      assert off0 + [a] == [a];
    } else {
      now, total, dropped, m, level, k :=
        Join(before, now0, locals, accountSlots, off0, level0, waiting, a, total0, slots, k0);
    }
  }

  lemma FirstOffender(before: Lists, locals: set<nat>, accountSlots: nat, a: nat, spammers: set<nat>)
    requires spammers == set b | b in before && Spams(before, locals, accountSlots, b)
    requires a in spammers && forall b | b in spammers :: |before[b]| <= |before[a]|
    ensures Filling(before, before, locals, accountSlots, [a], 1, |before[a]|, spammers - {a})
  {
    LowestSelf(before[a]);
    assert [a][..1] == [a];
  }

  /**
    The cut. There is a level c, not below the account's slots, at which all cut
    lists end; afterwards the total fits, or c is the account's slots; and if
    anything was cut, the total stays above the limit less the number of cut
    accounts.
   */
  method Equalize(before: Lists, locals: set<nat>, accountSlots: nat, slots: nat)
    returns (now: Lists, dropped: seq<Tx>, ghost c: nat)
    requires Sits(before)
    ensures Sits(now) && Dropped(dropped, before, now)
    ensures WaterFilled(before, now, locals, accountSlots, c) && c >= accountSlots
    ensures Total(before) <= slots ==> now == before
    ensures Total(now) <= slots || c == accountSlots
    ensures now != before ==> Total(now) + |CutAccounts(before, now)| > slots
  {
    var pending := CountAll(before);
    now, dropped, c := before, [], accountSlots;
    if pending <= slots {
      c := accountSlots + pending;
      NoneLonger(before, c);
      return;
    }
    var total, off;
    ghost var m, level, spammers, k;
    now, total, dropped, off, m, level, spammers, k := Gather(before, locals, accountSlots, slots);
    if off == [] {
      assert forall a :: !Spams(before, locals, accountSlots, a);
      return;
    }
    c := level;
    if total > slots {
      var next, more;
      next, total, more, c := Lower(before, now, off, |off|, level, total, slots, accountSlots);
      DroppedTwice(dropped, more, before, now, next);
      CutKept(before, now, next, off, off, |off|, level, c, k, slots);
      k := if c < level then |off| else k;
      now, dropped := next, dropped + more;
    }
    FillingIsWater(before, now, locals, accountSlots, off, m, c, spammers);
    CutTotal(before, now, off, c, k, slots);
  }

  lemma NoneLonger(m: Lists, c: nat)
    requires Total(m) <= c
    ensures forall a | a in m :: |m[a]| <= c
  {
    forall a | a in m ensures |m[a]| <= c {
      TotalTake(m, a);
    }
  }
}
