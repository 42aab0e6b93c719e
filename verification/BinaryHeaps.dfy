/**
  Binary heaps in the form of Go's container/heap, which core/tx_list.go uses
  for its nonce and price indexes: an array ordered by `key`, smallest first,
  kept in order by swapping elements up and down.
 */
module BinaryHeaps {
  function Parent(j: nat): nat
    requires j > 0
  {
    (j - 1) / 2
  }

  ghost predicate Below<T>(key: T -> int, h: seq<T>, j: nat)
    requires 0 < j < |h|
  {
    key(h[Parent(j)]) <= key(h[j])
  }

  ghost predicate IsHeap<T>(key: T -> int, h: seq<T>) {
    forall j | 0 < j < |h| :: Below(key, h, j)
  }

  lemma {:induction false} RootIsLeast<T>(key: T -> int, h: seq<T>, j: nat)
    requires IsHeap(key, h) && j < |h|
    ensures key(h[0]) <= key(h[j])
    decreases j
  {
    if j > 0 {
      assert Below(key, h, j);
      RootIsLeast(key, h, Parent(j));
    }
  }

  function Swap<T>(h: seq<T>, i: nat, j: nat): (r: seq<T>)
    requires i < |h| && j < |h|
    ensures |r| == |h| && r[i] == h[j] && r[j] == h[i]
    ensures forall l | 0 <= l < |h| && l != i && l != j :: r[l] == h[l]
    ensures multiset(r) == multiset(h)
  {
    h[i := h[j]][j := h[i]]
  }

  /** heap.up: element j0 may be too small for its place. */
  method Up<T>(key: T -> int, h0: seq<T>, j0: nat) returns (h: seq<T>)
    requires j0 < |h0|
    requires forall j | 0 < j < |h0| && j != j0 :: Below(key, h0, j)
    requires forall j | 0 < j < |h0| && j0 > 0 && Parent(j) == j0 :: key(h0[Parent(j0)]) <= key(h0[j])
    ensures IsHeap(key, h) && |h| == |h0| && multiset(h) == multiset(h0)
  {
    h := h0;
    var j := j0;
    while j > 0 && key(h[j]) < key(h[Parent(j)])
      invariant j < |h| == |h0| && multiset(h) == multiset(h0)
      invariant forall l | 0 < l < |h| && l != j :: Below(key, h, l)
      invariant forall l | 0 < l < |h| && j > 0 && Parent(l) == j :: key(h[Parent(j)]) <= key(h[l])
    {
      ghost var g, i0 := h, j;
      h := Swap(h, Parent(j), j);
      j := Parent(j);
      UpStep(key, g, i0);
    }
  }

  /** Swapping an element with its larger parent moves the only disorder to the parent's place. */
  lemma UpStep<T>(key: T -> int, h: seq<T>, j: nat)
    requires 0 < j < |h| && key(h[j]) < key(h[Parent(j)])
    requires forall l | 0 < l < |h| && l != j :: Below(key, h, l)
    requires forall l | 0 < l < |h| && Parent(l) == j :: key(h[Parent(j)]) <= key(h[l])
    ensures var r, i := Swap(h, Parent(j), j), Parent(j);
            && (forall l | 0 < l < |h| && l != i :: Below(key, r, l))
            && (forall l | 0 < l < |h| && i > 0 && Parent(l) == i :: key(r[Parent(i)]) <= key(r[l]))
  {
    var r, i := Swap(h, Parent(j), j), Parent(j);
    forall l | 0 < l < |h| && l != i ensures Below(key, r, l) {
      assert l != j ==> Below(key, h, l);
    }
    forall l | 0 < l < |h| && i > 0 && Parent(l) == i ensures key(r[Parent(i)]) <= key(r[l]) {
      assert Below(key, h, i);
      assert l != j ==> Below(key, h, l);
    }
  }

  /** The order below `lo`, but for element i0's relation to its parent. */
  ghost predicate OrderedFrom<T>(key: T -> int, h: seq<T>, lo: nat, i0: nat) {
    forall j | 0 < j < |h| && Parent(j) >= lo && j != i0 :: Below(key, h, j)
  }

  /** Element i, which started at i0, may be too large for its place; everything else from `lo` on is in order. */
  ghost predicate Sinking<T>(key: T -> int, h: seq<T>, lo: nat, i0: nat, i: nat) {
    && (forall j | 0 < j < |h| && Parent(j) >= lo && j != i0 && Parent(j) != i :: Below(key, h, j))
    && (forall j | 0 < j < |h| && Parent(j) == i > 0 && Parent(i) >= lo :: key(h[Parent(i)]) <= key(h[j]))
    && (i0 < i < |h| && i0 > 0 && Parent(i0) >= lo ==> Below(key, h, i0))
  }

  /** heap.down: element i0 may be too large for its place. */
  method Down<T>(key: T -> int, h0: seq<T>, i0: nat, ghost lo: nat) returns (h: seq<T>, moved: bool)
    requires lo <= i0 && Sinking(key, h0, lo, i0, i0)
    ensures |h| == |h0| && multiset(h) == multiset(h0) && OrderedFrom(key, h, lo, i0)
    ensures moved ==> i0 < |h| && (i0 > 0 && Parent(i0) >= lo ==> Below(key, h, i0))
    ensures !moved ==> h == h0
  {
    h := h0;
    var i, n := i0, |h0|;
    while 2 * i + 1 < n
      invariant i0 <= i && |h| == n && multiset(h) == multiset(h0)
      invariant Sinking(key, h, lo, i0, i)
      invariant i == i0 ==> h == h0
      invariant i > i0 ==> i < n
      decreases n - i
    {
      var j := 2 * i + 1;
      if j + 1 < n && key(h[j + 1]) < key(h[j]) {
        j := j + 1;
      }
      assert forall l | 0 < l < |h| && Parent(l) == i :: key(h[j]) <= key(h[l]);
      if key(h[j]) >= key(h[i]) {
        break;
      }
      DownStep(key, h, i0, lo, i, j);
      h := Swap(h, i, j);
      i := j;
    }
    Settled(key, h, lo, i0, i);
    moved := i > i0;
  }

  /** An element no larger than its children is in place. */
  lemma Settled<T>(key: T -> int, h: seq<T>, lo: nat, i0: nat, i: nat)
    requires Sinking(key, h, lo, i0, i)
    requires forall j | 0 < j < |h| && Parent(j) == i :: key(h[i]) <= key(h[j])
    ensures OrderedFrom(key, h, lo, i0)
  {
    forall j | 0 < j < |h| && Parent(j) >= lo && j != i0 ensures Below(key, h, j) {
      assert Parent(j) != i ==> Below(key, h, j);
    }
  }

  /** Swapping an element with its smaller child moves the disorder to the child's place. */
  lemma DownStep<T>(key: T -> int, h: seq<T>, i0: nat, lo: nat, i: nat, c: nat)
    requires lo <= i0 <= i < c < |h| && Parent(c) == i && Sinking(key, h, lo, i0, i)
    requires key(h[c]) < key(h[i]) && forall j | 0 < j < |h| && Parent(j) == i :: key(h[c]) <= key(h[j])
    ensures Sinking(key, Swap(h, i, c), lo, i0, c)
  {
    var r := Swap(h, i, c);
    forall j | 0 < j < |r| && Parent(j) >= lo && j != i0 && Parent(j) != c ensures Below(key, r, j) {
      assert Parent(j) != i ==> Below(key, h, j);
    }
    forall j | 0 < j < |r| && Parent(j) == c ensures key(r[Parent(c)]) <= key(r[j]) {
      assert Below(key, h, j);
    }
  }

  method Push<T>(key: T -> int, h0: seq<T>, x: T) returns (h: seq<T>)
    requires IsHeap(key, h0)
    ensures IsHeap(key, h) && multiset(h) == multiset(h0) + multiset{x} && |h| == |h0| + 1
  {
    var g := h0 + [x];
    forall j | 0 < j < |h0| ensures Below(key, g, j) {
      assert Below(key, h0, j);
    }
    h := Up(key, g, |h0|);
  }

  method Pop<T>(key: T -> int, h0: seq<T>) returns (x: T, h: seq<T>)
    requires IsHeap(key, h0) && |h0| > 0
    ensures IsHeap(key, h) && multiset(h) + multiset{x} == multiset(h0) && |h| == |h0| - 1
    ensures x == h0[0] && forall y | y in h0 :: key(x) <= key(y)
  {
    var n := |h0| - 1;
    x := h0[0];
    var g := Swap(h0, 0, n)[..n];
    assert Swap(h0, 0, n) == g + [x];
    forall j | 0 < j < n && Parent(j) != 0 ensures Below(key, g, j) {
      assert Below(key, h0, j);
    }
    var moved;
    h, moved := Down(key, g, 0, 0);
    forall y | y in h0 ensures key(x) <= key(y) {
      var j :| 0 <= j < |h0| && h0[j] == y;
      RootIsLeast(key, h0, j);
    }
  }

  method Remove<T>(key: T -> int, h0: seq<T>, i: nat) returns (h: seq<T>)
    requires IsHeap(key, h0) && i < |h0|
    ensures IsHeap(key, h) && multiset(h) + multiset{h0[i]} == multiset(h0) && |h| == |h0| - 1
  {
    var n := |h0| - 1;
    var g := Swap(h0, i, n)[..n];
    assert Swap(h0, i, n) == g + [h0[i]];
    forall j | 0 < j < n && j != i && Parent(j) != i ensures Below(key, g, j) {
      assert Below(key, h0, j);
    }
    forall j | 0 < j < n && Parent(j) == i > 0 ensures key(g[Parent(i)]) <= key(g[j]) {
      assert Below(key, h0, j) && Below(key, h0, i);
    }
    if n != i {
      var moved;
      h, moved := Down(key, g, i, 0);
      if !moved {
        h := Up(key, h, i);
      }
    } else {
      h := g;
    }
  }

  method Heapify<T>(key: T -> int, h0: seq<T>) returns (h: seq<T>)
    ensures IsHeap(key, h) && multiset(h) == multiset(h0) && |h| == |h0|
  {
    h := h0;
    var i := |h| / 2;
    while i > 0
      invariant 0 <= i <= |h| == |h0| && multiset(h) == multiset(h0)
      invariant forall j | 0 < j < |h| && Parent(j) >= i :: Below(key, h, j)
    {
      i := i - 1;
      var moved;
      h, moved := Down(key, h, i, i);
    }
  }

  /** sort.Sort by key. */
  method Sort<T>(key: T -> int, s: seq<T>) returns (r: seq<T>)
    ensures |r| == |s| && multiset(r) == multiset(s)
    ensures forall i, j | 0 <= i < j < |r| :: key(r[i]) <= key(r[j])
  {
    r := [];
    var h := Heapify(key, s);
    while h != []
      invariant IsHeap(key, h) && |r| + |h| == |s| && multiset(r) + multiset(h) == multiset(s)
      invariant forall i, j | 0 <= i < j < |r| :: key(r[i]) <= key(r[j])
      invariant forall i, y | 0 <= i < |r| && y in h :: key(r[i]) <= key(y)
      decreases |h|
    {
      var x;
      ghost var before := h;
      x, h := Pop(key, h);
      Remains(before, h, x);
      r := r + [x];
    }
  }

  lemma Remains<T>(before: seq<T>, h: seq<T>, x: T)
    requires multiset(h) + multiset{x} == multiset(before)
    ensures x in before && forall y | y in h :: y in before
  {
    assert x in multiset(before);
    forall y | y in h ensures y in before {
      assert y in multiset(h);
      assert y in multiset(before);
    }
  }

  /** An element at two places is counted twice. */
  lemma Twice<T>(r: seq<T>, i: nat, j: nat)
    requires i < j < |r| && r[i] == r[j]
    ensures multiset(r)[r[i]] >= 2
  {
    assert r == r[..j] + [r[j]] + r[j + 1..];
    assert r[..j] == r[..i] + [r[i]] + r[i + 1..j];
  }
}
