/**
  The binary Merkle tree hash of a chunk (bmt/bmt_r.go).

  `Root` says what the hash of a chunk is: a chunk of at most two segments is
  hashed directly; a longer one is cut after the largest power-of-two number of
  segments that is smaller than the chunk. `RefHasher` is the reference
  implementation, which finds the cut by halving a span. The base hash is an
  arbitrary function `H`; nothing about it is used.
 */
module BmtReference {
  import opened ByteStrings

  type BaseHash = Bytes -> Bytes

  /** Bytes that fit under a subtree of 2^h double segments. */
  function Cap(size: nat, h: nat): nat {
    if h == 0 then 2 * size else 2 * Cap(size, h - 1)
  }

  /** The last of s, 2s, 4s, ... that is smaller than l. */
  function Split(s: nat, l: nat): (r: nat)
    requires 0 < s < l
    ensures s <= r < l <= 2 * r
    decreases l - s
  {
    if 2 * s < l then Split(2 * s, l) else s
  }

  ghost function Root(H: BaseHash, size: nat, d: Bytes): Bytes
    requires size >= 1
    decreases |d|
  {
    if |d| <= 2 * size then
      H(d)
    else
      var s := Split(2 * size, |d|);
      H(Root(H, size, d[..s]) + (if |d| - s > size then Root(H, size, d[s..]) else d[s..]))
  }

  /** A subtree capacity that lies in [l/2, l) is where a chunk of l bytes is cut. */
  lemma {:induction false} SplitAtCap(size: nat, a: nat, m: nat, l: nat)
    requires size >= 1 && a <= m
    requires Cap(size, m) < l <= 2 * Cap(size, m)
    ensures 0 < Cap(size, a) < l && Split(Cap(size, a), l) == Cap(size, m)
    decreases m - a
  {
    CapMonotone(size, a, m);
    if a < m {
      SplitAtCap(size, a + 1, m, l);
    }
  }

  lemma {:induction false} CapMonotone(size: nat, a: nat, m: nat)
    requires a <= m
    ensures 2 * size <= Cap(size, a) <= Cap(size, m)
    decreases m
  {
    if a < m {
      CapMonotone(size, a, m - 1);
    } else if a > 0 {
      CapMonotone(size, a - 1, a - 1);
    }
  }

  /** Halving a capacity until it is below l finds the cut. */
  method Halve(size: nat, s0: nat, ghost m: nat, l: nat) returns (s: nat, ghost n: nat)
    requires size >= 1 && s0 == Cap(size, m) && 2 * size < l <= 2 * s0
    ensures s == Split(2 * size, l)
    ensures s == Cap(size, n)
  {
    s, n := s0, m;
    while s >= l
      invariant s == Cap(size, n) && l <= 2 * s
      decreases s
    {
      CapMonotone(size, n, n);
      s := s / 2;
      n := n - 1;
    }
    SplitAtCap(size, 0, n, l);
  }

  /** Segments under a subtree of 2^h double segments. */
  function CapSegments(h: nat): nat {
    if h == 0 then 2 else 2 * CapSegments(h - 1)
  }

  lemma {:induction false} CapInSegments(size: nat, h: nat)
    ensures Cap(size, h) == CapSegments(h) * size
  {
    if h > 0 {
      CapInSegments(size, h - 1);
    }
  }

  lemma MulMonotone(a: nat, x: nat, y: nat)
    requires x <= y
    ensures a * x <= a * y
  {
  }

  /** The loop of NewRefHasher: half the smallest power of two that holds count segments, but at least two. */
  method SpanSegments(count: nat) returns (c: nat, ghost h: nat)
    ensures c == CapSegments(h) && count <= 2 * c
    ensures h == 0 || c < count
  {
    c, h := 2, 0;
    while c < count
      invariant c == CapSegments(h)
      invariant h == 0 || CapSegments(h - 1) < count
    {
      c := c * 2;
      h := h + 1;
    }
    if c > 2 {
      c := c / 2;
      h := h - 1;
    }
  }

  /** The reference hasher. `buf` is what has been written to the reused hash object. */
  class RefHasher {
    const H: BaseHash
    const size: nat
    const section: nat
    const span: nat
    const cap: nat
    ghost const levels: nat
    var buf: Bytes

    ghost predicate Valid()
      reads this
    {
      && size >= 1
      && section == 2 * size
      && span == Cap(size, levels)
      && cap <= 2 * span
      && buf == []
    }

    constructor (H: BaseHash, hashsize: nat, count: nat)
      requires hashsize >= 1
      ensures Valid() && this.H == H && size == hashsize && cap == hashsize * count
    {
      var c, m := SpanSegments(count);
      CapInSegments(hashsize, m);
      MulMonotone(hashsize, count, 2 * c);
      assert hashsize * (2 * c) == 2 * (c * hashsize);
      this.H := H;
      this.size := hashsize;
      section := 2 * hashsize;
      span := c * hashsize;
      cap := hashsize * count;
      levels := m;
      buf := [];
    }

    /** Hashes the chunk, ignoring what lies beyond the capacity. */
    method Hash(d: Bytes) returns (r: Bytes)
      requires Valid()
      modifies this`buf
      ensures Valid()
      ensures r == Root(H, size, if |d| > cap then d[..cap] else d)
    {
      var e := if |d| > cap then d[..cap] else d;
      r := HashSpan(e, span, levels);
    }

    /** Feeds both halves to the hash object, reads it and resets it. */
    method Finish(left: Bytes, right: Bytes) returns (r: Bytes)
      requires Valid()
      modifies this`buf
      ensures Valid() && r == H(left + right)
    {
      buf := buf + left;
      buf := buf + right;
      assert buf == left + right;
      r := H(buf);
      buf := [];
    }

    method HashSpan(d: Bytes, span0: nat, ghost m: nat) returns (r: Bytes)
      requires Valid()
      requires span0 == Cap(size, m) && |d| <= 2 * span0
      modifies this`buf
      ensures Valid()
      ensures r == Root(H, size, d)
      decreases |d|
    {
      var l := |d|;
      var left, right := d, [];
      if l > section {
        var s, n := Halve(size, span0, m, l);
        left := HashSpan(d[..s], s, n);
        right := d[s..];
        if l - s > section / 2 {
          right := HashSpan(right, s, n);
        }
      } else {
        assert left + right == d;
      }
      r := Finish(left, right);
    }
  }
}
