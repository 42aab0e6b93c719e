/**
  The shape of the binary Merkle tree (bmt/bmt.go, NewTree) and the value each
  of its nodes has to produce for a given chunk.

  A node is named by its height above the leaves and its index in that row, so
  the parent of (h, k) is (h + 1, k / 2); a leaf stands for a double segment.
  `Chunk.Out` is the value that leaves a node upwards; the main lemma,
  `RootValue`, says that the value at the lowest node above all written leaves
  is the reference hash of the chunk.
 */
module BmtTree {
  import opened ByteStrings
  import opened BmtReference

  function Pow2(n: nat): nat {
    if n == 0 then 1 else 2 * Pow2(n - 1)
  }

  /** The index of the height-h ancestor of leaf j. */
  function Anc(j: nat, h: nat): nat {
    if h == 0 then j else Anc(j, h - 1) / 2
  }

  /** The height of the lowest common ancestor of leaves 0 and c. */
  function RootHeight(c: nat): nat {
    if c == 0 then 0 else 1 + RootHeight(c / 2)
  }

  /** The leftmost leaf under node (h, k). */
  function First(h: nat, k: nat): nat {
    if h == 0 then k else First(h - 1, 2 * k)
  }

  lemma {:induction false} AncShift(j: nat, h: nat)
    ensures Anc(j, h + 1) == Anc(j / 2, h)
  {
    if h > 0 {
      AncShift(j, h - 1);
    }
  }

  lemma {:induction false} AncMonotone(i: nat, j: nat, h: nat)
    requires i <= j
    ensures Anc(i, h) <= Anc(j, h)
  {
    if h > 0 {
      AncMonotone(i, j, h - 1);
    }
  }

  /** The height of the common ancestor is exactly where the path of leaf c reaches index 0. */
  lemma {:induction false} RootHeightIsLeast(c: nat, h: nat)
    ensures Anc(c, h) == 0 <==> RootHeight(c) <= h
    decreases c, h
  {
    if c == 0 {
      AncOfZero(h);
    } else if h > 0 {
      AncShift(c, h - 1);
      RootHeightIsLeast(c / 2, h - 1);
    }
  }

  lemma {:induction false} AncOfZero(h: nat)
    ensures Anc(0, h) == 0
  {
    if h > 0 {
      AncOfZero(h - 1);
    }
  }

  lemma {:induction false} AncInTree(j: nat, h: nat, depth: nat)
    requires j < Pow2(depth) && h <= depth
    ensures Anc(j, h) < Pow2(depth - h)
  {
    if h > 0 {
      AncInTree(j, h - 1, depth);
    }
  }

  lemma {:induction false} FirstLe(h: nat, k: nat, j: nat)
    ensures First(h, k) <= j <==> k <= Anc(j, h)
  {
    if h > 0 {
      FirstLe(h - 1, 2 * k, j);
    }
  }

  /** The double segments of a chunk: all full but the last, which is empty only for an empty chunk. */
  function Segments(size: nat, d: Bytes): (segs: seq<Bytes>)
    requires size >= 1
    ensures |segs| >= 1
    decreases |d|
  {
    if |d| <= 2 * size then [d] else [d[..2 * size]] + Segments(size, d[2 * size..])
  }

  function Flat(segs: seq<Bytes>): Bytes {
    if segs == [] then [] else segs[0] + Flat(segs[1..])
  }

  lemma {:induction false} FlatAppend(a: seq<Bytes>, b: seq<Bytes>)
    ensures Flat(a + b) == Flat(a) + Flat(b)
  {
    if a == [] {
      assert a + b == b;
    } else {
      FlatAppend(a[1..], b);
      assert (a + b)[1..] == a[1..] + b;
      assert a[0] + (Flat(a[1..]) + Flat(b)) == (a[0] + Flat(a[1..])) + Flat(b);
    }
  }

  ghost predicate WellCut(size: nat, segs: seq<Bytes>) {
    && |segs| >= 1
    && (forall j | 0 <= j < |segs| - 1 :: |segs[j]| == 2 * size)
    && |segs[|segs| - 1]| <= 2 * size
    && (|segs| > 1 ==> |segs[|segs| - 1]| > 0)
  }

  /** Cutting a chunk into double segments loses nothing and cuts it well. */
  lemma {:induction false} SegmentsWellCut(size: nat, d: Bytes)
    requires size >= 1
    ensures WellCut(size, Segments(size, d)) && Flat(Segments(size, d)) == d
    decreases |d|
  {
    if |d| <= 2 * size {
      assert [d][1..] == [];
    } else {
      SegmentsWellCut(size, d[2 * size..]);
      assert Segments(size, d)[1..] == Segments(size, d[2 * size..]);
      assert d[..2 * size] + d[2 * size..] == d;
    }
  }

  /** There is only one way to cut a chunk well. */
  lemma {:induction false} WellCutIsSegments(size: nat, segs: seq<Bytes>)
    requires size >= 1 && WellCut(size, segs)
    ensures Segments(size, Flat(segs)) == segs
    decreases |segs|
  {
    var d := Flat(segs);
    if |segs| == 1 {
      assert segs[1..] == [] && segs[0] + [] == segs[0];
      assert segs == [d];
    } else {
      var rest := segs[1..];
      WellCutIsSegments(size, rest);
      assert d == segs[0] + Flat(rest);
      assert Flat(rest) == rest[0] + Flat(rest[1..]);
      assert d[..2 * size] == segs[0] && d[2 * size..] == Flat(rest);
      assert [segs[0]] + rest == segs;
    }
  }

  /** The reference hash of a full subtree followed by at most as much again. */
  lemma RootOfJoin(H: BaseHash, size: nat, h: nat, l: Bytes, r: Bytes)
    requires size >= 1 && |l| == Cap(size, h) && 0 < |r| <= Cap(size, h)
    ensures |l| > size && |l + r| > size
    ensures Root(H, size, l + r) == H(Root(H, size, l) + (if |r| <= size then r else Root(H, size, r)))
  {
    CapMonotone(size, 0, h);
    SplitAtCap(size, 0, h, |l + r|);
    assert (l + r)[..|l|] == l && (l + r)[|l|..] == r;
  }

  /** A chunk to be hashed with base hash H and segment size `size` on a tree of the given depth. */
  datatype Chunk = Chunk(H: BaseHash, size: nat, depth: nat, segs: seq<Bytes>) {

    ghost predicate Valid() {
      size >= 1 && WellCut(size, segs) && |segs| <= Pow2(depth)
    }

    /** The leaf that holds the final, possibly partial, double segment. */
    ghost function Last(): nat
      requires Valid()
    {
      |segs| - 1
    }

    ghost function RootH(): nat
      requires Valid()
    {
      RootHeight(Last())
    }

    /** What leaves node (h, k) upwards: nodes without data on their right pass their left value on. */
    ghost function Out(h: nat, k: nat): Bytes
      requires Valid() && k <= Anc(Last(), h)
    {
      if h == 0 then
        if k == Last() > 0 && |segs[k]| <= size then segs[k] else H(segs[k])
      else if 2 * k + 1 <= Anc(Last(), h - 1) then
        H(Out(h - 1, 2 * k) + Out(h - 1, 2 * k + 1))
      else
        Out(h - 1, 2 * k)
    }

    ghost function Content(h: nat, k: nat): Bytes
      requires Valid() && k <= Anc(Last(), h)
    {
      if h == 0 then segs[k]
      else if 2 * k + 1 <= Anc(Last(), h - 1) then Content(h - 1, 2 * k) + Content(h - 1, 2 * k + 1)
      else Content(h - 1, 2 * k)
    }

    lemma {:induction false} ContentLength(h: nat, k: nat)
      requires Valid() && k <= Anc(Last(), h)
      ensures k < Anc(Last(), h) ==> |Content(h, k)| == Cap(size, h)
      ensures |Content(h, k)| <= Cap(size, h)
      ensures Last() > 0 ==> |Content(h, k)| > 0
    {
      if h > 0 {
        ContentLength(h - 1, 2 * k);
        if 2 * k + 1 <= Anc(Last(), h - 1) {
          ContentLength(h - 1, 2 * k + 1);
        }
      }
    }

    lemma JoinLengths(h: nat, k: nat)
      requires Valid() && 2 * k + 1 <= Anc(Last(), h)
      ensures Last() > 0 && |Content(h, 2 * k)| == Cap(size, h) && 0 < |Content(h, 2 * k + 1)| <= Cap(size, h)
    {
      ContentLength(h, 2 * k);
      ContentLength(h, 2 * k + 1);
      if Last() == 0 {
        AncOfZero(h);
      }
    }

    /** The reference hash of d, or d itself if it is one short segment of a longer chunk. */
    ghost function Part(d: Bytes): Bytes
      requires Valid()
    {
      if Last() > 0 && |d| <= size then d else Root(H, size, d)
    }

    lemma LeafIsReference(k: nat)
      requires Valid() && k <= Last()
      ensures Out(0, k) == Part(segs[k])
    {
    }

    lemma JoinIsReference(h: nat, l: Bytes, r: Bytes)
      requires Valid() && Last() > 0 && |l| == Cap(size, h) && 0 < |r| <= Cap(size, h)
      ensures Part(l + r) == H(Part(l) + Part(r))
    {
      RootOfJoin(H, size, h, l, r);
    }

    /** A node produces the reference hash of the data below it. */
    lemma {:induction false} OutIsReference(h: nat, k: nat)
      requires Valid() && k <= Anc(Last(), h)
      ensures Out(h, k) == Part(Content(h, k))
    {
      if h == 0 {
        LeafIsReference(k);
      } else {
        OutIsReference(h - 1, 2 * k);
        if 2 * k + 1 <= Anc(Last(), h - 1) {
          OutIsReference(h - 1, 2 * k + 1);
          JoinedOut(h, k);
        }
      }
    }

    lemma JoinedOut(h: nat, k: nat)
      requires Valid() && h > 0 && k <= Anc(Last(), h) && 2 * k + 1 <= Anc(Last(), h - 1)
      requires Out(h - 1, 2 * k) == Part(Content(h - 1, 2 * k))
                && Out(h - 1, 2 * k + 1) == Part(Content(h - 1, 2 * k + 1))
      ensures Out(h, k) == Part(Content(h, k))
    {
      JoinLengths(h - 1, k);
      JoinIsReference(h - 1, Content(h - 1, 2 * k), Content(h - 1, 2 * k + 1));
    }

    /** The data under leaves lo up to hi. */
    ghost function Range(lo: nat, hi: nat): Bytes
      decreases hi - lo
    {
      if lo < hi && lo < |segs| then segs[lo] + Range(lo + 1, hi) else []
    }

    lemma {:induction false} RangeJoin(a: nat, b: nat, c: nat)
      requires a <= b <= c
      ensures Range(a, c) == Range(a, b) + Range(b, c)
      decreases b - a
    {
      if a < b && a < |segs| {
        RangeJoin(a + 1, b, c);
        assert segs[a] + (Range(a + 1, b) + Range(b, c)) == (segs[a] + Range(a + 1, b)) + Range(b, c);
      }
    }

    lemma {:induction false} RangeIsFlat(lo: nat, hi: nat)
      requires lo <= |segs| <= hi
      ensures Range(lo, hi) == Flat(segs[lo..])
      decreases |segs| - lo
    {
      if lo < |segs| {
        RangeIsFlat(lo + 1, hi);
        assert segs[lo..][1..] == segs[lo + 1..];
      }
    }

    lemma RangeOfOne(k: nat)
      requires k < |segs|
      ensures Range(k, k + 1) == segs[k]
    {
      assert Range(k + 1, k + 1) == [];
    }

    lemma RangeUpTo(a: nat, b: nat, c: nat)
      requires a <= b <= c && |segs| <= b
      ensures Range(a, c) == Range(a, b)
    {
      RangeJoin(a, b, c);
      assert Range(b, c) == [];
    }

    lemma {:induction false} ContentIsRange(h: nat, k: nat)
      requires Valid() && k <= Anc(Last(), h)
      ensures Content(h, k) == Range(First(h, k), First(h, k + 1))
    {
      if h == 0 {
        RangeOfOne(k);
      } else {
        var a, b, c := First(h - 1, 2 * k), First(h - 1, 2 * k + 1), First(h - 1, 2 * k + 2);
        FirstMonotone(h - 1, 2 * k, 2 * k + 1);
        FirstMonotone(h - 1, 2 * k + 1, 2 * k + 2);
        ContentIsRange(h - 1, 2 * k);
        assert First(h, k) == a && First(h, k + 1) == c;
        if 2 * k + 1 <= Anc(Last(), h - 1) {
          ContentIsRange(h - 1, 2 * k + 1);
          RangeJoin(a, b, c);
        } else {
          FirstLe(h - 1, 2 * k + 1, Last());
          RangeUpTo(a, b, c);
        }
      }
    }

    /** The value at the common ancestor of all written leaves is the reference hash of the chunk. */
    lemma RootValue()
      requires Valid()
      ensures 0 <= Anc(Last(), RootH()) && Out(RootH(), 0) == Root(H, size, Flat(segs))
    {
      RootHeightIsLeast(Last(), RootH());
      OutIsReference(RootH(), 0);
      ContentIsRange(RootH(), 0);
      FirstLe(RootH(), 1, Last());
      FirstOfZero(RootH());
      RangeIsFlat(0, First(RootH(), 1));
      assert segs[0..] == segs;
      if Last() > 0 {
        RootHeightIsLeast(Last(), RootH() - 1);
        ContentLength(RootH() - 1, 0);
        ContentLength(RootH() - 1, 1);
        CapMonotone(size, 0, RootH() - 1);
      }
    }
  }

  lemma {:induction false} FirstOfZero(h: nat)
    ensures First(h, 0) == 0
  {
    if h > 0 {
      FirstOfZero(h - 1);
    }
  }

  lemma {:induction false} FirstMonotone(h: nat, a: nat, b: nat)
    requires a <= b
    ensures First(h, a) <= First(h, b)
  {
    if h > 0 {
      FirstMonotone(h - 1, 2 * a, 2 * b);
    }
  }
}
