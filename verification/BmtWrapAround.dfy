/**
  The toggle counter is an int32. 2^30 chunks of three segments on one tree make
  it wrap around, and then the first of two goroutines no longer waits for the
  second. Up to then the hasher is right on every tree, whatever it was used for.
 */
module BmtWrapAround {
  import opened ByteStrings
  import opened BmtReference
  import opened BmtTree
  import opened BmtProtocol
  import opened BmtTheorem

  // ---------- the life of a tree ----------

  /** A whole run for chunk c, on the tree `from` and leaving the tree `to`. */
  ghost predicate Hashed(c: Chunk, run: seq<State>, from: map<Pos, Node>, to: map<Pos, Node>) {
    && c.Valid() && IsRun(c, run) && run[0] == State(from, map[], Writing(0))
    && run[|run| - 1].main.Done? && run[|run| - 1].nodes == to
  }

  ghost predicate Reuse(H: BaseHash, size: nat, depth: nat, from: map<Pos, Node>, to: map<Pos, Node>) {
    exists segs, run :: Hashed(Chunk(H, size, depth, segs), run, from, to)
  }

  /** A new tree on which `used` chunks of any kind were hashed, one after the other. */
  ghost predicate Reached(H: BaseHash, size: nat, depth: nat, used: nat, nodes: map<Pos, Node>)
    decreases used
  {
    if used == 0 then
      Fresh(depth, nodes)
    else
      exists from :: Reached(H, size, depth, used - 1, from) && Reuse(H, size, depth, from, nodes)
  }

  /** Every tree is given back clean, the 2^30th time included. */
  lemma {:induction false} ReachedClean(H: BaseHash, size: nat, depth: nat, used: nat, nodes: map<Pos, Node>)
    requires Reached(H, size, depth, used, nodes) && used <= 0x4000_0000
    ensures Clean(depth, used, nodes)
    decreases used
  {
    if used > 0 {
      var from :| Reached(H, size, depth, used - 1, from) && Reuse(H, size, depth, from, nodes);
      var segs, run :| Hashed(Chunk(H, size, depth, segs), run, from, nodes);
      ReachedClean(H, size, depth, used - 1, from);
      RunGood(Chunk(H, size, depth, segs), used - 1, run);
    }
  }

  // ---------- one chunk of three segments ----------

  /** A double segment and at most one segment more. */
  ghost predicate Pair(size: nat, l: Bytes, r: Bytes) {
    size >= 1 && |l| == 2 * size && 0 < |r| <= size
  }

  ghost function Sample(H: BaseHash, size: nat, l: Bytes, r: Bytes): (c: Chunk)
    requires Pair(size, l, r)
    ensures c.Valid() && c.H == H && c.size == size && c.depth == 1 && c.segs == [l, r]
  {
    assert Pow2(1) == 2 * Pow2(0);
    Chunk(H, size, 1, [l, r])
  }

  lemma SampleIsChunk(H: BaseHash, size: nat, l: Bytes, r: Bytes)
    requires Pair(size, l, r)
    ensures |l + r| <= 3 * size && ChunkOf(H, size, 3, l + r) == Sample(H, size, l, r)
    ensures Root(H, size, l + r) == H(H(l) + r)
  {
    var d := l + r;
    assert d[..2 * size] == l && d[2 * size..] == r;
    assert Segments(size, d) == [d[..2 * size]] + Segments(size, d[2 * size..]);
    assert Bits(1) == 1 + Bits(0);
    RootOfJoin(H, size, 0, l, r);
  }

  const LEAF := Node([], [], 0, false, false)

  /** The tree of two leaves. */
  function Tree(right: Node, top: Node): map<Pos, Node> {
    map[Pos(0, 0) := LEAF, Pos(0, 1) := right, Pos(1, 0) := top]
  }

  /** As it lies in the pool, with the segment `seg` left in the right leaf. */
  function Idle(seg: Bytes, left: Bytes, right: Bytes, count: int): map<Pos, Node> {
    Tree(LEAF.(left := seg), Node(left, right, count, false, true))
  }

  lemma Joined(c: Chunk, a: seq<State>, b: seq<State>) returns (run: seq<State>)
    requires c.Valid() && IsRun(c, a) && IsRun(c, b) && a[|a| - 1] == b[0]
    ensures IsRun(c, run) && run[0] == a[0] && run[|run| - 1] == b[|b| - 1]
  {
    run := a + b[1..];
    forall i | 0 <= i < |run| - 1 ensures Step(c, run[i], run[i + 1]) {
      if i < |a| - 1 {
        assert Step(c, a[i], a[i + 1]);
      } else {
        assert Step(c, b[i - |a| + 1], b[i - |a| + 2]);
      }
    }
  }

  /** The hashing thread launches both goroutines and marks the final path. */
  lemma Launched(H: BaseHash, size: nat, l: Bytes, r: Bytes, s: State, seg: Bytes, left: Bytes, right: Bytes, x: int)
    returns (run: seq<State>)
    requires Pair(size, l, r) && s == State(Idle(seg, left, right, x), map[], Writing(0))
    ensures IsRun(Sample(H, size, l, r), run) && run[0] == s
    ensures run[|run| - 1] == State(Tree(LEAF.(left := seg, unbalanced := true), Node(left, [], x, false, true)),
                                    map[0 := Launch(l, 1), 1 := Run(Write, 0, true, 2, 1, r)], Waiting)
  {
    var c := Sample(H, size, l, r);
    var s1 := MainStep(c, s);
    assert s1.procs == map[0 := Launch(l, 1)];
    var s2 := MainStep(c, s1);
    assert s2.main == Finalising(0, true, 0);
    var s3 := MainStep(c, s2);
    assert s3.main == Finalising(1, false, 1);
    assert Anc(1, 1) == Anc(1, 0) / 2;
    var s4 := MainStep(c, s3);
    assert s4.nodes == Tree(LEAF.(left := seg, unbalanced := true), Node(left, [], x, false, true));
    var s5 := MainStep(c, s4);
    run := [s, s1, s2, s3, s4, s5];
  }

  /** The first goroutine stores the left half at the top and comes to the toggle. */
  lemma FirstArrives(c: Chunk, s: State, l: Bytes, leaf: Node, top: Node, p: Proc) returns (run: seq<State>)
    requires c.Valid() && s.procs == map[0 := Launch(l, 1), 1 := p]
    requires s.nodes == Tree(leaf, top) && !top.unbalanced
    ensures IsRun(c, run) && run[0] == s
    ensures run[|run| - 1] == s.(nodes := Tree(leaf, top.(left := c.H(l))),
                                 procs := map[0 := Run(Toggle, 1, true, 0, 1, c.H(l)), 1 := p])
  {
    var s1 := Exec(c, s, 0);
    var s2 := Exec(c, s1, 0);
    assert Anc(0, 1) == Anc(0, 0) / 2;
    assert s2.procs == map[0 := Run(Write, 1, true, 0, 1, c.H(l)), 1 := p];
    var s3 := Exec(c, s2, 0);
    assert s3.nodes == Tree(leaf, top.(left := c.H(l)));
    var s4 := Exec(c, s3, 0);
    run := [s, s1, s2, s3, s4];
  }

  /** The second goroutine passes its segment up and comes to the toggle. */
  lemma SecondArrives(c: Chunk, s: State, r: Bytes, seg: Bytes, top: Node, p: Proc) returns (run: seq<State>)
    requires c.Valid() && s.procs == map[0 := p, 1 := Run(Write, 0, true, 2, 1, r)]
    requires s.nodes == Tree(LEAF.(left := seg, unbalanced := true), top) && !top.unbalanced
    ensures IsRun(c, run) && run[0] == s
    ensures run[|run| - 1] == s.(nodes := Tree(LEAF.(left := r, unbalanced := true), top.(right := r)),
                                 procs := map[0 := p, 1 := Run(Toggle, 1, false, 3, 1, r)])
  {
    var s1 := Exec(c, s, 1);
    assert s1.nodes == Tree(LEAF.(left := r, unbalanced := true), top);
    var s2 := Exec(c, s1, 1);
    var s3 := Exec(c, s2, 1);
    assert r + [] == r;
    var s4 := Exec(c, s3, 1);
    assert Anc(1, 1) == Anc(1, 0) / 2;
    assert s4.procs == map[0 := p, 1 := Run(Write, 1, false, 3, 1, r)];
    var s5 := Exec(c, s4, 1);
    assert s5.nodes == Tree(LEAF.(left := r, unbalanced := true), top.(right := r));
    var s6 := Exec(c, s5, 1);
    run := [s, s1, s2, s3, s4, s5, s6];
  }

  /** A goroutine that the toggle at the top lets through sends the hash of both halves. */
  lemma GoesThrough(c: Chunk, s: State, j: nat, leaf: Node, top: Node, p: Proc) returns (run: seq<State>)
    requires c.Valid() && j <= 1 && s.main == Waiting && s.nodes == Tree(leaf, top) && !top.unbalanced && top.root
    requires p.Run? && p.pc == Toggle && p.h == 1 && j in s.procs && s.procs[j] == p && !IsOne(Increment(top.state))
    ensures IsRun(c, run) && run[0] == s
    ensures run[|run| - 1] == State(Tree(leaf, top.(state := Increment(top.state))), s.procs[j := Sent],
                                    Releasing(0, c.H(top.left + top.right)))
  {
    assert Anc(j, 1) == Anc(j, 0) / 2;
    var s1 := Exec(c, s, j);
    assert s1.nodes == Tree(leaf, top.(state := Increment(top.state)));
    var s2 := Exec(c, s1, j);
    var s3 := Exec(c, s2, j);
    assert s3.procs == s.procs[j := Sending(c.H(top.left + top.right))];
    var s4 := Receive(s3, j);
    assert CanReceive(s3, j);
    run := [s, s1, s2, s3, s4];
  }

  /** A goroutine that the toggle at the top stops. */
  lemma IsStopped(c: Chunk, s: State, leaf: Node, top: Node, p: Proc, q: Proc) returns (run: seq<State>)
    requires c.Valid() && s.procs == map[0 := p, 1 := q] && s.nodes == Tree(leaf, top)
    requires p.Run? && p.pc == Toggle && p.h == 1 && IsOne(Increment(top.state))
    ensures IsRun(c, run) && run[0] == s
    ensures run[|run| - 1] == s.(nodes := Tree(leaf, top.(state := Increment(top.state))),
              procs := map[0 := Returned(1), 1 := q])
  {
    assert Anc(0, 1) == Anc(0, 0) / 2;
    run := [s, Exec(c, s, 0)];
  }

  /** The tree is given back. */
  lemma Released(H: BaseHash, size: nat, l: Bytes, r: Bytes, s: State, left: Bytes, right: Bytes, x: int)
    returns (run: seq<State>)
    requires Pair(size, l, r) && s.main.Releasing? && s.main.h == 0
    requires s.nodes == Tree(LEAF.(left := r, unbalanced := true), Node(left, right, x, false, true))
    ensures IsRun(Sample(H, size, l, r), run) && run[0] == s
    ensures run[|run| - 1].main.Done? && run[|run| - 1].nodes == Idle(r, left, right, x)
  {
    var c := Sample(H, size, l, r);
    var s1 := MainStep(c, s);
    assert Anc(1, 1) == Anc(1, 0) / 2;
    var s2 := MainStep(c, s1);
    assert s2.nodes == Idle(r, left, right, x);
    run := [s, s1, s2];
  }

  /** One chunk of three segments takes the counter at the top two further. */
  lemma CountsTwo(H: BaseHash, size: nat, l: Bytes, r: Bytes, seg: Bytes, left: Bytes, right: Bytes, x: int)
    returns (run: seq<State>)
    requires Pair(size, l, r) && 0 <= x < INT32_MAX && x % 2 == 0
    ensures Hashed(Sample(H, size, l, r), run, Idle(seg, left, right, x), Idle(r, H(l), r, Increment(x + 1)))
  {
    var c := Sample(H, size, l, r);
    var s := State(Idle(seg, left, right, x), map[], Writing(0));
    var second := Run(Write, 0, true, 2, 1, r);
    var leaf := LEAF.(left := seg, unbalanced := true);
    run := Launched(H, size, l, r, s, seg, left, right, x);
    var part := FirstArrives(c, run[|run| - 1], l, leaf, Node(left, [], x, false, true), second);
    run := Joined(c, run, part);
    var top := Node(H(l), [], x, false, true);
    part := IsStopped(c, run[|run| - 1], leaf, top, Run(Toggle, 1, true, 0, 1, H(l)), second);
    run := Joined(c, run, part);
    top := top.(state := x + 1);
    part := SecondArrives(c, run[|run| - 1], r, seg, top, Returned(1));
    run := Joined(c, run, part);
    part := GoesThrough(c, run[|run| - 1], 1, LEAF.(left := r, unbalanced := true), top.(right := r),
                        Run(Toggle, 1, false, 3, 1, r));
    run := Joined(c, run, part);
    part := Released(H, size, l, r, run[|run| - 1], H(l), r, Increment(x + 1));
    run := Joined(c, run, part);
  }

  /** The counter at the top after n chunks of three segments. */
  function After(n: nat): int {
    if n < 0x4000_0000 then 2 * n else INT32_MIN
  }

  lemma {:induction false} Worn(H: BaseHash, size: nat, l: Bytes, r: Bytes, n: nat)
    returns (seg: Bytes, left: Bytes, right: Bytes)
    requires Pair(size, l, r) && n <= 0x4000_0000
    ensures Reached(H, size, 1, n, Idle(seg, left, right, After(n)))
    decreases n
  {
    if n == 0 {
      seg, left, right := [], [], [];
      NewIsIdle();
    } else {
      seg, left, right := Worn(H, size, l, r, n - 1);
      var run := CountsTwo(H, size, l, r, seg, left, right, After(n - 1));
      var from, to := Idle(seg, left, right, After(n - 1)), Idle(r, H(l), r, After(n));
      assert Sample(H, size, l, r) == Chunk(H, size, 1, [l, r]);
      assert Hashed(Chunk(H, size, 1, [l, r]), run, from, to);
      assert Reuse(H, size, 1, from, to);
      seg, left, right := r, H(l), r;
    }
  }

  lemma NewIsIdle()
    ensures Fresh(1, Idle([], [], [], 0))
  {
    forall h, k | InTree(1, h, k) ensures Pos(h, k) in [Pos(0, 0), Pos(0, 1), Pos(1, 0)] {
      assert Pow2(0) == 1 && Pow2(1) == 2 * Pow2(0);
    }
  }

  // ---------- the limit ----------

  /** On a tree that 2^30 chunks wore out, the result of the next chunk can be the hash without its last segment. */
  lemma WornTreeGivesWrongHash(H: BaseHash, size: nat, l: Bytes, r: Bytes) returns (run: seq<State>)
    requires Pair(size, l, r)
    ensures var c := Sample(H, size, l, r);
            && IsRun(c, run) && run[0].procs == map[] && run[0].main == Writing(0)
            && Reached(H, size, 1, 0x4000_0000, run[0].nodes)
            && run[|run| - 1].main == Releasing(0, H(H(l)))
  {
    var c := Sample(H, size, l, r);
    var seg, left, right := Worn(H, size, l, r, 0x4000_0000);
    var s := State(Idle(seg, left, right, INT32_MIN), map[], Writing(0));
    var leaf := LEAF.(left := seg, unbalanced := true);
    run := Launched(H, size, l, r, s, seg, left, right, INT32_MIN);
    var part := FirstArrives(c, run[|run| - 1], l, leaf, Node(left, [], INT32_MIN, false, true),
                             Run(Write, 0, true, 2, 1, r));
    run := Joined(c, run, part);
    part := GoesThrough(c, run[|run| - 1], 0, leaf, Node(H(l), [], INT32_MIN, false, true),
        Run(Toggle, 1, true, 0, 1, H(l)));
    run := Joined(c, run, part);
    assert H(l) + [] == H(l);
  }

  /**
    A received result is the reference hash: for every chunk and interleaving, on every tree used at
    most so many times.
   */
  ghost predicate AlwaysRight(H: BaseHash, size: nat, used: nat)
    requires size >= 1
  {
    forall count: nat, d: Bytes, n: nat, run: seq<State> |
      count >= 1 && |d| <= count * size && n <= used :: RightOn(H, size, count, d, n, run)
  }

  ghost predicate RightOn(H: BaseHash, size: nat, count: nat, d: Bytes, n: nat, run: seq<State>)
    requires size >= 1 && count >= 1 && |d| <= count * size
  {
    var c := ChunkOf(H, size, count, d);
    && IsRun(c, run) && run[0].procs == map[] && run[0].main == Writing(0) && Reached(H, size, c.depth, n, run[0].nodes)
    && run[|run| - 1].main.Releasing?
    ==> run[|run| - 1].main.result == Root(H, size, d)
  }

  /** The hash of a double segment differs from it with some further segment appended, when hashed again. */
  ghost predicate TellsApart(H: BaseHash, size: nat) {
    exists l, r :: Pair(size, l, r) && H(H(l)) != H(H(l) + r)
  }

  /**
    The parallel hasher is right on trees used fewer than 2^30 times, whatever the
    base hash; and on no more than that, unless the base hash collides for every
    chunk of three segments.
   */
  lemma WearLimit(H: BaseHash, size: nat, used: nat)
    requires size >= 1
    ensures used < 0x4000_0000 ==> AlwaysRight(H, size, used)
    ensures TellsApart(H, size) ==> (AlwaysRight(H, size, used) <==> used < 0x4000_0000)
  {
    if used < 0x4000_0000 {
      forall count: nat, d: Bytes, n: nat, run: seq<State> | count >= 1 && |d| <= count * size && n <= used
        ensures RightOn(H, size, count, d, n, run)
      {
        RightBefore(H, size, count, d, n, run);
      }
    } else if TellsApart(H, size) {
      var l, r :| Pair(size, l, r) && H(H(l)) != H(H(l) + r);
      var run := WornTreeGivesWrongHash(H, size, l, r);
      SampleIsChunk(H, size, l, r);
      assert !RightOn(H, size, 3, l + r, 0x4000_0000, run);
    }
  }

  lemma RightBefore(H: BaseHash, size: nat, count: nat, d: Bytes, n: nat, run: seq<State>)
    requires size >= 1 && count >= 1 && |d| <= count * size && n < 0x4000_0000
    ensures RightOn(H, size, count, d, n, run)
  {
    var c := ChunkOf(H, size, count, d);
    if IsRun(c, run) && run[0].procs == map[] && run[0].main == Writing(0)
        && Reached(H, size, c.depth, n, run[0].nodes) {
      ReachedClean(H, size, c.depth, n, run[0].nodes);
      HasherRefinesReference(H, size, count, d, n, run);
    }
  }
}
