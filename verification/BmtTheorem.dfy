/**
  The parallel hasher refines the reference hasher: every run, whatever the
  interleaving, is finite, never gets stuck, ends with the reference hash of the
  chunk, and gives the tree back clean.
 */
module BmtTheorem {
  import opened ByteStrings
  import opened BmtReference
  import opened BmtTree
  import opened BmtProtocol
  import opened BmtInvariant
  import opened BmtSteps
  import opened BmtMain

  // ---------- when the value of the root is known, everybody else has returned ----------

  lemma {:induction false} WonSettles(c: Chunk, used: nat, s: State, j: nat, h: nat, i: nat)
    requires Inv(c, used, s) && h <= c.RootH() && WonAt(c, s, j, h)
    requires i <= c.Last() && i != j && Anc(i, h) == Anc(j, h)
    ensures i in s.procs && s.procs[i].Returned?
    decreases h
  {
    var k := Anc(j, h);
    assert j <= c.Last();
    if h >= 1 {
      assert WonAt(c, s, j, h - 1);
      if Unbalanced(c, s.main, h, k) {
        UnbalancedSide(c, s.main, i, h);
        UnbalancedSide(c, s.main, j, h);
        WonSettles(c, used, s, j, h - 1, i);
      } else {
        var l := Partner(c, used, s, j, h);
        if i != l {
          WonSettles(c, used, s, if Anc(i, h - 1) == Anc(j, h - 1) then j else l, h - 1, i);
        }
      }
    }
  }

  /** Whoever has passed a balanced node has left somebody behind there, coming from the other side. */
  lemma Partner(c: Chunk, used: nat, s: State, j: nat, h: nat) returns (l: nat)
    requires Inv(c, used, s) && 1 <= h <= c.RootH() && WonAt(c, s, j, h)
    requires !Unbalanced(c, s.main, h, Anc(j, h))
    ensures ReturnedAt(s, l, h, Anc(j, h)) && WonAt(c, s, l, h - 1) && Anc(l, h - 1) != Anc(j, h - 1)
  {
    assert j <= c.Last();
    OnTree(c, j, h);
    assert ToggleOk(c, used, s, h, Anc(j, h));
    assert ThroughAt(c, s, j, h, Anc(j, h));
    l :| ReturnedAt(s, l, h, Anc(j, h));
    assert WonAt(c, s, l, h - 1) && WonAt(c, s, j, h - 1);
    Siblings(c, s, l, j, h);
  }

  ghost predicate Settled(s: State) {
    forall j | j in s.procs :: s.procs[j].Returned? || s.procs[j].Sending?
  }

  /** Once no goroutine can move, the value of every node that has data has been computed. */
  lemma {:induction false} EveryNodeWon(c: Chunk, used: nat, s: State, h: nat, k: nat) returns (j: nat)
    requires Inv(c, used, s) && s.main.Waiting? && Settled(s)
    requires h <= c.RootH() && k <= Anc(c.Last(), h)
    ensures WonAt(c, s, j, h) && Anc(j, h) == k
    decreases h
  {
    if h == 0 {
      j := k;
      assert ProcOk(c, s, j);
    } else {
      j := EveryNodeWon(c, used, s, h - 1, 2 * k);
      if 2 * k + 1 <= Anc(c.Last(), h - 1) {
        var r := EveryNodeWon(c, used, s, h - 1, 2 * k + 1);
        OneOfTwoWins(c, used, s, j, r, h);
        if !WonAt(c, s, j, h) {
          j := r;
        }
      } else {
        LoneWins(c, used, s, j, h);
      }
    }
  }

  /** With no data on the right, whoever comes from the left goes on. */
  lemma LoneWins(c: Chunk, used: nat, s: State, j: nat, h: nat)
    requires Inv(c, used, s) && s.main.Waiting? && Settled(s) && 1 <= h <= c.RootH()
    requires WonAt(c, s, j, h - 1) && Anc(j, h - 1) == Anc(c.Last(), h - 1) && Anc(j, h - 1) % 2 == 0
    ensures WonAt(c, s, j, h)
  {
    assert ProcOk(c, s, j);
    assert Unbalanced(c, s.main, h, Anc(j, h));
  }

  lemma OneOfTwoWins(c: Chunk, used: nat, s: State, i: nat, j: nat, h: nat)
    requires Inv(c, used, s) && Settled(s) && i != j && 1 <= h <= c.RootH()
    requires WonAt(c, s, i, h - 1) && WonAt(c, s, j, h - 1) && Anc(i, h) == Anc(j, h)
    ensures WonAt(c, s, i, h) || WonAt(c, s, j, h)
  {
    assert ProcOk(c, s, i) && ProcOk(c, s, j);
    OnTree(c, i, h);
    assert ToggleOk(c, used, s, h, Anc(i, h));
    assert !ReturnedAt(s, i, h, Anc(i, h)) || !ReturnedAt(s, j, h, Anc(i, h));
  }

  /** When a goroutine is ready to send, all others have returned and all toggles are even again. */
  lemma SenderIsLast(c: Chunk, used: nat, s: State, j: nat)
    requires Inv(c, used, s) && CanReceive(s, j)
    ensures Settled(s)
    ensures forall i | i in s.procs && i != j :: s.procs[i].Returned?
    ensures forall h, k | InTree(c.depth, h, k) :: Pos(h, k) in s.nodes && Counter(s.nodes[Pos(h, k)].state, used + 1)
    ensures s.procs[j].v == Root(c.H, c.size, Flat(c.segs))
  {
    assert ProcOk(c, s, j);
    OnTree(c, j, c.RootH());
    forall i | i in s.procs && i != j ensures s.procs[i].Returned? {
      OnTree(c, i, c.RootH());
      WonSettles(c, used, s, j, c.RootH(), i);
    }
    forall h, k | InTree(c.depth, h, k)
      ensures Pos(h, k) in s.nodes && Counter(s.nodes[Pos(h, k)].state, used + 1)
    {
      if h >= 1 {
        EvenAgain(c, used, s, h, k);
      }
    }
    c.RootValue();
  }

  lemma EvenAgain(c: Chunk, used: nat, s: State, h: nat, k: nat)
    requires Inv(c, used, s) && s.main.Waiting? && Settled(s)
    requires h >= 1 && InTree(c.depth, h, k)
    ensures Pos(h, k) in s.nodes && Counter(s.nodes[Pos(h, k)].state, used + 1)
  {
    assert ToggleOk(c, used, s, h, k);
    if s.nodes[Pos(h, k)].state % 2 == 1 {
      var l :| ReturnedAt(s, l, h, k);
      assert ProcOk(c, s, l);
      OnTree(c, l, h);
      var w := EveryNodeWon(c, used, s, h, k);
      assert ThroughAt(c, s, w, h, k);
    }
  }

  // ---------- after the result has been received ----------

  /** releaseTree is at height `from` of the final path: below it and beside it the tree is clean. */
  ghost predicate CleanBut(c: Chunk, used: nat, nodes: map<Pos, Node>, from: nat)
    requires c.Valid()
  {
    forall h: nat, k: nat | InTree(c.depth, h, k) ::
      && Pos(h, k) in nodes
      && Counter(nodes[Pos(h, k)].state, used)
      && (h == c.depth ==> nodes[Pos(h, k)].root)
      && (k != Anc(c.Last(), h) || h < from ==>
            !nodes[Pos(h, k)].unbalanced && (nodes[Pos(h, k)].root ==> h == c.depth))
  }

  ghost predicate After(c: Chunk, used: nat, s: State) {
    && c.Valid() && used < 0x4000_0000
    && (forall j | j in s.procs :: s.procs[j].Returned? || s.procs[j].Sent?)
    && match s.main
       case Releasing(h, v) =>
         h <= c.depth && v == Root(c.H, c.size, Flat(c.segs)) && CleanBut(c, used + 1, s.nodes, h)
       case Done(v) =>
         v == Root(c.H, c.size, Flat(c.segs)) && Clean(c.depth, used + 1, s.nodes)
       case _ => false
  }

  lemma ReceiveAfter(c: Chunk, used: nat, s: State, j: nat)
    requires Inv(c, used, s) && CanReceive(s, j)
    ensures After(c, used, Receive(s, j))
  {
    SenderIsLast(c, used, s, j);
    var nodes := s.nodes;
    forall h, k | InTree(c.depth, h, k)
      ensures h == c.depth ==> nodes[Pos(h, k)].root
      ensures k != Anc(c.Last(), h) ==> !nodes[Pos(h, k)].unbalanced && (nodes[Pos(h, k)].root ==> h == c.depth)
    {
      assert NodeOk(c, s, h, k);
      PathStops(c, c.RootH());
    }
  }

  lemma ReleaseAfter(c: Chunk, used: nat, s: State)
    requires After(c, used, s) && CanMain(c, s)
    ensures After(c, used, MainStep(c, s))
  {
    var s' := MainStep(c, s);
    var h0 := s.main.h;
    AncInTree(c.Last(), h0, c.depth);
    forall h, k | InTree(c.depth, h, k)
      ensures Pos(h, k) in s'.nodes && Counter(s'.nodes[Pos(h, k)].state, used + 1)
      ensures h == c.depth ==> s'.nodes[Pos(h, k)].root
      ensures k != Anc(c.Last(), h) || h < h0 + 1 ==>
                !s'.nodes[Pos(h, k)].unbalanced && (s'.nodes[Pos(h, k)].root ==> h == c.depth)
    {
      assert Pos(h, k) in s.nodes;
    }
  }

  // ---------- every run ----------

  ghost predicate Good(c: Chunk, used: nat, s: State) {
    Inv(c, used, s) || After(c, used, s)
  }

  lemma StepGood(c: Chunk, used: nat, s: State, s': State)
    requires Good(c, used, s) && Step(c, s, s')
    ensures Good(c, used, s')
  {
    if CanMain(c, s) && s' == MainStep(c, s) {
      if Inv(c, used, s) {
        MainInv(c, used, s);
      } else {
        ReleaseAfter(c, used, s);
      }
    } else if j :| CanReceive(s, j) && s' == Receive(s, j) {
      assert Inv(c, used, s);
      ReceiveAfter(c, used, s, j);
    } else {
      var j :| CanExec(s, j) && s' == Exec(c, s, j);
      assert Inv(c, used, s);
      ExecInv(c, used, s, j);
    }
  }

  ghost predicate CanStep(c: Chunk, s: State)
    requires c.Valid()
  {
    CanMain(c, s) || exists j :: CanExec(s, j) || CanReceive(s, j)
  }

  /** The hasher only stops once the tree is back in the pool. */
  lemma NeverStuck(c: Chunk, used: nat, s: State)
    requires Good(c, used, s) && !s.main.Done?
    ensures CanStep(c, s)
  {
    if After(c, used, s) {
      AncInTree(c.Last(), s.main.h, c.depth);
    } else if s.main.Finalising? {
      OnTree(c, c.Last(), s.main.h);
      assert NodeOk(c, s, s.main.h, Anc(c.Last(), s.main.h));
    } else if s.main.Waiting? {
      if Settled(s) {
        PathStops(c, c.RootH());
        var j := EveryNodeWon(c, used, s, c.RootH(), 0);
        assert ProcOk(c, s, j);
        assert CanReceive(s, j);
      } else {
        var j :| j in s.procs && !s.procs[j].Returned? && !s.procs[j].Sending?;
        assert ProcOk(c, s, j);
        OnTree(c, j, 0);
        assert NodeOk(c, s, 0, j);
        assert CanExec(s, j);
      }
    }
  }

  // ---------- termination ----------

  ghost function PcRank(pc: Pc): nat {
    match pc
    case Write => 7
    case Test => 6
    case Toggle => 5
    case Combine => 4
    case RootTest => 3
  }

  /** An upper bound on the steps goroutine j still takes. */
  ghost function ProcRank(c: Chunk, procs: map<nat, Proc>, j: nat): nat
    requires c.Valid()
  {
    if j !in procs then 6 * c.RootH() + 10 else
    match procs[j]
    case Launch(_, _) => 6 * c.RootH() + 9
    case LeafTest(_, _) => 6 * c.RootH() + 8
    case Run(pc, h, _, _, _, _) => (if h <= c.RootH() then 6 * (c.RootH() - h) else 0) + PcRank(pc)
    case Sending(_) => 2
    case Returned(_) => 1
    case Sent => 0
  }

  ghost function ProcsRank(c: Chunk, procs: map<nat, Proc>, n: nat): nat
    requires c.Valid()
  {
    if n == 0 then 0 else ProcsRank(c, procs, n - 1) + ProcRank(c, procs, n - 1)
  }

  ghost function MainRank(c: Chunk, m: Main): nat
    requires c.Valid()
  {
    match m
    case Writing(_) => c.RootH() + c.depth + 6
    case Finalising(h, _, _) => if h <= c.RootH() then c.RootH() - h + c.depth + 5 else c.depth + 5
    case Closing(_) => c.depth + 4
    case Waiting => c.depth + 3
    case Releasing(h, _) => if h <= c.depth then c.depth - h + 1 else 1
    case Done(_) => 0
  }

  ghost function Rank(c: Chunk, s: State): nat
    requires c.Valid()
  {
    MainRank(c, s.main) + ProcsRank(c, s.procs, c.Last() + 1)
  }

  lemma {:induction false} RankDrops(c: Chunk, procs: map<nat, Proc>, j: nat, p: Proc, n: nat)
    requires c.Valid() && ProcRank(c, procs[j := p], j) < ProcRank(c, procs, j)
    ensures j < n ==> ProcsRank(c, procs[j := p], n) < ProcsRank(c, procs, n)
    ensures j >= n ==> ProcsRank(c, procs[j := p], n) == ProcsRank(c, procs, n)
  {
    if n > 0 {
      RankDrops(c, procs, j, p, n - 1);
    }
  }

  /** At the root a goroutine sends; it does not climb further. */
  lemma RootFlag(c: Chunk, used: nat, s: State, j: nat)
    requires Inv(c, used, s) && j in s.procs && c.Last() in s.procs
    ensures Pos(c.RootH(), Anc(j, c.RootH())) in s.nodes && s.nodes[Pos(c.RootH(), Anc(j, c.RootH()))].root
  {
    OnTree(c, j, c.RootH());
    Heights(c);
    assert NodeOk(c, s, c.RootH(), Anc(j, c.RootH()));
  }

  lemma RootTestDrops(c: Chunk, used: nat, s: State, j: nat)
    requires Inv(c, used, s) && Runs(s, j, RootTest)
    ensures ProcRank(c, DoRootTest(s, j).procs, j) < ProcRank(c, s.procs, j)
  {
    assert ProcOk(c, s, j);
    if s.procs[j].h == c.RootH() {
      OnTree(c, j, c.RootH());
      OnTree(c, c.Last(), c.RootH());
      RootFlag(c, used, s, j);
    }
  }

  lemma PlainDrops(c: Chunk, s: State, j: nat)
    requires c.Valid() && CanExec(s, j) && !(s.procs[j].Run? && s.procs[j].pc == RootTest)
    ensures ProcRank(c, Exec(c, s, j).procs, j) < ProcRank(c, s.procs, j)
  {
  }

  lemma ProcDrops(c: Chunk, used: nat, s: State, j: nat)
    requires Inv(c, used, s) && CanExec(s, j)
    ensures ProcRank(c, Exec(c, s, j).procs, j) < ProcRank(c, s.procs, j)
  {
    if s.procs[j].Run? && s.procs[j].pc == RootTest {
      RootTestDrops(c, used, s, j);
    } else {
      PlainDrops(c, s, j);
    }
  }

  /** A step of goroutine j changes no other goroutine and not the hashing thread. */
  lemma ExecIsLocal(c: Chunk, s: State, j: nat)
    requires CanExec(s, j)
    ensures var s' := Exec(c, s, j); j in s'.procs && s'.procs == s.procs[j := s'.procs[j]] && s'.main == s.main
  {
  }

  lemma ExecDrops(c: Chunk, used: nat, s: State, j: nat)
    requires Inv(c, used, s) && CanExec(s, j)
    ensures Rank(c, Exec(c, s, j)) < Rank(c, s)
  {
    ProcDrops(c, used, s, j);
    assert j <= c.Last();
    LocalDrops(c, s, j);
  }

  lemma LocalDrops(c: Chunk, s: State, j: nat)
    requires c.Valid() && CanExec(s, j) && j <= c.Last()
    requires ProcRank(c, Exec(c, s, j).procs, j) < ProcRank(c, s.procs, j)
    ensures Rank(c, Exec(c, s, j)) < Rank(c, s)
  {
    ExecIsLocal(c, s, j);
    RankDrops(c, s.procs, j, Exec(c, s, j).procs[j], c.Last() + 1);
  }

  lemma ReceiveDrops(c: Chunk, used: nat, s: State, j: nat)
    requires Inv(c, used, s) && CanReceive(s, j)
    ensures Rank(c, Receive(s, j)) < Rank(c, s)
  {
    assert j <= c.Last();
    RankDrops(c, s.procs, j, Sent, c.Last() + 1);
  }

  lemma StepDrops(c: Chunk, used: nat, s: State, s': State)
    requires Good(c, used, s) && Step(c, s, s')
    ensures Rank(c, s') < Rank(c, s)
  {
    if CanMain(c, s) && s' == MainStep(c, s) {
      MainDrops(c, used, s);
    } else if j :| CanReceive(s, j) && s' == Receive(s, j) {
      assert Inv(c, used, s);
      ReceiveDrops(c, used, s, j);
    } else {
      var j :| CanExec(s, j) && s' == Exec(c, s, j);
      assert Inv(c, used, s);
      ExecDrops(c, used, s, j);
    }
  }

  lemma MainDrops(c: Chunk, used: nat, s: State)
    requires Good(c, used, s) && CanMain(c, s)
    ensures Rank(c, MainStep(c, s)) < Rank(c, s)
  {
    var s' := MainStep(c, s);
    if s.main.Writing? || s.main.Closing? {
      LaunchDrops(c, used, s);
    } else if s.main.Finalising? {
      PathStops(c, s.main.h);
    }
  }

  lemma LaunchDrops(c: Chunk, used: nat, s: State)
    requires Inv(c, used, s) && CanMain(c, s) && (s.main.Writing? || s.main.Closing?)
    ensures Rank(c, MainStep(c, s)) < Rank(c, s)
  {
    var s' := MainStep(c, s);
    if s.main.Writing? && s.main.next < c.Last() {
      RankDrops(c, s.procs, s.main.next, s'.procs[s.main.next], c.Last() + 1);
    } else if s.main.Closing? {
      RankDrops(c, s.procs, c.Last(), s'.procs[c.Last()], c.Last() + 1);
    }
  }

  ghost predicate IsRun(c: Chunk, run: seq<State>)
    requires c.Valid()
  {
    |run| >= 1 && forall i | 0 <= i < |run| - 1 :: Step(c, run[i], run[i + 1])
  }

  lemma {:induction false} RunGood(c: Chunk, used: nat, run: seq<State>)
    requires c.Valid() && used < 0x4000_0000 && IsRun(c, run) && Init(c, used, run[0])
    ensures Good(c, used, run[|run| - 1])
    ensures |run| - 1 + Rank(c, run[|run| - 1]) <= Rank(c, run[0])
    decreases |run|
  {
    if |run| == 1 {
      InitInv(c, used, run[0]);
    } else {
      var n := |run| - 1;
      var front := run[..n];
      forall i | 0 <= i < |front| - 1 ensures Step(c, front[i], front[i + 1]) {
        assert Step(c, run[i], run[i + 1]);
      }
      RunGood(c, used, front);
      assert Step(c, run[n - 1], run[n]);
      StepGood(c, used, run[n - 1], run[n]);
      StepDrops(c, used, run[n - 1], run[n]);
    }
  }

  // ---------- the main theorem ----------

  /** The number of levels below the top that NewTree builds for a segment count. */
  function Bits(l: nat): nat {
    if l == 0 then 0 else 1 + Bits(l / 2)
  }

  method Depth(n: int) returns (d: nat)
    requires n >= 1
    ensures d == Bits((n - 1) / 2)
  {
    d := 0;
    var l := (n - 1) / 2;
    while l > 0
      invariant l >= 0 && d + Bits(l) == Bits((n - 1) / 2)
    {
      l := l / 2;
      d := d + 1;
    }
  }

  lemma {:induction false} BitsCover(l: nat)
    ensures l < Pow2(Bits(l))
  {
    if l > 0 {
      BitsCover(l / 2);
    }
  }

  lemma {:induction false} SegmentCount(size: nat, d: Bytes, count: nat)
    requires size >= 1 && count >= 1 && |d| <= count * size
    ensures |Segments(size, d)| <= (count + 1) / 2
    decreases |d|
  {
    if |d| > 2 * size {
      assert count == 1 ==> count * size == size;
      assert count == 2 ==> count * size == 2 * size;
      assert (count - 2) * size == count * size - 2 * size;
      SegmentCount(size, d[2 * size..], count - 2);
    }
  }

  /** The chunk d on a tree built for `count` segments. */
  ghost function ChunkOf(H: BaseHash, size: nat, count: nat, d: Bytes): (c: Chunk)
    requires size >= 1 && count >= 1 && |d| <= count * size
    ensures c.Valid() && Flat(c.segs) == d
  {
    SegmentsWellCut(size, d);
    SegmentCount(size, d, count);
    BitsCover((count - 1) / 2);
    Chunk(H, size, Bits((count - 1) / 2), Segments(size, d))
  }

  /**
    For every segment count, every data that fits and every interleaving, on a
    tree that has hashed fewer than 2^30 chunks: the run is bounded, whatever it
    stops at is the reference hash with the tree clean, and it stops nowhere else.
   */
  lemma HasherRefinesReference(H: BaseHash, size: nat, count: nat, d: Bytes, used: nat, run: seq<State>)
    requires size >= 1 && count >= 1 && |d| <= count * size && used < 0x4000_0000
    requires IsRun(ChunkOf(H, size, count, d), run) && Init(ChunkOf(H, size, count, d), used, run[0])
    ensures var c := ChunkOf(H, size, count, d);
            var s := run[|run| - 1];
            && |run| <= Rank(c, run[0]) + 1
            && (CanStep(c, s) <==> !s.main.Done?)
            && (s.main.Releasing? || s.main.Done? ==> s.main.result == Root(H, size, d))
            && (s.main.Done? ==> Clean(c.depth, used + 1, s.nodes))
  {
    var c := ChunkOf(H, size, count, d);
    var s := run[|run| - 1];
    RunGood(c, used, run);
    if !s.main.Done? {
      NeverStuck(c, used, s);
    }
  }
}
