/** The steps of the hashing thread keep the invariant; so does every step before the result is received. */
module BmtMain {
  import opened BmtTree
  import opened BmtProtocol
  import opened BmtInvariant
  import opened BmtSteps

  lemma ExecInv(c: Chunk, used: nat, s: State, j: nat)
    requires Inv(c, used, s) && CanExec(s, j)
    ensures Inv(c, used, Exec(c, s, j))
  {
    if s.procs[j].Launch? {
      LaunchInv(c, used, s, j);
    } else if s.procs[j].LeafTest? {
      LeafTestInv(c, used, s, j);
    } else {
      RunInv(c, used, s, j);
    }
  }

  lemma RunInv(c: Chunk, used: nat, s: State, j: nat)
    requires Inv(c, used, s) && CanExec(s, j) && s.procs[j].Run?
    ensures Inv(c, used, Exec(c, s, j))
  {
    match s.procs[j].pc
    case Write => WriteInv(c, used, s, j);
    case Test =>
      if s.nodes[Pos(s.procs[j].h, Anc(j, s.procs[j].h))].unbalanced {
        TestUnbalancedInv(c, used, s, j);
      } else {
        TestInv(c, used, s, j);
      }
    case Toggle => ToggleInv(c, used, s, j);
    case Combine => CombineInv(c, used, s, j);
    case RootTest =>
      assert ProcOk(c, s, j);
      if s.procs[j].h == c.RootH() {
        SendInv(c, used, s, j);
      } else {
        ClimbInv(c, used, s, j);
      }
  }

  // ---------- launching ----------

  /** A new goroutine, with the tree as it is. */
  lemma NewProc(c: Chunk, used: nat, s: State, s': State, j: nat, p: Proc)
    requires Inv(c, used, s) && j !in s.procs && j <= c.Last()
    requires s'.nodes == s.nodes && s'.procs == s.procs[j := p] && MainOk(c, s'.main)
    requires forall h :: Finalised(c, s.main, h) == Finalised(c, s'.main, h)
    requires forall i: nat :: Started(c, s'.main, i) <==> Started(c, s.main, i) || i == j
    requires Won(c, p) == -1 && Passed(c, p) == -1 && !p.Returned? && ProcOk(c, s', j)
    ensures Inv(c, used, s')
  {
    forall i | i in s'.procs ensures i <= c.Last() && ProcOk(c, s', i) {
      if i != j {
        assert ProcOk(c, s, i);
        ProcOkFrame(c, s, s', i);
      }
    }
    assert ProcsOk(c, s');
    UniqueFrame(c, s, s', j);
    SameFlags(c, used, s, s');
  }

  /** Nodes and toggles do not notice a launch. */
  lemma SameFlags(c: Chunk, used: nat, s: State, s': State)
    requires c.Valid() && NodesOk(c, s) && TogglesOk(c, used, s)
    requires s'.nodes == s.nodes
    requires forall h :: Finalised(c, s.main, h) == Finalised(c, s'.main, h)
    requires forall i, h, k :: ReturnedAt(s, i, h, k) == ReturnedAt(s', i, h, k)
    requires forall i, h, k :: ThroughAt(c, s, i, h, k) == ThroughAt(c, s', i, h, k)
    ensures NodesOk(c, s') && TogglesOk(c, used, s')
  {
    forall h, k | InTree(c.depth, h, k) ensures NodeOk(c, s', h, k) {
      assert NodeOk(c, s, h, k);
    }
    forall h, k | 1 <= h && InTree(c.depth, h, k) ensures Pos(h, k) in s'.nodes && ToggleOk(c, used, s', h, k) {
      assert ToggleOk(c, used, s, h, k);
      ToggleFrame(c, used, s, s', h, k);
    }
  }

  lemma LaunchNextInv(c: Chunk, used: nat, s: State)
    requires Inv(c, used, s) && s.main.Writing? && s.main.next < c.Last()
    ensures Inv(c, used, MainStep(c, s))
  {
    var j := s.main.next;
    var p := WriteSegment(c, j, c.segs[j], c.depth);
    var s' := MainStep(c, s);
    assert c.depth > 0;
    assert p == Launch(c.segs[j], c.depth);
    assert ProcOk(c, s', j);
    NewProc(c, used, s, s', j, p);
  }

  lemma LaunchLastInv(c: Chunk, used: nat, s: State)
    requires Inv(c, used, s) && s.main.Closing?
    ensures Inv(c, used, MainStep(c, s))
  {
    var j := c.Last();
    var s' := MainStep(c, s);
    Heights(c);
    OnTree(c, j, 0);
    assert NodeOk(c, s, 0, j);
    assert j !in s.procs;
    assert ProcOk(c, s', j);
    NewProc(c, used, s, s', j, s'.procs[j]);
  }

  lemma StartFinaliseInv(c: Chunk, used: nat, s: State)
    requires Inv(c, used, s) && s.main.Writing? && s.main.next >= c.Last()
    ensures Inv(c, used, MainStep(c, s))
  {
    var s' := MainStep(c, s);
    Heights(c);
    assert forall i, h, k :: ThroughAt(c, s, i, h, k) == ThroughAt(c, s', i, h, k);
    SameFlags(c, used, s, s');
    forall i | i in s'.procs ensures i <= c.Last() && ProcOk(c, s', i) {
      assert ProcOk(c, s, i);
      ProcOkFrame(c, s, s', i);
    }
    SameUnique(c, s, s');
  }

  lemma SameUnique(c: Chunk, s: State, s': State)
    requires c.Valid() && Unique(c, s) && s'.procs == s.procs
    ensures Unique(c, s')
  {
    forall i, l, h | WonAt(c, s', i, h) && WonAt(c, s', l, h) && Anc(i, h) == Anc(l, h) ensures i == l {
      assert WonAt(c, s, i, h) && WonAt(c, s, l, h);
    }
  }

  // ---------- finalise ----------

  /** Before the final leaf is launched, whoever relies on a node of its path came from the other, left, side. */
  lemma PathUnwatched(c: Chunk, used: nat, s: State, i: nat, h: nat)
    requires Inv(c, used, s) && s.main.Finalising? && s.main.h == h
    requires i in s.procs && (s.procs[i].Run? || s.procs[i].Returned?)
    requires Watched(i, s.procs[i]) == Pos(h, Anc(c.Last(), h))
    ensures (s.procs[i].Run? && s.procs[i].pc in {Write, RootTest})
            || (h >= 1 && FromLeft(i, h) && Anc(c.Last(), h - 1) % 2 == 1)
    ensures !(s.procs[i].Run? && s.procs[i].pc == Combine)
  {
    assert ProcOk(c, s, i);
    if h >= 1 {
      AncMonotone(i, c.Last(), h - 1);
    }
  }

  lemma FinalisedProcs(c: Chunk, used: nat, s: State)
    requires Inv(c, used, s) && s.main.Finalising? && CanMain(c, s)
    ensures ProcsOk(c, MainStep(c, s))
  {
    var s' := MainStep(c, s);
    var h, k := s.main.h, Anc(c.Last(), s.main.h);
    PathStops(c, s.main.h);
    forall i | i in s'.procs ensures i <= c.Last() && ProcOk(c, s', i) {
      assert ProcOk(c, s, i);
      if (s.procs[i].Run? || s.procs[i].Returned?) && Watched(i, s.procs[i]) == Pos(h, k) {
        PathUnwatched(c, used, s, i, h);
      } else {
        ProcOkFrame(c, s, s', i);
      }
    }
  }

  lemma PathStops(c: Chunk, h: nat)
    requires c.Valid() && h <= c.RootH()
    ensures Anc(c.Last(), h) == 0 <==> h == c.RootH()
  {
    RootHeightIsLeast(c.Last(), h);
  }

  lemma FinalisedNodes(c: Chunk, used: nat, s: State)
    requires Inv(c, used, s) && s.main.Finalising? && CanMain(c, s)
    ensures NodesOk(c, MainStep(c, s)) && LeavesOk(c, used, MainStep(c, s))
  {
    var s' := MainStep(c, s);
    PathStops(c, s.main.h);
    forall h, k | InTree(c.depth, h, k) ensures NodeOk(c, s', h, k) {
      assert NodeOk(c, s, h, k);
    }
  }

  lemma FinalisedToggles(c: Chunk, used: nat, s: State)
    requires Inv(c, used, s) && s.main.Finalising? && CanMain(c, s)
    ensures TogglesOk(c, used, MainStep(c, s))
  {
    var s' := MainStep(c, s);
    PathStops(c, s.main.h);
    forall h, k | 1 <= h && InTree(c.depth, h, k) ensures Pos(h, k) in s'.nodes && ToggleOk(c, used, s', h, k) {
      assert ToggleOk(c, used, s, h, k);
      ToggleFrame(c, used, s, s', h, k);
    }
  }

  lemma FinaliseInv(c: Chunk, used: nat, s: State)
    requires Inv(c, used, s) && s.main.Finalising? && CanMain(c, s)
    ensures Inv(c, used, MainStep(c, s))
  {
    var s' := MainStep(c, s);
    PathStops(c, s.main.h);
    FinalisedProcs(c, used, s);
    FinalisedNodes(c, used, s);
    FinalisedToggles(c, used, s);
    SameUnique(c, s, s');
  }

  lemma MainInv(c: Chunk, used: nat, s: State)
    requires Inv(c, used, s) && CanMain(c, s)
    ensures Inv(c, used, MainStep(c, s))
  {
    match s.main
    case Writing(next) =>
      if next < c.Last() {
        LaunchNextInv(c, used, s);
      } else {
        StartFinaliseInv(c, used, s);
      }
    case Finalising(_, _, _) => FinaliseInv(c, used, s);
    case Closing(_) => LaunchLastInv(c, used, s);
  }
}
