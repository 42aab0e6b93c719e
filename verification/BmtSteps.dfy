/** Every step of the parallel hasher before the result is received keeps the invariant. */
module BmtSteps {
  import opened BmtTree
  import opened BmtProtocol
  import opened BmtInvariant

  // ---------- the tree around a goroutine ----------

  lemma Heights(c: Chunk)
    requires c.Valid()
    ensures Start(c) <= c.RootH() <= c.depth
    ensures c.RootH() == 0 <==> c.Last() == 0
  {
    AncInTree(c.Last(), c.depth, c.depth);
    RootHeightIsLeast(c.Last(), c.depth);
  }

  lemma OnTree(c: Chunk, j: nat, h: nat)
    requires c.Valid() && j <= c.Last() && h <= c.RootH()
    ensures InTree(c.depth, h, Anc(j, h)) && Anc(j, h) <= Anc(c.Last(), h)
    ensures h == c.RootH() ==> Anc(j, h) == 0
    ensures h < c.RootH() ==> Anc(c.Last(), h) > 0
  {
    Heights(c);
    AncInTree(j, h, c.depth);
    AncMonotone(j, c.Last(), h);
    RootHeightIsLeast(c.Last(), h);
  }

  /** Two goroutines that reach node (h, k) come from different children. */
  lemma Siblings(c: Chunk, s: State, i: nat, j: nat, h: nat)
    requires c.Valid() && Unique(c, s) && h >= 1 && i != j
    requires WonAt(c, s, i, h - 1) && WonAt(c, s, j, h - 1) && Anc(i, h) == Anc(j, h)
    ensures FromLeft(i, h) != FromLeft(j, h)
  {
    assert Anc(i, h - 1) != Anc(j, h - 1);
  }

  lemma NoThree(c: Chunk, s: State, i: nat, j: nat, l: nat, h: nat)
    requires c.Valid() && Unique(c, s) && h >= 1
    requires WonAt(c, s, i, h - 1) && WonAt(c, s, j, h - 1) && WonAt(c, s, l, h - 1)
    requires Anc(i, h) == Anc(j, h) == Anc(l, h)
    ensures i == j || i == l || j == l
  {
    assert Anc(i, h - 1) == Anc(j, h - 1) || Anc(i, h - 1) == Anc(l, h - 1) || Anc(j, h - 1) == Anc(l, h - 1);
  }

  // ---------- steps that change one goroutine only ----------

  lemma ToggleFrame(c: Chunk, used: nat, s: State, s': State, h: nat, k: nat)
    requires c.Valid() && Pos(h, k) in s.nodes && Pos(h, k) in s'.nodes
    requires ToggleOk(c, used, s, h, k)
    requires s'.nodes[Pos(h, k)].state == s.nodes[Pos(h, k)].state
    requires forall i :: ReturnedAt(s, i, h, k) == ReturnedAt(s', i, h, k)
    requires forall i :: ThroughAt(c, s, i, h, k) == ThroughAt(c, s', i, h, k)
    requires Unbalanced(c, s.main, h, k) ==> Unbalanced(c, s'.main, h, k)
    ensures ToggleOk(c, used, s', h, k)
  {
  }

  /** The node whose contents goroutine i relies on. */
  ghost function Watched(i: nat, p: Proc): Pos {
    if p.Run? || p.Returned? then Pos(p.h, Anc(i, p.h)) else Pos(0, i)
  }

  /** Goroutine i does not notice a step that leaves it and the node it relies on alone. */
  lemma ProcOkFrame(c: Chunk, s: State, s': State, i: nat)
    requires c.Valid() && i <= c.Last() && i in s.procs && i in s'.procs
    requires ProcOk(c, s, i) && s'.procs[i] == s.procs[i]
    requires c.Last() in s.procs ==> c.Last() in s'.procs
    requires s.procs[i].Run? || s.procs[i].Returned? ==>
               var at := Watched(i, s.procs[i]);
               && at in s.nodes && at in s'.nodes
               && s'.nodes[at].left == s.nodes[at].left && s'.nodes[at].right == s.nodes[at].right
               && Unbalanced(c, s'.main, at.h, at.k) == Unbalanced(c, s.main, at.h, at.k)
    ensures ProcOk(c, s', i)
  {
  }

  lemma UniqueFrame(c: Chunk, s: State, s': State, j: nat)
    requires c.Valid() && Unique(c, s) && j in s'.procs
    requires forall i | i in s'.procs && i != j :: i in s.procs && s'.procs[i] == s.procs[i]
    requires Alone(c, s, j, Won(c, s'.procs[j]))
    ensures Unique(c, s')
  {
    forall i, l, h | WonAt(c, s', i, h) && WonAt(c, s', l, h) && Anc(i, h) == Anc(l, h) ensures i == l {
      assert i != j ==> WonAt(c, s, i, h);
      assert l != j ==> WonAt(c, s, l, h);
    }
  }

  /** No goroutine but j has computed the value of one of j's ancestors up to height w. */
  ghost predicate Alone(c: Chunk, s: State, j: nat, w: int)
    requires c.Valid()
  {
    forall i, h: nat | h <= w && WonAt(c, s, i, h) && Anc(i, h) == Anc(j, h) :: i == j
  }

  /** Goroutine j passes no toggle when it becomes p. */
  ghost predicate SameThrough(c: Chunk, q: Proc, p: Proc)
    requires c.Valid()
  {
    !q.Returned? && !p.Returned? && (Passed(c, q) == Passed(c, p) || (Passed(c, q) <= 0 && Passed(c, p) <= 0))
  }

  lemma TogglesFrame(c: Chunk, used: nat, s: State, j: nat, p: Proc)
    requires c.Valid() && TogglesOk(c, used, s) && j in s.procs && SameThrough(c, s.procs[j], p)
    ensures TogglesOk(c, used, SetProc(s, j, p))
  {
    var s' := SetProc(s, j, p);
    forall h, k | 1 <= h && InTree(c.depth, h, k) ensures Pos(h, k) in s'.nodes && ToggleOk(c, used, s', h, k) {
      assert ToggleOk(c, used, s, h, k);
      ToggleFrame(c, used, s, s', h, k);
    }
  }

  lemma NodesFrame(c: Chunk, s: State, procs: map<nat, Proc>)
    requires c.Valid() && NodesOk(c, s)
    ensures NodesOk(c, s.(procs := procs))
  {
    forall h, k | InTree(c.depth, h, k) ensures NodeOk(c, s.(procs := procs), h, k) {
      assert NodeOk(c, s, h, k);
    }
  }

  lemma ProcsFrame(c: Chunk, s: State, j: nat, p: Proc)
    requires c.Valid() && ProcsOk(c, s) && j in s.procs
    requires ProcOk(c, SetProc(s, j, p), j)
    ensures ProcsOk(c, SetProc(s, j, p))
  {
    var s' := SetProc(s, j, p);
    forall i | i in s'.procs ensures i <= c.Last() && ProcOk(c, s', i) {
      if i != j {
        assert ProcOk(c, s, i);
        ProcOkFrame(c, s, s', i);
      }
    }
  }

  /** Replacing goroutine j's control state, leaving the nodes alone and passing no toggle. */
  lemma ProcFrame(c: Chunk, used: nat, s: State, j: nat, p: Proc)
    requires Inv(c, used, s) && j in s.procs
    requires SameThrough(c, s.procs[j], p)
    requires ProcOk(c, SetProc(s, j, p), j)
    requires Alone(c, s, j, Won(c, p))
    ensures Inv(c, used, SetProc(s, j, p))
  {
    ProcsFrame(c, s, j, p);
    UniqueFrame(c, s, SetProc(s, j, p), j);
    TogglesFrame(c, used, s, j, p);
    NodesFrame(c, s, s.procs[j := p]);
  }

  lemma LaunchInv(c: Chunk, used: nat, s: State, j: nat)
    requires Inv(c, used, s) && j in s.procs && Pos(0, j) in s.nodes && s.procs[j].Launch?
    ensures Inv(c, used, DoLeaf(c, s, j))
  {
    var p := s.procs[j];
    assert ProcOk(c, s, j);
    ProcFrame(c, used, s, j, LeafTest(c.H(p.seg), p.d));
  }

  lemma LeafTestInv(c: Chunk, used: nat, s: State, j: nat)
    requires Inv(c, used, s) && j in s.procs && Pos(0, j) in s.nodes && s.procs[j].LeafTest?
    ensures Inv(c, used, DoLeaf(c, s, j))
  {
    var p := s.procs[j];
    assert ProcOk(c, s, j);
    Heights(c);
    OnTree(c, j, 0);
    assert NodeOk(c, s, 0, j);
    if c.Last() > 0 {
      OnTree(c, j, 1);
      assert NodeOk(c, s, 1, Anc(j, 1));
      ProcFrame(c, used, s, j, Run(Write, 1, j % 2 == 0, j, p.d, p.v));
    } else {
      ProcFrame(c, used, s, j, Sending(p.v));
    }
  }

  lemma TestInv(c: Chunk, used: nat, s: State, j: nat)
    requires Inv(c, used, s) && Runs(s, j, Test)
    requires !s.nodes[Pos(s.procs[j].h, Anc(j, s.procs[j].h))].unbalanced
    ensures Inv(c, used, DoTest(s, j))
  {
    var p := s.procs[j];
    assert ProcOk(c, s, j);
    OnTree(c, j, p.h);
    assert NodeOk(c, s, p.h, Anc(j, p.h));
    ProcFrame(c, used, s, j, p.(pc := Toggle));
  }

  lemma SendInv(c: Chunk, used: nat, s: State, j: nat)
    requires Inv(c, used, s) && Runs(s, j, RootTest)
    requires s.procs[j].h == c.RootH()
    ensures Inv(c, used, DoRootTest(s, j))
  {
    var p := s.procs[j];
    assert ProcOk(c, s, j);
    OnTree(c, j, p.h);
    OnTree(c, c.Last(), p.h);
    Heights(c);
    assert NodeOk(c, s, p.h, Anc(j, p.h));
    ProcFrame(c, used, s, j, Sending(p.v));
  }

  /** Moving on to the parent, with the value just computed. */
  lemma ClimbOk(c: Chunk, s: State, j: nat, p: Proc)
    requires c.Valid() && j <= c.Last() && Runs(s, j, RootTest) && ProcOk(c, s, j)
    requires s.procs[j].h < c.RootH() && c.Last() > 0
    requires Pos(s.procs[j].h + 1, Anc(j, s.procs[j].h + 1)) in s.nodes
    requires var r := s.procs[j];
             p == Run(Write, r.h + 1, Anc(j, r.h) % 2 == 0, r.i + 1, r.d, r.v)
    ensures ProcOk(c, SetProc(s, j, p), j)
  {
  }

  lemma ClimbRoom(c: Chunk, used: nat, s: State, j: nat, h: nat)
    requires Inv(c, used, s) && j <= c.Last() && h < c.RootH()
    ensures Pos(h, Anc(j, h)) in s.nodes && !s.nodes[Pos(h, Anc(j, h))].root
    ensures Pos(h + 1, Anc(j, h + 1)) in s.nodes && c.Last() > 0
  {
    Heights(c);
    OnTree(c, j, h);
    OnTree(c, j, h + 1);
    assert NodeOk(c, s, h, Anc(j, h)) && NodeOk(c, s, h + 1, Anc(j, h + 1));
  }

  lemma ClimbInv(c: Chunk, used: nat, s: State, j: nat)
    requires Inv(c, used, s) && Runs(s, j, RootTest)
    requires s.procs[j].h < c.RootH()
    ensures Inv(c, used, DoRootTest(s, j))
  {
    var p := s.procs[j];
    var q := Run(Write, p.h + 1, Anc(j, p.h) % 2 == 0, p.i + 1, p.d, p.v);
    ClimbRoom(c, used, s, j, p.h);
    var s' := DoRootTest(s, j);
    assert s' == SetProc(s, j, q);
    assert Inv(c, used, s') by {
      ClimbOk(c, s, j, q);
      AloneBelow(c, s, j);
      ProcFrame(c, used, s, j, q);
    }
  }

  lemma AloneBelow(c: Chunk, s: State, j: nat)
    requires c.Valid() && Unique(c, s) && j in s.procs
    ensures Alone(c, s, j, Won(c, s.procs[j]))
  {
    forall i, h: nat | h <= Won(c, s.procs[j]) && WonAt(c, s, i, h) && Anc(i, h) == Anc(j, h) ensures i == j {
      assert WonAt(c, s, j, h);
    }
  }

  // ---------- combining ----------

  /** What is computed at a node is what the node has to produce. */
  lemma CombineValue(c: Chunk, s: State, j: nat)
    requires c.Valid() && j <= c.Last() && Runs(s, j, Combine) && ProcOk(c, s, j)
    requires NodeOk(c, s, s.procs[j].h, Anc(j, s.procs[j].h))
    ensures DoCombine(c, s, j).procs[j].v == Brings(c, j, s.procs[j].h + 1)
  {
    var p := s.procs[j];
    var n := s.nodes[Pos(p.h, Anc(j, p.h))];
    AncMonotone(j, c.Last(), p.h);
    assert n.left + [] == n.left;
    if p.h > 0 {
      AncMonotone(j, c.Last(), p.h - 1);
    }
  }

  /** On an unbalanced node everybody comes from the left. */
  lemma UnbalancedSide(c: Chunk, m: Main, j: nat, h: nat)
    requires c.Valid() && j <= c.Last() && Unbalanced(c, m, h, Anc(j, h))
    ensures FromLeft(j, h)
  {
    if h > 0 {
      AncMonotone(j, c.Last(), h - 1);
    }
  }

  /** At most one goroutine gets past the toggle of a node. */
  lemma OneThrough(c: Chunk, used: nat, s: State, i: nat, j: nat, h: nat, k: nat)
    requires Inv(c, used, s) && h >= 1 && InTree(c.depth, h, k)
    requires ThroughAt(c, s, i, h, k) && ThroughAt(c, s, j, h, k)
    ensures i == j
  {
    assert WonAt(c, s, i, h - 1) && WonAt(c, s, j, h - 1);
    if i != j {
      assert i <= c.Last() && j <= c.Last();
      Siblings(c, s, i, j, h);
      assert !Unbalanced(c, s.main, h, k) by {
        if Unbalanced(c, s.main, h, k) {
          UnbalancedSide(c, s.main, i, h);
          UnbalancedSide(c, s.main, j, h);
        }
      }
      assert ToggleOk(c, used, s, h, k);
      var l :| ReturnedAt(s, l, h, k);
      assert WonAt(c, s, l, h - 1);
      NoThree(c, s, i, j, l, h);
    }
  }

  lemma CombineInv(c: Chunk, used: nat, s: State, j: nat)
    requires Inv(c, used, s) && Runs(s, j, Combine)
    ensures Inv(c, used, DoCombine(c, s, j))
  {
    var p := s.procs[j];
    var s' := DoCombine(c, s, j);
    assert ProcOk(c, s, j);
    OnTree(c, j, p.h);
    assert NodeOk(c, s, p.h, Anc(j, p.h));
    CombineValue(c, s, j);
    assert ProcOk(c, s', j);
    AloneBelow(c, s, j);
    forall i, h: nat | h <= p.h && WonAt(c, s, i, h) && Anc(i, h) == Anc(j, h) ensures i == j {
      if h == p.h >= 1 {
        OneThrough(c, used, s, i, j, h, Anc(j, h));
      }
    }
    ProcFrame(c, used, s, j, s'.procs[j]);
  }

  // ---------- entering a node whose right side stays empty ----------

  /** Only the goroutine of the final leaf's branch can be at an unbalanced node. */
  lemma AtUnbalanced(c: Chunk, used: nat, s: State, j: nat, h: nat)
    requires Inv(c, used, s) && j in s.procs && Unbalanced(c, s.main, h, Anc(j, h)) && h <= c.RootH()
    requires Won(c, s.procs[j]) == h - 1
    requires h == 0 ==> j == c.Last()
    ensures Owns(c, s, j, h) && FromLeft(j, h)
    ensures forall i :: !ReturnedAt(s, i, h, Anc(j, h))
  {
    assert ProcOk(c, s, j);
    if h > 0 {
      OnTree(c, j, h - 1);
    }
    NobodyReturned(c, s, h, Anc(j, h));
  }

  lemma NobodyReturned(c: Chunk, s: State, h: nat, k: nat)
    requires c.Valid() && ProcsOk(c, s) && Unbalanced(c, s.main, h, k)
    ensures forall i :: !ReturnedAt(s, i, h, k)
  {
    forall i ensures !ReturnedAt(s, i, h, k) {
      if i in s.procs {
        assert ProcOk(c, s, i);
      }
    }
  }

  lemma TestUnbalancedInv(c: Chunk, used: nat, s: State, j: nat)
    requires Inv(c, used, s) && Runs(s, j, Test)
    requires s.nodes[Pos(s.procs[j].h, Anc(j, s.procs[j].h))].unbalanced
    ensures Inv(c, used, DoTest(s, j))
  {
    var p := s.procs[j];
    var s' := DoTest(s, j);
    assert ProcOk(c, s, j);
    OnTree(c, j, p.h);
    assert NodeOk(c, s, p.h, Anc(j, p.h));
    AtUnbalanced(c, used, s, j, p.h);
    ProcsFrame(c, s, j, p.(pc := Combine));
    AloneBelow(c, s, j);
    UniqueFrame(c, s, s', j);
    NodesFrame(c, s, s'.procs);
    forall h, k | 1 <= h && InTree(c.depth, h, k) ensures Pos(h, k) in s'.nodes && ToggleOk(c, used, s', h, k) {
      assert ToggleOk(c, used, s, h, k);
      assert forall i :: ReturnedAt(s, i, h, k) == ReturnedAt(s', i, h, k);
      if h != p.h || k != Anc(j, p.h) {
        ToggleFrame(c, used, s, s', h, k);
      }
    }
  }

  // ---------- storing a value ----------

  /** Nobody else at the node relies on the side that j is about to write. */
  lemma WriteUnseen(c: Chunk, used: nat, s: State, j: nat, i: nat)
    requires Inv(c, used, s) && Runs(s, j, Write) && i in s.procs && i != j
    requires Watched(i, s.procs[i]) == Pos(s.procs[j].h, Anc(j, s.procs[j].h))
    ensures s.procs[i].Run? && s.procs[i].pc in {Test, Toggle} ==> s.procs[i].isLeft != s.procs[j].isLeft
    ensures s.procs[i].Returned? ==> FromLeft(i, s.procs[i].h) != s.procs[j].isLeft
    ensures !(s.procs[i].Run? && s.procs[i].pc == Combine)
  {
    var h, k := s.procs[j].h, Anc(j, s.procs[j].h);
    assert ProcOk(c, s, j) && ProcOk(c, s, i);
    if h >= 1 && (s.procs[i].Run? || s.procs[i].Returned?) {
      assert WonAt(c, s, j, h - 1) && WonAt(c, s, i, h - 1);
      Siblings(c, s, i, j, h);
      if s.procs[i].Run? && s.procs[i].pc == Combine {
        OnTree(c, j, h);
        CombineMeans(c, used, s, i, j);
      }
    }
  }

  /** While i combines, nobody else is on the way into the node. */
  lemma CombineMeans(c: Chunk, used: nat, s: State, i: nat, j: nat)
    requires Inv(c, used, s) && Runs(s, i, Combine) && s.procs[i].h >= 1
              && InTree(c.depth, s.procs[i].h, Anc(i, s.procs[i].h))
    requires i != j && WonAt(c, s, j, s.procs[i].h - 1) && Anc(j, s.procs[i].h) == Anc(i, s.procs[i].h)
    ensures s.procs[j] == Returned(s.procs[i].h)
  {
    var h, k := s.procs[i].h, Anc(i, s.procs[i].h);
    assert WonAt(c, s, i, h - 1) && i <= c.Last() && j <= c.Last();
    Siblings(c, s, i, j, h);
    assert !Unbalanced(c, s.main, h, k) by {
      if Unbalanced(c, s.main, h, k) {
        UnbalancedSide(c, s.main, i, h);
        UnbalancedSide(c, s.main, j, h);
      }
    }
    assert ThroughAt(c, s, i, h, k);
    assert ToggleOk(c, used, s, h, k);
    var l :| ReturnedAt(s, l, h, k);
    assert WonAt(c, s, l, h - 1);
    NoThree(c, s, i, j, l, h);
  }

  ghost function Stored(s: State, j: nat): State
    requires Runs(s, j, Write)
  {
    var p := s.procs[j];
    var at := Pos(p.h, Anc(j, p.h));
    SetNode(s, at, if p.isLeft then s.nodes[at].(left := p.v) else s.nodes[at].(right := p.v))
  }

  lemma StoredProcs(c: Chunk, used: nat, s: State, j: nat)
    requires Inv(c, used, s) && Runs(s, j, Write)
    ensures ProcsOk(c, Stored(s, j))
  {
    var s' := Stored(s, j);
    forall i | i in s'.procs ensures i <= c.Last() && ProcOk(c, s', i) {
      assert ProcOk(c, s, i);
      if i != j && Watched(i, s.procs[i]) == Pos(s.procs[j].h, Anc(j, s.procs[j].h)) {
        WriteUnseen(c, used, s, j, i);
      } else if i != j {
        ProcOkFrame(c, s, s', i);
      }
    }
  }

  lemma StoredNodes(c: Chunk, used: nat, s: State, j: nat)
    requires Inv(c, used, s) && Runs(s, j, Write)
    ensures NodesOk(c, Stored(s, j)) && LeavesOk(c, used, Stored(s, j))
  {
    var s' := Stored(s, j);
    assert ProcOk(c, s, j);
    forall h, k | InTree(c.depth, h, k) ensures NodeOk(c, s', h, k) {
      assert NodeOk(c, s, h, k);
      if h == s.procs[j].h && k == Anc(j, h) && Unbalanced(c, s.main, h, k) {
        UnbalancedSide(c, s.main, j, h);
      }
    }
  }

  lemma StoredToggles(c: Chunk, used: nat, s: State, j: nat)
    requires Inv(c, used, s) && Runs(s, j, Write)
    ensures TogglesOk(c, used, Stored(s, j))
  {
    var s' := Stored(s, j);
    forall h, k | 1 <= h && InTree(c.depth, h, k) ensures Pos(h, k) in s'.nodes && ToggleOk(c, used, s', h, k) {
      assert ToggleOk(c, used, s, h, k);
      ToggleFrame(c, used, s, s', h, k);
    }
  }

  lemma WriteInv(c: Chunk, used: nat, s: State, j: nat)
    requires Inv(c, used, s) && Runs(s, j, Write)
    ensures Inv(c, used, DoWrite(s, j))
  {
    var s1 := Stored(s, j);
    var p := s.procs[j];
    StoredProcs(c, used, s, j);
    StoredNodes(c, used, s, j);
    StoredToggles(c, used, s, j);
    assert Unique(c, s1) by {
      forall i, l, h | WonAt(c, s1, i, h) && WonAt(c, s1, l, h) && Anc(i, h) == Anc(l, h) ensures i == l {
        assert WonAt(c, s, i, h) && WonAt(c, s, l, h);
      }
    }
    assert ProcOk(c, s1, j);
    AloneBelow(c, s1, j);
    ProcFrame(c, used, s1, j, p.(pc := Test));
  }

  // ---------- the toggle ----------

  /** Before j toggles an even node, nobody has returned from it or gone through it. */
  lemma ToggleFirst(c: Chunk, used: nat, s: State, j: nat)
    requires Inv(c, used, s) && Runs(s, j, Toggle)
    requires s.nodes[Pos(s.procs[j].h, Anc(j, s.procs[j].h))].state % 2 == 0
    ensures s.procs[j].h >= 1
    ensures forall i :: !ReturnedAt(s, i, s.procs[j].h, Anc(j, s.procs[j].h))
    ensures forall i :: !ThroughAt(c, s, i, s.procs[j].h, Anc(j, s.procs[j].h))
    ensures 0 <= s.nodes[Pos(s.procs[j].h, Anc(j, s.procs[j].h))].state <= 2 * used
  {
    var h, k := s.procs[j].h, Anc(j, s.procs[j].h);
    assert ProcOk(c, s, j);
    ToggleNotLeaf(c, used, s, j);
    OnTree(c, j, h);
    assert ToggleOk(c, used, s, h, k);
    assert WonAt(c, s, j, h - 1);
    forall i ensures !ReturnedAt(s, i, h, k) {
      if ReturnedAt(s, i, h, k) {
        var l :| ThroughAt(c, s, l, h, k);
        assert WonAt(c, s, i, h - 1) && WonAt(c, s, l, h - 1);
        NoThree(c, s, i, j, l, h);
      }
    }
  }

  /** Leaf nodes are only ever entered unbalanced. */
  lemma ToggleNotLeaf(c: Chunk, used: nat, s: State, j: nat)
    requires Inv(c, used, s) && Runs(s, j, Toggle)
    ensures s.procs[j].h >= 1
  {
    assert ProcOk(c, s, j);
    Heights(c);
  }

  /** The second arrival finds both values stored. */
  lemma ToggleSecond(c: Chunk, used: nat, s: State, j: nat) returns (i: nat)
    requires Inv(c, used, s) && Runs(s, j, Toggle)
    requires s.nodes[Pos(s.procs[j].h, Anc(j, s.procs[j].h))].state % 2 == 1
    ensures s.procs[j].h >= 1 && i != j && ReturnedAt(s, i, s.procs[j].h, Anc(j, s.procs[j].h))
    ensures Owns(c, s, j, s.procs[j].h)
    ensures BothSlots(c, s.nodes[Pos(s.procs[j].h, Anc(j, s.procs[j].h))], s.procs[j].h, Anc(j, s.procs[j].h))
  {
    var h, k := s.procs[j].h, Anc(j, s.procs[j].h);
    assert ProcOk(c, s, j);
    ToggleNotLeaf(c, used, s, j);
    OnTree(c, j, h);
    assert ToggleOk(c, used, s, h, k);
    i :| ReturnedAt(s, i, h, k);
    assert WonAt(c, s, j, h - 1) && WonAt(c, s, i, h - 1);
    Siblings(c, s, i, j, h);
    PairMeets(c, s, i, j, h);
  }

  /** Two goroutines with their values stored from both sides. */
  lemma PairMeets(c: Chunk, s: State, i: nat, j: nat, h: nat)
    requires c.Valid() && i <= c.Last() && j <= c.Last() && i in s.procs && j in s.procs
    requires ProcOk(c, s, i) && ProcOk(c, s, j)
    requires 1 <= h && s.procs[i] == Returned(h) && Runs(s, j, Toggle) && s.procs[j].h == h
    requires Anc(i, h) == Anc(j, h) && FromLeft(i, h) != FromLeft(j, h)
    ensures Owns(c, s, j, h) && BothSlots(c, s.nodes[Pos(h, Anc(j, h))], h, Anc(j, h))
  {
    SiblingAncestors(i, j, c.Last(), h);
  }

  /** Leaves that meet at height h from different sides are the two children's, and leave no third. */
  lemma SiblingAncestors(i: nat, j: nat, last: nat, h: nat)
    requires 1 <= h && i <= last && j <= last && Anc(i, h) == Anc(j, h) && FromLeft(i, h) != FromLeft(j, h)
    ensures var k := Anc(j, h);
            && ((Anc(i, h - 1) == 2 * k && Anc(j, h - 1) == 2 * k + 1)
               || (Anc(j, h - 1) == 2 * k && Anc(i, h - 1) == 2 * k + 1))
            && 2 * k + 1 <= Anc(last, h - 1)
            && (Anc(last, h) == k ==> Anc(last, h - 1) in {Anc(i, h - 1), Anc(j, h - 1)})
  {
    AncMonotone(i, last, h - 1);
    AncMonotone(j, last, h - 1);
  }

  lemma ToggledProcs(c: Chunk, used: nat, s: State, j: nat)
    requires Inv(c, used, s) && Runs(s, j, Toggle)
    requires ProcOk(c, DoToggle(s, j), j)
    ensures ProcsOk(c, DoToggle(s, j)) && Unique(c, DoToggle(s, j))
  {
    var s' := DoToggle(s, j);
    forall i | i in s'.procs ensures i <= c.Last() && ProcOk(c, s', i) {
      assert ProcOk(c, s, i);
      if i != j {
        ProcOkFrame(c, s, s', i);
      }
    }
    AloneBelow(c, s, j);
    UniqueFrame(c, s, s', j);
  }

  lemma ToggledNodes(c: Chunk, used: nat, s: State, j: nat)
    requires Inv(c, used, s) && Runs(s, j, Toggle)
    ensures NodesOk(c, DoToggle(s, j)) && LeavesOk(c, used, DoToggle(s, j))
  {
    var s' := DoToggle(s, j);
    ToggleNotLeaf(c, used, s, j);
    forall h, k | InTree(c.depth, h, k) ensures NodeOk(c, s', h, k) {
      assert NodeOk(c, s, h, k);
    }
  }

  lemma ToggledOthers(c: Chunk, used: nat, s: State, j: nat, h: nat, k: nat)
    requires Inv(c, used, s) && Runs(s, j, Toggle) && h >= 1 && InTree(c.depth, h, k)
    requires Pos(h, k) != Pos(s.procs[j].h, Anc(j, s.procs[j].h))
    ensures Pos(h, k) in DoToggle(s, j).nodes && ToggleOk(c, used, DoToggle(s, j), h, k)
  {
    var s' := DoToggle(s, j);
    assert ToggleOk(c, used, s, h, k);
    ToggleFrame(c, used, s, s', h, k);
  }

  lemma ToggledFirst(c: Chunk, used: nat, s: State, j: nat)
    requires Inv(c, used, s) && Runs(s, j, Toggle)
    requires s.nodes[Pos(s.procs[j].h, Anc(j, s.procs[j].h))].state % 2 == 0
    ensures ProcOk(c, DoToggle(s, j), j)
    ensures ToggleOk(c, used, DoToggle(s, j), s.procs[j].h, Anc(j, s.procs[j].h))
  {
    var s' := DoToggle(s, j);
    var h, k := s.procs[j].h, Anc(j, s.procs[j].h);
    ToggleFirst(c, used, s, j);
    assert ProcOk(c, s, j);
    assert s'.procs[j] == Returned(h);
    assert ReturnedAt(s', j, h, k);
    assert forall i | i != j :: ReturnedAt(s', i, h, k) == ReturnedAt(s, i, h, k);
    assert forall i | i != j :: ThroughAt(c, s', i, h, k) == ThroughAt(c, s, i, h, k);
  }

  lemma ToggledSecond(c: Chunk, used: nat, s: State, j: nat)
    requires Inv(c, used, s) && Runs(s, j, Toggle)
    requires s.nodes[Pos(s.procs[j].h, Anc(j, s.procs[j].h))].state % 2 == 1
    ensures ProcOk(c, DoToggle(s, j), j)
    ensures ToggleOk(c, used, DoToggle(s, j), s.procs[j].h, Anc(j, s.procs[j].h))
  {
    var s' := DoToggle(s, j);
    var h, k := s.procs[j].h, Anc(j, s.procs[j].h);
    var l := ToggleSecond(c, used, s, j);
    assert ProcOk(c, s, j);
    assert ToggleOk(c, used, s, h, k) by { OnTree(c, j, h); }
    assert s'.procs[j] == s.procs[j].(pc := Combine);
    assert ReturnedAt(s', l, h, k) && ThroughAt(c, s', j, h, k);
    assert forall i :: ReturnedAt(s', i, h, k) == ReturnedAt(s, i, h, k);
  }

  lemma ToggleInv(c: Chunk, used: nat, s: State, j: nat)
    requires Inv(c, used, s) && Runs(s, j, Toggle)
    ensures Inv(c, used, DoToggle(s, j))
  {
    var s' := DoToggle(s, j);
    if s.nodes[Pos(s.procs[j].h, Anc(j, s.procs[j].h))].state % 2 == 0 {
      ToggledFirst(c, used, s, j);
    } else {
      ToggledSecond(c, used, s, j);
    }
    ToggledProcs(c, used, s, j);
    ToggledNodes(c, used, s, j);
    forall h, k | 1 <= h && InTree(c.depth, h, k) ensures Pos(h, k) in s'.nodes && ToggleOk(c, used, s', h, k) {
      if Pos(h, k) != Pos(s.procs[j].h, Anc(j, s.procs[j].h)) {
        ToggledOthers(c, used, s, j, h, k);
      }
    }
  }
}
