/** What every step of the parallel hasher keeps, from the first write until the result is received. */
module BmtInvariant {
  import opened ByteStrings
  import opened BmtTree
  import opened BmtProtocol

  /** Path nodes at height h have been visited by finalise. */
  ghost predicate Finalised(c: Chunk, m: Main, h: nat)
    requires c.Valid()
  {
    match m
    case Writing(_) => false
    case Finalising(hh, _, _) => Start(c) <= h < hh
    case _ => Start(c) <= h <= c.RootH()
  }

  /** Node (h, k) is on the final path, visited by finalise, and the final leaf is on its left. */
  ghost predicate Unbalanced(c: Chunk, m: Main, h: nat, k: nat)
    requires c.Valid()
  {
    Finalised(c, m, h) && k == Anc(c.Last(), h) && (h == 0 || Anc(c.Last(), h - 1) % 2 == 0)
  }

  ghost predicate Started(c: Chunk, m: Main, j: nat)
    requires c.Valid()
  {
    match m
    case Writing(next) => j < next
    case Waiting => j <= c.Last()
    case _ => j < c.Last()
  }

  ghost predicate MainOk(c: Chunk, m: Main)
    requires c.Valid()
  {
    match m
    case Writing(next) => next <= c.Last()
    case Finalising(h, isLeft, d) =>
      Start(c) <= h <= c.RootH() && d == h - Start(c) && isLeft == (h == 0 || Anc(c.Last(), h - 1) % 2 == 0)
    case Closing(d) => d == c.RootH() - Start(c)
    case Waiting => true
    case _ => false
  }

  ghost predicate NodeOk(c: Chunk, s: State, h: nat, k: nat)
    requires c.Valid()
  {
    && Pos(h, k) in s.nodes
    && var n := s.nodes[Pos(h, k)];
    && (n.unbalanced <==> Unbalanced(c, s.main, h, k))
    && (n.root <==> h == c.depth || (Finalised(c, s.main, h) && h == c.RootH() && k == 0))
    && (n.unbalanced ==> n.right == [])
  }

  ghost predicate NodesOk(c: Chunk, s: State)
    requires c.Valid()
  {
    forall h, k | InTree(c.depth, h, k) :: NodeOk(c, s, h, k)
  }

  /** The height up to which goroutine p has computed the value of its ancestors; -1 for none. */
  ghost function Won(c: Chunk, p: Proc): int
    requires c.Valid()
  {
    match p
    case Launch(_, _) => -1
    case LeafTest(_, _) => 0
    case Run(pc, h, _, _, _, _) => if pc == RootTest then h else h - 1
    case Returned(h) => h - 1
    case _ => c.RootH()
  }

  /** What goroutine j brings to the node at height h. */
  ghost function Brings(c: Chunk, j: nat, h: nat): Bytes
    requires c.Valid() && j <= c.Last()
  {
    AncMonotone(j, c.Last(), if h == 0 then 0 else h - 1);
    if h == 0 then c.segs[j] else c.Out(h - 1, Anc(j, h - 1))
  }

  ghost function Slot(n: Node, isLeft: bool): Bytes {
    if isLeft then n.left else n.right
  }

  ghost predicate FromLeft(j: nat, h: nat) {
    h == 0 || Anc(j, h - 1) % 2 == 0
  }

  /** Node (h, k) holds the values of both its children, each of which has data. */
  ghost predicate BothSlots(c: Chunk, n: Node, h: nat, k: nat)
    requires c.Valid()
  {
    && h >= 1 && 2 * k + 1 <= Anc(c.Last(), h - 1)
    && n.left == c.Out(h - 1, 2 * k)
    && n.right == c.Out(h - 1, 2 * k + 1)
  }

  /** A goroutine that speaks for the final leaf's ancestor at height w exists only once the final leaf is launched. */
  ghost predicate Owns(c: Chunk, s: State, j: nat, w: int)
    requires c.Valid()
  {
    w >= 0 && Anc(j, w) == Anc(c.Last(), w) ==> c.Last() in s.procs
  }

  ghost predicate ProcOk(c: Chunk, s: State, j: nat)
    requires c.Valid() && j <= c.Last() && j in s.procs
  {
    var p := s.procs[j];
    && Owns(c, s, j, Won(c, p))
    && match p
       case Launch(seg, d) =>
         seg == c.segs[j] && |seg| > c.size && c.depth > 0 && (j == 0 < c.Last() ==> d > 0)
       case LeafTest(v, d) =>
         v == Brings(c, j, 1) && c.depth > 0 && (j == 0 < c.Last() ==> d > 0)
       case Run(pc, h, isLeft, i, d, v) =>
         && h <= c.RootH()
         && isLeft == FromLeft(j, h)
         && (h == 0 ==> j == c.Last() && Start(c) == 0)
         && (i == 0 && d == 0 <==> c.Last() == 0)
         && (c.Last() == 0 ==> h == 0)
         && Pos(h, Anc(j, h)) in s.nodes
         && (var n := s.nodes[Pos(h, Anc(j, h))];
             var u := Unbalanced(c, s.main, h, Anc(j, h));
             match pc
             case Write => v == Brings(c, j, h)
             case Test => Slot(n, isLeft) == Brings(c, j, h)
             case Toggle => Slot(n, isLeft) == Brings(c, j, h) && !u
             case Combine =>
               && Owns(c, s, j, h)
               && if u then n.left == Brings(c, j, h) && isLeft else BothSlots(c, n, h, Anc(j, h))
             case RootTest => v == Brings(c, j, h + 1))
       case Sending(v) => c.Last() in s.procs && v == Brings(c, j, c.RootH() + 1)
       case Returned(h) =>
         && 1 <= h <= c.RootH()
         && Pos(h, Anc(j, h)) in s.nodes
         && Slot(s.nodes[Pos(h, Anc(j, h))], FromLeft(j, h)) == Brings(c, j, h)
         && !Unbalanced(c, s.main, h, Anc(j, h))
       case Sent => false
  }

  ghost predicate ProcsOk(c: Chunk, s: State)
    requires c.Valid()
  {
    && (forall j | j in s.procs :: Started(c, s.main, j))
    && (forall j: nat | Started(c, s.main, j) :: j in s.procs)
    && (forall j | j in s.procs :: j <= c.Last() && ProcOk(c, s, j))
  }

  ghost predicate WonAt(c: Chunk, s: State, j: nat, h: nat)
    requires c.Valid()
  {
    j in s.procs && h <= Won(c, s.procs[j])
  }

  /** No two goroutines have computed the value of the same node. */
  ghost predicate Unique(c: Chunk, s: State)
    requires c.Valid()
  {
    forall i, j, h | WonAt(c, s, i, h) && WonAt(c, s, j, h) && Anc(i, h) == Anc(j, h) :: i == j
  }

  ghost predicate ReturnedAt(s: State, j: nat, h: nat, k: nat) {
    j in s.procs && s.procs[j] == Returned(h) && Anc(j, h) == k
  }

  /** The greatest height at which goroutine p is past the toggle. */
  ghost function Passed(c: Chunk, p: Proc): int
    requires c.Valid()
  {
    if p.Run? && p.pc == Combine then p.h else Won(c, p)
  }

  /** Goroutine j is past the toggle of node (h, k). */
  ghost predicate ThroughAt(c: Chunk, s: State, j: nat, h: nat, k: nat)
    requires c.Valid()
  {
    j in s.procs && Anc(j, h) == k && h <= Passed(c, s.procs[j])
  }

  /** The counter of node (h, k) tells how many goroutines have been through its toggle. */
  ghost predicate ToggleOk(c: Chunk, used: nat, s: State, h: nat, k: nat)
    requires c.Valid() && Pos(h, k) in s.nodes
  {
    var x := s.nodes[Pos(h, k)].state;
    && (forall i, j | ReturnedAt(s, i, h, k) && ReturnedAt(s, j, h, k) :: i == j)
    && if x % 2 == 1 then
         && 1 <= x <= 2 * used + 1
         && (exists j :: ReturnedAt(s, j, h, k))
         && (forall j :: !ThroughAt(c, s, j, h, k))
       else if exists j :: ReturnedAt(s, j, h, k) then
         && Counter(x, used + 1)
         && (exists j :: ThroughAt(c, s, j, h, k))
       else
         && 0 <= x <= 2 * used
         && ((exists j :: ThroughAt(c, s, j, h, k)) ==> Unbalanced(c, s.main, h, k))
  }

  ghost predicate TogglesOk(c: Chunk, used: nat, s: State)
    requires c.Valid()
  {
    forall h, k | 1 <= h && InTree(c.depth, h, k) :: Pos(h, k) in s.nodes && ToggleOk(c, used, s, h, k)
  }

  /** Leaf nodes are never toggled. */
  ghost predicate LeavesOk(c: Chunk, used: nat, s: State)
    requires c.Valid()
  {
    forall k | InTree(c.depth, 0, k) :: Pos(0, k) in s.nodes && Counter(s.nodes[Pos(0, k)].state, used)
  }

  ghost predicate Inv(c: Chunk, used: nat, s: State) {
    && c.Valid() && used < 0x4000_0000
    && MainOk(c, s.main)
    && NodesOk(c, s)
    && ProcsOk(c, s)
    && Unique(c, s)
    && TogglesOk(c, used, s)
    && LeavesOk(c, used, s)
  }

  lemma InitInv(c: Chunk, used: nat, s: State)
    requires c.Valid() && used < 0x4000_0000 && Init(c, used, s)
    ensures Inv(c, used, s)
  {
  }
}
