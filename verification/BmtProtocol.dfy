/**
  The parallel binary Merkle tree hasher (bmt/bmt.go) as a state machine.

  The hashing thread launches one goroutine per full double segment while it is
  being written to, marks the path of the final segment in `finalise`, launches
  the final goroutine, waits for a result and cleans the path in `releaseTree`.
  Meanwhile the goroutines race up the tree: at a node they store their value,
  and the first of two arrivals gives up at the node's toggle. Storing a value,
  testing the flag, toggling, combining both halves and testing for the root are
  steps of their own, and so is each node that `finalise` or `releaseTree` visits;
  a run of the machine is an arbitrary interleaving of them.

  A goroutine is named by the leaf it was launched for.
 */
module BmtProtocol {
  import opened ByteStrings
  import opened BmtTree

  datatype Pos = Pos(h: nat, k: nat)

  /** `state` is the int32 counter behind the toggle. */
  datatype Node = Node(left: Bytes, right: Bytes, state: int, unbalanced: bool, root: bool)

  /** The program points of `run` at one node. */
  datatype Pc = Write | Test | Toggle | Combine | RootTest

  datatype Proc =
    | Launch(seg: Bytes, d: nat)
    | LeafTest(v: Bytes, d: nat)
    | Run(pc: Pc, h: nat, isLeft: bool, i: nat, d: nat, v: Bytes)
    | Sending(v: Bytes)
    | Returned(h: nat)
    | Sent

  datatype Main =
    | Writing(next: nat)
    | Finalising(h: nat, isLeft: bool, d: nat)
    | Closing(d: nat)
    | Waiting
    | Releasing(h: nat, result: Bytes)
    | Done(result: Bytes)

  datatype State = State(nodes: map<Pos, Node>, procs: map<nat, Proc>, main: Main)

  const INT32_MIN := -0x8000_0000
  const INT32_MAX := 0x7fff_ffff

  /** int32 addition of one, wrapping around. */
  function Increment(x: int): int {
    if x == INT32_MAX then INT32_MIN else x + 1
  }

  /** Go's `x % 2 == 1`: the remainder takes the sign of x, so no negative number passes. */
  predicate IsOne(x: int) {
    x >= 0 && x % 2 == 1
  }

  /** `toggle` makes exactly the first of two callers wait iff the even counter has not wrapped around. */
  lemma ToggleAlternates(x: int)
    requires INT32_MIN <= x <= INT32_MAX && x % 2 == 0
    ensures IsOne(Increment(x)) && !IsOne(Increment(Increment(x))) <==> x >= 0
    ensures INT32_MIN <= Increment(x) <= INT32_MAX
  {
  }

  // ---------- the steps ----------

  /** writeSegment: where the goroutine for a segment starts. */
  ghost function WriteSegment(c: Chunk, i: nat, seg: Bytes, d: nat): Proc {
    if |seg| > c.size && c.depth > 0 then Launch(seg, d) else Run(Write, 0, true, 2 * i, d, seg)
  }

  /** The height at which Sum starts finalise. */
  ghost function Start(c: Chunk): nat
    requires c.Valid()
  {
    if |c.segs[c.Last()]| > c.size && c.Last() > 0 && c.depth > 0 then 1 else 0
  }

  ghost predicate Runs(s: State, j: nat, pc: Pc) {
    && j in s.procs && s.procs[j].Run? && s.procs[j].pc == pc
    && Pos(s.procs[j].h, Anc(j, s.procs[j].h)) in s.nodes
  }

  ghost function SetProc(s: State, j: nat, p: Proc): State {
    s.(procs := s.procs[j := p])
  }

  ghost function SetNode(s: State, at: Pos, n: Node): State {
    s.(nodes := s.nodes[at := n])
  }

  /** n.left = s or n.right = s */
  ghost function DoWrite(s: State, j: nat): State
    requires Runs(s, j, Write)
  {
    var p := s.procs[j];
    var at := Pos(p.h, Anc(j, p.h));
    var n := s.nodes[at];
    SetProc(SetNode(s, at, if p.isLeft then n.(left := p.v) else n.(right := p.v)), j, p.(pc := Test))
  }

  /** The first half of `!n.unbalanced && n.toggle()` */
  ghost function DoTest(s: State, j: nat): State
    requires Runs(s, j, Test)
  {
    var p := s.procs[j];
    SetProc(s, j, p.(pc := if s.nodes[Pos(p.h, Anc(j, p.h))].unbalanced then Combine else Toggle))
  }

  /** The second half of `!n.unbalanced && n.toggle()` */
  ghost function DoToggle(s: State, j: nat): State
    requires Runs(s, j, Toggle)
  {
    var p := s.procs[j];
    var at := Pos(p.h, Anc(j, p.h));
    var state := Increment(s.nodes[at].state);
    SetProc(SetNode(s, at, s.nodes[at].(state := state)), j, if IsOne(state) then Returned(p.h) else p.(pc := Combine))
  }

  ghost function DoCombine(c: Chunk, s: State, j: nat): State
    requires Runs(s, j, Combine)
  {
    var p := s.procs[j];
    var n := s.nodes[Pos(p.h, Anc(j, p.h))];
    var hashed := !n.unbalanced || !p.isLeft || (p.i == 0 && p.d == 0);
    SetProc(s, j, p.(pc := RootTest, v := if hashed then c.H(n.left + n.right) else n.left + n.right))
  }

  ghost function DoRootTest(s: State, j: nat): State
    requires Runs(s, j, RootTest)
  {
    var p := s.procs[j];
    var at := Pos(p.h, Anc(j, p.h));
    SetProc(s, j, if s.nodes[at].root then Sending(p.v) else Run(Write, p.h + 1, at.k % 2 == 0, p.i + 1, p.d, p.v))
  }

  /** The goroutine of a full double segment: hash it, then look at the leaf's root flag. */
  ghost function DoLeaf(c: Chunk, s: State, j: nat): State
    requires j in s.procs && Pos(0, j) in s.nodes && (s.procs[j].Launch? || s.procs[j].LeafTest?)
  {
    match s.procs[j]
    case Launch(seg, d) => SetProc(s, j, LeafTest(c.H(seg), d))
    case LeafTest(v, d) =>
      SetProc(s, j, if s.nodes[Pos(0, j)].root then Sending(v) else Run(Write, 1, j % 2 == 0, j, d, v))
  }

  ghost predicate CanExec(s: State, j: nat) {
    && j in s.procs
    && ((s.procs[j].Run? && Runs(s, j, s.procs[j].pc))
        || ((s.procs[j].Launch? || s.procs[j].LeafTest?) && Pos(0, j) in s.nodes))
  }

  /** One step of goroutine j. */
  ghost function Exec(c: Chunk, s: State, j: nat): State
    requires CanExec(s, j)
  {
    if !s.procs[j].Run? then DoLeaf(c, s, j) else
      match s.procs[j].pc
      case Write => DoWrite(s, j)
      case Test => DoTest(s, j)
      case Toggle => DoToggle(s, j)
      case Combine => DoCombine(c, s, j)
      case RootTest => DoRootTest(s, j)
  }

  ghost predicate CanMain(c: Chunk, s: State)
    requires c.Valid()
  {
    match s.main
    case Writing(_) => true
    case Finalising(h, _, _) => Pos(h, Anc(c.Last(), h)) in s.nodes
    case Closing(_) => true
    case Waiting => false
    case Releasing(h, _) => Pos(h, Anc(c.Last(), h)) in s.nodes
    case Done(_) => false
  }

  /** One step of the hashing thread, other than receiving the result. */
  ghost function MainStep(c: Chunk, s: State): State
    requires c.Valid() && CanMain(c, s)
  {
    var cur := c.Last();
    match s.main
    case Writing(next) =>
      if next < cur then
        s.(procs := s.procs[next := WriteSegment(c, next, c.segs[next], c.depth)], main := Writing(next + 1))
      else
        s.(main := Finalising(Start(c), Start(c) == 0 || cur % 2 == 0, 0))
    case Finalising(h, isLeft, d) =>
      var at := Pos(h, Anc(cur, h));
      var n := s.nodes[at];
      s.(nodes := s.nodes[at := n.(unbalanced := isLeft, right := [], root := n.root || at.k == 0)],
         main := if at.k == 0 then Closing(d) else Finalising(h + 1, at.k % 2 == 0, d + 1))
    case Closing(d) =>
      s.(procs := s.procs[cur := WriteSegment(c, cur, c.segs[cur], d)], main := Waiting)
    case Releasing(h, v) =>
      var at := Pos(h, Anc(cur, h));
      var n := s.nodes[at];
      s.(nodes := s.nodes[at := n.(unbalanced := false, root := n.root && h == c.depth)],
         main := if h == c.depth then Done(v) else Releasing(h + 1, v))
    case _ => s
  }

  ghost predicate CanReceive(s: State, j: nat) {
    s.main.Waiting? && j in s.procs && s.procs[j].Sending?
  }

  /** The unbuffered result channel: goroutine j sends while the hashing thread receives. */
  ghost function Receive(s: State, j: nat): State
    requires CanReceive(s, j)
  {
    s.(procs := s.procs[j := Sent], main := Releasing(0, s.procs[j].v))
  }

  ghost predicate Step(c: Chunk, s: State, s': State)
    requires c.Valid()
  {
    || (exists j :: CanExec(s, j) && s' == Exec(c, s, j))
    || (CanMain(c, s) && s' == MainStep(c, s))
    || (exists j :: CanReceive(s, j) && s' == Receive(s, j))
  }

  // ---------- clean trees ----------

  predicate InTree(depth: nat, h: nat, k: nat) {
    h <= depth && k < Pow2(depth - h)
  }

  /** A toggle counter after at most `used` chunks: even, and negative only when 2^30 chunks made it wrap. */
  predicate Counter(x: int, used: nat) {
    || (x % 2 == 0 && 0 <= x <= 2 * used && x <= INT32_MAX)
    || (used >= 0x4000_0000 && x == INT32_MIN)
  }

  /** A node as NewTree makes it. */
  ghost predicate CleanNode(depth: nat, nodes: map<Pos, Node>, h: nat, k: nat) {
    Pos(h, k) in nodes && nodes[Pos(h, k)] == Node([], [], 0, false, h == depth)
  }

  ghost predicate Fresh(depth: nat, nodes: map<Pos, Node>) {
    forall h, k | InTree(depth, h, k) :: CleanNode(depth, nodes, h, k)
  }

  /** A tree as it lies in the pool: no flag set, only the top is a root, all toggles even. */
  ghost predicate Clean(depth: nat, used: nat, nodes: map<Pos, Node>) {
    forall h, k | InTree(depth, h, k) ::
      && Pos(h, k) in nodes
      && !nodes[Pos(h, k)].unbalanced
      && (nodes[Pos(h, k)].root <==> h == depth)
      && Counter(nodes[Pos(h, k)].state, used)
  }

  ghost predicate Init(c: Chunk, used: nat, s: State) {
    Clean(c.depth, used, s.nodes) && s.procs == map[] && s.main == Writing(0)
  }
}
