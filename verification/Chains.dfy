/**
  Blocks, ancestor paths, and what the number index and the transaction lookup
  index of core/database_util.go have to say about a path.
 */
module Chains {
  type Hash = nat
  type Tx = nat

  /** `txs` are transaction hashes; `seal` stands for the fields that only matter to the block hash. */
  datatype Block = Block(parent: Hash, number: nat, difficulty: nat, txs: seq<Tx>, seal: nat)

  datatype Entry = Entry(block: Hash, number: nat, index: nat)

  type BlockHash = Block -> Hash

  ghost predicate NoCollision(hash: BlockHash, a: Block, b: Block) {
    hash(a) == hash(b) ==> a == b
  }

  ghost predicate CollisionFree(hash: BlockHash) {
    forall a, b {:trigger NoCollision(hash, a, b)} :: NoCollision(hash, a, b)
  }

  /** p runs from the genesis block to its last block, parent by parent. */
  ghost predicate IsPath(hash: BlockHash, p: seq<Block>) {
    && |p| >= 1
    && (forall i | 0 <= i < |p| :: p[i].number == i)
    && (forall i | 0 < i < |p| :: Follows(hash, p, i))
  }

  ghost predicate Follows(hash: BlockHash, p: seq<Block>, i: nat)
    requires 0 < i < |p|
  {
    p[i].parent == hash(p[i - 1])
  }

  ghost predicate Stored(hash: BlockHash, blocks: map<Hash, Block>, b: Block) {
    hash(b) in blocks && blocks[hash(b)] == b
  }

  /** The ancestor path of b, all but b itself stored. */
  ghost predicate Rooted(hash: BlockHash, blocks: map<Hash, Block>, genesis: Block, p: seq<Block>, b: Block) {
    && IsPath(hash, p) && p[0] == genesis && p[|p| - 1] == b
    && (forall i | 0 <= i < |p| - 1 :: Stored(hash, blocks, p[i]))
  }

  /** Block b has a complete ancestor path. */
  ghost predicate HasPath(hash: BlockHash, blocks: map<Hash, Block>, genesis: Block, b: Block) {
    exists p :: Rooted(hash, blocks, genesis, p, b)
  }

  /** A block has one ancestor path at most. */
  lemma RootedUnique(hash: BlockHash, blocks: map<Hash, Block>, genesis: Block, p: seq<Block>, q: seq<Block>, b: Block)
    requires CollisionFree(hash) && Rooted(hash, blocks, genesis, p, b) && Rooted(hash, blocks, genesis, q, b)
    ensures p == q
  {
    assert |p| == b.number + 1 == |q|;
    SameBelow(hash, p, q, b.number);
  }

  lemma {:induction false} SameBelow(hash: BlockHash, p: seq<Block>, q: seq<Block>, n: nat)
    requires CollisionFree(hash) && IsPath(hash, p) && IsPath(hash, q) && n < |p| && n < |q| && p[n] == q[n]
    ensures p[..n + 1] == q[..n + 1]
    decreases n
  {
    if n > 0 {
      assert Follows(hash, p, n) && Follows(hash, q, n);
      assert NoCollision(hash, p[n - 1], q[n - 1]);
      SameBelow(hash, p, q, n - 1);
      assert p[..n + 1] == p[..n] + [p[n]] && q[..n + 1] == q[..n] + [q[n]];
    }
  }

  /** No transaction occurs twice among b and its ancestors. */
  ghost predicate FreshTxs(hash: BlockHash, blocks: map<Hash, Block>, genesis: Block, b: Block) {
    forall p | Rooted(hash, blocks, genesis, p, b) :: Distinct(p)
  }

  /** The number index of a path: every number up to the head, nothing above. */
  ghost function Index(hash: BlockHash, p: seq<Block>): map<nat, Hash> {
    map n: nat | n < |p| :: hash(p[n])
  }

  /** Transaction t is transaction j of the block with number n. */
  ghost predicate At(p: seq<Block>, n: nat, j: nat, t: Tx) {
    n < |p| && j < |p[n].txs| && p[n].txs[j] == t
  }

  /** No transaction occurs twice on the path. */
  ghost predicate Distinct(p: seq<Block>) {
    forall n: nat, j: nat, n': nat, j': nat, t | At(p, n, j, t) && At(p, n', j', t) :: n == n' && j == j'
  }

  /** The lookup index holds exactly the transactions of the path, each at its true position. */
  ghost predicate LookupOk(hash: BlockHash, lookup: map<Tx, Entry>, p: seq<Block>) {
    && (forall n: nat, j: nat, t | At(p, n, j, t) :: t in lookup && lookup[t] == Entry(hash(p[n]), n, j))
    && (forall t | t in lookup :: exists n: nat, j: nat :: At(p, n, j, t))
  }

  /** t occurs in a block of p with number in [lo, hi). */
  ghost predicate Within(p: seq<Block>, lo: nat, hi: nat, t: Tx) {
    exists n: nat, j: nat :: lo <= n < hi && At(p, n, j, t)
  }

  // ---------- the fork choice of the proof-of-stake stage, on paths ----------

  /**
    What one canonical write may do to the path: nothing, or replace everything
    above block c by more blocks than there were. With a bound k, the blocks
    added in place of others are at most k.
   */
  ghost predicate Grows(bounded: bool, k: nat, p: seq<Block>, q: seq<Block>, c: nat) {
    && c < |p| < |q|
    && p[..c + 1] == q[..c + 1]
    && ((c + 1 == |p| && |q| == |p| + 1) || !bounded || |q| - 1 - c <= k)
  }

  /** q leaves p at block c: they agree up to c and not at c + 1. */
  ghost predicate ForkAt(p: seq<Block>, q: seq<Block>, c: nat) {
    && c < |p| && c < |q| && p[..c + 1] == q[..c + 1]
    && (c + 1 < |p| && c + 1 < |q| ==> p[c + 1] != q[c + 1])
  }

  lemma ForkUnique(p: seq<Block>, q: seq<Block>, c: nat, c': nat)
    requires ForkAt(p, q, c) && ForkAt(p, q, c')
    ensures c == c'
  {
  }

  lemma GrowsByOne(bounded: bool, k: nat, p: seq<Block>, b: Block)
    requires |p| >= 1
    ensures Grows(bounded, k, p, p + [b], |p| - 1)
  {
    assert p[..|p|] == (p + [b])[..|p|];
  }

  ghost predicate Moves(bounded: bool, k: nat, p: seq<Block>, q: seq<Block>) {
    p == q || exists c :: Grows(bounded, k, p, q, c)
  }

  /** A block is final when k - 1 blocks lie above it. */
  ghost predicate Final(k: nat, p: seq<Block>, n: nat) {
    n < |p| && n + k <= |p|
  }

  lemma FinalStays(k: nat, p: seq<Block>, q: seq<Block>, n: nat)
    requires Moves(true, k, p, q) && Final(k, p, n)
    ensures Final(k, q, n) && q[n] == p[n]
  {
    if p != q {
      var c :| Grows(true, k, p, q, c);
      assert n <= c;
      assert q[n] == q[..c + 1][n] == p[..c + 1][n] == p[n];
    }
  }

  /** K-deep finality over whole runs: once final, the block at a number never changes. */
  lemma {:induction false} Finality(k: nat, run: seq<seq<Block>>, i: nat, n: nat)
    requires i < |run| && Final(k, run[i], n)
    requires forall j | 0 <= j < |run| - 1 :: Moves(true, k, run[j], run[j + 1])
    ensures forall j | i <= j < |run| :: Final(k, run[j], n) && run[j][n] == run[i][n]
    decreases |run| - i
  {
    if i + 1 < |run| {
      FinalStays(k, run[i], run[i + 1], n);
      Finality(k, run, i + 1, n);
    }
  }
}
