/**
  Canonical chain maintenance in the proof-of-stake stage (core/blockchain.go):
  WriteBlockAndState with its fork choice, reorg and insert.

  The database is the maps `blocks`, `td`, `canon` (the number index) and
  `lookup` (the transaction lookup index). `path` is the ancestor path of the
  current block. Checks that depend on clocks, the consensus engine or chain
  quality are the parameters `secure` and `veto`.
 */
module BlockChains {
  import opened Options
  import opened Chains

  datatype Status = InsufficientQuality | UnknownAncestor | InvalidChain | Vetoed | SecurityViolated | Canonical | Side

  /** What is left of a when the members of b are struck out. */
  ghost function Difference(a: seq<Tx>, b: seq<Tx>): seq<Tx> {
    if a == [] then [] else
      var i := |a| - 1;
      if a[i] in b then Difference(a[..i], b) else Difference(a[..i], b) + [a[i]]
  }

  /** TxDifference: the transactions of a that are not in b, in their order and as often as they occur. */
  method TxDifference(a: seq<Tx>, b: seq<Tx>) returns (keep: seq<Tx>)
    ensures keep == Difference(a, b)
    ensures forall t :: t in keep <==> t in a && t !in b
  {
    keep := [];
    var remove: set<Tx> := {};
    for i := 0 to |b|
      invariant forall t :: t in remove <==> t in b[..i]
    {
      remove := remove + {b[i]};
    }
    for i := 0 to |a|
      invariant keep == Difference(a[..i], b)
      invariant forall t :: t in keep <==> t in a[..i] && t !in b
    {
      assert a[..i + 1][..i] == a[..i];
      if a[i] !in remove {
        keep := keep + [a[i]];
      }
    }
    assert a[..|a|] == a;
  }

  /** q continues p from block c with the blocks of `added`, which lists them highest first. */
  ghost function Spliced(p: seq<Block>, c: nat, added: seq<Block>): (q: seq<Block>)
    requires c < |p|
    ensures |q| == c + 1 + |added|
    ensures forall n | 0 <= n <= c :: q[n] == p[n]
    ensures forall i | 0 <= i < |added| :: q[|q| - 1 - i] == added[i]
  {
    p[..c + 1] + seq(|added|, i requires 0 <= i < |added| => added[|added| - 1 - i])
  }

  /** Blocks listed highest first, each the parent of the one before it. */
  ghost predicate Descends(hash: BlockHash, s: seq<Block>, b: Block) {
    && (forall i | 0 <= i < |s| :: s[i].number == b.number + |s| - i)
    && (forall i | 0 <= i < |s| :: s[i].parent == hash(Below(s, b, i)))
  }

  /** The block that follows block i of the list, or b at its end. */
  ghost function Below(s: seq<Block>, b: Block, i: nat): Block {
    if i + 1 < |s| then s[i + 1] else b
  }

  /** GetBlock: nil for an unknown hash or a number that is not the block's. */
  function GetBlock(blocks: map<Hash, Block>, h: Hash, n: int): Option<Block> {
    if h in blocks && blocks[h].number == n then Some(blocks[h]) else None
  }

  ghost predicate HashesOk(hash: BlockHash, blocks: map<Hash, Block>) {
    && CollisionFree(hash)
    && (forall h | h in blocks :: hash(blocks[h]) == h)
  }

  /**
    The walk down from block `top` has passed the blocks `added` and is at b;
    whatever ancestor path top has leads through b, and if b is nil it has none.
   */
  ghost predicate Walk(hash: BlockHash, blocks: map<Hash, Block>, genesis: Block, top: Block,
                       added: seq<Block>, b: Option<Block>) {
    && (forall i | 0 < i < |added| :: Stored(hash, blocks, added[i]))
    && (added != [] ==> added[0] == top)
    && match b
       case Some(b) =>
         && Descends(hash, added, b)
         && (if added == [] then b == top else Stored(hash, blocks, b))
         && (forall p | Rooted(hash, blocks, genesis, p, top) :: b.number < |p| && p[b.number] == b)
       case None =>
         forall p :: !Rooted(hash, blocks, genesis, p, top)
  }

  /** One more GetBlock on the way down. */
  lemma WalkStep(hash: BlockHash, blocks: map<Hash, Block>, genesis: Block, top: Block, added: seq<Block>, b: Block)
    requires HashesOk(hash, blocks) && Walk(hash, blocks, genesis, top, added, Some(b))
    requires b.number == 0 ==> b != genesis
    ensures Walk(hash, blocks, genesis, top, added + [b], GetBlock(blocks, b.parent, b.number - 1))
  {
    var added' := added + [b];
    var b' := GetBlock(blocks, b.parent, b.number - 1);
    forall p | Rooted(hash, blocks, genesis, p, top)
      ensures b'.Some? && b'.value.number < |p| && p[b'.value.number] == b'.value
    {
      assert p[b.number] == b;
      assert Follows(hash, p, b.number);
      assert Stored(hash, blocks, p[b.number - 1]);
    }
    if b'.Some? {
      forall i | 0 <= i < |added'|
        ensures added'[i].parent == hash(Below(added', b'.value, i))
      {
        if i < |added| {
          assert added'[i] == added[i] && Below(added', b'.value, i) == Below(added, b, i);
        } else {
          assert added'[i] == b;
        }
      }
    }
  }

  /** Where the walk meets the path, the two together make top's ancestor path. */
  lemma WalkRooted(hash: BlockHash, blocks: map<Hash, Block>, path: seq<Block>, c: nat, added: seq<Block>)
    requires IsPath(hash, path) && c < |path| && |added| >= 1 && Descends(hash, added, path[c])
    requires forall i | 0 <= i < |path| :: Stored(hash, blocks, path[i])
    requires forall i | 0 < i < |added| :: Stored(hash, blocks, added[i])
    ensures Rooted(hash, blocks, path[0], Spliced(path, c, added), added[0])
  {
    var q := Spliced(path, c, added);
    forall n | 0 <= n < |q|
      ensures q[n].number == n
      ensures n < |q| - 1 ==> Stored(hash, blocks, q[n])
    {
      if n > c {
        assert q[n] == added[|q| - 1 - n];
      }
    }
    forall n | 0 < n < |q| ensures Follows(hash, q, n) {
      if n <= c {
        assert Follows(hash, path, n);
      } else {
        var i := |q| - 1 - n;
        assert q[n] == added[i];
        assert q[n - 1] == Below(added, path[c], i);
      }
    }
    assert q[|q| - 1] == added[0];
  }

  /** reorg: bring the new branch down to the height of the old one. */
  method LowerNew(hash: BlockHash, blocks: map<Hash, Block>, ghost genesis: Block, top: Block, n: nat)
    returns (added: seq<Block>, b: Option<Block>)
    requires HashesOk(hash, blocks) && top.number > n
    ensures Walk(hash, blocks, genesis, top, added, b) && |added| >= 1
    ensures b.Some? ==> b.value.number == n
  {
    added, b := [], Some(top);
    while b.Some? && b.value.number != n
      invariant b.Some? ==> b.value.number >= n
      invariant added == [] ==> b == Some(top)
      invariant Walk(hash, blocks, genesis, top, added, b)
      decreases b.Some?, if b.Some? then b.value.number else 0
    {
      WalkStep(hash, blocks, genesis, top, added, b.value);
      added := added + [b.value];
      b := GetBlock(blocks, b.value.parent, b.value.number - 1);
    }
  }

  lemma ParentOnPath(hash: BlockHash, blocks: map<Hash, Block>, path: seq<Block>, n: nat)
    requires IsPath(hash, path) && n < |path|
    requires forall i | 0 <= i < |path| :: Stored(hash, blocks, path[i])
    ensures GetBlock(blocks, path[n].parent, n - 1) == if n == 0 then None else Some(path[n - 1])
  {
    if n > 0 {
      assert Follows(hash, path, n) && Stored(hash, blocks, path[n - 1]);
    }
  }

  /** `dropped` lists the blocks of the path above number n, highest first. */
  ghost predicate DroppedTo(path: seq<Block>, dropped: seq<Block>, n: nat) {
    n < |path| && |dropped| == |path| - 1 - n && forall i | 0 <= i < |dropped| :: dropped[i] == path[|path| - 1 - i]
  }

  lemma DroppedMore(path: seq<Block>, dropped: seq<Block>, n: nat)
    requires DroppedTo(path, dropped, n) && 0 < n < |path|
    ensures DroppedTo(path, dropped + [path[n]], n - 1)
  {
  }

  /** The two branches part right above block c. */
  lemma ForkFound(path: seq<Block>, c: nat, dropped: seq<Block>, added: seq<Block>)
    requires DroppedTo(path, dropped, c) && |added| >= 1
    requires dropped != [] ==> dropped[|dropped| - 1] != added[|added| - 1]
    ensures ForkAt(path, Spliced(path, c, added), c)
  {
    var q := Spliced(path, c, added);
    assert path[..c + 1] == q[..c + 1];
    assert q[|q| - 1 - (|added| - 1)] == added[|added| - 1];
  }

  /**
    Both branches have been walked down to the same number: the old one from the
    path's head to oldB, the new one from `top` to newB, and they are different
    all the way.
   */
  ghost predicate Meeting(hash: BlockHash, blocks: map<Hash, Block>, path: seq<Block>, top: Block,
                          dropped: seq<Block>, added: seq<Block>, oldB: Block, newB: Block)
    requires path != []
  {
    && oldB.number == newB.number < |path| && oldB == path[oldB.number] && DroppedTo(path, dropped, oldB.number)
    && Walk(hash, blocks, path[0], top, added, Some(newB)) && |added| >= 1
    && (dropped != [] ==> dropped[|dropped| - 1] != added[|added| - 1])
  }

  /** reorg: walk both branches down, in step, until they meet. */
  method Meet(hash: BlockHash, blocks: map<Hash, Block>, ghost path: seq<Block>, head: Block, ghost top: Block,
              added0: seq<Block>, b: Block)
    returns (ok: bool, dropped: seq<Block>, added: seq<Block>, ghost c: nat)
    requires HashesOk(hash, blocks) && IsPath(hash, path) && head == path[|path| - 1]
    requires forall i | 0 <= i < |path| :: Stored(hash, blocks, path[i])
    requires Walk(hash, blocks, path[0], top, added0, Some(b)) && b.number == head.number && |added0| >= 1
    ensures ok ==> c < |path| && Meeting(hash, blocks, path, top, dropped, added, path[c], path[c])
    ensures !ok ==> !HasPath(hash, blocks, path[0], top)
  {
    var oldB, newB := head, b;
    ok, dropped, added, c := true, [], added0, 0;
    while hash(oldB) != hash(newB)
      invariant Meeting(hash, blocks, path, top, dropped, added, oldB, newB)
      decreases newB.number
    {
      var old', new';
      ok, old', new' := StepDown(hash, blocks, path, top, dropped, added, oldB, newB);
      dropped, added := dropped + [oldB], added + [newB];
      if !ok {
        return;
      }
      oldB, newB := old', new';
    }
    assert NoCollision(hash, oldB, newB);
    c := oldB.number;
    ok := true;
  }

  /** Both branches go down by one block. */
  method StepDown(hash: BlockHash, blocks: map<Hash, Block>, ghost path: seq<Block>, ghost top: Block,
                  ghost dropped: seq<Block>, ghost added: seq<Block>, oldB: Block, newB: Block)
    returns (ok: bool, old': Block, new': Block)
    requires HashesOk(hash, blocks) && IsPath(hash, path) && forall i | 0 <= i < |path| :: Stored(hash, blocks, path[i])
    requires Meeting(hash, blocks, path, top, dropped, added, oldB, newB) && oldB != newB
    ensures !ok ==> !HasPath(hash, blocks, path[0], top)
    ensures ok ==>
              && Meeting(hash, blocks, path, top, dropped + [oldB], added + [newB], old', new')
              && new'.number < newB.number
  {
    WalkStep(hash, blocks, path[0], top, added, newB);
    ParentOnPath(hash, blocks, path, oldB.number);
    if oldB.number > 0 {
      DroppedMore(path, dropped, oldB.number);
    }
    var x, y := GetBlock(blocks, oldB.parent, oldB.number - 1), GetBlock(blocks, newB.parent, newB.number - 1);
    if x.None? {
      return false, oldB, newB;
    }
    if y.None? {
      return false, oldB, newB;
    }
    ok, old', new' := true, x.value, y.value;
  }

  /**
    The first half of reorg: the blocks dropped and added, and the new path q,
    which leaves the old one at block c. It fails exactly when the new block's
    ancestors do not lead to the genesis block.
   */
  method FindFork(hash: BlockHash, blocks: map<Hash, Block>, ghost path: seq<Block>, head: Block, top: Block)
    returns (ok: bool, dropped: seq<Block>, added: seq<Block>, ghost q: seq<Block>, ghost c: nat)
    requires HashesOk(hash, blocks) && IsPath(hash, path) && head == path[|path| - 1] && top.number > head.number
    requires forall i | 0 <= i < |path| :: Stored(hash, blocks, path[i])
    ensures ok <==> HasPath(hash, blocks, path[0], top)
    ensures ok ==> Rooted(hash, blocks, path[0], q, top)
    ensures ok ==> c < |path| < |q| && ForkAt(path, q, c) && q == Spliced(path, c, added)
    ensures ok ==> DroppedTo(path, dropped, c)
  {
    ok, dropped, q, c := false, [], [], 0;
    var b;
    added, b := LowerNew(hash, blocks, path[0], top, head.number);
    if b.None? {
      return;
    }
    ok, dropped, added, c := Meet(hash, blocks, path, head, top, added, b.value);
    if ok {
      WalkRooted(hash, blocks, path, c, added);
      q := Spliced(path, c, added);
      ForkFound(path, c, dropped, added);
      assert HasPath(hash, blocks, path[0], top);
    }
  }

  // ---------- rewriting the indexes ----------

  /** Numbers from `from` on are already those of q, the others still those of p. */
  ghost function IndexMix(hash: BlockHash, p: seq<Block>, q: seq<Block>, from: nat): map<nat, Hash> {
    map n: nat | n < |q| && (n < |p| || from <= n) :: if from <= n then hash(q[n]) else hash(p[n])
  }

  lemma IndexMixStart(hash: BlockHash, p: seq<Block>, q: seq<Block>)
    requires |p| <= |q|
    ensures IndexMix(hash, p, q, |q|) == Index(hash, p)
  {
  }

  lemma IndexMixStep(hash: BlockHash, p: seq<Block>, q: seq<Block>, n: nat)
    requires n < |q|
    ensures IndexMix(hash, p, q, n + 1)[n := hash(q[n])] == IndexMix(hash, p, q, n)
  {
  }

  lemma IndexMixDone(hash: BlockHash, p: seq<Block>, q: seq<Block>, c: nat)
    requires c < |p| && c < |q| && forall n | 0 <= n <= c :: p[n] == q[n]
    ensures IndexMix(hash, p, q, c + 1) == Index(hash, q)
  {
  }

  /** The blocks of q from number `from` on have been written over the lookup index `before`. */
  ghost predicate LookupMix(hash: BlockHash, before: map<Tx, Entry>, q: seq<Block>, from: nat, lookup: map<Tx, Entry>) {
    && (forall n: nat, j: nat, t | At(q, n, j, t) && from <= n :: t in lookup && lookup[t] == Entry(hash(q[n]), n, j))
    && (forall t | !Within(q, from, |q|, t) :: t in lookup <==> t in before)
    && (forall t | !Within(q, from, |q|, t) && t in lookup :: lookup[t] == before[t])
  }

  /** One more block, the one below those already written. */
  lemma LookupMixStep(hash: BlockHash, before: map<Tx, Entry>, q: seq<Block>, n: nat,
                      lookup: map<Tx, Entry>, lookup': map<Tx, Entry>)
    requires n < |q| && Distinct(q) && q[n].number == n && LookupMix(hash, before, q, n + 1, lookup)
    requires Written(lookup, lookup', hash(q[n]), n, q[n].txs)
    ensures LookupMix(hash, before, q, n, lookup')
    ensures forall t :: Within(q, n, |q|, t) <==> Within(q, n + 1, |q|, t) || t in q[n].txs
  {
    BlockDistinct(q, n);
    forall t ensures Within(q, n, |q|, t) <==> Within(q, n + 1, |q|, t) || t in q[n].txs {
      WithinStep(q, n, t);
    }
    forall m: nat, j: nat, t | At(q, m, j, t) && n <= m ensures t in lookup' && lookup'[t] == Entry(hash(q[m]), m, j) {
      if m > n && t in q[n].txs {
        var i :| 0 <= i < |q[n].txs| && q[n].txs[i] == t;
        assert At(q, n, i, t);
      }
    }
  }

  lemma WithinStep(q: seq<Block>, n: nat, t: Tx)
    requires n < |q|
    ensures Within(q, n, |q|, t) <==> Within(q, n + 1, |q|, t) || t in q[n].txs
  {
    if t in q[n].txs {
      var i :| 0 <= i < |q[n].txs| && q[n].txs[i] == t;
      assert At(q, n, i, t);
    } else if Within(q, n + 1, |q|, t) {
      var m: nat, j: nat :| n + 1 <= m < |q| && At(q, m, j, t);
      assert n <= m < |q| && At(q, m, j, t);
    }
  }

  /** Writing the new branch and deleting what only the old one had leaves the lookup index of the new path. */
  lemma LookupSwitched(hash: BlockHash, p: seq<Block>, q: seq<Block>, c: nat,
                       before: map<Tx, Entry>, written: map<Tx, Entry>, after: map<Tx, Entry>, diff: seq<Tx>)
    requires c < |p| && c < |q| && p[..c + 1] == q[..c + 1] && Distinct(q)
    requires LookupOk(hash, before, p) && LookupMix(hash, before, q, c + 1, written)
    requires forall t :: t in diff <==> Within(p, c + 1, |p|, t) && !Within(q, c + 1, |q|, t)
    requires forall t :: t in after <==> t in written && t !in diff
    requires forall t | t in after :: after[t] == written[t]
    ensures LookupOk(hash, after, q)
  {
    assert forall n | 0 <= n <= c :: p[n] == p[..c + 1][n] == q[..c + 1][n] == q[n];
    forall n: nat, j: nat, t | At(q, n, j, t) ensures t in after && after[t] == Entry(hash(q[n]), n, j) {
      if n > c {
        assert Within(q, c + 1, |q|, t);
      } else {
        assert At(p, n, j, t);
        assert !Within(q, c + 1, |q|, t);
        assert !Within(p, c + 1, |p|, t);
      }
    }
    forall t | t in after ensures exists n: nat, j: nat :: At(q, n, j, t) {
      if !Within(q, c + 1, |q|, t) {
        var n: nat, j: nat :| At(p, n, j, t);
        assert At(q, n, j, t);
      }
    }
  }

  lemma BlockDistinct(q: seq<Block>, n: nat)
    requires Distinct(q) && n < |q|
    ensures forall j | 0 <= j < |q[n].txs| :: LastOf(q[n].txs, j)
  {
    forall i, j | 0 <= i < j < |q[n].txs| ensures q[n].txs[i] != q[n].txs[j] {
      assert At(q, n, i, q[n].txs[i]) && At(q, n, j, q[n].txs[j]);
    }
  }

  /** The transactions of a block are entered, each where it occurs last, and nothing else changes. */
  ghost predicate Written(before: map<Tx, Entry>, after: map<Tx, Entry>, h: Hash, number: nat, txs: seq<Tx>) {
    && (forall j | 0 <= j < |txs| && LastOf(txs, j) :: txs[j] in after && after[txs[j]] == Entry(h, number, j))
    && (forall t | t in txs :: t in after)
    && (forall t | t !in txs :: t in after <==> t in before)
    && (forall t | t !in txs && t in after :: after[t] == before[t])
  }

  /** The transaction at j does not occur again. */
  ghost predicate LastOf(txs: seq<Tx>, j: nat)
    requires j < |txs|
  {
    forall i | j < i < |txs| :: txs[i] != txs[j]
  }

  lemma WrittenMore(before: map<Tx, Entry>, after: map<Tx, Entry>, h: Hash, number: nat, txs: seq<Tx>, t: Tx)
    requires Written(before, after, h, number, txs)
    ensures Written(before, after[t := Entry(h, number, |txs|)], h, number, txs + [t])
  {
    var all := txs + [t];
    forall j | 0 <= j < |txs| && LastOf(all, j) ensures LastOf(txs, j) && txs[j] != t {
      assert all[|txs|] == t;
      assert forall i | j < i < |txs| :: all[i] == txs[i];
    }
  }

  /** All transactions of some blocks. */
  method TxsOf(s: seq<Block>) returns (txs: seq<Tx>)
    ensures forall t :: t in txs <==> exists i :: 0 <= i < |s| && t in s[i].txs
  {
    txs := [];
    for i := 0 to |s|
      invariant forall t :: t in txs <==> exists i' :: 0 <= i' < i && t in s[i'].txs
    {
      txs := txs + s[i].txs;
    }
  }

  lemma DroppedWithin(p: seq<Block>, c: nat, dropped: seq<Block>, txs: seq<Tx>)
    requires DroppedTo(p, dropped, c)
    requires forall t :: t in txs <==> exists i :: 0 <= i < |dropped| && t in dropped[i].txs
    ensures forall t :: t in txs <==> Within(p, c + 1, |p|, t)
  {
    forall t ensures t in txs <==> Within(p, c + 1, |p|, t) {
      if t in txs {
        var i :| 0 <= i < |dropped| && t in dropped[i].txs;
        var j :| 0 <= j < |dropped[i].txs| && dropped[i].txs[j] == t;
        assert At(p, |p| - 1 - i, j, t);
      }
      if Within(p, c + 1, |p|, t) {
        var n: nat, j: nat :| c + 1 <= n < |p| && At(p, n, j, t);
        assert dropped[|p| - 1 - n] == p[n];
        assert t in p[n].txs;
      }
    }
  }

  /** Storing a block loses no other. */
  lemma IndexHead(hash: BlockHash, q: seq<Block>)
    requires q != []
    ensures Index(hash, q[..|q| - 1])[|q| - 1 := hash(q[|q| - 1])] == Index(hash, q)
    ensures Index(hash, q)[|q| - 1 := hash(q[|q| - 1])] == Index(hash, q)
  {
  }

  /** With its head stored, a path is stored. */
  lemma StoreHead(hash: BlockHash, blocks: map<Hash, Block>, q: seq<Block>)
    requires HashesOk(hash, blocks) && q != [] && forall i | 0 <= i < |q| - 1 :: Stored(hash, blocks, q[i])
    ensures var b := q[|q| - 1]; var blocks' := blocks[hash(b) := b];
            HashesOk(hash, blocks') && forall i | 0 <= i < |q| :: Stored(hash, blocks', q[i])
  {
    var b := q[|q| - 1];
    forall i | 0 <= i < |q| ensures Stored(hash, blocks[hash(b) := b], q[i]) {
      assert NoCollision(hash, q[i], b);
    }
  }

  lemma StoreKeeps(hash: BlockHash, blocks: map<Hash, Block>, b: Block, p: seq<Block>)
    requires HashesOk(hash, blocks)
    requires forall i | 0 <= i < |p| :: Stored(hash, blocks, p[i])
    ensures HashesOk(hash, blocks[hash(b) := b])
    ensures forall i | 0 <= i < |p| :: Stored(hash, blocks[hash(b) := b], p[i])
  {
    forall i | 0 <= i < |p| ensures Stored(hash, blocks[hash(b) := b], p[i]) {
      assert Stored(hash, blocks, p[i]) && NoCollision(hash, p[i], b);
    }
  }

  /** A total difficulty is only ever stored under a block's own number. */
  lemma TdKeeps(hash: BlockHash, td: map<(Hash, nat), nat>, b: Block, value: nat)
    requires CollisionFree(hash) && forall x: Block, n: nat | (hash(x), n) in td :: x.number == n
    ensures forall x: Block, n: nat | (hash(x), n) in td[(hash(b), b.number) := value] :: x.number == n
  {
    forall x: Block, n: nat | (hash(x), n) in td[(hash(b), b.number) := value] ensures x.number == n {
      assert NoCollision(hash, x, b);
    }
  }

  /** A child of the head has the path extended by itself as ancestor path. */
  lemma ExtensionRooted(hash: BlockHash, blocks: map<Hash, Block>, p: seq<Block>, b: Block)
    requires IsPath(hash, p) && b.number == |p| && b.parent == hash(p[|p| - 1])
    requires forall i | 0 <= i < |p| :: Stored(hash, blocks, p[i])
    ensures Rooted(hash, blocks, p[0], p + [b], b)
  {
    forall i | 0 < i < |p + [b]| ensures Follows(hash, p + [b], i) {
      if i < |p| {
        assert Follows(hash, p, i);
      }
    }
  }

  /** Writing the entries of the top block, whether or not they were there. */
  lemma LookupTop(hash: BlockHash, q: seq<Block>, before: map<Tx, Entry>, after: map<Tx, Entry>)
    requires |q| >= 1 && Distinct(q)
    requires LookupOk(hash, before, q) || LookupOk(hash, before, q[..|q| - 1])
    requires Written(before, after, hash(q[|q| - 1]), |q| - 1, q[|q| - 1].txs)
    ensures LookupOk(hash, after, q)
  {
    var b, m := q[|q| - 1], |q| - 1;
    BlockDistinct(q, m);
    forall n: nat, j: nat, t | At(q, n, j, t) ensures t in after && after[t] == Entry(hash(q[n]), n, j) {
      if n < m {
        assert At(q[..m], n, j, t);
        if t in b.txs {
          var i :| 0 <= i < |b.txs| && b.txs[i] == t;
          assert At(q, m, i, t);
        }
      }
    }
    forall t | t in after ensures exists n: nat, j: nat :: At(q, n, j, t) {
      if t in b.txs {
        var i :| 0 <= i < |b.txs| && b.txs[i] == t;
        assert At(q, m, i, t);
      } else if LookupOk(hash, before, q[..m]) {
        var n: nat, j: nat :| At(q[..m], n, j, t);
        assert At(q, n, j, t);
      }
    }
  }

  /** On its way to the fork with the path, b leaves more than k blocks. */
  ghost predicate Deep(hash: BlockHash, blocks: map<Hash, Block>, genesis: Block, path: seq<Block>, b: Block, k: nat) {
    exists q, c :: Rooted(hash, blocks, genesis, q, b) && ForkAt(path, q, c) && |q| - 1 - c > k
  }

  lemma DeepIs(hash: BlockHash, blocks: map<Hash, Block>, genesis: Block, path: seq<Block>, b: Block, k: nat,
      q: seq<Block>, c: nat)
    requires CollisionFree(hash) && Rooted(hash, blocks, genesis, q, b) && ForkAt(path, q, c)
    ensures Deep(hash, blocks, genesis, path, b, k) <==> |q| - 1 - c > k
  {
    if Deep(hash, blocks, genesis, path, b, k) {
      var q', c' :| Rooted(hash, blocks, genesis, q', b) && ForkAt(path, q', c') && |q'| - 1 - c' > k;
      RootedUnique(hash, blocks, genesis, q, q', b);
      ForkUnique(path, q, c, c');
    }
  }

  class BlockChain {
    const hash: BlockHash
    const genesis: Block
    const k: nat                  // posconfig.Cfg().K
    const bounded: bool           // posconfig.FirstEpochId != 0
    var blocks: map<Hash, Block>
    var td: map<(Hash, nat), nat>
    var canon: map<nat, Hash>
    var lookup: map<Tx, Entry>
    var current: Block
    ghost var path: seq<Block>

    ghost predicate Sound()
      reads this
    {
      && HashesOk(hash, blocks)
      && IsPath(hash, path) && path[0] == genesis
      && (forall i | 0 <= i < |path| :: Stored(hash, blocks, path[i]))
      && (forall b: Block, n: nat | (hash(b), n) in td :: b.number == n)
    }

    ghost predicate Valid()
      reads this
    {
      && Sound()
      && current == path[|path| - 1]
      && canon == Index(hash, path)
      && LookupOk(hash, lookup, path)
    }

    constructor (hash: BlockHash, genesis: Block, k: nat, bounded: bool)
      requires genesis.number == 0 && genesis.txs == []
      requires CollisionFree(hash)
      ensures Valid() && path == [genesis] && this.k == k && this.bounded == bounded && this.hash == hash
    {
      this.hash, this.genesis, this.k, this.bounded := hash, genesis, k, bounded;
      blocks := map[hash(genesis) := genesis];
      td := map[(hash(genesis), 0) := genesis.difficulty];
      canon := map[0 := hash(genesis)];
      lookup := map[];
      current := genesis;
      path := [genesis];
      TdKeeps(hash, map[], genesis, genesis.difficulty);
    }

    /** insert, as far as the number index and the current block go. */
    method Insert(b: Block)
      modifies this`canon, this`current
      ensures canon == old(canon)[b.number := hash(b)] && current == b
    {
      canon := canon[b.number := hash(b)];
      current := b;
    }

    /** WriteTxLookupEntries: a transaction that the block repeats is found where it occurs last. */
    method WriteTxLookupEntries(b: Block)
      modifies this`lookup
      ensures Written(old(lookup), lookup, hash(b), b.number, b.txs)
    {
      for i := 0 to |b.txs|
        invariant Written(old(lookup), lookup, hash(b), b.number, b.txs[..i])
      {
        WrittenMore(old(lookup), lookup, hash(b), b.number, b.txs[..i], b.txs[i]);
        assert b.txs[..i + 1] == b.txs[..i] + [b.txs[i]];
        lookup := lookup[b.txs[i] := Entry(hash(b), b.number, i)];
      }
      assert b.txs[..|b.txs|] == b.txs;
    }

    /** reorg: insert one block of the new branch and write its lookup entries. */
    method RewriteOne(b: Block, ghost q: seq<Block>, ghost n: nat, ghost before: map<Tx, Entry>)
      requires IsPath(hash, q) && Distinct(q) && n < |q| && b == q[n]
      requires canon == IndexMix(hash, path, q, n + 1) && LookupMix(hash, before, q, n + 1, lookup)
      modifies this`canon, this`lookup, this`current
      ensures canon == IndexMix(hash, path, q, n) && LookupMix(hash, before, q, n, lookup)
      ensures forall t :: Within(q, n, |q|, t) <==> Within(q, n + 1, |q|, t) || t in b.txs
    {
      ghost var lookup0 := lookup;
      IndexMixStep(hash, path, q, n);
      Insert(b);
      WriteTxLookupEntries(b);
      LookupMixStep(hash, before, q, n, lookup0, lookup);
    }

    /** reorg: write the new branch, highest block first, over both indexes. */
    method RewriteIndexes(added: seq<Block>, ghost c: nat, ghost q: seq<Block>) returns (addedTxs: seq<Tx>)
      requires c < |path| && q == Spliced(path, c, added) && |q| > |path|
      requires IsPath(hash, q) && Distinct(q)
      requires canon == Index(hash, path)
      modifies this`canon, this`lookup, this`current
      ensures canon == Index(hash, q)
      ensures LookupMix(hash, old(lookup), q, c + 1, lookup)
      ensures forall t :: t in addedTxs <==> Within(q, c + 1, |q|, t)
    {
      addedTxs := [];
      IndexMixStart(hash, path, q);
      for i := 0 to |added|
        invariant canon == IndexMix(hash, path, q, |q| - i)
        invariant LookupMix(hash, old(lookup), q, |q| - i, lookup)
        invariant forall t :: t in addedTxs <==> Within(q, |q| - i, |q|, t)
      {
        assert q[|q| - i - 1] == added[i];
        RewriteOne(added[i], q, |q| - i - 1, old(lookup));
        addedTxs := addedTxs + added[i].txs;
      }
      IndexMixDone(hash, path, q, c);
    }

    /** reorg: transactions that only the old branch had lose their entry. */
    method DeleteLookups(diff: seq<Tx>)
      modifies this`lookup
      ensures forall t :: t in lookup <==> t in old(lookup) && t !in diff
      ensures forall t | t in lookup :: lookup[t] == old(lookup)[t]
    {
      for i := 0 to |diff|
        invariant forall t :: t in lookup <==> t in old(lookup) && t !in diff[..i]
        invariant forall t | t in lookup :: lookup[t] == old(lookup)[t]
      {
        lookup := lookup - {diff[i]};
      }
    }

    /**
      reorg. It fails, changing nothing, exactly when the new block's ancestors
      do not lead to the genesis block, when the engine objects, or when more
      than k blocks would be added; otherwise both indexes are those of the new
      block's ancestor path q, which leaves the old path at block c.
     */
    method Reorg(newBlock: Block, veto: bool) returns (status: Status, ghost q: seq<Block>, ghost c: nat)
      requires Valid() && newBlock.number > current.number
      requires FreshTxs(hash, blocks, genesis, newBlock)
      modifies this`canon, this`lookup, this`current
      ensures status in {InvalidChain, Vetoed, SecurityViolated, Canonical}
      ensures status == InvalidChain <==> !HasPath(hash, blocks, genesis, newBlock)
      ensures status != Canonical ==> canon == old(canon) && lookup == old(lookup) && current == old(current)
      ensures status != InvalidChain ==>
                && Rooted(hash, blocks, genesis, q, newBlock)
                && c < |path| < |q| && ForkAt(path, q, c)
                && (status == Vetoed <==> veto)
                && (status == SecurityViolated <==> !veto && bounded && |q| - 1 - c > k)
      ensures status == Canonical ==> canon == Index(hash, q) && LookupOk(hash, lookup, q)
    {
      var ok, dropped, added;
      ok, dropped, added, q, c := FindFork(hash, blocks, path, current, newBlock);
      if !ok {
        return InvalidChain, q, c;
      }
      if veto {
        return Vetoed, q, c;
      }
      if bounded && |added| > k {
        return SecurityViolated, q, c;
      }
      SwitchTo(dropped, added, c, q);
      return Canonical, q, c;
    }

    /** reorg, once allowed: write the new branch, then delete what only the old one had. */
    method SwitchTo(dropped: seq<Block>, added: seq<Block>, ghost c: nat, ghost q: seq<Block>)
      requires c < |path| && q == Spliced(path, c, added) && |q| > |path|
      requires IsPath(hash, q) && Distinct(q) && DroppedTo(path, dropped, c)
      requires canon == Index(hash, path) && LookupOk(hash, lookup, path)
      modifies this`canon, this`lookup, this`current
      ensures canon == Index(hash, q) && LookupOk(hash, lookup, q)
    {
      var deletedTxs := TxsOf(dropped);
      DroppedWithin(path, c, dropped, deletedTxs);
      ghost var before := lookup;
      var addedTxs := RewriteIndexes(added, c, q);
      ghost var written := lookup;
      var diff := TxDifference(deletedTxs, addedTxs);
      DeleteLookups(diff);
      assert path[..c + 1] == q[..c + 1];
      LookupSwitched(hash, path, q, c, before, written, lookup, diff);
    }

    /** The lookup entries of the head of the path q are written. */
    method WriteHeadLookup(block: Block, ghost q: seq<Block>)
      requires q != [] && Distinct(q) && block == q[|q| - 1] && block.number == |q| - 1
      requires LookupOk(hash, lookup, q) || LookupOk(hash, lookup, q[..|q| - 1])
      modifies this`lookup
      ensures LookupOk(hash, lookup, q)
    {
      ghost var before := lookup;
      WriteTxLookupEntries(block);
      LookupTop(hash, q, before, lookup);
    }

    /** Store the block, write its lookup entries and make it the head of the path q. */
    method Adopt(block: Block, ghost q: seq<Block>)
      requires Sound() && Rooted(hash, blocks, genesis, q, block) && Distinct(q)
      requires canon == Index(hash, q) || canon == Index(hash, q[..|q| - 1])
      requires LookupOk(hash, lookup, q) || LookupOk(hash, lookup, q[..|q| - 1])
      modifies this`blocks, this`canon, this`lookup, this`current, this`path
      ensures Valid() && path == q && blocks == old(blocks)[hash(block) := block]
    {
      WriteHeadLookup(block, q);
      StoreHead(hash, blocks, q);
      IndexHead(hash, q);
      blocks := blocks[hash(block) := block];
      Insert(block);
      path := q;
    }

    /** The canonical branch of WriteBlockAndState, for a child of the head. */
    method ExtendHead(block: Block)
      requires Valid() && block.number == |path| && block.parent == hash(current)
      requires FreshTxs(hash, blocks, genesis, block)
      modifies this`blocks, this`canon, this`lookup, this`current, this`path
      ensures Valid() && path == old(path) + [block] && blocks == old(blocks)[hash(block) := block]
    {
      ghost var q := path + [block];
      ExtensionRooted(hash, blocks, path, block);
      assert q[..|q| - 1] == path;
      Adopt(block, q);
    }

    /** Making b the head would add more than k blocks in place of others. */
    ghost predicate TooDeep(b: Block)
      reads this
    {
      bounded && Deep(hash, blocks, genesis, path, b, k)
    }

    /** The canonical branch of WriteBlockAndState, for any other block above the head. */
    method ReorgHead(block: Block, veto: bool) returns (status: Status, ghost c: nat)
      requires Valid() && block.number > current.number
      requires FreshTxs(hash, blocks, genesis, block)
      modifies this`blocks, this`canon, this`lookup, this`current, this`path
      ensures Valid() && status in {InvalidChain, Vetoed, SecurityViolated, Canonical}
      ensures status != Canonical ==> path == old(path) && blocks == old(blocks)
      ensures status == Canonical ==> current == block && blocks == old(blocks)[hash(block) := block]
      ensures status == Canonical ==> !veto && Grows(bounded, k, old(path), path, c) && ForkAt(old(path), path, c)
      ensures status == InvalidChain <==> !HasPath(hash, old(blocks), genesis, block)
      ensures status == Vetoed <==> veto && HasPath(hash, old(blocks), genesis, block)
      ensures status == SecurityViolated <==> !veto && old(TooDeep(block))
    {
      ghost var q;
      status, q, c := Reorg(block, veto);
      if status != InvalidChain {
        DeepIs(hash, blocks, genesis, path, block, k, q, c);
      }
      if status == Canonical {
        Adopt(block, q);
      }
    }

    /** The block is above the head, but does not extend it. */
    ghost predicate Reorganises(head: Block, block: Block, secure: bool, status: Status) {
      secure && status != UnknownAncestor && block.number > head.number && block.parent != hash(head)
    }

    /**
      WriteBlockAndState with the proof-of-stake fork choice: a longer chain
      wins. Whatever happens, both indexes stay those of the ancestor path of
      the current block, and the path moves only as `Grows` allows.
     */
    method WriteBlockAndState(block: Block, secure: bool, veto: bool) returns (status: Status)
      requires Valid()
      requires FreshTxs(hash, blocks, genesis, block)
      modifies this
      ensures Valid()
      ensures Moves(bounded, k, old(path), path)
      ensures status == Canonical <==> path != old(path)
      ensures status == Canonical ==> current == block && block.number > old(current).number
      ensures status == UnknownAncestor <==>
                secure && !(block.number > 0 && (block.parent, block.number - 1) in old(td))
      ensures status == Side <==> secure && status != UnknownAncestor && block.number <= old(current).number
      ensures status == InvalidChain <==>
                secure && status != UnknownAncestor && block.number > old(current).number
                    && !HasPath(hash, old(blocks), genesis, block)
      ensures status == Vetoed <==>
                Reorganises(old(current), block, secure, status) && veto && HasPath(hash, old(blocks), genesis, block)
      ensures status == SecurityViolated <==>
                Reorganises(old(current), block, secure, status) && !veto && old(TooDeep(block))
      ensures status == InsufficientQuality <==> !secure
      ensures blocks == if status in {Canonical, Side} then old(blocks)[hash(block) := block] else old(blocks)
    {
      if !secure {
        return InsufficientQuality;
      }
      if !(block.number > 0 && (block.parent, block.number - 1) in td) {
        return UnknownAncestor;
      }
      assert block.parent == hash(current) ==> block.number == |path|;
      var externTd := block.difficulty + td[(block.parent, block.number - 1)];
      TdKeeps(hash, td, block, externTd);
      td := td[(hash(block), block.number) := externTd];
      if current.number == 0 || block.number > current.number {
        if block.parent != hash(current) {
          ghost var c;
          status, c := ReorgHead(block, veto);
        } else {
          ExtensionRooted(hash, blocks, path, block);
          ExtendHead(block);
          GrowsByOne(bounded, k, old(path), block);
          status := Canonical;
        }
      } else {
        StoreKeeps(hash, blocks, block, path);
        blocks := blocks[hash(block) := block];
        status := Side;
      }
    }
  }

  // ---------- runs of writes ----------

  datatype Write = Write(block: Block, secure: bool, veto: bool)

  ghost predicate Part(blocks: map<Hash, Block>, store: map<Hash, Block>) {
    forall h | h in blocks :: h in store && store[h] == blocks[h]
  }

  lemma FreshInPart(hash: BlockHash, blocks: map<Hash, Block>, store: map<Hash, Block>, genesis: Block, b: Block)
    requires Part(blocks, store) && FreshTxs(hash, store, genesis, b)
    ensures FreshTxs(hash, blocks, genesis, b)
  {
    forall p | Rooted(hash, blocks, genesis, p, b) ensures Distinct(p) {
      assert Rooted(hash, store, genesis, p, b);
    }
  }

  /**
    Any number of blocks written one after the other, of which no chain repeats a
    transaction. With the bound on reorganisations in force, the number index
    keeps every entry that was final at the start.
   */
  method WriteRun(chain: BlockChain, writes: seq<Write>, ghost store: map<Hash, Block>)
    returns (ghost paths: seq<seq<Block>>)
    requires chain.Valid() && Part(chain.blocks, store)
    requires forall i | 0 <= i < |writes| :: Stored(chain.hash, store, writes[i].block)
    requires forall i | 0 <= i < |writes| :: FreshTxs(chain.hash, store, chain.genesis, writes[i].block)
    modifies chain
    ensures chain.Valid() && |paths| == |writes| + 1 && paths[0] == old(chain.path) && paths[|writes|] == chain.path
    ensures forall i | 0 <= i < |writes| :: Moves(chain.bounded, chain.k, paths[i], paths[i + 1])
    ensures chain.bounded ==> forall n: nat | Final(chain.k, old(chain.path), n) ::
              SameEntry(old(chain.canon), chain.canon, n)
  {
    paths := [chain.path];
    for i := 0 to |writes|
      invariant chain.Valid() && Part(chain.blocks, store)
      invariant |paths| == i + 1 && paths[0] == old(chain.path) && paths[i] == chain.path
      invariant forall j | 0 <= j < i :: Moves(chain.bounded, chain.k, paths[j], paths[j + 1])
    {
      FreshInPart(chain.hash, chain.blocks, store, chain.genesis, writes[i].block);
      var _ := chain.WriteBlockAndState(writes[i].block, writes[i].secure, writes[i].veto);
      paths := paths + [chain.path];
    }
    if chain.bounded {
      FinalEntries(chain.hash, chain.k, paths);
    }
  }

  ghost predicate SameEntry(before: map<nat, Hash>, now: map<nat, Hash>, n: nat) {
    n in before && n in now && now[n] == before[n]
  }

  lemma FinalEntries(hash: BlockHash, k: nat, paths: seq<seq<Block>>)
    requires paths != [] && forall j | 0 <= j < |paths| - 1 :: Moves(true, k, paths[j], paths[j + 1])
    ensures forall n: nat | Final(k, paths[0], n) ::
              SameEntry(Index(hash, paths[0]), Index(hash, paths[|paths| - 1]), n)
  {
    forall n: nat | Final(k, paths[0], n) ensures SameEntry(Index(hash, paths[0]), Index(hash, paths[|paths| - 1]), n) {
      Finality(k, paths, 0, n);
      assert paths[|paths| - 1][n] == paths[0][n];
    }
  }
}
