/**
  The chain indexer (core/chain_indexer.go) as a state machine over a tree of
  indexers. A section is processed with the lock released: a job starts in one
  step and commits in another, and chain events of any kind may come between.
  Headers are known by their hashes; `parent` gives the parent hash that a
  header's content fixes, and 0 is the zero hash. Section and block numbers are
  unbounded; the index -1 stands for the wrapped one, which is never stored.
 */
module ChainIndexers {
  import opened Options

  type Hash = nat

  datatype Job = Idle | Busy(section: nat, oldHead: Hash)

  type Size = n: int | n > 0 witness 1

  datatype Indexer = Indexer(size: Size, confirms: nat, known: nat, stored: nat, cascaded: nat,
                             heads: map<int, Hash>, job: Job, children: seq<Indexer>)

  function SectionHead(heads: map<int, Hash>, section: int): Hash {
    if section in heads then heads[section] else 0
  }

  /** `to` is reached from `from` by n headers, each the parent of the next. */
  ghost predicate Linked(parent: Hash -> Hash, from: Hash, to: Hash, n: nat)
    decreases n
  {
    if n == 0 then from == to else to != 0 && Linked(parent, from, parent(to), n - 1)
  }

  // ---------- the section loops ----------

  function SetValid(c: Indexer, sections: nat): Indexer {
    c.(stored := sections, heads := map s | s in c.heads && !(sections <= s < c.stored) :: c.heads[s])
  }

  /** setValidSections: the heads from `sections` on are removed one by one, from the last. */
  method SetValidSections(c: Indexer, sections: nat) returns (r: Indexer)
    ensures r == SetValid(c, sections)
  {
    var stored, heads := c.stored, c.heads;
    while stored > sections
      invariant stored <= c.stored && (sections <= c.stored ==> sections <= stored)
                && (sections > c.stored ==> stored == c.stored)
      invariant heads == map s | s in c.heads && !(stored <= s < c.stored) :: c.heads[s]
    {
      stored := stored - 1;
      heads := heads - {stored};
    }
    r := c.(stored := sections, heads := heads);
  }

  /** What the chain database answers when block n is looked up: nothing, or a header by its hash. */
  type Chain = nat -> Option<Hash>

  /**
    processSection. Each number is looked up once, at a time of its own, so
    `chain` may mix the answers of any number of reorganisations; the links
    are checked header by header.
   */
  method ProcessSection(parent: Hash -> Hash, chain: Chain, committed: bool, size: Size, section: nat, oldHead: Hash)
    returns (r: Option<Hash>)
    ensures r.Some? ==> Linked(parent, oldHead, r.value, size)
    ensures r.Some? <==> committed && Continuous(parent, chain, section * size, size, oldHead)
    ensures r.Some? ==> chain(section * size + size - 1) == r
  {
    var lastHead := oldHead;
    for number := section * size to (section + 1) * size
      invariant Linked(parent, oldHead, lastHead, number - section * size)
      invariant number > section * size ==> chain(number - 1) == Some(lastHead)
      invariant Continuous(parent, chain, section * size, size, oldHead) <==>
                Continuous(parent, chain, number, (section + 1) * size - number, lastHead)
    {
      var hash := chain(number);
      if hash.None? || hash.value == 0 || parent(hash.value) != lastHead {
        return None;
      }
      lastHead := hash.value;
    }
    r := if committed then Some(lastHead) else None;
  }

  /** The answers for n blocks from `number` on form one chain on top of `last`. */
  ghost predicate Continuous(parent: Hash -> Hash, chain: Chain, number: nat, n: nat, last: Hash)
    decreases n
  {
    n > 0 ==> chain(number).Some? && chain(number).value != 0 && parent(chain(number).value) == last
              && Continuous(parent, chain, number + 1, n - 1, chain(number).value)
  }

  // ---------- the steps ----------

  /** newHead, with the cascade of a reorganisation to the children. */
  function NewHead(c: Indexer, head: nat, reorg: bool): Indexer
    decreases c
  {
    if reorg then
      var changed := head / c.size;
      var c1 := if changed < c.known then c.(known := changed) else c;
      var c2 := if changed < c1.stored then SetValid(c1, changed) else c1;
      var end := changed * c.size;
      if end < c.cascaded then
        c2.(cascaded := end,
            children := seq(|c.children|, i requires 0 <= i < |c.children| => NewHead(c.children[i], end, true)))
      else c2
    else if head >= c.confirms && (head + 1 - c.confirms) / c.size > c.known then
      c.(known := (head + 1 - c.confirms) / c.size)
    else c
  }

  function Notify(children: seq<Indexer>, head: nat): seq<Indexer> {
    seq(|children|, i requires 0 <= i < |children| => NewHead(children[i], head, false))
  }

  /** The update loop takes up the next section and releases the lock. */
  function Begin(c: Indexer): Indexer {
    c.(job := Busy(c.stored, if c.stored > 0 then SectionHead(c.heads, c.stored - 1) else 0))
  }

  /** The lock is taken again and the outcome of the section recorded. */
  function Commit(c: Indexer, result: Option<Hash>): Indexer
    requires c.job.Busy?
  {
    if result.Some? && c.job.oldHead == SectionHead(c.heads, c.job.section - 1) then
      var c1 := SetValid(c.(heads := c.heads[c.job.section := result.value]), c.job.section + 1);
      var end := c1.stored * c.size - 1;
      c1.(job := Idle, cascaded := end, children := Notify(c.children, end))
    else c.(job := Idle, known := c.stored)
  }

  /** AddChildIndexer. */
  function AddChild(c: Indexer, child: Indexer): Indexer {
    c.(children := c.children + [Adopted(c, child)])
  }

  /** A new child is told of the sections stored. */
  function Adopted(c: Indexer, child: Indexer): Indexer {
    if c.stored > 0 then NewHead(child, c.stored * c.size - 1, false) else child
  }

  /** An indexer just opened on a consistent index database. */
  ghost predicate Opened(parent: Hash -> Hash, c: Indexer) {
    HeadsOk(parent, c.heads, c.stored, c.size) && c.job == Idle && c.known == 0 && c.cascaded == 0 && c.children == []
  }

  /** What the loop of an indexer, or of one below it, may do next. */
  datatype Move =
    | Start
    | Finish(result: Option<Hash>)
    | Adopt(child: Indexer)
    | Below(i: nat, move: Move)

  /** A section that was processed is linked, as ProcessSection ensures. With `anew`, no index existed before. */
  ghost predicate Allowed(parent: Hash -> Hash, anew: bool, c: Indexer, move: Move)
    decreases move
  {
    match move
    case Start => c.job == Idle && c.known > c.stored
    case Finish(result) => c.job.Busy? && (result.Some? ==> Linked(parent, c.job.oldHead, result.value, c.size))
    case Adopt(child) => Opened(parent, child) && (anew ==> child.stored == 0 && c.size > 1)
    case Below(i, m) => i < |c.children| && Allowed(parent, anew, c.children[i], m)
  }

  ghost function Work(parent: Hash -> Hash, anew: bool, c: Indexer, move: Move): Indexer
    requires Allowed(parent, anew, c, move)
    decreases move
  {
    match move
    case Start => Begin(c)
    case Finish(result) => Commit(c, result)
    case Adopt(child) => AddChild(c, child)
    case Below(i, m) => c.(children := c.children[i := Work(parent, anew, c.children[i], m)])
  }

  /** A step of the whole tree: the outermost indexer hears of the chain, or a loop works. */
  ghost predicate Step(parent: Hash -> Hash, anew: bool, c: Indexer, c': Indexer) {
    || (exists head, reorg :: c' == NewHead(c, head, reorg))
    || (exists move :: Allowed(parent, anew, c, move) && c' == Work(parent, anew, c, move))
  }

  // ---------- section heads ----------

  /** Exactly the sections below `stored` have a head, each linked to the one before by the headers of its section. */
  ghost predicate HeadsOk(parent: Hash -> Hash, heads: map<int, Hash>, stored: nat, size: Size) {
    && (forall s :: s in heads <==> 0 <= s < stored)
    && (forall s: nat {:trigger SectionLinked(parent, heads, s, size)} ::
          s < stored ==> SectionLinked(parent, heads, s, size))
  }

  ghost predicate SectionLinked(parent: Hash -> Hash, heads: map<int, Hash>, s: nat, size: Size) {
    Linked(parent, SectionHead(heads, s - 1), SectionHead(heads, s), size)
  }

  /** A job can only have been overtaken by reorganisations. */
  ghost predicate JobOk(c: Indexer) {
    c.job.Busy? ==>
      && c.stored <= c.job.section && c.stored <= c.known && (c.job.section == 0 <==> c.job.oldHead == 0)
      && (c.stored == c.job.section ==> c.job.oldHead == SectionHead(c.heads, c.job.section - 1))
  }

  ghost predicate Sound(parent: Hash -> Hash, c: Indexer)
    decreases c
  {
    HeadsOk(parent, c.heads, c.stored, c.size) && JobOk(c)
        && forall i | 0 <= i < |c.children| :: Sound(parent, c.children[i])
  }

  lemma SetValidHeads(parent: Hash -> Hash, c: Indexer, sections: nat)
    requires HeadsOk(parent, c.heads, c.stored, c.size) && sections <= c.stored
    ensures HeadsOk(parent, SetValid(c, sections).heads, sections, c.size)
  {
    var heads := SetValid(c, sections).heads;
    forall s: nat | s < sections ensures SectionLinked(parent, heads, s, c.size) {
      assert SectionLinked(parent, c.heads, s, c.size);
    }
  }

  /** A stored section has a head. */
  lemma HeadExists(parent: Hash -> Hash, heads: map<int, Hash>, stored: nat, size: Size)
    requires HeadsOk(parent, heads, stored, size) && stored > 0
    ensures SectionHead(heads, stored - 1) != 0
  {
    assert SectionLinked(parent, heads, stored - 1, size);
  }

  lemma HeadAdded(parent: Hash -> Hash, heads: map<int, Hash>, stored: nat, size: Size, head: Hash)
    requires HeadsOk(parent, heads, stored, size) && Linked(parent, SectionHead(heads, stored - 1), head, size)
    ensures HeadsOk(parent, heads[stored := head], stored + 1, size)
  {
    var heads' := heads[stored := head];
    forall s: nat | s < stored + 1 ensures SectionLinked(parent, heads', s, size) {
      assert SectionHead(heads', s - 1) == SectionHead(heads, s - 1);
      if s < stored {
        assert SectionLinked(parent, heads, s, size);
      }
    }
  }

  lemma {:induction false} NewHeadSound(parent: Hash -> Hash, c: Indexer, head: nat, reorg: bool)
    requires Sound(parent, c)
    ensures Sound(parent, NewHead(c, head, reorg))
    decreases c
  {
    if reorg {
      var changed := head / c.size;
      if changed < c.stored {
        SetValidHeads(parent, c, changed);
      }
      forall i | 0 <= i < |c.children| ensures Sound(parent, NewHead(c.children[i], changed * c.size, true)) {
        NewHeadSound(parent, c.children[i], changed * c.size, true);
      }
    }
  }

  lemma NotifySound(parent: Hash -> Hash, children: seq<Indexer>, head: nat)
    requires forall i | 0 <= i < |children| :: Sound(parent, children[i])
    ensures forall i | 0 <= i < |children| :: Sound(parent, Notify(children, head)[i])
  {
    forall i | 0 <= i < |children| ensures Sound(parent, Notify(children, head)[i]) {
      NewHeadSound(parent, children[i], head, false);
    }
  }

  lemma BeginSound(parent: Hash -> Hash, c: Indexer)
    requires Sound(parent, c) && c.known > c.stored
    ensures Sound(parent, Begin(c))
  {
    if c.stored > 0 {
      HeadExists(parent, c.heads, c.stored, c.size);
    }
  }

  /** The commit check lets a section through only if no reorganisation reached below it. */
  lemma CommitChecks(parent: Hash -> Hash, c: Indexer)
    requires Sound(parent, c) && c.job.Busy?
    ensures c.job.oldHead == SectionHead(c.heads, c.job.section - 1) <==> c.stored == c.job.section
  {
  }

  lemma CommitSound(parent: Hash -> Hash, c: Indexer, result: Option<Hash>)
    requires Sound(parent, c) && c.job.Busy?
    requires result.Some? ==> Linked(parent, c.job.oldHead, result.value, c.size)
    ensures Sound(parent, Commit(c, result))
  {
    CommitChecks(parent, c);
    if result.Some? && c.job.oldHead == SectionHead(c.heads, c.job.section - 1) {
      CommitAdds(c, result.value);
      StoredSound(parent, c, Commit(c, result), result.value);
    }
  }

  lemma StoredSound(parent: Hash -> Hash, c: Indexer, c': Indexer, head: Hash)
    requires Sound(parent, c) && Linked(parent, SectionHead(c.heads, c.stored - 1), head, c.size)
    requires c'.heads == c.heads[c.stored := head] && c'.stored == c.stored + 1 && c'.job == Idle && c'.size == c.size
    requires c'.children == Notify(c.children, (c.stored + 1) * c.size - 1)
    ensures Sound(parent, c')
  {
    HeadAdded(parent, c.heads, c.stored, c.size, head);
    NotifySound(parent, c.children, (c.stored + 1) * c.size - 1);
  }

  lemma CommitAdds(c: Indexer, head: Hash)
    requires c.job.Busy? && c.stored == c.job.section && c.job.oldHead == SectionHead(c.heads, c.job.section - 1)
    ensures var c' := Commit(c, Some(head));
            && c'.heads == c.heads[c.stored := head] && c'.stored == c.stored + 1 && c'.job == Idle && c'.size == c.size
            && c'.children == Notify(c.children, (c.stored + 1) * c.size - 1)
  {
  }

  lemma {:induction false} WorkSound(parent: Hash -> Hash, anew: bool, c: Indexer, move: Move)
    requires Sound(parent, c) && Allowed(parent, anew, c, move)
    ensures Sound(parent, Work(parent, anew, c, move))
    decreases move
  {
    match move
    case Start => BeginSound(parent, c);
    case Finish(result) => CommitSound(parent, c, result);
    case Adopt(child) =>
      if c.stored > 0 {
        NewHeadSound(parent, child, c.stored * c.size - 1, false);
      }
    case Below(i, m) => WorkSound(parent, anew, c.children[i], m);
  }

  lemma StepSound(parent: Hash -> Hash, anew: bool, c: Indexer, c': Indexer)
    requires Sound(parent, c) && Step(parent, anew, c, c')
    ensures Sound(parent, c')
  {
    if exists head, reorg :: c' == NewHead(c, head, reorg) {
      var head, reorg :| c' == NewHead(c, head, reorg);
      NewHeadSound(parent, c, head, reorg);
    } else {
      var move :| Allowed(parent, anew, c, move) && c' == Work(parent, anew, c, move);
      WorkSound(parent, anew, c, move);
    }
  }

  // ---------- what children know ----------

  /** The blocks of an indexer's known sections are no more than its parent's stored sections have. */
  ghost predicate Behind(child: Indexer, c: Indexer) {
    child.known * child.size <= c.stored * c.size
  }

  /** No child knows more than its parent stored, and the cascaded head is high enough to notice every rollback. */
  ghost predicate Ordered(c: Indexer)
    decreases c
  {
    && (c.stored > 0 ==> c.cascaded + 1 >= c.stored * c.size)
    && (c.children != [] ==> c.size > 1)
    && forall i | 0 <= i < |c.children| :: Behind(c.children[i], c) && Ordered(c.children[i])
  }

  lemma DivMul(x: nat, d: Size)
    ensures x / d * d <= x
  {
  }

  lemma MulMono(a: nat, b: nat, d: Size)
    requires a <= b
    ensures a * d <= b * d
  {
  }

  lemma BelowQuotient(s: nat, x: nat, d: Size)
    ensures s < x / d <==> (s + 1) * d <= x
  {
    assert x == x / d * d + x % d;
    if s < x / d {
      MulMono(s + 1, x / d, d);
    } else {
      MulMono(x / d + 1, s + 1, d);
      assert (x / d + 1) * d == x / d * d + d;
    }
  }

  /**
    A reorganisation at block `head` keeps exactly the sections that end below
    it; a new head makes known exactly the sections that end early enough to have
    their confirmations.
   */
  lemma NewHeadExact(c: Indexer, head: nat, s: nat)
    ensures s < NewHead(c, head, true).stored <==> s < c.stored && (s + 1) * c.size <= head
    ensures s < NewHead(c, head, true).known <==> s < c.known && (s + 1) * c.size <= head
    ensures s < NewHead(c, head, false).known <==> s < c.known || (s + 1) * c.size + c.confirms <= head + 1
  {
    BelowQuotient(s, head, c.size);
    MulMono(1, s + 1, c.size);
    if head >= c.confirms {
      BelowQuotient(s, head + 1 - c.confirms, c.size);
    }
  }

  /** What newHead leaves known is covered by the head announced. */
  lemma KnownAfter(c: Indexer, head: nat, reorg: bool)
    ensures reorg ==> NewHead(c, head, reorg).known <= c.known && NewHead(c, head, reorg).known * c.size <= head
    ensures !reorg ==> NewHead(c, head, reorg).known == c.known || NewHead(c, head, reorg).known * c.size <= head + 1
  {
    DivMul(head, c.size);
    if reorg {
      MulMono(NewHead(c, head, reorg).known, head / c.size, c.size);
    }
    if head >= c.confirms {
      DivMul(head + 1 - c.confirms, c.size);
    }
  }

  lemma {:induction false} NewHeadOrdered(c: Indexer, head: nat, reorg: bool)
    requires Ordered(c)
    ensures Ordered(NewHead(c, head, reorg))
    decreases c
  {
    if reorg {
      var changed := head / c.size;
      var end := changed * c.size;
      var c' := NewHead(c, head, true);
      if changed < c.stored {
        RollbackIsNoticed(c, changed);
      } else {
        MulMono(c.stored, changed, c.size);
      }
      forall i | 0 <= i < |c.children| && end < c.cascaded
        ensures Behind(c'.children[i], c') && Ordered(c'.children[i])
      {
        NewHeadOrdered(c.children[i], end, true);
        KnownAfter(c.children[i], end, true);
        MulMono(c'.children[i].known, c.children[i].known, c.children[i].size);
      }
    }
  }

  /** A rollback below the stored sections lies below the cascaded head, if sections have two blocks or more. */
  lemma RollbackIsNoticed(c: Indexer, changed: nat)
    requires c.stored > 0 && c.cascaded + 1 >= c.stored * c.size && changed < c.stored
    ensures changed * c.size <= c.cascaded && (c.size > 1 ==> changed * c.size < c.cascaded)
  {
    MulMono(changed, c.stored - 1, c.size);
    assert (c.stored - 1) * c.size == c.stored * c.size - c.size;
  }

  lemma CommitOrdered(parent: Hash -> Hash, c: Indexer, result: Option<Hash>)
    requires Sound(parent, c) && Ordered(c) && c.job.Busy?
    ensures Ordered(Commit(c, result))
  {
    CommitChecks(parent, c);
    if result.Some? && c.job.oldHead == SectionHead(c.heads, c.job.section - 1) {
      var c' := Commit(c, result);
      var end := c'.stored * c.size - 1;
      MulMono(c.stored, c'.stored, c.size);
      forall i | 0 <= i < |c.children| ensures Behind(c'.children[i], c') && Ordered(c'.children[i]) {
        KnownAfter(c.children[i], end, false);
        NewHeadOrdered(c.children[i], end, false);
      }
    }
  }

  lemma AdoptedOrdered(parent: Hash -> Hash, c: Indexer, child: Indexer)
    requires Opened(parent, child) && child.stored == 0
    ensures Ordered(Adopted(c, child)) && Behind(Adopted(c, child), c)
  {
    assert Ordered(child);
    if c.stored > 0 {
      NewHeadOrdered(child, c.stored * c.size - 1, false);
      KnownAfter(child, c.stored * c.size - 1, false);
    }
  }

  lemma AddOrdered(parent: Hash -> Hash, c: Indexer, child: Indexer)
    requires Ordered(c) && Opened(parent, child) && child.stored == 0 && c.size > 1
    ensures Ordered(AddChild(c, child))
  {
    var c' := AddChild(c, child);
    AdoptedOrdered(parent, c, child);
    forall i | 0 <= i < |c'.children| ensures Behind(c'.children[i], c') && Ordered(c'.children[i]) {
      if i < |c.children| {
        assert c'.children[i] == c.children[i];
      } else {
        assert c'.children[i] == Adopted(c, child);
      }
    }
  }

  /** The loop of an indexer never raises what it knows. */
  lemma WorkKnown(parent: Hash -> Hash, anew: bool, c: Indexer, move: Move)
    requires Sound(parent, c) && Allowed(parent, anew, c, move)
    ensures var c' := Work(parent, anew, c, move); c'.size == c.size && c'.known <= c.known
  {
  }

  lemma {:induction false} WorkOrdered(parent: Hash -> Hash, c: Indexer, move: Move)
    requires Sound(parent, c) && Ordered(c) && Allowed(parent, true, c, move)
    ensures Ordered(Work(parent, true, c, move))
    decreases move
  {
    match move
    case Start =>
    case Finish(result) => CommitOrdered(parent, c, result);
    case Adopt(child) => AddOrdered(parent, c, child);
    case Below(i, m) =>
      WorkOrdered(parent, c.children[i], m);
      WorkKnown(parent, true, c.children[i], m);
      MulMono(Work(parent, true, c.children[i], m).known, c.children[i].known, c.children[i].size);
  }

  // ---------- whole runs ----------

  ghost predicate Run(parent: Hash -> Hash, anew: bool, states: seq<Indexer>) {
    states != [] && forall k | 0 < k < |states| :: Step(parent, anew, states[k - 1], states[k])
  }

  /**
    In every run from a consistent index, every indexer of the tree keeps exactly its section heads,
    linked section by section.
   */
  lemma {:induction false} RunSound(parent: Hash -> Hash, anew: bool, states: seq<Indexer>, k: nat)
    requires Run(parent, anew, states) && Opened(parent, states[0]) && k < |states|
    ensures Sound(parent, states[k])
  {
    if k > 0 {
      RunSound(parent, anew, states, k - 1);
      StepSound(parent, anew, states[k - 1], states[k]);
    }
  }

  /**
    In every run from a fresh start, with children only under sections of two blocks or more, no
    child knows more than its parent stored.
   */
  lemma {:induction false} RunOrdered(parent: Hash -> Hash, states: seq<Indexer>, k: nat)
    requires Run(parent, true, states) && Opened(parent, states[0]) && states[0].stored == 0 && k < |states|
    ensures Ordered(states[k])
  {
    if k > 0 {
      RunOrdered(parent, states, k - 1);
      RunSound(parent, true, states, k - 1);
      StepOrdered(parent, states[k - 1], states[k]);
    }
  }

  lemma StepOrdered(parent: Hash -> Hash, c: Indexer, c': Indexer)
    requires Sound(parent, c) && Ordered(c) && Step(parent, true, c, c')
    ensures Ordered(c')
  {
    if exists head, reorg :: c' == NewHead(c, head, reorg) {
      var head, reorg :| c' == NewHead(c, head, reorg);
      NewHeadOrdered(c, head, reorg);
    } else {
      var move :| Allowed(parent, true, c, move) && c' == Work(parent, true, c, move);
      WorkOrdered(parent, c, move);
    }
  }

  // ---------- where it fails ----------

  /**
    After a commit, a child that knows all the parent stored learns of a
    rollback of the last section exactly if sections have two blocks or more.
   */
  lemma TightChild(c: Indexer, head: nat)
    requires |c.children| == 1 && c.children[0].known * c.children[0].size == c.stored * c.size
    requires c.stored > 0 && c.cascaded + 1 == c.stored * c.size && head / c.size == c.stored - 1
    ensures var c' := NewHead(c, head, true); Behind(c'.children[0], c') <==> c.size > 1
  {
    var end := (c.stored - 1) * c.size;
    assert end == c.stored * c.size - c.size;
    KnownAfter(c.children[0], end, true);
  }

  /** A fresh start with sections of one block, up to a rollback that the child does not hear of. */
  lemma OneBlockSections(parent: Hash -> Hash, first: Hash) returns (states: seq<Indexer>)
    requires first != 0 && parent(first) == 0
    ensures Run(parent, false, states) && |states| == 6 && Opened(parent, states[0]) && states[0].stored == 0
    ensures var c := states[5]; |c.children| == 1 && !Behind(c.children[0], c)
  {
    var c0 := Indexer(1, 0, 0, 0, 0, map[], Idle, []);
    var c1 := Work(parent, false, c0, Adopt(c0));
    var c2 := NewHead(c1, 0, false);
    var c3 := Work(parent, false, c2, Start);
    var c4 := Committed(parent, c3, first);
    states := [c0, c1, c2, c3, c4, NewHead(c4, 0, true)];
    assert c4.children == [NewHead(c0, 0, false)];
  }

  /** A section of one block on top of no other is committed. */
  ghost function Committed(parent: Hash -> Hash, c: Indexer, first: Hash): Indexer
    requires first != 0 && parent(first) == 0 && c.job == Busy(0, 0) && c.size == 1
    ensures Step(parent, false, c, Committed(parent, c, first))
  {
    assert Linked(parent, 0, first, 1) by { assert Linked(parent, 0, parent(first), 0); }
    Work(parent, false, c, Finish(Some(first)))
  }

  /**
    An indexer reopened with stored sections has cascaded nothing yet, and keeps
    its first rollback from the child it adopts. The child stays behind exactly
    if its confirmations outweigh the rollback.
   */
  lemma ReopenedMissesRollback(parent: Hash -> Hash, c: Indexer, child: Indexer, head: nat)
    requires Opened(parent, c) && Opened(parent, child)
    ensures var c' := NewHead(AddChild(c, child), head, true);
            Behind(c'.children[0], c') <==>
            c.stored * c.size < child.confirms + (head / c.size * c.size / child.size + 1) * child.size
  {
    var c1 := AddChild(c, child);
    var rolled := head / c.size;
    var child' := c1.children[0];
    assert NewHead(c1, head, true).children == c1.children;
    AdoptedKnows(c, child, rolled * c.size / child.size);
    if child'.known > 0 {
      AdoptedKnows(c, child, child'.known - 1);
    }
    StaysBehind(child'.known, child.size, child.confirms, c.stored * c.size, rolled * c.size);
    if rolled < c.stored {
      MulMono(rolled, c.stored, c.size);
    } else {
      MulMono(c.stored, rolled, c.size);
    }
  }

  /** Any rollback of a stored section leaves a child of the same section size without confirmations ahead. */
  lemma ReopenedEqualSizes(parent: Hash -> Hash, c: Indexer, child: Indexer, head: nat)
    requires Opened(parent, c) && Opened(parent, child)
    requires child.size == c.size && child.confirms == 0 && head / c.size < c.stored
    ensures var c' := NewHead(AddChild(c, child), head, true); !Behind(c'.children[0], c')
  {
    var rolled := head / c.size;
    ReopenedMissesRollback(parent, c, child, head);
    BelowQuotient(rolled, rolled * c.size, c.size);
    MulMono(rolled * c.size / c.size, rolled, c.size);
    MulMono(rolled + 1, c.stored, c.size);
    MulMono(rolled * c.size / c.size + 1, rolled + 1, c.size);
  }

  /** What a fresh child knows: the sections that the stored blocks confirm. */
  lemma AdoptedKnows(c: Indexer, child: Indexer, s: nat)
    requires child.known == 0 && c.children == []
    ensures s < AddChild(c, child).children[0].known <==> (s + 1) * child.size + child.confirms <= c.stored * c.size
  {
    MulMono(1, s + 1, child.size);
    if c.stored > 0 {
      MulMono(1, c.stored, c.size);
      NewHeadExact(child, c.stored * c.size - 1, s);
    }
  }

  lemma StaysBehind(known: nat, size: Size, confirms: nat, blocks: nat, rolled: nat)
    requires rolled / size < known <==> (rolled / size + 1) * size + confirms <= blocks
    requires known > 0 ==> known * size + confirms <= blocks
    ensures known * size <= blocks && (known * size <= rolled <==> blocks < confirms + (rolled / size + 1) * size)
    ensures blocks <= rolled ==> blocks < confirms + (rolled / size + 1) * size
  {
    BelowQuotient(rolled / size, rolled, size);
    if known > 0 {
      BelowQuotient(known - 1, rolled, size);
    }
  }

  /**
    A section that was being processed when blocks were rolled back, and is
    committed after. No more is stored than known exactly if the rollback reached
    below the section, or lies above it.
   */
  lemma StoredPassesKnown(parent: Hash -> Hash, c: Indexer, head: nat, result: Hash)
    requires Sound(parent, c) && c.job.Busy?
    ensures var c' := Commit(NewHead(c, head, true), Some(result));
            c'.stored <= c'.known <==>
            c.stored < c.job.section || head / c.size < c.stored || (head / c.size > c.stored && c.known > c.stored)
  {
    NewHeadSound(parent, c, head, true);
    CommitChecks(parent, NewHead(c, head, true));
  }

  /** A fresh start up to a commit after a rollback to the start of the section: one section stored, none known. */
  lemma CommittedOverRollback(parent: Hash -> Hash, first: Hash) returns (states: seq<Indexer>)
    requires first != 0 && parent(first) == 0
    ensures Run(parent, false, states) && |states| == 5 && Opened(parent, states[0]) && states[0].stored == 0
    ensures states[4].stored == 1 && states[4].known == 0
  {
    var c0 := Indexer(1, 0, 0, 0, 0, map[], Idle, []);
    var c1 := NewHead(c0, 0, false);
    var c2 := Work(parent, false, c1, Start);
    var c3 := NewHead(c2, 0, true);
    states := [c0, c1, c2, c3, Committed(parent, c3, first)];
  }
}
