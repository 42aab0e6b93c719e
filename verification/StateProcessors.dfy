/**
  Processing the transactions of a block (core/state_processor.go), and the
  receipt fields that are recomputed from the cumulative gas (core/blockchain.go).
  Block rewards, logs and contract addresses are not modelled.
 */
module StateProcessors {
  import opened GasPools
  import opened Worlds
  import opened StateTransitions

  datatype Receipt = Receipt(failed: bool, cumulative: nat, gasUsed: nat)

  /** What one applied message did to the world, using this much gas. */
  ghost predicate TxStep(ctx: Context, msg: Msg, w: World, w': World, used: nat, failed: bool) {
    || (Pays(msg) && exists required :: Paid(ctx, msg, w, w', required, used, failed))
    || (Private(msg) && StampPaid(ctx, msg, w, w', used, failed))
  }

  datatype Status = Valid | Invalid | Crashed

  ghost function GasSum(receipts: seq<Receipt>): nat {
    if receipts == [] then 0 else GasSum(receipts[..|receipts| - 1]) + receipts[|receipts| - 1].gasUsed
  }

  /** Each receipt's cumulative gas is the gas of all receipts up to it. */
  ghost predicate Cumulative(receipts: seq<Receipt>) {
    forall i | 0 <= i < |receipts| :: receipts[i].cumulative == GasSum(receipts[..i + 1])
  }

  /** ApplyTransaction: the message is applied, and its gas added to the block's total. */
  method ApplyTransaction(ctx: Context, gp: GasPool, world: World, msg: Msg, total: nat)
    returns (status: Status, world': World, receipt: Receipt)
    requires Honest(ctx.evm)
    modifies gp
    ensures status.Valid? ==> TxStep(ctx, msg, world, world', receipt.gasUsed, receipt.failed)
    ensures status.Valid? ==> gp.gas + receipt.gasUsed == old(gp.gas) && receipt.cumulative == total + receipt.gasUsed
    ensures status.Valid? <==> !Refused(ctx, msg, world, old(gp.gas))
    ensures status.Crashed? <==> Crashes(ctx, msg, world)
  {
    var st := new StateTransition(ctx, msg, gp, world);
    var r := st.TransitionDb();
    world' := st.world;
    if !r.Applied? {
      return if r.Crash? then Crashed else Invalid, world', Receipt(false, 0, 0);
    }
    status, receipt := Valid, Receipt(r.failed, total + r.used, r.used);
  }

  /** The worlds between the transactions of a block. */
  ghost predicate Trace(ctx: Context, msgs: seq<Msg>, worlds: seq<World>, receipts: seq<Receipt>) {
    && |worlds| == |receipts| + 1 <= |msgs| + 1
    && forall i | 0 <= i < |receipts| :: TxStep(ctx, msgs[i], worlds[i], worlds[i + 1], receipts[i].gasUsed,
       receipts[i].failed)
  }

  /** With so much gas left in the block, the message cannot be applied. */
  ghost predicate Refused(ctx: Context, msg: Msg, w: World, pool: nat) {
    Acceptable(ctx, msg, w, pool) ==> Started(ctx, msg, w).err == InsufficientBalance
  }

  /**
    Process: after every transaction the gas left and the gas used make up the
    limit of the block, so the cumulative gas of the receipts adds up and stays
    within it. It ends early exactly at the first message that cannot be applied;
    `done` are the receipts up to there. The block is invalid then, or the
    message divides by its price of zero.
   */
  method Process(ctx: Context, world: World, msgs: seq<Msg>, limit: nat)
    returns (status: Status, receipts: seq<Receipt>, total: nat, ghost done: seq<Receipt>, ghost worlds: seq<World>)
    requires Honest(ctx.evm)
    ensures Trace(ctx, msgs, worlds, done) && worlds[0] == world && Cumulative(done) && GasSum(done) <= limit
    ensures status.Valid? ==> receipts == done && |receipts| == |msgs| && total == GasSum(receipts)
    ensures !status.Valid? ==>
              && receipts == [] && |done| < |msgs| && Refused(ctx, msgs[|done|], worlds[|done|], limit - GasSum(done))
              && (status.Crashed? <==> Crashes(ctx, msgs[|done|], worlds[|done|]))
  {
    var gp := new GasPool(limit);
    var now := world;
    receipts, total, done, worlds := [], 0, [], [world];
    for i := 0 to |msgs|
      invariant |receipts| == i && receipts == done && Trace(ctx, msgs, worlds, done) && worlds[0] == world
                && worlds[i] == now
      invariant Cumulative(done) && total == GasSum(done) && gp.gas + total == limit
    {
      var applied, next, receipt := ApplyTransaction(ctx, gp, now, msgs[i], total);
      if !applied.Valid? {
        return applied, [], 0, done, worlds;
      }
      Appended(done, receipt);
      worlds, receipts, done := worlds + [next], receipts + [receipt], done + [receipt];
      total, now := receipt.cumulative, next;
    }
    status := Valid;
  }

  lemma Appended(receipts: seq<Receipt>, receipt: Receipt)
    requires Cumulative(receipts) && receipt.cumulative == GasSum(receipts) + receipt.gasUsed
    ensures Cumulative(receipts + [receipt]) && GasSum(receipts + [receipt]) == receipt.cumulative
  {
    var rs := receipts + [receipt];
    assert rs[..|rs| - 1] == receipts;
    forall i | 0 <= i < |rs| ensures rs[i].cumulative == GasSum(rs[..i + 1]) {
      if i < |receipts| {
        assert rs[..i + 1] == receipts[..i + 1];
      } else {
        assert rs[..i + 1] == rs;
      }
    }
  }

  /** Cumulative gas never falls, and ends at the block's total. */
  lemma CumulativeRises(receipts: seq<Receipt>, i: nat, j: nat)
    requires Cumulative(receipts) && i <= j < |receipts|
    ensures receipts[i].cumulative <= receipts[j].cumulative <= GasSum(receipts)
  {
    SumRises(receipts, i + 1, j + 1);
    SumRises(receipts, j + 1, |receipts|);
    assert receipts[..|receipts|] == receipts;
  }

  lemma {:induction false} SumRises(receipts: seq<Receipt>, i: nat, j: nat)
    requires i <= j <= |receipts|
    ensures GasSum(receipts[..i]) <= GasSum(receipts[..j])
    decreases j - i
  {
    if i < j {
      assert receipts[..j][..j - 1] == receipts[..j - 1];
      SumRises(receipts, i, j - 1);
    }
  }

  /**
    SetReceiptsData recovers each receipt's own gas from the cumulative values, if they are those of
    a processed block.
   */
  method SetReceiptsData(cumulative: seq<int>, ghost original: seq<Receipt>) returns (gasUsed: seq<int>)
    ensures |gasUsed| == |cumulative|
    ensures Cumulative(original) && Gases(original) == cumulative ==>
              forall j | 0 <= j < |original| :: gasUsed[j] == original[j].gasUsed
  {
    gasUsed := [];
    for j := 0 to |cumulative|
      invariant |gasUsed| == j
      invariant forall i | 0 <= i < j :: gasUsed[i] == Rise(cumulative, i)
    {
      gasUsed := gasUsed + [Rise(cumulative, j)];
    }
    forall j | Cumulative(original) && Gases(original) == cumulative && 0 <= j < |original|
      ensures gasUsed[j] == original[j].gasUsed
    {
      Difference(original, j);
    }
  }

  function Rise(cumulative: seq<int>, j: nat): int
    requires j < |cumulative|
  {
    if j == 0 then cumulative[j] else cumulative[j] - cumulative[j - 1]
  }

  ghost function Gases(receipts: seq<Receipt>): seq<int> {
    seq(|receipts|, i requires 0 <= i < |receipts| => receipts[i].cumulative)
  }

  lemma Difference(receipts: seq<Receipt>, j: nat)
    requires Cumulative(receipts) && j < |receipts|
    ensures receipts[j].gasUsed == Rise(Gases(receipts), j)
  {
    assert receipts[..j + 1][..j] == receipts[..j];
    assert receipts[j].cumulative == GasSum(receipts[..j + 1]);
    if j > 0 {
      assert receipts[j - 1].cumulative == GasSum(receipts[..j]);
    }
  }

  // ---------- whole runs ----------

  /** A run of applied messages on any contexts; between them the world may change, but spent stamps stay spent. */
  ghost predicate Run(ctxs: seq<Context>, msgs: seq<Msg>, before: seq<World>, after: seq<World>) {
    && |ctxs| == |msgs| == |before| == |after|
    && (forall i | 0 <= i < |msgs| ::
       Honest(ctxs[i].evm) && exists used, failed :: TxStep(ctxs[i], msgs[i], before[i], after[i], used, failed))
    && (forall i | 0 < i < |msgs| :: Remembers(after[i - 1].images, before[i].images))
  }

  lemma StepRemembers(ctx: Context, msg: Msg, w: World, w': World, used: nat, failed: bool)
    requires Honest(ctx.evm) && TxStep(ctx, msg, w, w', used, failed)
    ensures Remembers(w.images, w'.images) && (Private(msg) ==> SpendsNow(ctx, w, w', msg))
  {
    if Pays(msg) {
      var required :| Paid(ctx, msg, w, w', required, used, failed);
      PaidConserves(ctx, msg, w, w', required, used, failed);
    } else {
      StampConserves(ctx, msg, w, w', used, failed);
    }
  }

  lemma RunRemembers(ctxs: seq<Context>, msgs: seq<Msg>, before: seq<World>, after: seq<World>, j: nat)
    requires Run(ctxs, msgs, before, after) && j < |msgs|
    ensures Remembers(before[j].images, after[j].images)
    ensures Private(msgs[j]) ==> SpendsNow(ctxs[j], before[j], after[j], msgs[j])
  {
    var used, failed :| TxStep(ctxs[j], msgs[j], before[j], after[j], used, failed);
    StepRemembers(ctxs[j], msgs[j], before[j], after[j], used, failed);
  }

  lemma {:induction false} SpentForever(before: seq<World>, after: seq<World>, i: nat, j: nat, image: Image)
    requires i < j < |before| == |after| && Spent(after[i].images, image)
    requires forall k | 0 <= k < |before| :: Remembers(before[k].images, after[k].images)
    requires forall k | 0 < k < |before| :: Remembers(after[k - 1].images, before[k].images)
    ensures Spent(before[j].images, image)
    decreases j
  {
    if i + 1 < j {
      SpentForever(before, after, i, j - 1, image);
    }
    assert Remembers(before[j - 1].images, after[j - 1].images) && Remembers(after[j - 1].images, before[j].images);
  }

  ghost function ImageOf(ctx: Context, msg: Msg, w: World): Image {
    var stamp := ctx.ring(w, msg.from, msg.data);
    if stamp.Some? then stamp.value.image else 0
  }

  /** No stamp pays twice, over any run of applied messages. */
  lemma StampsPayOnce(ctxs: seq<Context>, msgs: seq<Msg>, before: seq<World>, after: seq<World>, i: nat, j: nat)
    requires Run(ctxs, msgs, before, after) && i < j < |msgs| && Private(msgs[i]) && Private(msgs[j])
    ensures ImageOf(ctxs[i], msgs[i], before[i]) != ImageOf(ctxs[j], msgs[j], before[j])
  {
    forall k | 0 <= k < |msgs| ensures Remembers(before[k].images, after[k].images) {
      RunRemembers(ctxs, msgs, before, after, k);
    }
    RunRemembers(ctxs, msgs, before, after, i);
    RunRemembers(ctxs, msgs, before, after, j);
    SpentForever(before, after, i, j, ImageOf(ctxs[i], msgs[i], before[i]));
  }

  /** What the stamps of a trace paid. */
  ghost function StampFees(msgs: seq<Msg>, receipts: seq<Receipt>): nat
    requires |receipts| <= |msgs|
  {
    if receipts == [] then 0 else
      var i := |receipts| - 1;
      StampFees(msgs, receipts[..i]) + if Private(msgs[i]) then receipts[i].gasUsed * msgs[i].price else 0
  }

  lemma StepConserves(ctx: Context, msg: Msg, w: World, w': World, used: nat, failed: bool)
    requires Honest(ctx.evm) && TxStep(ctx, msg, w, w', used, failed)
    ensures Wealth(w') == Wealth(w) + if Private(msg) then used * msg.price else 0
  {
    if Pays(msg) {
      var required :| Paid(ctx, msg, w, w', required, used, failed);
      PaidConserves(ctx, msg, w, w', required, used, failed);
    } else {
      StampConserves(ctx, msg, w, w', used, failed);
    }
  }

  /** Over a block, all value stays in place but for what the stamps paid. */
  lemma BlockConserves(ctx: Context, msgs: seq<Msg>, worlds: seq<World>, receipts: seq<Receipt>)
    requires Honest(ctx.evm) && Trace(ctx, msgs, worlds, receipts)
    ensures Wealth(worlds[|receipts|]) == Wealth(worlds[0]) + StampFees(msgs, receipts)
  {
    ConservedUpTo(ctx, msgs, worlds, receipts, |receipts|);
    assert receipts[..|receipts|] == receipts;
  }

  lemma {:induction false} ConservedUpTo(ctx: Context, msgs: seq<Msg>, worlds: seq<World>, receipts: seq<Receipt>,
      k: nat)
    requires Honest(ctx.evm) && Trace(ctx, msgs, worlds, receipts) && k <= |receipts|
    ensures Wealth(worlds[k]) == Wealth(worlds[0]) + StampFees(msgs, receipts[..k])
    decreases k
  {
    if k > 0 {
      var i := k - 1;
      ConservedUpTo(ctx, msgs, worlds, receipts, i);
      StepConserves(ctx, msgs[i], worlds[i], worlds[i + 1], receipts[i].gasUsed, receipts[i].failed);
      assert receipts[..k][..i] == receipts[..i] && receipts[..k][i] == receipts[i];
    }
  }
}
