/**
  The state transition of one message (core/state_transition.go). The EVM, the
  decoding of a ring signature and the addresses of the proof-of-stake contracts
  are parameters; of the EVM it is assumed that it conserves value, uses no more
  gas than it is given, and never forgets a spent stamp.
 */
module StateTransitions {
  import opened Options
  import opened ByteStrings
  import opened GasPools
  import opened Worlds

  const TX_GAS := 21000
  const TX_GAS_CONTRACT_CREATION := 53000
  const TX_DATA_ZERO_GAS := 4
  const TX_DATA_NON_ZERO_GAS := 68
  const SSTORE_SET_GAS := 20000
  const REQUIRED_GAS_PER_MIX_PUB := 4000
  const UINT64_SIZE := 0x1_0000_0000_0000_0000

  const NORMAL_TX := 1
  const PRIVACY_TX := 6
  const POS_TX := 7

  datatype Msg = Msg(from: Address, to: Option<Address>, price: nat, gas: nat, value: nat, nonce: nat,
                     checkNonce: bool, data: Bytes, txType: nat)

  predicate Pays(msg: Msg) {
    msg.txType in {NORMAL_TX, 0, 2, POS_TX}
  }

  predicate Private(msg: Msg) {
    msg.txType == PRIVACY_TX
  }

  /** A stamp: its key image and balance, the size of its ring, and the call it pays for. */
  datatype Stamp = Stamp(image: Image, balance: nat, mix: nat, call: Bytes)

  datatype VmError = Fine | InsufficientBalance | Fault

  datatype Call = Call(from: Address, to: Option<Address>, data: Bytes, gas: nat, value: nat)

  datatype Ran = Ran(world: World, gas: nat, err: VmError)

  datatype Context = Context(coinbase: Address, posActive: bool, posContracts: set<Address>,
                             ring: (World, Address, Bytes) -> Option<Stamp>, evm: (World, Call) -> Ran)

  ghost predicate Honest(evm: (World, Call) -> Ran) {
    forall w, c {:trigger evm(w, c)} ::
      evm(w, c).gas <= c.gas && Wealth(evm(w, c).world) == Wealth(w) && Remembers(w.images, evm(w, c).world.images)
  }

  /** What was spent stays spent. */
  ghost predicate Remembers(images: map<Image, nat>, images': map<Image, nat>) {
    forall i :: Spent(images, i) ==> Spent(images', i)
  }

  datatype Reason = NonceTooHigh | NonceTooLow | OutOfGas | CannotPay | GasLimitReached | BadRing | BadValue | VmRefused

  /** A message fails with an error, stops the program by a division by zero, or is applied. */
  datatype Outcome = Fail(reason: Reason) | Crash | Applied(required: nat, used: nat, failed: bool)

  // ---------- intrinsic gas ----------

  function NonZero(data: Bytes): nat {
    if data == [] then 0 else (if data[0] != 0 then 1 else 0) + NonZero(data[1..])
  }

  lemma {:induction false} NonZeroAppend(data: Bytes, b: byte)
    ensures NonZero(data + [b]) == NonZero(data) + if b != 0 then 1 else 0
  {
    if data != [] {
      NonZeroAppend(data[1..], b);
      assert (data + [b])[1..] == data[1..] + [b];
    }
  }

  function Intrinsic(data: Bytes, to: Option<Address>, posContracts: set<Address>): nat {
    var base := if to.None? then TX_GAS_CONTRACT_CREATION else TX_GAS;
    var all := base + NonZero(data) * TX_DATA_NON_ZERO_GAS + (|data| - NonZero(data)) * TX_DATA_ZERO_GAS;
    if to.Some? && to.value in posContracts then all / 10 else all
  }

  /** IntrinsicGas counts the non-zero bytes in a loop. */
  method IntrinsicGas(data: Bytes, to: Option<Address>, posContracts: set<Address>) returns (gas: nat)
    ensures gas == Intrinsic(data, to, posContracts)
  {
    var nz := 0;
    for i := 0 to |data|
      invariant nz == NonZero(data[..i])
    {
      NonZeroAppend(data[..i], data[i]);
      assert data[..i + 1] == data[..i] + [data[i]];
      if data[i] != 0 {
        nz := nz + 1;
      }
    }
    assert data[..|data|] == data;
    gas := (if to.None? then TX_GAS_CONTRACT_CREATION else TX_GAS) + nz * TX_DATA_NON_ZERO_GAS
        + (|data| - nz) * TX_DATA_ZERO_GAS;
    if to.Some? && to.value in posContracts {
      gas := gas / 10;
    }
  }

  /** No message is free, not even to a proof-of-stake contract: a stamp that yields no gas never gets through. */
  lemma IntrinsicIsPositive(data: Bytes, to: Option<Address>, posContracts: set<Address>)
    ensures Intrinsic(data, to, posContracts) >= TX_GAS / 10
  {
  }

  // ---------- stamps ----------

  /** What a stamp's ring costs before the call can start. */
  function RingGas(stamp: Stamp): nat {
    REQUIRED_GAS_PER_MIX_PUB * stamp.mix + SSTORE_SET_GAS
  }

  datatype Stamped = Rejected(reason: Reason) | DividedByZero | Stamped(world: World, data: Bytes, total: nat,
      evmGas: nat)

  /** PreProcessPrivacyTx. A stamp that was spent before yields no gas, and no error. */
  function PreProcess(ctx: Context, w: World, msg: Msg): (r: Stamped)
    ensures r.DividedByZero? <==> msg.value == 0 && ctx.ring(w, msg.from, msg.data).Some? && msg.price == 0
    ensures r.Stamped? ==> r.total * msg.price <= StampBalance(ctx, w, msg)
    ensures r.Stamped? && r.total > 0 ==> SpendsNow(ctx, w, r.world, msg) && r.evmGas + SSTORE_SET_GAS <= r.total
    ensures r.Stamped? && r.total == 0 ==> r.evmGas == 0 && r.world == w
    ensures r.Stamped? ==>
              r.world.balances == w.balances && r.world.sink == w.sink && Remembers(w.images, r.world.images)
  {
    if msg.value != 0 then Rejected(BadValue) else
    var stamp := ctx.ring(w, msg.from, msg.data);
    if stamp.None? then Rejected(BadRing) else
    if msg.price == 0 then DividedByZero else
    var total := stamp.value.balance / msg.price;
    if total >= UINT64_SIZE || total < RingGas(stamp.value) then Rejected(OutOfGas) else
    if Spent(w.images, stamp.value.image) then Stamped(w, [], 0, 0) else
    Stamped(AddImage(w, stamp.value.image, stamp.value.balance), stamp.value.call, total, total - RingGas(stamp.value))
  }

  /** AddOTAImage refuses the empty value, and its caller does not look. */
  function AddImage(w: World, i: Image, value: nat): World {
    if value == 0 then w else w.(images := w.images[i := value])
  }

  ghost function StampBalance(ctx: Context, w: World, msg: Msg): nat {
    var stamp := ctx.ring(w, msg.from, msg.data);
    if stamp.Some? then stamp.value.balance else 0
  }

  /** The message's stamp was not spent in w and is spent in w'. */
  ghost predicate SpendsNow(ctx: Context, w: World, w': World, msg: Msg) {
    var stamp := ctx.ring(w, msg.from, msg.data);
    stamp.Some? && !Spent(w.images, stamp.value.image) && Spent(w'.images, stamp.value.image)
  }

  // ---------- the transition ----------

  function Bump(w: World, a: Address): World {
    w.(nonces := w.nonces[a := Nonce(w, a) + 1])
  }

  /** The EVM starts with the nonce raised, unless it creates a contract and raises it itself. */
  function Enter(w: World, msg: Msg): World {
    if msg.to.Some? then Bump(w, msg.from) else w
  }

  function Fee(ctx: Context, w: World, amount: nat): World {
    if ctx.posActive then w.(sink := w.sink + amount) else w.(balances := Credit(w.balances, ctx.coinbase, amount))
  }

  class StateTransition {
    const gp: GasPool
    const ctx: Context
    const msg: Msg
    var world: World
    var gas: nat
    var initialGas: nat

    constructor (ctx: Context, msg: Msg, gp: GasPool, world: World)
      ensures this.ctx == ctx && this.msg == msg && this.gp == gp && this.world == world && gas == 0 && initialGas == 0
    {
      this.ctx, this.msg, this.gp, this.world := ctx, msg, gp, world;
      gas, initialGas := 0, 0;
    }

    method UseGas(amount: nat) returns (ok: bool)
      modifies this`gas
      ensures ok <==> amount <= old(gas)
      ensures gas + (if ok then amount else 0) == old(gas)
    {
      if gas < amount {
        return false;
      }
      gas := gas - amount;
      ok := true;
    }

    /** buyGas: all the gas a message may use is paid for, and taken from the block, up front. */
    method BuyGas() returns (err: Option<Reason>)
      requires gas == 0
      modifies this`world, this`gas, this`initialGas, gp
      ensures err.None? <==>
                && msg.gas < UINT64_SIZE && msg.gas * msg.price <= Balance(old(world).balances, msg.from)
                && msg.gas <= old(gp.gas)
      ensures err.Some? ==> world == old(world) && gp.gas == old(gp.gas)
      ensures err.None? ==> gas == msg.gas == initialGas && gp.gas == old(gp.gas) - msg.gas
      ensures err.None? ==> world == old(world).(balances := Debit(old(world).balances, msg.from, msg.gas * msg.price))
    {
      if msg.gas >= UINT64_SIZE {
        return Some(OutOfGas);
      }
      if Balance(world.balances, msg.from) < msg.gas * msg.price {
        return Some(CannotPay);
      }
      var ok := gp.SubGas(msg.gas);
      if !ok {
        return Some(GasLimitReached);
      }
      gas, initialGas := gas + msg.gas, msg.gas;
      world := world.(balances := Debit(world.balances, msg.from, msg.gas * msg.price));
      err := None;
    }

    method PreCheck() returns (err: Option<Reason>)
      requires gas == 0
      modifies this`world, this`gas, this`initialGas, gp
      ensures err.None? <==>
                && (msg.checkNonce ==> Nonce(old(world), msg.from) == msg.nonce)
                && msg.gas < UINT64_SIZE && msg.gas * msg.price <= Balance(old(world).balances, msg.from)
                   && msg.gas <= old(gp.gas)
      ensures err.None? ==> gas == msg.gas == initialGas && gp.gas == old(gp.gas) - msg.gas
      ensures err.None? ==> world == old(world).(balances := Debit(old(world).balances, msg.from, msg.gas * msg.price))
    {
      if msg.checkNonce {
        if Nonce(world, msg.from) < msg.nonce {
          return Some(NonceTooHigh);
        } else if Nonce(world, msg.from) > msg.nonce {
          return Some(NonceTooLow);
        }
      }
      err := BuyGas();
    }

    /** refundGas: unused gas, and the refund of at most half the gas used, go back to the sender and to the block. */
    method RefundGas()
      requires gas <= initialGas
      modifies this`world, this`gas, gp
      ensures old(gas) <= gas <= initialGas && gp.gas == old(gp.gas) + gas
      ensures 2 * (initialGas - gas) >= initialGas - old(gas)
      ensures gas == old(gas) + Least((initialGas - old(gas)) / 2, old(world).refund)
      ensures world == old(world).(balances := Credit(old(world).balances, msg.from, gas * msg.price))
    {
      ghost var before := world.balances;
      ghost var unused := gas;
      world := world.(balances := Credit(world.balances, msg.from, gas * msg.price));
      var refund := Least((initialGas - gas) / 2, world.refund);
      gas := gas + refund;
      world := world.(balances := Credit(world.balances, msg.from, refund * msg.price));
      CreditTwice(before, msg.from, unused, refund, msg.price);
      gp.AddGas(gas);
    }

    /** The gas is bought, or the stamp spent, and the intrinsic gas used; `total` is what a stamp pays for. */
    method Prepare() returns (err: Option<Outcome>, data: Bytes, total: nat)
      requires gas == 0 == initialGas
      modifies this`world, this`gas, this`initialGas, gp
      ensures err.None? <==> Acceptable(ctx, msg, old(world), old(gp.gas))
      ensures err.Some? ==> !err.value.Applied? && (err.value.Crash? <==> Crashes(ctx, msg, old(world)))
      ensures err.None? && Pays(msg) ==>
                && data == msg.data && gas + Intrinsic(msg.data, msg.to, ctx.posContracts) == initialGas == msg.gas
                && gp.gas == old(gp.gas) - msg.gas && msg.gas * msg.price <= Balance(old(world).balances, msg.from)
                && world == Bought(old(world), msg)
      ensures err.None? && Private(msg) ==>
                var r := PreProcess(ctx, old(world), msg);
                && r.Stamped? && total == r.total > 0 && world == r.world && data == r.data
                   && gp.gas == old(gp.gas) - total
                && gas + Intrinsic(msg.data, msg.to, ctx.posContracts) == initialGas == r.evmGas
    {
      data, total := msg.data, 0;
      if Pays(msg) {
        var unpaid := PreCheck();
        if unpaid.Some? {
          return Some(Fail(unpaid.value)), data, total;
        }
      }
      var intrinsic := IntrinsicGas(msg.data, msg.to, ctx.posContracts);
      if intrinsic >= UINT64_SIZE {
        return Some(Fail(OutOfGas)), data, total;
      }
      IntrinsicIsPositive(msg.data, msg.to, ctx.posContracts);
      if Private(msg) {
        var r := PreProcess(ctx, world, msg);
        if r.DividedByZero? {
          return Some(Crash), data, total;
        }
        if r.Rejected? {
          return Some(Fail(r.reason)), data, total;
        }
        world, data, total, gas, initialGas := r.world, r.data, r.total, r.evmGas, r.evmGas;
        var ok := gp.SubGas(total);
        if !ok {
          return Some(Fail(GasLimitReached)), data, total;
        }
      }
      var ok := UseGas(intrinsic);
      err := if ok then None else Some(Fail(OutOfGas));
    }

    /**
      What the EVM left of the gas is settled, and the fee goes to the miner or, under proof of
      stake, to the epoch.
     */
    method Settle(total: nat) returns (required: nat, used: nat)
      requires (Pays(msg) || Private(msg)) && gas <= initialGas && (Pays(msg) ==> initialGas == msg.gas)
      modifies this`world, this`gas, gp
      ensures Pays(msg) ==>
                && required == msg.gas - old(gas) && used <= required <= 2 * used
                   && gp.gas == old(gp.gas) + msg.gas - used
                && world == Fee(ctx, Refunded(old(world), msg, used), used * msg.price)
      ensures !Pays(msg) ==>
                used == required == total && gp.gas == old(gp.gas) && world == Fee(ctx, old(world), used * msg.price)
    {
      if Pays(msg) {
        required := initialGas - gas;
        RefundGas();
        used := initialGas - gas;
      } else {
        required, used := total, total;
      }
      world := Fee(ctx, world, used * msg.price);
    }

    /**
      TransitionDb. An applied message takes exactly the gas it used from the
      block, and does to the world what Paid or StampPaid say.
     */
    method TransitionDb() returns (r: Outcome)
      requires gas == 0 == initialGas && Honest(ctx.evm)
      modifies this, gp
      ensures r.Crash? <==> Crashes(ctx, msg, old(world))
      ensures r.Applied? <==>
                && Acceptable(ctx, msg, old(world), old(gp.gas))
                && Started(ctx, msg, old(world)).err != InsufficientBalance
      ensures r.Applied? ==> gp.gas + r.used == old(gp.gas)
      ensures r.Applied? && Pays(msg) ==> Paid(ctx, msg, old(world), world, r.required, r.used, r.failed)
      ensures r.Applied? && Private(msg) ==>
                r.required == r.used && StampPaid(ctx, msg, old(world), world, r.used, r.failed)
    {
      var err, data, total := Prepare();
      if err.Some? {
        return err.value;
      }
      var ran := ctx.evm(Enter(world, msg), Call(msg.from, msg.to, data, gas, msg.value));
      world, gas := ran.world, ran.gas;
      if ran.err == InsufficientBalance {
        return Fail(VmRefused);
      }
      var required, used := Settle(total);
      r := Applied(required, used, ran.err != Fine);
    }
  }

  /** The message passes all tests that come before the EVM. */
  ghost predicate Acceptable(ctx: Context, msg: Msg, w: World, pool: nat) {
    var intrinsic := Intrinsic(msg.data, msg.to, ctx.posContracts);
    if Pays(msg) then
      && (msg.checkNonce ==> Nonce(w, msg.from) == msg.nonce)
      && msg.gas < UINT64_SIZE && msg.gas * msg.price <= Balance(w.balances, msg.from) && msg.gas <= pool
         && intrinsic <= msg.gas
    else
      Private(msg) && var r := PreProcess(ctx, w, msg); r.Stamped? && r.total <= pool && intrinsic <= r.evmGas
  }

  /**
    A well-formed stamp with a gas price of zero: the stamp's balance is divided by the price before
    anything is tested.
   */
  ghost predicate Crashes(ctx: Context, msg: Msg, w: World) {
    && Private(msg) && Intrinsic(msg.data, msg.to, ctx.posContracts) < UINT64_SIZE
    && msg.value == 0 && ctx.ring(w, msg.from, msg.data).Some? && msg.price == 0
  }

  /** Such a message, for any stamp in any world. */
  lemma FreeStampCrashes(ctx0: Context, stamp: Stamp, w: World, from: Address) returns (ctx: Context, msg: Msg)
    ensures ctx == ctx0.(ring := (w, from, data) => Some(stamp)) && msg.from == from && Private(msg) && msg.price == 0
    ensures Crashes(ctx, msg, w)
  {
    ctx := ctx0.(ring := (w, from, data) => Some(stamp));
    msg := Msg(from, None, 0, 0, 0, 0, false, [], PRIVACY_TX);
  }

  ghost function Started(ctx: Context, msg: Msg, w: World): Ran
    requires exists pool :: Acceptable(ctx, msg, w, pool)
  {
    if Pays(msg) then PaidRun(ctx, msg, w) else StampRun(ctx, msg, w)
  }

  ghost function StampRun(ctx: Context, msg: Msg, w: World): Ran
    requires PreProcess(ctx, w, msg).Stamped?
    requires Intrinsic(msg.data, msg.to, ctx.posContracts) <= PreProcess(ctx, w, msg).evmGas
  {
    var r := PreProcess(ctx, w, msg);
    ctx.evm(Enter(r.world, msg), Call(msg.from, msg.to, r.data,
        r.evmGas - Intrinsic(msg.data, msg.to, ctx.posContracts), msg.value))
  }

  /** A spent stamp never pays again: it yields no gas, and no message runs on none. */
  lemma SpentStampFails(ctx: Context, msg: Msg, w: World, pool: nat)
    requires Private(msg)
    requires var stamp := ctx.ring(w, msg.from, msg.data); stamp.Some? && Spent(w.images, stamp.value.image)
    ensures !Acceptable(ctx, msg, w, pool)
  {
    IntrinsicIsPositive(msg.data, msg.to, ctx.posContracts);
  }

  ghost function PaidRun(ctx: Context, msg: Msg, w: World): Ran
    requires msg.gas * msg.price <= Balance(w.balances, msg.from)
              && Intrinsic(msg.data, msg.to, ctx.posContracts) <= msg.gas
  {
    ctx.evm(Enter(Bought(w, msg), msg), Call(msg.from, msg.to, msg.data,
        msg.gas - Intrinsic(msg.data, msg.to, ctx.posContracts), msg.value))
  }

  function Cost(gas: nat, price: nat): nat {
    gas * price
  }

  /** What a message that pays did: the EVM ran on what was bought, and all but the gas used was given back. */
  ghost predicate Paid(ctx: Context, msg: Msg, w: World, w': World, required: nat, used: nat, failed: bool) {
    var intrinsic := Intrinsic(msg.data, msg.to, ctx.posContracts);
    && msg.gas * msg.price <= Balance(w.balances, msg.from) && intrinsic <= msg.gas && used <= required <= 2 * used
       && required <= msg.gas
    && var ran := PaidRun(ctx, msg, w);
       && required == msg.gas - ran.gas >= intrinsic && failed == (ran.err != Fine) && ran.err != InsufficientBalance
       && w' == Fee(ctx, Refunded(ran.world, msg, used), Cost(used, msg.price))
  }

  /**
    What a message with a stamp did: the stamp was spent, the EVM ran, and the whole stamp's gas was
    paid as the fee.
   */
  ghost predicate StampPaid(ctx: Context, msg: Msg, w: World, w': World, used: nat, failed: bool) {
    var r := PreProcess(ctx, w, msg);
    var intrinsic := Intrinsic(msg.data, msg.to, ctx.posContracts);
    && r.Stamped? && used == r.total > 0 && intrinsic <= r.evmGas
    && var ran := StampRun(ctx, msg, w);
       && failed == (ran.err != Fine) && ran.err != InsufficientBalance
       && w' == Fee(ctx, ran.world, Cost(used, msg.price))
  }

  function Bought(w: World, msg: Msg): World
    requires msg.gas * msg.price <= Balance(w.balances, msg.from)
  {
    w.(balances := Debit(w.balances, msg.from, msg.gas * msg.price))
  }

  function Refunded(w: World, msg: Msg, used: nat): World
    requires used <= msg.gas
  {
    w.(balances := Credit(w.balances, msg.from, (msg.gas - used) * msg.price))
  }

  /** What was paid for is what is given back and what is used. */
  lemma GasSplits(gas: nat, used: nat, price: nat)
    requires used <= gas
    ensures (gas - used) * price + used * price == gas * price
    ensures (gas - used) * price >= 0 && used * price >= 0 && gas * price >= 0
  {
  }

  /** Whatever the EVM does: a message that pays changes the value there is by exactly what the EVM changes it. */
  lemma PaidBalances(ctx: Context, msg: Msg, w: World, w': World, required: nat, used: nat, failed: bool)
    requires Paid(ctx, msg, w, w', required, used, failed)
    ensures Wealth(w') - Wealth(w) == Wealth(PaidRun(ctx, msg, w).world) - Wealth(Enter(Bought(w, msg), msg))
  {
    var ran := PaidRun(ctx, msg, w);
    GasSplits(msg.gas, used, msg.price);
    PaidSums(ctx, w, ran.world, msg.from, msg.gas * msg.price, (msg.gas - used) * msg.price, used * msg.price);
  }

  /** With an EVM that conserves value, it leaves all value in place. */
  lemma PaidConserves(ctx: Context, msg: Msg, w: World, w': World, required: nat, used: nat, failed: bool)
    requires Honest(ctx.evm) && Paid(ctx, msg, w, w', required, used, failed)
    ensures Wealth(w') == Wealth(w) && Remembers(w.images, w'.images)
  {
    PaidBalances(ctx, msg, w, w', required, used, failed);
  }

  lemma PaidSums(ctx: Context, w: World, out: World, from: Address, cost: nat, back: nat, fee: nat)
    requires cost <= Balance(w.balances, from) && back + fee == cost
    ensures var bought := w.(balances := Debit(w.balances, from, cost));
            var back' := out.(balances := Credit(out.balances, from, back));
            Wealth(Fee(ctx, back', fee)) - Wealth(w) == Wealth(out) - Wealth(bought)
  {
    SumSet(w.balances, from, Balance(w.balances, from) - cost);
    SumSet(out.balances, from, Balance(out.balances, from) + back);
    FeeSum(ctx, out.(balances := Credit(out.balances, from, back)), fee);
  }

  lemma FeeSum(ctx: Context, w: World, amount: nat)
    ensures Wealth(Fee(ctx, w, amount)) == Wealth(w) + amount
  {
    SumSet(w.balances, ctx.coinbase, Balance(w.balances, ctx.coinbase) + amount);
  }

  /** Beyond what the EVM moved, the sender is charged for exactly the gas used, and the miner paid for it. */
  lemma SenderPays(ctx: Context, msg: Msg, w: World, w': World, required: nat, used: nat, failed: bool, a: Address)
    requires Paid(ctx, msg, w, w', required, used, failed)
    ensures var moved := Balance(PaidRun(ctx, msg, w).world.balances, a) - Balance(Bought(w, msg).balances, a);
            var fee := used * msg.price;
            Balance(w'.balances, a) == Balance(w.balances, a) + moved
              - (if a == msg.from then fee else 0) + (if !ctx.posActive && a == ctx.coinbase then fee else 0)
  {
    var out := PaidRun(ctx, msg, w).world;
    GasSplits(msg.gas, used, msg.price);
    PaidMoves(ctx, w.balances, out, msg.from, msg.gas * msg.price, (msg.gas - used) * msg.price, used * msg.price, a);
  }

  lemma PaidMoves(ctx: Context, b: Balances, out: World, from: Address, cost: nat, back: nat, fee: nat, a: Address)
    requires cost <= Balance(b, from) && back + fee == cost
    ensures var moved := Balance(out.balances, a) - Balance(Debit(b, from, cost), a);
            Balance(Fee(ctx, out.(balances := Credit(out.balances, from, back)), fee).balances, a) ==
            Balance(b, a) + moved - (if a == from then fee else 0)
                + (if !ctx.posActive && a == ctx.coinbase then fee else 0)
  {
  }

  /** Whatever the EVM does: a message with a stamp adds its fee, within the stamp's balance, to what the EVM adds. */
  lemma StampBalances(ctx: Context, msg: Msg, w: World, w': World, used: nat, failed: bool)
    requires StampPaid(ctx, msg, w, w', used, failed)
    ensures var start := Enter(PreProcess(ctx, w, msg).world, msg);
            Wealth(w') - Wealth(w) == Wealth(StampRun(ctx, msg, w).world) - Wealth(start) + used * msg.price
    ensures used * msg.price <= StampBalance(ctx, w, msg)
  {
    FeeSum(ctx, StampRun(ctx, msg, w).world, used * msg.price);
  }

  /** With an EVM that conserves value it adds just the fee, for a stamp that was not spent before and is now. */
  lemma StampConserves(ctx: Context, msg: Msg, w: World, w': World, used: nat, failed: bool)
    requires Honest(ctx.evm) && StampPaid(ctx, msg, w, w', used, failed)
    ensures Wealth(w') == Wealth(w) + used * msg.price && used * msg.price <= StampBalance(ctx, w, msg)
    ensures SpendsNow(ctx, w, w', msg) && Remembers(w.images, w'.images)
  {
    StampBalances(ctx, msg, w, w', used, failed);
  }

  lemma CreditTwice(b: Balances, a: Address, x: nat, y: nat, price: nat)
    ensures Credit(Credit(b, a, x * price), a, y * price) == Credit(b, a, (x + y) * price)
  {
    assert (x + y) * price == x * price + y * price;
  }

  function Least(x: nat, y: nat): nat {
    if x > y then y else x
  }
}
