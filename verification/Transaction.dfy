/**
 One transaction from validation to payment: fee deduction, execution, receipt,
 reimbursement and reward.
 */
module Transactions {
  import opened Words
  import opened Results
  import opened Energy
  import opened GasMeters
  import opened Journals
  import opened FrameStacks
  import opened Frames
  import opened Machines
  import opened Laws
  import opened Runs
  import opened Reservoirs
  import opened Stateless
  import opened Metering
  import opened Evms
  import opened Failures
  import opened Settlements
  import opened Fees

  // ---------------------------------------------------------------------------
  // What a transaction's code is known to do with state gas
  // ---------------------------------------------------------------------------

  ghost predicate TameFirst(first: First, q: nat) {
    match first
    case FirstCall(_, callee) => TameCallee(callee, q)
    case FirstCreate(_, init) => Tame(init, q)
  }

  function FirstBudget(first: First, q: nat): nat {
    match first
    case FirstCall(_, callee) => CalleeBudget(callee, q)
    case FirstCreate(_, init) => Budget(init, q)
  }

  ghost predicate PlainFirst(first: First) {
    match first
    case FirstCall(_, callee) => PlainCallee(callee)
    case FirstCreate(_, init) => Plain(init)
  }

  ghost predicate MeteredFirst(first: First, t: Tariff) {
    match first
    case FirstCall(_, callee) => MeteredCallee(callee, t)
    case FirstCreate(_, init) => Metered(init, t)
  }

  /** A condition on the transaction, not on its run, under which its bill is its receipt: it
      has a floor, or its code uses no state gas, or it stays in the signed range with all it
      may refill, and what it refills undoes charges of its own or is covered by intrinsic gas. */
  ghost predicate Billable(first: First, i: Intrinsic, gasLimit: U64, cap: U64, base: Slots, q: nat, price: U64, cfg: Config) {
    && i.floor <= gasLimit
    && (|| i.floor > 0
        || (PlainFirst(first) && !cfg.eip8037 && InitialGas(i, gasLimit, cap).1 == 0)
        || (TameFirst(first, q) && gasLimit + FirstBudget(first, q) <= I64_MAX && RefillsCovered(first, i, base, q, price)))
  }

  ghost predicate RefillsCovered(first: First, i: Intrinsic, base: Slots, q: nat, price: U64) {
    MeteredFirst(first, Tariff(base, price)) || FirstBudget(first, q) + i.stateRefund <= i.regular + i.state
  }

  lemma PushedSteady(o: Opened, b: nat, q: nat, cfg: Config)
    requires o.Pushed? && Steady(o.local, 0) && MemoryOk(o.local, cfg) && Tame(o.code, q)
    requires b == Budget(o.code, q) && Room(o.local, b)
    ensures SteadyOutcome(Evaluate(o, 0, cfg).outcome, b)
  {
    RunSteady(o.code, o.local, 0, 0, o.world, o.nonce, q, cfg);
    CloseSteady(o.kind, Run(o.code, o.local, 0, o.world, o.nonce, cfg), b, o.snapshot, cfg);
  }

  lemma OpenedSteady(first: First, start: Local, w: World, nonce: nat, q: nat, cfg: Config)
    requires TameFirst(first, q) && Steady(start, 0) && start.gas.remaining == start.gas.limit && start.gas.stateSpent == 0
    requires start.gas.reservoir == start.ledger.given && start.ledger.spill == 0
    ensures var o := OpenFirst(first, start, w, nonce, cfg);
            && (o.Inline? ==> MayAnswer(o.outcome, 0))
            && (o.Pushed? ==> o.local == start && Tame(o.code, q) && Budget(o.code, q) == FirstBudget(first, q))
  {
    match first
    case FirstCall(c, callee) => OpenCallSteady(c, callee, start, 0, w, nonce, q, cfg);
    case FirstCreate(c, init) => OpenCreateSteady(c, init, start, 0, w, nonce, cfg);
  }

  /** An exception that escapes a precompile called by the transaction itself leaves nothing. */
  lemma EscapedIsEmpty(first: First, start: Local, w: World, nonce: nat, cfg: Config)
    ensures var o := OpenFirst(first, start, w, nonce, cfg);
            o.Inline? && (o.outcome.result.TronOutOfTime? || o.outcome.result.PrecompileThrow?) ==>
              o.outcome.gas.remaining == 0 && o.outcome.gas.reservoir == 0 && o.outcome.gas.stateSpent == 0
  {
  }

  /** The whole tree of a tame transaction: the law holds of its outcome, or nothing is left. */
  lemma FirstSteady(first: First, limit: U64, reservoir: U64, factor: Factor, w: World, nonce: nat, q: nat, cfg: Config)
    requires TameFirst(first, q) && limit + reservoir + FirstBudget(first, q) <= I64_MAX
    ensures var o := Evaluate(OpenFirst(first, Start(limit, limit, reservoir, factor), w, nonce, cfg), 0, cfg).outcome;
            || SteadyOutcome(o, FirstBudget(first, q))
            || (!IsOk(o.result) && o.gas.remaining == 0 && o.gas.reservoir == 0 && o.gas.stateSpent == 0)
    ensures var root := OpenFirst(first, Start(limit, limit, reservoir, factor), w, nonce, cfg);
            root.Pushed? ==> SteadyOutcome(Evaluate(root, 0, cfg).outcome, FirstBudget(first, q))
  {
    var start := Start(limit, limit, reservoir, factor);
    var o := OpenFirst(first, start, w, nonce, cfg);
    StartSettled(limit, limit, reservoir, factor);
    OpenedSteady(first, start, w, nonce, q, cfg);
    EscapedIsEmpty(first, start, w, nonce, cfg);
    if o.Pushed? { PushedSteady(o, FirstBudget(first, q), q, cfg); }
  }

  /** Metered code that the transaction's own frame runs to success has spent no less than
      nothing. */
  lemma FirstMetered(first: First, limit: U64, reservoir: U64, factor: Factor, w: World, nonce: nat, q: nat, price: U64,
                     cfg: Config)
    requires TameFirst(first, q) && limit + reservoir + FirstBudget(first, q) <= I64_MAX
    requires MeteredFirst(first, Tariff(w.slots, price))
    ensures var o := Evaluate(OpenFirst(first, Start(limit, limit, reservoir, factor), w, nonce, cfg), 0, cfg).outcome;
            IsOk(o.result) ==> o.gas.stateSpent >= 0
  {
    var start, t := Start(limit, limit, reservoir, factor), Tariff(w.slots, price);
    StartSettled(limit, limit, reservoir, factor);
    OpenedSteady(first, start, w, nonce, q, cfg);
    match first {
      case FirstCall(c, callee) => OpenCallMetered(c, callee, start, 0, w, nonce, q, t, cfg);
      case FirstCreate(c, init) => OpenCreateMetered(c, init, start, 0, w, nonce, t, cfg);
    }
    WorthOfBase(t);
    EvaluateMetered(OpenFirst(first, start, w, nonce, cfg), w, 0, FirstBudget(first, q), q, t, cfg);
  }

  lemma FirstZero(first: First, limit: U64, factor: Factor, w: World, nonce: nat, cfg: Config)
    requires PlainFirst(first) && !cfg.eip8037
    ensures ZeroOutcome(Evaluate(OpenFirst(first, Start(limit, limit, 0, factor), w, nonce, cfg), 0, cfg).outcome)
  {
    var start := Start(limit, limit, 0, factor);
    match first {
      case FirstCall(c, callee) => OpenCallZero(c, callee, start, 0, w, nonce, cfg);
      case FirstCreate(c, init) => OpenCreateZero(c, init, start, 0, w, nonce, cfg);
    }
    var o := OpenFirst(first, start, w, nonce, cfg);
    if o.Pushed? {
      RunZero(o.code, o.local, 0, o.world, o.nonce, cfg);
      CloseZero(o.kind, Run(o.code, o.local, 0, o.world, o.nonce, cfg), o.snapshot, cfg);
    }
  }

  // ---------------------------------------------------------------------------
  // The bill is the receipt
  // ---------------------------------------------------------------------------

  /** What validation and the accounting of intrinsic gas guarantee. */
  predicate IntrinsicOk(first: First, i: Intrinsic, gasLimit: U64, cfg: Config) {
    && i.regular + i.state <= gasLimit && i.stateRefund <= i.state
    && CreateIsCharged(i, first.FirstCreate?, cfg)
  }

  /** The outcome of a transaction, by the recursive meaning. */
  function Result(first: First, i: Intrinsic, gasLimit: U64, cap: U64, factor: Factor, w: World, nonce: nat, cfg: Config): Final
    requires IntrinsicOk(first, i, gasLimit, cfg)
  {
    InitialGasSplits(i, gasLimit, cap);
    var (limit, reservoir) := InitialGas(i, gasLimit, cap);
    Evaluate(OpenFirst(first, Start(limit, limit, reservoir, factor), w, nonce, cfg), 0, cfg)
  }

  /** And the gas that is left of it at the end. */
  function FinalGas(first: First, i: Intrinsic, gasLimit: U64, cap: U64, factor: Factor, w: World, nonce: nat, cfg: Config): Gas
    requires IntrinsicOk(first, i, gasLimit, cfg)
  {
    var o := Result(first, i, gasLimit, cap, factor, w, nonce, cfg).outcome;
    LastFrame(o.result, first.FirstCreate?, o.gas, gasLimit, cfg)
  }

  lemma ResultAnswers(first: First, limit: U64, reservoir: U64, factor: Factor, w: World, nonce: nat, cfg: Config)
    ensures var start := Start(limit, limit, reservoir, factor);
            AnswersRoot(Evaluate(OpenFirst(first, start, w, nonce, cfg), 0, cfg).outcome, start)
  {
    var start, mark := Start(limit, limit, reservoir, factor), Mark(0, 0);
    FirstSane(first, limit, reservoir, factor, w, nonce, mark, cfg);
    var o := OpenFirst(first, start, w, nonce, cfg);
    if o.Pushed? {
      FirstMeaning(o, mark, cfg);
      MeaningAnswers(FirstState(o, mark), start, cfg);
    }
  }

  lemma FinalRemaining(first: First, i: Intrinsic, gasLimit: U64, cap: U64, factor: Factor, w: World, nonce: nat, cfg: Config)
    requires IntrinsicOk(first, i, gasLimit, cfg)
    ensures var g := FinalGas(first, i, gasLimit, cap, factor, w, nonce, cfg); g.remaining <= g.limit == gasLimit
  {
    InitialGasSplits(i, gasLimit, cap);
    var (limit, reservoir) := InitialGas(i, gasLimit, cap);
    ResultAnswers(first, limit, reservoir, factor, w, nonce, cfg);
  }

  lemma TameGasWithinLimit(first: First, i: Intrinsic, gasLimit: U64, cap: U64, factor: Factor, w: World, nonce: nat,
                           q: nat, price: U64, cfg: Config)
    requires IntrinsicOk(first, i, gasLimit, cfg)
    requires TameFirst(first, q) && gasLimit + FirstBudget(first, q) <= I64_MAX
    requires RefillsCovered(first, i, w.slots, q, price)
    ensures var g := FinalGas(first, i, gasLimit, cap, factor, w, nonce, cfg); g.remaining + g.reservoir <= gasLimit
  {
    InitialGasSplits(i, gasLimit, cap);
    var (limit, reservoir) := InitialGas(i, gasLimit, cap);
    var o := Result(first, i, gasLimit, cap, factor, w, nonce, cfg).outcome;
    ResultAnswers(first, limit, reservoir, factor, w, nonce, cfg);
    FirstSteady(first, limit, reservoir, factor, w, nonce, q, cfg);
    if SteadyOutcome(o, FirstBudget(first, q)) {
      var metered := MeteredFirst(first, Tariff(w.slots, price));
      if metered { FirstMetered(first, limit, reservoir, factor, w, nonce, q, price, cfg); }
      RootGasWithinLimit(o, i, gasLimit, cap, factor, first.FirstCreate?, if metered then 0 else FirstBudget(first, q), cfg);
    }
  }

  lemma PlainGasWithinLimit(first: First, i: Intrinsic, gasLimit: U64, cap: U64, factor: Factor, w: World, nonce: nat,
                            cfg: Config)
    requires IntrinsicOk(first, i, gasLimit, cfg)
    requires PlainFirst(first) && !cfg.eip8037 && InitialGas(i, gasLimit, cap).1 == 0
    ensures var g := FinalGas(first, i, gasLimit, cap, factor, w, nonce, cfg); g.remaining + g.reservoir <= gasLimit
  {
    InitialGasSplits(i, gasLimit, cap);
    FirstZero(first, InitialGas(i, gasLimit, cap).0, factor, w, nonce, cfg);
    FinalRemaining(first, i, gasLimit, cap, factor, w, nonce, cfg);
  }

  /** For every billable transaction, gas not reimbursed, gas paid for and gas on the receipt
      are one number between floor and limit. */
  lemma BillableIsReceipt(first: First, i: Intrinsic, gasLimit: U64, cap: U64, factor: Factor, w: World, nonce: nat,
                          london: bool, authRefund: int, q: nat, price: U64, cfg: Config)
    requires IntrinsicOk(first, i, gasLimit, cfg) && Billable(first, i, gasLimit, cap, w.slots, q, price, cfg)
    ensures var g := FinalRefund(FinalGas(first, i, gasLimit, cap, factor, w, nonce, cfg), london, authRefund);
            var used := TxGasUsed(BuildResultGas(g, i));
            gasLimit - Reimbursable(Floored(g, i)) == used == EffectiveUsed(Floored(g, i)) && i.floor <= used <= gasLimit
  {
    FinalRemaining(first, i, gasLimit, cap, factor, w, nonce, cfg);
    if PlainFirst(first) && !cfg.eip8037 && InitialGas(i, gasLimit, cap).1 == 0 {
      PlainGasWithinLimit(first, i, gasLimit, cap, factor, w, nonce, cfg);
    } else if i.floor == 0 {
      TameGasWithinLimit(first, i, gasLimit, cap, factor, w, nonce, q, price, cfg);
    }
    BillIsReceipt(FinalGas(first, i, gasLimit, cap, factor, w, nonce, cfg), i, london, authRefund);
  }

  /** A restored slot refills what it was charged: the bill of a call that sets and clears one
      is its receipt, with no floor and no intrinsic gas to cover the refill. */
  lemma RestorationBilled(first: First, who: Address, key: nat, dynamicGas: U64, price: U64, i: Intrinsic, gasLimit: U64,
                          cap: U64, factor: Factor, w: World, nonce: nat, london: bool, cfg: Config)
    requires first.FirstCall? && first.callee == Contract(SetThenClear(who, key, dynamicGas, Tariff(w.slots, price)))
    requires i == Intrinsic(0, 0, 0, 0) && gasLimit + 2 * price <= I64_MAX
    ensures var g := FinalRefund(FinalGas(first, i, gasLimit, cap, factor, w, nonce, cfg), london, 0);
            var used := TxGasUsed(BuildResultGas(g, i));
            gasLimit - Reimbursable(Floored(g, i)) == used == EffectiveUsed(Floored(g, i)) && 0 <= used <= gasLimit
  {
    SetThenClearMetered(who, key, dynamicGas, Tariff(w.slots, price));
    BillableIsReceipt(first, i, gasLimit, cap, factor, w, nonce, london, 0, price, price, cfg);
  }

  // ---------------------------------------------------------------------------
  // Execution
  // ---------------------------------------------------------------------------

  /** `execution` and `post_execution`: the outcome is that of the recursive meaning, native
      supply is what it was, and receipt and final meter are those of the outcome; for a
      billable transaction, for any `q` and `price`, the gas the caller pays for is the gas on
      the receipt. */
  method Execute(evm: Evm, first: First, i: Intrinsic, gasLimit: U64, cap: U64, factor: Factor,
                 london: bool, authRefund: int, ghost q: nat, ghost price: U64)
    returns (o: Outcome, receipt: ResultGas, meter: GasMeter)
    requires evm.Valid() && evm.stack.index.None? && IntrinsicOk(first, i, gasLimit, evm.cfg)
    modifies evm, evm.stack, evm.journal
    ensures evm.Valid() && evm.stack.index.None? && evm.journal.depth == 0
    ensures Final(o, evm.journal.Now(), evm.nonce)
            == Result(first, i, gasLimit, cap, factor, old(evm.journal.Now()), old(evm.nonce), evm.cfg)
    ensures Supply(evm.journal.slots) == old(Supply(evm.journal.slots))
    ensures var g := FinalGas(first, i, gasLimit, cap, factor, old(evm.journal.Now()), old(evm.nonce), evm.cfg);
            var refunded := FinalRefund(g, london, authRefund);
            && receipt == BuildResultGas(refunded, i) && meter.Value() == Floored(refunded, i)
            && EffectiveUsed(meter.Value()) <= gasLimit
            && (TxGasUsed(receipt) == EffectiveUsed(meter.Value()) <==> i.floor <= gasLimit)
            && (gasLimit - Reimbursable(meter.Value()) == TxGasUsed(receipt)
                <==> i.floor <= gasLimit && (i.floor > 0 || g.remaining + g.reservoir <= gasLimit))
    ensures Billable(first, i, gasLimit, cap, old(evm.journal.slots), q, price, evm.cfg) ==>
      gasLimit - Reimbursable(meter.Value()) == TxGasUsed(receipt) && i.floor <= TxGasUsed(receipt) <= gasLimit
  {
    InitialGasSplits(i, gasLimit, cap);
    var (limit, reservoir) := InitialGas(i, gasLimit, cap);
    ghost var w, nonce := evm.journal.Now(), evm.nonce;
    o := evm.RunExecLoop(first, limit, reservoir, factor);
    meter := new GasMeter.Of(o.gas);
    LastFrameResult(meter, o.result, first.FirstCreate?, gasLimit, evm.cfg);
    receipt := PostExecution(meter, i, london, authRefund);
    FinalRemaining(first, i, gasLimit, cap, factor, w, nonce, evm.cfg);
    BillIsReceipt(FinalGas(first, i, gasLimit, cap, factor, w, nonce, evm.cfg), i, london, authRefund);
    if Billable(first, i, gasLimit, cap, w.slots, q, price, evm.cfg) {
      BillableIsReceipt(first, i, gasLimit, cap, factor, w, nonce, london, authRefund, q, price, evm.cfg);
    }
  }

  // ---------------------------------------------------------------------------
  // Timeouts
  // ---------------------------------------------------------------------------

  /** The transaction's own request times out, or some frame or precompile of its run does. */
  ghost predicate TimesOut(root: Opened, mark: Mark, marks: seq<Mark>, cfg: Config) {
    if root.Inline? then root.outcome.result.TronOutOfTime?
    else
      var t := Steps(FirstState(root, mark), marks, cfg);
      t.Running? && Raised(t.machine, cfg) == Some(TronOutOfTime)
  }

  lemma TimeoutEnds(first: First, limit: U64, reservoir: U64, factor: Factor, w: World, nonce: nat, root: Opened,
                    mark: Mark, marks: seq<Mark>, cfg: Config)
    requires root == OpenFirst(first, Start(limit, limit, reservoir, factor), w, nonce, cfg)
    requires TimesOut(root, mark, marks, cfg)
    ensures Evaluate(root, 0, cfg).outcome.result.TronOutOfTime?
    ensures root.Pushed? ==> Evaluate(root, 0, cfg).world == root.snapshot
  {
    if root.Pushed? {
      FirstSane(first, limit, reservoir, factor, w, nonce, mark, cfg);
      FirstMeaning(root, mark, cfg);
      OutOfTimeIsFatal(FirstState(root, mark), Start(limit, limit, reservoir, factor), marks, cfg);
    }
  }

  /** The run stays in the signed range, or uses no state gas at all. */
  ghost predicate Measured(first: First, i: Intrinsic, gasLimit: U64, cap: U64, q: nat, cfg: Config) {
    || (PlainFirst(first) && !cfg.eip8037 && InitialGas(i, gasLimit, cap).1 == 0)
    || (TameFirst(first, q) && gasLimit + FirstBudget(first, q) <= I64_MAX)
  }

  /** What is left in the reservoir of a timed-out transaction: all it was given and what was
      spilled, or nothing, if a precompile that it called itself timed out. */
  lemma TimeoutLeaves(first: First, i: Intrinsic, gasLimit: U64, cap: U64, limit: U64, reservoir: U64, factor: Factor,
                      w: World, nonce: nat, root: Opened, q: nat, cfg: Config)
    requires IntrinsicOk(first, i, gasLimit, cfg) && Measured(first, i, gasLimit, cap, q, cfg)
    requires (limit, reservoir) == InitialGas(i, gasLimit, cap)
    requires root == OpenFirst(first, Start(limit, limit, reservoir, factor), w, nonce, cfg)
    requires Evaluate(root, 0, cfg).outcome.result.TronOutOfTime?
    ensures var o := Evaluate(root, 0, cfg).outcome;
            o.gas.reservoir + o.gas.stateSpent == if root.Inline? then 0 else reservoir + o.ledger.spill
  {
    InitialGasSplits(i, gasLimit, cap);
    ResultAnswers(first, limit, reservoir, factor, w, nonce, cfg);
    EscapedIsEmpty(first, Start(limit, limit, reservoir, factor), w, nonce, cfg);
    if PlainFirst(first) && !cfg.eip8037 && reservoir == 0 {
      FirstZero(first, limit, factor, w, nonce, cfg);
    } else {
      FirstSteady(first, limit, reservoir, factor, w, nonce, q, cfg);
    }
  }

  /** Nothing is given back to a transaction that times out. */
  ghost predicate NothingBack(root: Opened, reservoir: U64, spill: nat, isCreate: bool, gasLimit: U64, london: bool,
                              authRefund: int, cfg: Config) {
    && (root.Inline? || reservoir + spill == 0) && CreateRefill(isCreate, cfg) == 0
    && Min(AsU64(authRefund), gasLimit / RefundQuotient(london)) == 0
  }

  lemma TimeoutBill(root: Opened, o: Outcome, i: Intrinsic, gasLimit: U64, reservoir: U64, isCreate: bool, london: bool,
                    authRefund: int, cfg: Config)
    requires o.result.TronOutOfTime?
    requires o.gas.reservoir + o.gas.stateSpent == if root.Inline? then 0 else reservoir + o.ledger.spill
    ensures var g := LastFrame(o.result, isCreate, o.gas, gasLimit, cfg);
            TxGasUsed(BuildResultGas(FinalRefund(g, london, authRefund), i)) == gasLimit
            <==> || i.floor == gasLimit
                 || (i.floor < gasLimit
                     && NothingBack(root, reservoir, o.ledger.spill, isCreate, gasLimit, london, authRefund, cfg))
  {
    HaltBillsEverything(o, i, gasLimit, isCreate, london, authRefund, cfg);
  }

  /** If anything in a transaction times out, anywhere in its run, the transaction does, and
      the whole gas limit is billed if and only if that is the floor, or the floor is below it
      and nothing is given back: it had no reservoir, spilled no state gas, was no create that
      paid state gas, and had no authorization refunded. */
  lemma OutOfTimeBillsEverything(first: First, i: Intrinsic, gasLimit: U64, cap: U64, limit: U64, reservoir: U64,
                                 factor: Factor, w: World, nonce: nat, root: Opened, mark: Mark, marks: seq<Mark>,
                                 london: bool, authRefund: int, q: nat, cfg: Config)
    requires IntrinsicOk(first, i, gasLimit, cfg) && Measured(first, i, gasLimit, cap, q, cfg)
    requires (limit, reservoir) == InitialGas(i, gasLimit, cap)
    requires root == OpenFirst(first, Start(limit, limit, reservoir, factor), w, nonce, cfg)
    requires TimesOut(root, mark, marks, cfg)
    ensures var o := Result(first, i, gasLimit, cap, factor, w, nonce, cfg).outcome;
            var g := FinalGas(first, i, gasLimit, cap, factor, w, nonce, cfg);
            && o.result.TronOutOfTime?
            && (TxGasUsed(BuildResultGas(FinalRefund(g, london, authRefund), i)) == gasLimit
                <==> || i.floor == gasLimit
                     || (i.floor < gasLimit && NothingBack(root, reservoir, o.ledger.spill, first.FirstCreate?, gasLimit,
                                                           london, authRefund, cfg)))
  {
    TimeoutEnds(first, limit, reservoir, factor, w, nonce, root, mark, marks, cfg);
    TimeoutLeaves(first, i, gasLimit, cap, limit, reservoir, factor, w, nonce, root, q, cfg);
    TimeoutBill(root, Evaluate(root, 0, cfg).outcome, i, gasLimit, reservoir, first.FirstCreate?, london, authRefund, cfg);
  }

  /** In particular without state gas, where only an authorization could be refunded. */
  lemma OutOfTimeBillsPlain(first: First, i: Intrinsic, gasLimit: U64, cap: U64, limit: U64, factor: Factor, w: World,
                            nonce: nat, root: Opened, mark: Mark, marks: seq<Mark>, london: bool, cfg: Config)
    requires IntrinsicOk(first, i, gasLimit, cfg) && PlainFirst(first) && !cfg.eip8037 && i.floor <= gasLimit
    requires (limit, 0) == InitialGas(i, gasLimit, cap)
    requires root == OpenFirst(first, Start(limit, limit, 0, factor), w, nonce, cfg) && TimesOut(root, mark, marks, cfg)
    ensures var g := FinalGas(first, i, gasLimit, cap, factor, w, nonce, cfg);
            TxGasUsed(BuildResultGas(FinalRefund(g, london, 0), i)) == gasLimit
  {
    FirstZero(first, limit, factor, w, nonce, cfg);
    OutOfTimeBillsEverything(first, i, gasLimit, cap, limit, 0, factor, w, nonce, root, mark, marks, london, 0, 0, cfg);
  }

  // ---------------------------------------------------------------------------
  // From validation to payment
  // ---------------------------------------------------------------------------

  /** The designations of accepted authorizations, in order; each one bumps a nonce. */
  function Delegate(m: Slots, auths: seq<(Address, nat)>): Slots
    decreases |auths|
  {
    if auths == [] then m
    else Delegate(BumpNonce(Journals.SetCode(m, auths[0].0, auths[0].1).slots, auths[0].0).slots, auths[1..])
  }

  /** `pre_execution`: the fee is taken, a call bumps the caller's nonce, then authorizations. */
  function Prepare(m: Slots, tx: Tx, left: U256, isCall: bool, auths: seq<(Address, nat)>): Slots {
    var charged := Put(m, Balance(tx.caller), left);
    Delegate(if isCall then BumpNonce(charged, tx.caller).slots else charged, auths)
  }

  /** How many authorizations name `a`, and what the latest of them designates. */
  function Authorizations(auths: seq<(Address, nat)>, a: Address): nat
    decreases |auths|
  {
    if auths == [] then 0 else (if auths[0].0 == a then 1 else 0) + Authorizations(auths[1..], a)
  }

  function Latest(auths: seq<(Address, nat)>, a: Address): Option<nat>
    decreases |auths|
  {
    if auths == [] then None
    else if auths[|auths| - 1].0 == a then Some(auths[|auths| - 1].1)
    else Latest(auths[..|auths| - 1], a)
  }

  lemma {:induction false} LatestUnfolds(auths: seq<(Address, nat)>, a: Address)
    requires auths != []
    ensures Latest(auths, a)
            == if Latest(auths[1..], a).Some? then Latest(auths[1..], a)
               else if auths[0].0 == a then Some(auths[0].1) else None
    decreases |auths|
  {
    var n := |auths| - 1;
    if n > 0 {
      assert auths[1..][..n - 1] == auths[..n][1..];
      LatestUnfolds(auths[..n], a);
    }
  }

  lemma {:induction false} DelegateReaches(m: Slots, auths: seq<(Address, nat)>, a: Address)
    requires Get(m, Nonce(a)) <= U64_MAX
    ensures var n := Delegate(m, auths);
            && Get(n, Nonce(a)) == Min(Get(m, Nonce(a)) + Authorizations(auths, a), U64_MAX)
            && Get(n, CodeOf(a)) == if Latest(auths, a).Some? then Latest(auths, a).value else Get(m, CodeOf(a))
    decreases |auths|
  {
    if auths != [] {
      LatestUnfolds(auths, a);
      DelegateReaches(BumpNonce(Journals.SetCode(m, auths[0].0, auths[0].1).slots, auths[0].0).slots, auths[1..], a);
    }
  }

  lemma {:induction false} DelegateTouches(m: Slots, auths: seq<(Address, nat)>, s: Slot)
    requires !s.Nonce? && !s.CodeOf?
    ensures Get(Delegate(m, auths), s) == Get(m, s)
    decreases |auths|
  {
    if auths != [] {
      DelegateTouches(BumpNonce(Journals.SetCode(m, auths[0].0, auths[0].1).slots, auths[0].0).slots, auths[1..], s);
    }
  }

  /** What a transaction has done to the world when its first frame starts: the caller is left with
      `left`, a call has moved its nonce on by one, accepted authorizations have moved theirs and
      set their code, and nothing else has changed. */
  lemma PrepareDoes(m: Slots, tx: Tx, left: U256, isCall: bool, auths: seq<(Address, nat)>, a: Address)
    requires Get(m, Nonce(a)) <= U64_MAX
    ensures var n := Prepare(m, tx, left, isCall, auths);
            && Get(n, Balance(tx.caller)) == left
            && (forall s: Slot | !s.Nonce? && !s.CodeOf? && s != Balance(tx.caller) :: Get(n, s) == Get(m, s))
            && Get(n, Nonce(a)) == Min(Get(m, Nonce(a)) + Authorizations(auths, a)
                                       + (if isCall && a == tx.caller then 1 else 0), U64_MAX)
            && Get(n, CodeOf(a)) == (if Latest(auths, a).Some? then Latest(auths, a).value else Get(m, CodeOf(a)))
  {
    var charged := Put(m, Balance(tx.caller), left);
    var m1 := if isCall then BumpNonce(charged, tx.caller).slots else charged;
    DelegateReaches(m1, auths, a);
    forall s: Slot | !s.Nonce? && !s.CodeOf? ensures Get(Prepare(m, tx, left, isCall, auths), s) == Get(charged, s) {
      DelegateTouches(m1, auths, s);
    }
  }

  lemma BumpKeepsSupply(m: Slots, who: Address)
    ensures Supply(BumpNonce(m, who).slots) == Supply(m)
  {
    SupplyPut(m, Nonce(who), Get(m, Nonce(who)) + 1);
  }

  lemma {:induction false} DelegateKeepsSupply(m: Slots, auths: seq<(Address, nat)>)
    ensures Supply(Delegate(m, auths)) == Supply(m)
    decreases |auths|
  {
    if auths != [] {
      var m1 := Journals.SetCode(m, auths[0].0, auths[0].1).slots;
      SupplyPut(m, CodeOf(auths[0].0), auths[0].1);
      BumpKeepsSupply(m1, auths[0].0);
      DelegateKeepsSupply(BumpNonce(m1, auths[0].0).slots, auths[1..]);
    }
  }

  lemma PrepareTakesFee(m: Slots, tx: Tx, left: U256, isCall: bool, auths: seq<(Address, nat)>)
    ensures Supply(Prepare(m, tx, left, isCall, auths)) == Supply(Put(m, Balance(tx.caller), left))
  {
    var charged := Put(m, Balance(tx.caller), left);
    BumpKeepsSupply(charged, tx.caller);
    DelegateKeepsSupply(if isCall then BumpNonce(charged, tx.caller).slots else charged, auths);
  }

  /** The gas checks of `validate_tx_env` and `validate_initial_tx_gas`: the floor is checked from
      Prague on; the cap is on the gas limit, or under EIP-8037 on regular gas and floor. */
  predicate GasOk(i: Intrinsic, gasLimit: U64, cap: U64, prague: bool, cfg: Config) {
    && i.regular + i.state <= gasLimit
    && (prague ==> i.floor <= gasLimit)
    && (gasLimit > cap ==> cfg.eip8037 && Max(i.regular, i.floor) <= cap)
  }

  /** What validation and the fee step accept, with the balance check on: a maximum price that
      covers the base fee and the priority fee, and blobs bid for at their price, all of it unless
      the transaction is a Custom one; intrinsic gas and, from Prague on, the floor within the
      limit; the limit within the cap, or under EIP-8037 regular gas and floor; and a balance for
      all of it. */
  predicate Accepts(tx: Tx, block: Block, skipPriorityCheck: bool, i: Intrinsic, cap: U64, prague: bool, cfg: Config,
                    balance: U256) {
    var fixedPrice := tx.kind.Legacy? || tx.kind.AccessList?;
    && (tx.kind.Custom? || block.baseFee <= tx.gasPrice)
    && (tx.kind.Custom? || fixedPrice || skipPriorityCheck || tx.priority.None? || tx.priority.value <= tx.gasPrice)
    && (tx.kind.Blob? ==> block.blobPrice <= tx.maxBlobFee)
    && !(tx.gasLimit < i.regular + i.state) && !(prague && tx.gasLimit < i.floor)
    && (tx.gasLimit <= cap || (cfg.eip8037 && i.regular <= cap && i.floor <= cap))
    && Affordable(tx, balance)
  }

  datatype Transacted = Rejected | Paid(left: U256, outcome: Outcome, receipt: ResultGas, slots: Slots)

  lemma BalanceFits(m: Slots, who: Address)
    requires Supply(m) <= U256_MAX
    ensures Get(m, Balance(who)) <= U256_MAX
  {
    SupplyBounds(m, who, who + 1);
  }

  /** The transaction is billable, or its run has turned out to leave no more than the limit. */
  ghost predicate BillAgrees(first: First, i: Intrinsic, gasLimit: U64, cap: U64, base: Slots, final: Gas, q: nat, price: U64,
                             cfg: Config) {
    || Billable(first, i, gasLimit, cap, base, q, price, cfg)
    || (i.floor <= gasLimit && final.remaining + final.reservoir <= gasLimit)
  }

  /** Execution from a world in which everything has been prepared, as a value. */
  method RunPrepared(world: World, nonce: nat, first: First, i: Intrinsic, gasLimit: U64, cap: U64, factor: Factor,
                     london: bool, authRefund: int, cfg: Config, ghost q: nat, ghost price: U64)
    returns (end: Final, receipt: ResultGas, g: Gas)
    requires Supply(world.slots) <= U256_MAX && IntrinsicOk(first, i, gasLimit, cfg)
    ensures end == Result(first, i, gasLimit, cap, factor, world, nonce, cfg)
    ensures Supply(end.world.slots) == Supply(world.slots)
    ensures 0 <= g.refunded <= U64_MAX && EffectiveUsed(g) <= gasLimit
    ensures var final := FinalGas(first, i, gasLimit, cap, factor, world, nonce, cfg);
            && receipt == BuildResultGas(FinalRefund(final, london, authRefund), i)
            && (BillAgrees(first, i, gasLimit, cap, world.slots, final, q, price, cfg) ==>
                  gasLimit - Reimbursable(g) == TxGasUsed(receipt) == EffectiveUsed(g))
  {
    var evm := new Evm(cfg, world, nonce);
    var o, r, meter := Execute(evm, first, i, gasLimit, cap, factor, london, authRefund, q, price);
    end, receipt, g := Final(o, evm.journal.Now(), evm.nonce), r, meter.Value();
  }

  /** `reimburse_caller` and `reward_beneficiary`; the sum to reimburse is made in 64 bits. */
  function Payments(m: Slots, tx: Tx, block: Block, london: bool, g: Gas): Slots
    requires 0 <= g.refunded <= U64_MAX && CoinbasePrice(tx, block, london) * EffectiveUsed(g) <= U128_MAX
  {
    RewardBeneficiary(ReimburseCaller(m, tx, block, AsU64(Reimbursable(g))), tx, block, london, EffectiveUsed(g))
  }

  lemma PaymentsSettle(m: Slots, during: Slots, tx: Tx, block: Block, skipPriorityCheck: bool, london: bool, left: U256,
                       g: Gas)
    requires Supply(m) <= U256_MAX && PricesOk(tx, block, skipPriorityCheck)
    requires Get(m, Balance(tx.caller)) <= U256_MAX
    requires CalculateCallerFee(Get(m, Balance(tx.caller)), tx, block, true) == NewBalance(left)
    requires Supply(during) == Supply(Put(m, Balance(tx.caller), left))
    requires 0 <= g.refunded <= U64_MAX && EffectiveUsed(g) <= tx.gasLimit
    ensures CoinbasePrice(tx, block, london) * EffectiveUsed(g) <= U128_MAX
    ensures tx.gasLimit - Reimbursable(g) == EffectiveUsed(g) ==>
              FeesSettled(m, during, Payments(during, tx, block, london, g), tx, block, london, EffectiveUsed(g))
  {
    DeductionSupply(m, tx, block, skipPriorityCheck, left);
    RewardFits(tx, block, london, EffectiveUsed(g));
    if tx.gasLimit - Reimbursable(g) == EffectiveUsed(g) {
      assert AsU64(Reimbursable(g)) == tx.gasLimit - EffectiveUsed(g);
      FeesSettle(m, during, tx, block, skipPriorityCheck, london, left, EffectiveUsed(g),
                 Payments(during, tx, block, london, g));
    }
  }

  /** What a transaction that went through has done. */
  ghost predicate Settles(r: Transacted, world: World, nonce: nat, tx: Tx, block: Block, first: First,
                          auths: seq<(Address, nat)>, i: Intrinsic, cap: U64, factor: Factor, london: bool,
                          authRefund: int, cfg: Config, q: nat, price: U64)
    requires r.Paid? && IntrinsicOk(first, i, tx.gasLimit, cfg)
  {
    var w := World(Prepare(world.slots, tx, r.left, first.FirstCall?, auths), world.logs);
    var end := Result(first, i, tx.gasLimit, cap, factor, w, nonce, cfg);
    var g := FinalGas(first, i, tx.gasLimit, cap, factor, w, nonce, cfg);
    && r.outcome == end.outcome
    && r.receipt == BuildResultGas(FinalRefund(g, london, authRefund), i)
    && (BillAgrees(first, i, tx.gasLimit, cap, w.slots, g, q, price, cfg) ==>
          FeesSettled(world.slots, end.world.slots, r.slots, tx, block, london, TxGasUsed(r.receipt)))
  }

  /** `run_without_catch_error`: validate, deduct, execute, settle, reimburse, reward. It
      goes through exactly when validation and fee step accept, with the outcome of the
      recursive meaning, and then settles fees for exactly the gas on the receipt, as long
      as that is the gas not reimbursed; for a billable transaction it is. */
  method Transact(world: World, nonce: nat, tx: Tx, block: Block, skipPriorityCheck: bool, first: First,
                  auths: seq<(Address, nat)>, i: Intrinsic, cap: U64, factor: Factor, london: bool, authRefund: int,
                  prague: bool, cfg: Config, ghost q: nat, ghost price: U64)
    returns (r: Transacted)
    requires Supply(world.slots) <= U256_MAX && i.stateRefund <= i.state && CreateIsCharged(i, first.FirstCreate?, cfg)
    ensures Get(world.slots, Balance(tx.caller)) <= U256_MAX
    ensures r.Paid? <==> Accepts(tx, block, skipPriorityCheck, i, cap, prague, cfg, Get(world.slots, Balance(tx.caller)))
    ensures r.Paid? ==>
      && r.left == Get(world.slots, Balance(tx.caller)) - Cost(tx, block) * tx.gasLimit - DataFee(tx, block)
      && tx.value <= r.left
      && Settles(r, world, nonce, tx, block, first, auths, i, cap, factor, london, authRefund, cfg, q, price)
  {
    BalanceFits(world.slots, tx.caller);
    PricesOkMeans(tx, block, skipPriorityCheck);
    if !PricesOk(tx, block, skipPriorityCheck) || !GasOk(i, tx.gasLimit, cap, prague, cfg) {
      return Rejected;
    }
    DeductionExact(Get(world.slots, Balance(tx.caller)), tx, block, skipPriorityCheck);
    var fee := CalculateCallerFee(Get(world.slots, Balance(tx.caller)), tx, block, true);
    if !fee.NewBalance? {
      return Rejected;
    }
    DeductionSupply(world.slots, tx, block, skipPriorityCheck, fee.balance);
    PrepareTakesFee(world.slots, tx, fee.balance, first.FirstCall?, auths);
    var w := World(Prepare(world.slots, tx, fee.balance, first.FirstCall?, auths), world.logs);
    var end, receipt, g := RunPrepared(w, nonce, first, i, tx.gasLimit, cap, factor, london, authRefund, cfg, q, price);
    PaymentsSettle(world.slots, end.world.slots, tx, block, skipPriorityCheck, london, fee.balance, g);
    r := Paid(fee.balance, end.outcome, receipt, Payments(end.world.slots, tx, block, london, g));
  }
}
