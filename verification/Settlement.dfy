/**
 Billing a transaction: what its root outcome leaves of the gas limit, the refund cap, the
 EIP-7623 floor, and who pays whom.
 */
module Settlements {
  import opened Words
  import opened Results
  import opened Energy
  import opened GasMeters
  import opened Journals
  import opened Frames
  import opened Laws
  import opened Runs

  // ---------------------------------------------------------------------------
  // Intrinsic gas
  // ---------------------------------------------------------------------------

  /** `InitialAndFloorGas` */
  datatype Intrinsic = Intrinsic(regular: U64, state: U64, stateRefund: U64, floor: U64)

  /** `initial_gas_and_reservoir`. The arithmetic is exact: a negative result would be an
      underflow. */
  function InitialGas(i: Intrinsic, gasLimit: U64, cap: U64): (int, int) {
    var execution := gasLimit - i.regular;
    var cap := if i.regular + i.state - i.stateRefund == 0 then U64_MAX else cap;
    var regular := Max(Min(gasLimit, cap) - i.regular, 0);
    var reservoir := execution - regular;
    if reservoir >= i.state then (regular, reservoir - i.state + i.stateRefund)
    else (regular - (i.state - reservoir), i.stateRefund)
  }

  /** A validated transaction's gas is split without underflow, and nothing is lost: budget
      and reservoir are the limit less the intrinsic gas, refunds for authorizations added. */
  lemma InitialGasSplits(i: Intrinsic, gasLimit: U64, cap: U64)
    requires i.regular + i.state <= gasLimit && i.stateRefund <= i.state
    ensures var (limit, reservoir) := InitialGas(i, gasLimit, cap);
            && 0 <= limit && 0 <= reservoir
            && limit + reservoir == gasLimit - i.regular - i.state + i.stateRefund
  {
  }

  /** The two parts. No more than the cap can be spent as regular gas, intrinsic regular gas
      included, unless there is no intrinsic gas at all; what is beyond the cap pays for state
      gas first and is the reservoir then, to which refunds for authorizations are added. */
  lemma InitialGasParts(i: Intrinsic, gasLimit: U64, cap: U64)
    requires i.regular + i.state <= gasLimit && i.stateRefund <= i.state
    ensures var (limit, reservoir) := InitialGas(i, gasLimit, cap);
            var free := i.regular == 0 && i.state == i.stateRefund;
            var beyond := if free then 0 else Min(gasLimit - cap, gasLimit - i.regular);
            && (i.regular <= cap && !free ==> limit + i.regular <= cap)
            && (cap <= i.regular && !free ==> limit == 0)
            && reservoir == i.stateRefund + Max(beyond - i.state, 0)
            && (reservoir == 0 <==> i.stateRefund == 0 && (free || gasLimit - i.state <= Max(cap, i.regular)))
            && (gasLimit <= cap || free ==>
                  limit == gasLimit - i.regular - i.state && reservoir == i.stateRefund)
  {
  }

  // ---------------------------------------------------------------------------
  // The last frame's result
  // ---------------------------------------------------------------------------

  /** Regular gas and refund: all of the limit is spent but what a returning root leaves. */
  function ReturnGas(r: InstructionResult, g: Gas, gasLimit: U64): Gas {
    SpendAll(Fresh(gasLimit, g.reservoir, 0)).(
      remaining := if IsOkOrRevert(r) then g.remaining else 0, refunded := if IsOk(r) then g.refunded else 0)
  }

  /** State gas: kept on success, unwound to the reservoir otherwise. */
  function UnwindState(r: InstructionResult, g: Gas, stateSpent: I64, refill: Option<U64>): Gas {
    if IsOk(r) then g.(stateSpent := stateSpent)
    else
      var unwound := g.(stateSpent := 0, reservoir := SatAddSigned(g.reservoir, stateSpent));
      if refill.Some? then Refill(unwound, refill.value) else unwound
  }

  /** `last_frame_result`, as a function of the root outcome. */
  function LastFrame(r: InstructionResult, isCreate: bool, g: Gas, gasLimit: U64, cfg: Config): Gas {
    UnwindState(r, ReturnGas(r, g, gasLimit), g.stateSpent,
                if isCreate && cfg.eip8037 then Some(cfg.createState) else None)
  }

  method ReturnGasTo(meter: GasMeter, r: InstructionResult, gasLimit: U64)
    modifies meter
    ensures meter.Value() == ReturnGas(r, old(meter.Value()), gasLimit)
  {
    var remaining, refunded, reservoir := meter.remaining, meter.refunded, meter.reservoir;
    ghost var spent := SpendAll(Fresh(gasLimit, reservoir, 0));
    meter.Reset(gasLimit, reservoir);
    if IsOkOrRevert(r) {
      meter.EraseCost(remaining);
    }
    assert meter.Value() == spent.(remaining := if IsOkOrRevert(r) then remaining else 0);
    if IsOk(r) {
      meter.RecordRefund(refunded);
    }
  }

  /** It rewrites the meter in place. */
  method LastFrameResult(meter: GasMeter, r: InstructionResult, isCreate: bool, gasLimit: U64, cfg: Config)
    modifies meter
    ensures meter.Value() == LastFrame(r, isCreate, old(meter.Value()), gasLimit, cfg)
  {
    var stateSpent := meter.stateSpent;
    ReturnGasTo(meter, r, gasLimit);
    meter.stateSpent := if IsOk(r) then stateSpent else 0;
    if !IsOk(r) {
      meter.reservoir := SatAddSigned(meter.reservoir, stateSpent);
    }
    if isCreate && !IsOk(r) && cfg.eip8037 {
      meter.RefillReservoir(cfg.createState);
    }
  }

  // ---------------------------------------------------------------------------
  // Refund, receipt, floor
  // ---------------------------------------------------------------------------

  /** `x as u64` for an `i64` that was summed up with wrap-around. */
  function AsU64(x: int): U64 { x % (U64_MAX + 1) }

  function Spent(g: Gas): U64 { SatSub(SatSub(g.limit, g.remaining), g.reservoir) }

  function RefundQuotient(london: bool): Positive { if london then 5 else 2 }

  /** `post_execution::refund`: a negative counter wraps, and is then capped like any other. */
  method Refund(meter: GasMeter, london: bool, authRefund: int)
    modifies meter
    ensures meter.Value() == FinalRefund(old(meter.Value()), london, authRefund)
  {
    meter.refunded := meter.refunded + authRefund;
    var used := SatSub(SatSub(meter.limit, meter.remaining), meter.reservoir);
    meter.refunded := Min(AsU64(meter.refunded), used / RefundQuotient(london));
  }

  function FinalRefund(g: Gas, london: bool, authRefund: int): Gas {
    g.(refunded := Min(AsU64(g.refunded + authRefund), Spent(g) / RefundQuotient(london)))
  }

  /** The receipt's `ResultGas` */
  datatype ResultGas = ResultGas(total: U64, refunded: U64, floor: U64, state: U64)

  /** `build_result_gas` */
  function BuildResultGas(g: Gas, i: Intrinsic): ResultGas
    requires 0 <= g.refunded <= U64_MAX
  {
    var state := Max(Min(g.stateSpent + i.state, I64_MAX), 0);
    ResultGas(Spent(g), g.refunded, i.floor, SatSub(state, i.stateRefund))
  }

  /** `ResultGas::tx_gas_used`, what the receipt shows. */
  function TxGasUsed(r: ResultGas): U64 { Max(SatSub(r.total, r.refunded), r.floor) }

  /** `ResultGas::final_refunded` */
  function FinalRefunded(r: ResultGas): U64 { if SatSub(r.total, r.refunded) < r.floor then 0 else r.refunded }

  /** `eip7623_check_gas_floor` */
  function Floored(g: Gas, i: Intrinsic): Gas
    requires 0 <= g.refunded <= U64_MAX
  {
    if SatSub(Spent(g), g.refunded) < i.floor
    then g.(remaining := SatSub(g.limit, i.floor), reservoir := 0, refunded := 0)
    else g
  }

  method CheckGasFloor(meter: GasMeter, i: Intrinsic)
    requires 0 <= meter.refunded <= U64_MAX
    modifies meter
    ensures meter.Value() == Floored(old(meter.Value()), i)
  {
    var before := SatSub(SatSub(meter.limit, meter.remaining), meter.reservoir);
    if SatSub(before, meter.refunded) < i.floor {
      meter.remaining := SatSub(meter.limit, i.floor);
      meter.reservoir := 0;
      meter.refunded := 0;
    }
  }

  /** What `reimburse_caller` multiplies the price with. */
  function Reimbursable(g: Gas): int { g.remaining + g.reservoir + g.refunded }

  /** What `reward_beneficiary` multiplies its price with. */
  function EffectiveUsed(g: Gas): U64
    requires 0 <= g.refunded <= U64_MAX
  {
    SatSub(SatSub(SatSub(g.limit, g.remaining), g.refunded), g.reservoir)
  }

  /** `post_execution` up to the payments: the receipt is built before the floor is applied
      to the meter. */
  method PostExecution(meter: GasMeter, i: Intrinsic, london: bool, authRefund: int) returns (receipt: ResultGas)
    modifies meter
    ensures var g := FinalRefund(old(meter.Value()), london, authRefund);
            receipt == BuildResultGas(g, i) && meter.Value() == Floored(g, i)
  {
    Refund(meter, london, authRefund);
    receipt := BuildResultGas(meter.Value(), i);
    CheckGasFloor(meter, i);
  }

  lemma CapWithin(used: nat, london: bool)
    ensures 0 <= used / RefundQuotient(london) <= used
  {
    if london { assert used / 5 <= used; } else { assert used / 2 <= used; }
  }

  /** The refund is what was earned, up to a fifth of the gas spent from London on and up to half
      of it before; more than that earns the largest refund that fits. */
  lemma RefundIsCapped(g: Gas, london: bool, authRefund: int)
    ensures var spent := Max(g.limit - g.remaining - g.reservoir, 0);
            var earned := AsU64(g.refunded + authRefund);
            var r := FinalRefund(g, london, authRefund).refunded;
            && FinalRefund(g, london, authRefund) == g.(refunded := r) && 0 <= r <= earned
            && (london ==> 5 * r <= spent && (r < earned ==> spent < 5 * (r + 1)))
            && (!london ==> 2 * r <= spent && (r < earned ==> spent < 2 * (r + 1)))
  {
  }

  /** The gas the beneficiary is paid for and the gas on the receipt are the same number,
      whether the refund cap or the floor decided it, if and only if the floor is within the
      limit. The gas the caller is not reimbursed for is that number too, if and only if in
      addition there is a floor or no more gas is left than the limit. */
  lemma BillIsReceipt(g: Gas, i: Intrinsic, london: bool, authRefund: int)
    requires g.remaining <= g.limit
    ensures var refunded := FinalRefund(g, london, authRefund);
            var final := Floored(refunded, i);
            var receipt := BuildResultGas(refunded, i);
            && EffectiveUsed(final) <= g.limit && i.floor <= TxGasUsed(receipt)
            && (TxGasUsed(receipt) == EffectiveUsed(final) <==> i.floor <= g.limit)
            && (g.limit - Reimbursable(final) == TxGasUsed(receipt)
                <==> i.floor <= g.limit && (i.floor > 0 || g.remaining + g.reservoir <= g.limit))
            && FinalRefunded(receipt) == final.refunded <= Spent(g) / RefundQuotient(london)
  {
    CapWithin(Spent(g), london);
  }

  // ---------------------------------------------------------------------------
  // From the root outcome to the bill
  // ---------------------------------------------------------------------------

  /** The state gas of a top-level create is part of the intrinsic state gas. */
  predicate CreateIsCharged(i: Intrinsic, isCreate: bool, cfg: Config) {
    isCreate && cfg.eip8037 ==> cfg.createState + i.stateRefund <= i.state
  }

  /** A root outcome whose books are in order leaves no more gas than the transaction bought,
      unless it succeeded and has refilled more, beyond what was charged, than a `b` that the
      intrinsic gas covers. */
  lemma RootGasWithinLimit(o: Outcome, i: Intrinsic, gasLimit: U64, cap: U64, factor: Factor, isCreate: bool, b: nat,
                           cfg: Config)
    requires i.regular + i.state <= gasLimit && i.stateRefund <= i.state && CreateIsCharged(i, isCreate, cfg)
    requires var (limit, reservoir) := InitialGas(i, gasLimit, cap);
             && 0 <= limit <= U64_MAX && 0 <= reservoir <= U64_MAX
             && AnswersRoot(o, Start(limit, limit, reservoir, factor))
    requires o.ledger.kept
    requires IsOk(o.result) ==> o.gas.stateSpent + b >= 0 && b + i.stateRefund <= i.regular + i.state
    ensures var g := LastFrame(o.result, isCreate, o.gas, gasLimit, cfg);
            g.limit == gasLimit && g.remaining + g.reservoir <= gasLimit
  {
    InitialGasSplits(i, gasLimit, cap);
  }

  /** Refilled to a top-level create that fails. */
  function CreateRefill(isCreate: bool, cfg: Config): U64 { if isCreate && cfg.eip8037 then cfg.createState else 0 }

  /** The two numbers on a receipt agree: gas spent in all is intrinsic regular gas, regular gas
      burned by the tree or forfeited in the end, and the state gas shown. Success shows what was
      spent on state; a failure shows the intrinsic part alone, without that of a create. */
  lemma ReceiptSplits(o: Outcome, i: Intrinsic, gasLimit: U64, cap: U64, factor: Factor, isCreate: bool, cfg: Config)
    requires i.regular + i.state <= gasLimit <= I64_MAX && i.stateRefund <= i.state && CreateIsCharged(i, isCreate, cfg)
    requires var (limit, reservoir) := InitialGas(i, gasLimit, cap);
             && 0 <= limit <= U64_MAX && 0 <= reservoir <= U64_MAX
             && AnswersRoot(o, Start(limit, limit, reservoir, factor))
    requires o.ledger.kept && (IsOk(o.result) ==> 0 <= o.gas.stateSpent && o.gas.stateSpent + i.state <= I64_MAX)
    ensures var g := LastFrame(o.result, isCreate, o.gas, gasLimit, cfg).(refunded := 0);
            var receipt := BuildResultGas(g, i);
            && receipt.state == i.state - i.stateRefund + (if IsOk(o.result) then o.gas.stateSpent else 0)
                                - (if IsOk(o.result) then 0 else CreateRefill(isCreate, cfg))
            && receipt.total == i.regular + o.ledger.burned
                                + (if IsOkOrRevert(o.result) then 0 else o.gas.remaining) + receipt.state
  {
    InitialGasSplits(i, gasLimit, cap);
  }

  /** What the receipt shows for a final meter: all of the limit but what is left, less the
      capped refund, or else the floor. */
  lemma ReceiptShows(g: Gas, i: Intrinsic, london: bool, authRefund: int)
    ensures var spent := Max(g.limit - g.remaining - g.reservoir, 0);
            var refund := Min(AsU64(g.refunded + authRefund), spent / RefundQuotient(london));
            TxGasUsed(BuildResultGas(FinalRefund(g, london, authRefund), i)) == Max(spent - refund, i.floor)
  {
    CapWithin(Max(g.limit - g.remaining - g.reservoir, 0), london);
  }

  /** What a failed root frame's reservoir is unwound to. */
  function Unwound(g: Gas): U64 { SatAddSigned(g.reservoir, g.stateSpent) }

  /** A halted transaction is billed its whole limit if and only if that is the floor, or the
      floor is below it, its reservoir is unwound to nothing, and neither a create nor an
      authorization gives anything back. */
  lemma HaltBillsEverything(o: Outcome, i: Intrinsic, gasLimit: U64, isCreate: bool, london: bool, authRefund: int, cfg: Config)
    requires !IsOkOrRevert(o.result)
    ensures var g := LastFrame(o.result, isCreate, o.gas, gasLimit, cfg);
            TxGasUsed(BuildResultGas(FinalRefund(g, london, authRefund), i)) == gasLimit
            <==> || i.floor == gasLimit
                 || (&& i.floor < gasLimit && o.gas.reservoir + o.gas.stateSpent <= 0 && CreateRefill(isCreate, cfg) == 0
                     && Min(AsU64(authRefund), gasLimit / RefundQuotient(london)) == 0)
  {
    var g := LastFrame(o.result, isCreate, o.gas, gasLimit, cfg);
    assert g.remaining == 0 && g.refunded == 0 && g.limit == gasLimit;
    assert g.reservoir == SatAdd(Unwound(o.gas), CreateRefill(isCreate, cfg));
    ReceiptShows(g, i, london, authRefund);
    CapWithin(Max(g.limit - g.remaining - g.reservoir, 0), london);
  }

  /** A transaction that returns or reverts is billed what it consumed: the limit less what is
      left of regular and state gas, less a capped refund that only success adds to, or else
      the floor. */
  lemma ReturnBillsConsumed(o: Outcome, i: Intrinsic, gasLimit: U64, london: bool, authRefund: int, cfg: Config)
    requires IsOkOrRevert(o.result)
    ensures var g := LastFrame(o.result, false, o.gas, gasLimit, cfg);
            var state := if IsOk(o.result) then o.gas.reservoir else Unwound(o.gas);
            var consumed := Max(gasLimit - o.gas.remaining - state, 0);
            var earned := (if IsOk(o.result) then o.gas.refunded else 0) + authRefund;
            TxGasUsed(BuildResultGas(FinalRefund(g, london, authRefund), i))
            == Max(consumed - Min(AsU64(earned), consumed / RefundQuotient(london)), i.floor)
  {
    ReceiptShows(LastFrame(o.result, false, o.gas, gasLimit, cfg), i, london, authRefund);
  }

  /** A root TransferFailed is billed for what it consumed, although the same result in a
      nested frame forfeits all that was forwarded to it. */
  lemma TransferFailedBillsConsumed(o: Outcome, i: Intrinsic, gasLimit: U64, london: bool, cfg: Config)
    requires o.result.TransferFailed?
    ensures var g := LastFrame(o.result, false, o.gas, gasLimit, cfg);
            TxGasUsed(BuildResultGas(FinalRefund(g, london, 0), i))
            == Max(Max(gasLimit - o.gas.remaining - Unwound(o.gas), 0), i.floor)
    ensures !ReturnsGas(o.result)
  {
    ReturnBillsConsumed(o, i, gasLimit, london, 0, cfg);
    CapWithin(Max(gasLimit - o.gas.remaining - Unwound(o.gas), 0), london);
  }
}
