/**
 Energy accounting of one frame: the gas tracker (regular gas, EIP-8037 state-gas
 reservoir) and TRON's dynamic-energy surcharge, floored once per opcode although
 an opcode pays in several instalments.
 */
module Energy {
  import opened Words

  /** `TRON_DYNAMIC_DECIMAL` */
  const DECIMAL: int := 10_000

  /** A contract's dynamic factor, a non-negative i64. */
  type Factor = f: int | 0 <= f <= I64_MAX

  datatype Gas = Gas(
    limit: U64,
    remaining: U64,
    reservoir: U64,
    stateSpent: I64,
    refunded: int,
    factor: Factor,
    opRaw: U64,
    base: U64,
    penalty: U64,
    words: nat,
    memCost: U64)

  /** `Gas::new_with_regular_gas_and_reservoir`, followed by `set_tron_dynamic_factor` */
  function Fresh(limit: U64, reservoir: U64, factor: Factor): Gas {
    Gas(limit, limit, reservoir, 0, 0, factor, 0, 0, 0, 0, 0)
  }

  /** java-tron's charge for an opcode whose combined raw cost is `raw`. */
  function Scaled(raw: nat, factor: Factor): nat {
    raw * (DECIMAL + factor) / DECIMAL
  }

  lemma DivAdd(a: nat, b: nat, d: nat)
    requires d > 0
    ensures a / d + b / d <= (a + b) / d
  {
    assert a == d * (a / d) + a % d;
    assert b == d * (b / d) + b % d;
    assert a + b == d * (a / d + b / d) + (a % d + b % d);
    DivLower(a + b, a / d + b / d, d);
  }

  lemma DivLower(x: nat, q: nat, d: nat)
    requires d > 0 && d * q <= x
    ensures q <= x / d
  {
    assert d * q < d * (x / d + 1);
  }

  /** The surcharge never makes an instalment cheaper than its raw cost. */
  lemma ScaledStep(raw: nat, cost: nat, factor: Factor)
    ensures Scaled(raw, factor) + cost <= Scaled(raw + cost, factor)
  {
    var n := DECIMAL + factor;
    assert (raw + cost) * n == raw * n + cost * n;
    DivAdd(raw * n, cost * n, DECIMAL);
    assert DECIMAL * cost <= cost * n;
    DivLower(cost * n, cost, DECIMAL);
  }

  lemma ScaledZeroFactor(raw: nat)
    ensures Scaled(raw, 0) == raw
  {
  }

  /** `Gas::tron_charge`: the new meter and the amount to deduct for this instalment. */
  function TronCharge(g: Gas, cost: U64): (Gas, U64) {
    var paid := g.(base := SatAdd(g.base, cost));
    if g.factor == 0 || cost == 0 then
      (paid, cost)
    else
      ScaledStep(g.opRaw, cost, g.factor);
      var delta := Scaled(g.opRaw + cost, g.factor) - Scaled(g.opRaw, g.factor);
      var effective := Min(delta, U64_MAX);
      (paid.(opRaw := Min(g.opRaw + cost, U64_MAX), penalty := SatAdd(g.penalty, SatSub(effective, cost))),
       effective)
  }

  /** The largest product of `tron_charge` fits its 128 bits. */
  predicate ChargeFits(g: Gas, cost: U64) { (g.opRaw + cost) * (DECIMAL + g.factor) <= U128_MAX }

  /** An opcode's raw total fits 64 bits, or the factor is not one of the 9999 largest. */
  predicate Ordinary(g: Gas, cost: U64) { g.opRaw + cost <= U64_MAX || g.factor <= I64_MAX - DECIMAL + 1 }

  lemma ProductBound(a: nat, b: nat, x: nat, y: nat)
    requires a <= x && b <= y
    ensures a * b <= x * y
  {
    MulMono(a, x, b);
    MulMono(b, y, x);
  }

  lemma ChargesFit(g: Gas, cost: U64)
    requires Ordinary(g, cost)
    ensures ChargeFits(g, cost)
  {
    if g.opRaw + cost <= U64_MAX { ProductBound(g.opRaw + cost, DECIMAL + g.factor, U64_MAX, I64_MAX + DECIMAL); }
    else { ProductBound(g.opRaw + cost, DECIMAL + g.factor, 2 * U64_MAX, I64_MAX + 1); }
  }

  /** `Gas::tron_op_boundary` */
  function OpBoundary(g: Gas): Gas { g.(opRaw := 0) }

  /** `Gas::record_unscaled_cost` / `GasTracker::record_regular_cost` */
  function RecordUnscaled(g: Gas, cost: U64): (Gas, bool) {
    if cost <= g.remaining then (g.(remaining := g.remaining - cost), true) else (g, false)
  }

  /** `Gas::record_regular_cost` */
  function RecordRegular(g: Gas, cost: U64): (Gas, bool) {
    var (g1, effective) := TronCharge(g, cost);
    RecordUnscaled(g1, effective)
  }

  /** `Gas::record_cost_unsafe`: true means out of gas, and then `remaining` has wrapped. */
  function RecordUnsafe(g: Gas, cost: U64): (Gas, bool) {
    var (g1, effective) := TronCharge(g, cost);
    (g1.(remaining := WrapSub(g.remaining, effective)), g.remaining < effective)
  }

  /** `GasTracker::record_state_cost` */
  function RecordStateRaw(g: Gas, cost: U64): (Gas, bool) {
    if cost <= g.reservoir then
      (g.(stateSpent := SatSigned(g.stateSpent, AsI64(cost)), reservoir := g.reservoir - cost), true)
    else if cost - g.reservoir <= g.remaining then
      (g.(remaining := g.remaining - (cost - g.reservoir),
          stateSpent := SatSigned(g.stateSpent, AsI64(cost)), reservoir := 0), true)
    else
      (g, false)
  }

  /** `Gas::record_state_cost` */
  function RecordState(g: Gas, cost: U64): (Gas, bool) {
    var (g1, effective) := TronCharge(g, cost);
    RecordStateRaw(g1, effective)
  }

  /** `GasTracker::refill_reservoir` */
  function Refill(g: Gas, amount: U64): Gas {
    g.(reservoir := SatAdd(g.reservoir, amount), stateSpent := SatSigned(g.stateSpent, -AsI64(amount)))
  }

  /** `GasTracker::erase_cost` (an unchecked `+=` in the source) */
  function Erase(g: Gas, returned: U64): Gas
    requires g.remaining + returned <= U64_MAX
  {
    g.(remaining := g.remaining + returned)
  }

  /** `GasTracker::spend_all` */
  function SpendAll(g: Gas): Gas { g.(remaining := 0) }

  // ---------------------------------------------------------------------------
  // One floor per opcode, however the cost is split
  // ---------------------------------------------------------------------------

  function Sum(costs: seq<U64>): nat {
    if costs == [] then 0 else costs[0] + Sum(costs[1..])
  }

  /** Pays the instalments of one opcode in order; also returns what was deducted in all. */
  function ChargeAll(g: Gas, costs: seq<U64>): (Gas, nat)
    decreases |costs|
  {
    if costs == [] then (g, 0)
    else
      var (g1, effective) := TronCharge(g, costs[0]);
      var (g2, rest) := ChargeAll(g1, costs[1..]);
      (g2, effective + rest)
  }

  /** What java's single floor leaves to pay once `raw` has been paid for. */
  function Owed(raw: nat, more: nat, factor: Factor): (owed: nat)
    ensures more <= owed
  {
    ScaledStep(raw, more, factor);
    Scaled(raw + more, factor) - Scaled(raw, factor)
  }

  /** However an opcode's cost is split, what is deducted in total is the single
      floor of the combined cost, `base` grows by the raw sum, and `penalty` by
      exactly the difference, as long as those totals fit a u64. */
  lemma {:induction false} ChargeAllIsOneFloor(g: Gas, costs: seq<U64>)
    requires g.opRaw + Sum(costs) <= U64_MAX && Owed(g.opRaw, Sum(costs), g.factor) <= U64_MAX
    requires g.base + Sum(costs) <= U64_MAX
    requires g.penalty + Owed(g.opRaw, Sum(costs), g.factor) - Sum(costs) <= U64_MAX
    ensures var (g', total) := ChargeAll(g, costs);
            && total == Owed(g.opRaw, Sum(costs), g.factor)
            && g'.base == g.base + Sum(costs)
            && g'.penalty == g.penalty + total - Sum(costs)
            && g'.opRaw == (if g.factor == 0 then g.opRaw else g.opRaw + Sum(costs))
            && g'.remaining == g.remaining && g'.factor == g.factor
    decreases |costs|
  {
    if g.factor == 0 { ScaledZeroFactor(g.opRaw); ScaledZeroFactor(g.opRaw + Sum(costs)); }
    if costs != [] {
      var rest := Sum(costs[1..]);
      ScaledStep(g.opRaw, costs[0], g.factor);
      ScaledStep(g.opRaw + costs[0], rest, g.factor);
      if g.factor == 0 {
        ScaledZeroFactor(g.opRaw + costs[0]);
        ScaledZeroFactor(g.opRaw + rest);
      }
      ChargeAllIsOneFloor(TronCharge(g, costs[0]).0, costs[1..]);
    }
  }

  /** The instalments of one opcode taken with `record_regular_cost`, stopping at the first refusal. */
  function PayAll(g: Gas, costs: seq<U64>): (Gas, bool)
    decreases |costs|
  {
    if costs == [] then (g, true)
    else
      var (g1, ok) := RecordRegular(g, costs[0]);
      if ok then PayAll(g1, costs[1..]) else (g1, false)
  }

  /** The split form runs out of gas exactly when the single combined charge would,
      and otherwise leaves exactly the same gas. A balance of u64::MAX is the one
      case in which a saturated instalment could still be paid. */
  lemma {:induction false} PayAllMatchesCombined(g: Gas, costs: seq<U64>)
    requires g.opRaw + Sum(costs) <= U64_MAX
    requires g.remaining < U64_MAX || Owed(g.opRaw, Sum(costs), g.factor) <= U64_MAX
    ensures PayAll(g, costs).1 <==> Owed(g.opRaw, Sum(costs), g.factor) <= g.remaining
    ensures PayAll(g, costs).1 ==>
      PayAll(g, costs).0.remaining == g.remaining - Owed(g.opRaw, Sum(costs), g.factor)
    decreases |costs|
  {
    if g.factor == 0 { ScaledZeroFactor(g.opRaw); ScaledZeroFactor(g.opRaw + Sum(costs)); }
    if costs != [] {
      var rest := Sum(costs[1..]);
      ScaledStep(g.opRaw, costs[0], g.factor);
      ScaledStep(g.opRaw + costs[0], rest, g.factor);
      if g.factor == 0 {
        ScaledZeroFactor(g.opRaw + costs[0]);
        ScaledZeroFactor(g.opRaw + rest);
      }
      var (g1, ok) := RecordRegular(g, costs[0]);
      if ok { PayAllMatchesCombined(g1, costs[1..]); }
    }
  }

  /** That case: an instalment of twice u64::MAX is cut down to what is there, and paid. */
  lemma SaturatedInstalmentIsPaid()
    ensures var g := Fresh(U64_MAX, 0, DECIMAL);
            PayAll(g, [U64_MAX]).1 && Owed(g.opRaw, Sum([U64_MAX]), g.factor) > g.remaining
  {
    var g := Fresh(U64_MAX, 0, DECIMAL);
    var (g1, ok) := RecordRegular(g, U64_MAX);
    assert ok && [U64_MAX][1..] == [] && PayAll(g1, []) == (g1, true);
    assert Sum([U64_MAX]) == U64_MAX;
  }

  /** At an opcode boundary the combined charge is a function of the raw sum alone,
      so two ways of splitting the same cost cannot be told apart. */
  lemma SplitIrrelevant(g: Gas, xs: seq<U64>, ys: seq<U64>)
    requires Sum(xs) == Sum(ys) <= U64_MAX
    requires g.remaining < U64_MAX
    ensures PayAll(OpBoundary(g), xs).1 == PayAll(OpBoundary(g), ys).1
    ensures PayAll(OpBoundary(g), xs).1 ==>
      PayAll(OpBoundary(g), xs).0.remaining == PayAll(OpBoundary(g), ys).0.remaining
  {
    PayAllMatchesCombined(OpBoundary(g), xs);
    PayAllMatchesCombined(OpBoundary(g), ys);
  }
}
