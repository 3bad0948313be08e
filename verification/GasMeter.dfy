/**
 The gas meter as the node keeps it: fields updated in place, products in 128-bit words.
 Each method is proved against the function of `Energy` it stands for.
 */
module GasMeters {
  import opened Words
  import opened Energy

  class GasMeter {
    var limit: U64
    var remaining: U64
    var reservoir: U64
    var stateSpent: I64
    var refunded: int
    var factor: Factor
    var opRaw: U64
    var base: U64
    var penalty: U64
    var words: nat
    var memCost: U64

    function Value(): Gas
      reads this
    {
      Gas(limit, remaining, reservoir, stateSpent, refunded, factor, opRaw, base, penalty, words, memCost)
    }

    constructor (limit: U64, remaining: U64, reservoir: U64, factor: Factor)
      ensures Value() == Fresh(limit, reservoir, factor).(remaining := remaining)
    {
      this.limit, this.remaining, this.reservoir, this.factor := limit, remaining, reservoir, factor;
      stateSpent, refunded, opRaw, base, penalty, words, memCost := 0, 0, 0, 0, 0, 0, 0;
    }

    constructor Of(g: Gas)
      ensures Value() == g
    {
      limit, remaining, reservoir, factor := g.limit, g.remaining, g.reservoir, g.factor;
      stateSpent, refunded, opRaw, base := g.stateSpent, g.refunded, g.opRaw, g.base;
      penalty, words, memCost := g.penalty, g.words, g.memCost;
    }

    /** `*gas = Gas::new_spent_with_reservoir(..)` */
    method Reset(limit: U64, reservoir: U64)
      modifies this
      ensures Value() == SpendAll(Fresh(limit, reservoir, 0))
    {
      this.limit, this.remaining, this.reservoir, this.factor := limit, 0, reservoir, 0;
      stateSpent, refunded, opRaw, base, penalty, words, memCost := 0, 0, 0, 0, 0, 0, 0;
    }

    /** `tron_charge`, in words of 128 bits. As long as the largest product fits, nothing
        wraps, no subtraction underflows, and the result is the specified charge. */
    method TronCharge(cost: U64) returns (effective: U64)
      modifies this
      ensures words == old(words) && memCost == old(memCost)
      ensures ChargeFits(old(Value()), cost) ==> (Value(), effective) == Energy.TronCharge(old(Value()), cost)
    {
      ghost var before := Value();
      base := SatAdd(base, cost);
      if factor == 0 || cost == 0 {
        return cost;
      }
      var num: U128 := DECIMAL + factor;
      var prevScaled: U128 := WrapMul128(opRaw, num) / DECIMAL;
      var newRaw: U128 := opRaw + cost;
      var newScaled: U128 := WrapMul128(newRaw, num) / DECIMAL;
      opRaw := if newRaw > U64_MAX then U64_MAX else newRaw;
      if ChargeFits(before, cost) {
        NothingWraps(before.opRaw, cost, num);
        ScaledStep(before.opRaw, cost, factor);
      }
      var delta: U128 := WrapSub128(newScaled, prevScaled);
      effective := if delta > U64_MAX then U64_MAX else delta;
      penalty := SatAdd(penalty, SatSub(effective, cost));
    }

    method OpBoundary()
      modifies this
      ensures Value() == Energy.OpBoundary(old(Value()))
    {
      opRaw := 0;
    }

    method RecordUnscaledCost(cost: U64) returns (ok: bool)
      modifies this
      ensures (Value(), ok) == RecordUnscaled(old(Value()), cost)
    {
      ok := cost <= remaining;
      if ok {
        remaining := remaining - cost;
      }
    }

    method RecordRegularCost(cost: U64) returns (ok: bool)
      modifies this
      ensures words == old(words) && memCost == old(memCost)
      ensures Ordinary(old(Value()), cost) ==> (Value(), ok) == RecordRegular(old(Value()), cost)
    {
      if Ordinary(Value(), cost) { ChargesFit(Value(), cost); }
      var effective := TronCharge(cost);
      ok := RecordUnscaledCost(effective);
    }

    method RecordCostUnsafe(cost: U64) returns (oog: bool)
      modifies this
      ensures Ordinary(old(Value()), cost) ==> (Value(), oog) == RecordUnsafe(old(Value()), cost)
    {
      if Ordinary(Value(), cost) { ChargesFit(Value(), cost); }
      var effective := TronCharge(cost);
      oog := remaining < effective;
      remaining := WrapSub(remaining, effective);
    }

    method RecordStateCost(cost: U64) returns (ok: bool)
      modifies this
      ensures Ordinary(old(Value()), cost) ==> (Value(), ok) == RecordState(old(Value()), cost)
    {
      if Ordinary(Value(), cost) { ChargesFit(Value(), cost); }
      var effective := TronCharge(cost);
      if reservoir >= effective {
        stateSpent := SatSigned(stateSpent, AsI64(effective));
        reservoir := reservoir - effective;
        return true;
      }
      ok := RecordUnscaledCost(effective - reservoir);
      if ok {
        stateSpent := SatSigned(stateSpent, AsI64(effective));
        reservoir := 0;
      }
    }

    method RefillReservoir(amount: U64)
      modifies this
      ensures Value() == Refill(old(Value()), amount)
    {
      reservoir := SatAdd(reservoir, amount);
      stateSpent := SatSigned(stateSpent, -AsI64(amount));
    }

    method EraseCost(returned: U64)
      requires remaining + returned <= U64_MAX
      modifies this
      ensures Value() == Erase(old(Value()), returned)
    {
      remaining := remaining + returned;
    }

    method RecordRefund(refund: int)
      modifies this
      ensures Value() == old(Value()).(refunded := old(refunded) + refund)
    {
      refunded := refunded + refund;
    }

    /** Pays an opcode's instalments, stopping at the first refusal. Whatever the split, an
        opcode that starts at a boundary is charged the one floor of its combined cost. */
    method PayOpcode(costs: seq<U64>) returns (ok: bool)
      requires Sum(costs) <= U64_MAX
      requires remaining < U64_MAX || Scaled(Sum(costs), factor) <= U64_MAX
      modifies this
      ensures ok <==> Scaled(Sum(costs), factor) <= old(remaining)
      ensures ok ==> remaining == old(remaining) - Scaled(Sum(costs), factor)
      ensures (Value(), ok) == PayAll(Energy.OpBoundary(old(Value())), costs)
    {
      OpBoundary();
      ghost var start := Value();
      PayAllMatchesCombined(start, costs);
      var i := 0;
      while i < |costs|
        invariant 0 <= i <= |costs|
        invariant PayAll(Value(), costs[i..]) == PayAll(start, costs)
        invariant factor == start.factor && opRaw + Sum(costs[i..]) <= U64_MAX
      {
        assert costs[i..][1..] == costs[i + 1..];
        var paid := RecordRegularCost(costs[i]);
        if !paid {
          return false;
        }
        i := i + 1;
      }
      ok := true;
    }

    /** `MemoryGas::set_words_num`: the new baseline is in place before the difference is
        known; None would be a baseline that went down. */
    method SetWordsNum(newWords: nat, cost: U64) returns (difference: Option<U64>)
      modifies this
      ensures Value() == old(Value()).(words := newWords, memCost := cost)
      ensures difference == if old(memCost) <= cost then Some(cost - old(memCost)) else None
    {
      words := newWords;
      var previous := memCost;
      memCost := cost;
      difference := if previous <= memCost then Some(memCost - previous) else None;
    }
  }

  function WrapMul128(a: U128, b: U128): U128 { a * b % (U128_MAX + 1) }

  function WrapSub128(a: U128, b: U128): U128 { if b <= a then a - b else a - b + U128_MAX + 1 }

  lemma NothingWraps(raw: U64, cost: U64, num: U128)
    requires (raw + cost) * num <= U128_MAX
    ensures WrapMul128(raw, num) == raw * num && WrapMul128(raw + cost, num) == (raw + cost) * num
  {
    assert (raw + cost) * num == raw * num + cost * num;
  }
}
