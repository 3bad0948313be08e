/**
 Fees: what validation checks, what is taken from the caller before execution, and what
 goes back to it and on to the beneficiary afterwards, in the 64, 128 and 256-bit words of
 the node.
 */
module Fees {
  import opened Words
  import opened Journals

  datatype TxKind = Legacy | AccessList | DynamicFee | Blob | SetCode | Custom

  /** `gasPrice` is the maximum fee per gas for everything but Legacy and AccessList. */
  datatype Tx = Tx(
    kind: TxKind, caller: Address, gasLimit: U64, gasPrice: U128, priority: Option<U128>, value: U256,
    blobGas: U64, maxBlobFee: U128)

  datatype Block = Block(baseFee: U64, blobPrice: U128, beneficiary: Address)

  function SatMul128(a: U128, b: U128): U128 { Min(a * b, U128_MAX) }

  function SatAdd128(a: U128, b: U128): U128 { Min(a + b, U128_MAX) }

  function CheckedMul128(a: U128, b: U128): Option<U128> { if a * b <= U128_MAX then Some(a * b) else None }

  function CheckedAdd256(a: U256, b: U256): Option<U256> { if a + b <= U256_MAX then Some(a + b) else None }

  // ---------------------------------------------------------------------------
  // Validation
  // ---------------------------------------------------------------------------

  /** The price checks of `validate_tx_env` with the base-fee check on. A Custom transaction
      is not checked at all. */
  predicate PricesOk(tx: Tx, block: Block, skipPriorityCheck: bool) {
    match tx.kind
    case Legacy | AccessList => tx.gasPrice >= block.baseFee
    case Custom => true
    case _ =>
      var priority := if tx.priority.Some? then tx.priority.value else 0;
      && (skipPriorityCheck || priority <= tx.gasPrice)
      && Min(tx.gasPrice, SatAdd128(block.baseFee, priority)) >= block.baseFee
      && (tx.kind.Blob? ==> block.blobPrice <= tx.maxBlobFee)
  }

  /** In other words: outside Custom transactions the maximum price covers the base fee; with a
      maximum of its own the priority fee stays below it, unless that check is off; and blobs are
      bid for at their price. */
  lemma PricesOkMeans(tx: Tx, block: Block, skipPriorityCheck: bool)
    ensures PricesOk(tx, block, skipPriorityCheck)
            <==> tx.kind.Custom?
                 || (&& !(tx.gasPrice < block.baseFee)
                     && !(tx.kind.Blob? && tx.maxBlobFee < block.blobPrice)
                     && (tx.kind.Legacy? || tx.kind.AccessList? || skipPriorityCheck || tx.priority.None?
                         || !(tx.gasPrice < tx.priority.value)))
  {
  }

  function EffectiveGasPrice(tx: Tx, baseFee: U128): U128 {
    if tx.kind.Legacy? || tx.kind.AccessList? || tx.priority.None? then tx.gasPrice
    else Min(tx.gasPrice, SatAdd128(baseFee, tx.priority.value))
  }

  /** Every checked transaction pays at least the base fee. */
  lemma PriceCoversBaseFee(tx: Tx, block: Block, skipPriorityCheck: bool)
    requires PricesOk(tx, block, skipPriorityCheck)
    ensures !tx.kind.Custom? ==> EffectiveGasPrice(tx, block.baseFee) >= block.baseFee
    ensures tx.kind.Custom? ==>
      (EffectiveGasPrice(tx, block.baseFee) >= block.baseFee <==> tx.gasPrice >= block.baseFee)
    ensures EffectiveGasPrice(tx, block.baseFee) <= tx.gasPrice
  {
  }

  // ---------------------------------------------------------------------------
  // The caller's fee
  // ---------------------------------------------------------------------------

  function MaxDataFee(tx: Tx): U256 { SatMul128(tx.blobGas, tx.maxBlobFee) }

  function MaxBalanceSpending(tx: Tx): Option<U256> {
    match CheckedMul128(tx.gasLimit, tx.gasPrice)
    case None => None
    case Some(gas) =>
      match CheckedAdd256(gas, tx.value)
      case None => None
      case Some(sum) => if tx.kind.Blob? then CheckedAdd256(sum, MaxDataFee(tx)) else Some(sum)
  }

  function BlobFee(tx: Tx, block: Block): U128 {
    if tx.kind.Blob? then SatMul128(block.blobPrice, tx.blobGas) else 0
  }

  function EffectiveBalanceSpending(tx: Tx, block: Block): Option<U256> {
    match CheckedMul128(tx.gasLimit, EffectiveGasPrice(tx, block.baseFee))
    case None => None
    case Some(gas) =>
      match CheckedAdd256(gas, tx.value)
      case None => None
      case Some(sum) => if tx.kind.Blob? then CheckedAdd256(sum, BlobFee(tx, block)) else Some(sum)
  }

  /** `Panic` is the `expect` on the effective spending. */
  datatype CallerFee = NewBalance(balance: U256) | OverflowsPayment | LackOfFunds | Panic

  /** `calculate_caller_fee` with fees charged. */
  function CalculateCallerFee(balance: U256, tx: Tx, block: Block, checkBalance: bool): CallerFee {
    var most := MaxBalanceSpending(tx);
    if checkBalance && most.None? then OverflowsPayment
    else if checkBalance && most.value > balance then LackOfFunds
    else match EffectiveBalanceSpending(tx, block)
      case None => Panic
      case Some(spending) =>
        var left := Max(balance - (spending - tx.value), 0);
        NewBalance(if checkBalance then left else Max(left, tx.value))
  }

  /** What is effectively spent is representable whenever the maximum is, and no more. */
  lemma EffectiveWithinMax(tx: Tx, block: Block)
    requires MaxBalanceSpending(tx).Some? && (tx.kind.Blob? ==> block.blobPrice <= tx.maxBlobFee)
    ensures var price := EffectiveGasPrice(tx, block.baseFee);
            && tx.gasLimit * price <= U128_MAX
            && EffectiveBalanceSpending(tx, block)
               == Some(tx.gasLimit * price + tx.value + BlobFee(tx, block))
            && tx.gasLimit * price + tx.value + BlobFee(tx, block) <= MaxBalanceSpending(tx).value
  {
    MulMono(EffectiveGasPrice(tx, block.baseFee), tx.gasPrice, tx.gasLimit);
    if tx.kind.Blob? { MulMono(block.blobPrice, tx.maxBlobFee, tx.blobGas); }
  }

  /** For a validated transaction with the balance check on, the `expect` cannot fire: the
      fee step refuses it, or takes exactly gas and blob fee and leaves the value covered. */
  lemma CallerFeeExact(balance: U256, tx: Tx, block: Block, skipPriorityCheck: bool)
    requires PricesOk(tx, block, skipPriorityCheck)
    ensures var fee := CalculateCallerFee(balance, tx, block, true);
            && !fee.Panic?
            && (fee.NewBalance? ==>
                  && fee.balance == balance - tx.gasLimit * EffectiveGasPrice(tx, block.baseFee) - BlobFee(tx, block)
                  && tx.value <= fee.balance)
            && (fee.NewBalance? <==> MaxBalanceSpending(tx).Some? && MaxBalanceSpending(tx).value <= balance)
  {
    if MaxBalanceSpending(tx).Some? { EffectiveWithinMax(tx, block); }
  }

  /** Without the balance check the fee is taken as far as there is balance, and the caller is left
      with the value of the transaction at the least. */
  lemma UncheckedFee(balance: U256, tx: Tx, block: Block)
    ensures var fee := CalculateCallerFee(balance, tx, block, false);
            var taken := tx.gasLimit * EffectiveGasPrice(tx, block.baseFee) + BlobFee(tx, block);
            fee.NewBalance? ==>
              && tx.value <= fee.balance && balance - taken <= fee.balance
              && (fee.balance == tx.value || fee.balance == balance - taken || fee.balance == 0 > balance - taken)
  {
  }

  /** Without the balance check it fires, however large the balance is, if and only if the
      effective cost does not fit its words. */
  lemma PanicWithoutBalanceCheck(balance: U256, tx: Tx, block: Block)
    ensures CalculateCallerFee(balance, tx, block, false).Panic? <==>
              || tx.gasLimit * EffectiveGasPrice(tx, block.baseFee) > U128_MAX
              || tx.gasLimit * EffectiveGasPrice(tx, block.baseFee) + tx.value + BlobFee(tx, block) > U256_MAX
  {
  }

  lemma PanicExample()
    ensures var tx := Tx(Legacy, 0, U64_MAX, U128_MAX, None, 0, 0, 0);
            PricesOk(tx, Block(0, 0, 1), false) && CalculateCallerFee(U256_MAX, tx, Block(0, 0, 1), false).Panic?
  {
  }

  // ---------------------------------------------------------------------------
  // Payments after execution
  // ---------------------------------------------------------------------------

  /** `incr_balance`, whose refusal to overflow both callers ignore. */
  function IncrBalance(m: Slots, who: Address, amount: U256): Slots {
    var sum := Get(m, Balance(who)) + amount;
    if sum <= U256_MAX then Put(m, Balance(who), sum) else m
  }

  function ReimburseCaller(m: Slots, tx: Tx, block: Block, reimbursable: U64): Slots {
    IncrBalance(m, tx.caller, SatMul128(EffectiveGasPrice(tx, block.baseFee), reimbursable))
  }

  function CoinbasePrice(tx: Tx, block: Block, london: bool): U128 {
    var price := EffectiveGasPrice(tx, block.baseFee);
    if london then Max(price - block.baseFee, 0) else price
  }

  function RewardBeneficiary(m: Slots, tx: Tx, block: Block, london: bool, used: U64): Slots
    requires CoinbasePrice(tx, block, london) * used <= U128_MAX
  {
    IncrBalance(m, block.beneficiary, CoinbasePrice(tx, block, london) * used)
  }

  /** The part of the bill that nobody receives: the base fee, or the whole price of a Custom
      transaction that pays less. */
  function Burned(tx: Tx, block: Block, london: bool, used: U64): nat {
    if london then Min(EffectiveGasPrice(tx, block.baseFee), block.baseFee) * used else 0
  }

  /** No product of the two payments leaves 128 bits, and what the caller loses for gas is
      what the beneficiary gains and what is burned. */
  lemma BillSplits(tx: Tx, block: Block, london: bool, reimbursable: U64, used: U64)
    requires tx.gasLimit * EffectiveGasPrice(tx, block.baseFee) <= U128_MAX
    requires reimbursable + used == tx.gasLimit
    ensures var price := EffectiveGasPrice(tx, block.baseFee);
            && SatMul128(price, reimbursable) == price * reimbursable
            && 0 <= CoinbasePrice(tx, block, london) * used <= price * used <= U128_MAX
            && tx.gasLimit * price - SatMul128(price, reimbursable)
               == CoinbasePrice(tx, block, london) * used + Burned(tx, block, london, used)
  {
    var price := EffectiveGasPrice(tx, block.baseFee);
    var coinbase := CoinbasePrice(tx, block, london);
    MulMono(reimbursable, tx.gasLimit, price);
    MulMono(used, tx.gasLimit, price);
    MulMono(coinbase, price, used);
    assert tx.gasLimit * price == price * reimbursable + price * used;
    assert (price - coinbase) * used == price * used - coinbase * used;
  }

  lemma IncrKeepsSupply(m: Slots, who: Address, amount: U256)
    requires Supply(m) + amount <= U256_MAX
    ensures Supply(IncrBalance(m, who, amount)) == Supply(m) + amount
    ensures Get(IncrBalance(m, who, amount), Balance(who)) == Get(m, Balance(who)) + amount
  {
    SupplyBounds(m, who, who + 1);
    SupplyPut(m, Balance(who), Get(m, Balance(who)) + amount);
  }

  lemma DeductionSupply(m: Slots, tx: Tx, block: Block, skipPriorityCheck: bool, left: U256)
    requires PricesOk(tx, block, skipPriorityCheck) && Get(m, Balance(tx.caller)) <= U256_MAX
    requires CalculateCallerFee(Get(m, Balance(tx.caller)), tx, block, true) == NewBalance(left)
    ensures tx.gasLimit * EffectiveGasPrice(tx, block.baseFee) <= U128_MAX
    ensures Supply(Put(m, Balance(tx.caller), left))
            == Supply(m) - tx.gasLimit * EffectiveGasPrice(tx, block.baseFee) - BlobFee(tx, block)
  {
    CallerFeeExact(Get(m, Balance(tx.caller)), tx, block, skipPriorityCheck);
    EffectiveWithinMax(tx, block);
    SupplyPut(m, Balance(tx.caller), left);
  }

  lemma PaymentsSupply(m: Slots, caller: Address, beneficiary: Address, back: U256, reward: U256)
    requires Supply(m) + back + reward <= U256_MAX
    ensures Supply(IncrBalance(IncrBalance(m, caller, back), beneficiary, reward)) == Supply(m) + back + reward
  {
    IncrKeepsSupply(m, caller, back);
    IncrKeepsSupply(IncrBalance(m, caller, back), beneficiary, reward);
  }

  /** Deduct, execute, reimburse, reward: over the whole transaction the supply shrinks by the
      blob fee and the burned base fee and by nothing else, even if caller and beneficiary
      are one account. `during` is the world that execution left, which moves value but
      neither makes nor destroys it. */
  lemma FeesConserved(m: Slots, during: Slots, tx: Tx, block: Block, skipPriorityCheck: bool, london: bool,
                      left: U256, reimbursable: U64, used: U64)
    requires Supply(m) <= U256_MAX && PricesOk(tx, block, skipPriorityCheck)
    requires Get(m, Balance(tx.caller)) <= U256_MAX
    requires CalculateCallerFee(Get(m, Balance(tx.caller)), tx, block, true) == NewBalance(left)
    requires Supply(during) == Supply(Put(m, Balance(tx.caller), left))
    requires reimbursable + used == tx.gasLimit
    ensures CoinbasePrice(tx, block, london) * used <= U128_MAX
    ensures Supply(RewardBeneficiary(ReimburseCaller(during, tx, block, reimbursable), tx, block, london, used))
            == Supply(m) - BlobFee(tx, block) - Burned(tx, block, london, used)
  {
    var price := EffectiveGasPrice(tx, block.baseFee);
    var cost: int, back, burned := tx.gasLimit * price, SatMul128(price, reimbursable), Burned(tx, block, london, used);
    var reward: int := CoinbasePrice(tx, block, london) * used;
    DeductionSupply(m, tx, block, skipPriorityCheck, left);
    assert cost - back == reward + burned && 0 <= reward <= U128_MAX by {
      BillSplits(tx, block, london, reimbursable, used);
    }
    PaymentsSupply(during, tx.caller, block.beneficiary, back, reward);
  }

  /** `caller` got `back`, `beneficiary` got `reward`, and nothing else changed. */
  ghost predicate PaymentsMade(m: Slots, after: Slots, caller: Address, back: nat, beneficiary: Address, reward: nat) {
    && Get(after, Balance(caller)) == Get(m, Balance(caller)) + back + (if beneficiary == caller then reward else 0)
    && (beneficiary != caller ==> Get(after, Balance(beneficiary)) == Get(m, Balance(beneficiary)) + reward)
    && (forall s | s != Balance(caller) && s != Balance(beneficiary) :: Get(after, s) == Get(m, s))
  }

  lemma PaymentsLand(m: Slots, caller: Address, beneficiary: Address, back: U256, reward: U256)
    requires Supply(m) + back + reward <= U256_MAX
    ensures PaymentsMade(m, IncrBalance(IncrBalance(m, caller, back), beneficiary, reward), caller, back, beneficiary, reward)
  {
    IncrKeepsSupply(m, caller, back);
    IncrKeepsSupply(IncrBalance(m, caller, back), beneficiary, reward);
  }

  /** EIP-1559 on its own terms: what a unit of gas brings the beneficiary on top of the base fee.
      It is the priority fee where there is one, and never more than the maximum leaves. */
  function Tip(tx: Tx, block: Block): nat {
    var room := Max(tx.gasPrice - block.baseFee, 0);
    if tx.kind.Legacy? || tx.kind.AccessList? || tx.priority.None? then room else Min(tx.priority.value, room)
  }

  /** And what it costs the caller: the base fee, which only an unchecked Custom transaction can
      fail to reach, and the tip. */
  function Cost(tx: Tx, block: Block): nat { Min(tx.gasPrice, block.baseFee) + Tip(tx, block) }

  lemma PriceIsCost(tx: Tx, block: Block, london: bool)
    ensures EffectiveGasPrice(tx, block.baseFee) == Cost(tx, block)
    ensures CoinbasePrice(tx, block, london) == if london then Tip(tx, block) else Cost(tx, block)
  {
  }

  /** A transaction that used `used` gas has been paid for, `during` being the world execution
      left: the caller got back the cost of the gas not used, the beneficiary got the tip for
      what was (before London, the whole cost), and the base fee for it and the blob fee are all
      that is missing from the supply. */
  ghost predicate FeesSettled(m: Slots, during: Slots, after: Slots, tx: Tx, block: Block, london: bool, used: U64) {
    var cost, base := Cost(tx, block), if london then Min(tx.gasPrice, block.baseFee) else 0;
    && used <= tx.gasLimit && 0 <= cost * (tx.gasLimit - used) && 0 <= (cost - base) * used
    && PaymentsMade(during, after, tx.caller, cost * (tx.gasLimit - used), block.beneficiary, (cost - base) * used)
    && Supply(after) == Supply(m) - DataFee(tx, block) - base * used
  }

  /** The fee for blobs, which nobody receives. */
  function DataFee(tx: Tx, block: Block): nat { if tx.kind.Blob? then Min(tx.blobGas * block.blobPrice, U128_MAX) else 0 }

  /** What the caller must have: gas at the maximum price, the value, and blobs at theirs; the first
      in 128 bits. */
  predicate Affordable(tx: Tx, balance: U256) {
    && tx.gasLimit * tx.gasPrice <= U128_MAX
    && tx.gasLimit * tx.gasPrice + tx.value
       + (if tx.kind.Blob? then Min(tx.blobGas * tx.maxBlobFee, U128_MAX) else 0) <= balance
  }

  lemma AffordableIsCovered(balance: U256, tx: Tx)
    ensures Affordable(tx, balance) <==> MaxBalanceSpending(tx).Some? && MaxBalanceSpending(tx).value <= balance
  {
  }

  lemma SplitCost(tx: Tx, block: Block, london: bool, used: U64)
    ensures var base := if london then Min(tx.gasPrice, block.baseFee) else 0;
            && Burned(tx, block, london, used) == base * used
            && BlobFee(tx, block) == DataFee(tx, block)
            && CoinbasePrice(tx, block, london) == Cost(tx, block) - base
  {
    PriceIsCost(tx, block, london);
    assert block.blobPrice * tx.blobGas == tx.blobGas * block.blobPrice;
  }

  /** The fee step accepts what is affordable, and takes the cost of the whole limit and the blob fee. */
  lemma DeductionExact(balance: U256, tx: Tx, block: Block, skipPriorityCheck: bool)
    requires PricesOk(tx, block, skipPriorityCheck)
    ensures var fee := CalculateCallerFee(balance, tx, block, true);
            && (fee.NewBalance? <==> Affordable(tx, balance))
            && (fee.NewBalance? ==>
                  fee.balance == balance - Cost(tx, block) * tx.gasLimit - DataFee(tx, block) && tx.value <= fee.balance)
  {
    CallerFeeExact(balance, tx, block, skipPriorityCheck);
    AffordableIsCovered(balance, tx);
    PriceIsCost(tx, block, true);
    SplitCost(tx, block, true, 0);
  }

  lemma FeesLand(m: Slots, during: Slots, tx: Tx, block: Block, skipPriorityCheck: bool, london: bool,
                 left: U256, used: U64, back: U256, reward: U256)
    requires Supply(m) <= U256_MAX && PricesOk(tx, block, skipPriorityCheck)
    requires Get(m, Balance(tx.caller)) <= U256_MAX
    requires CalculateCallerFee(Get(m, Balance(tx.caller)), tx, block, true) == NewBalance(left)
    requires Supply(during) == Supply(Put(m, Balance(tx.caller), left))
    requires tx.gasLimit * EffectiveGasPrice(tx, block.baseFee) == back + reward + Burned(tx, block, london, used)
    ensures PaymentsMade(during, IncrBalance(IncrBalance(during, tx.caller, back), block.beneficiary, reward),
                         tx.caller, back, block.beneficiary, reward)
  {
    DeductionSupply(m, tx, block, skipPriorityCheck, left);
    PaymentsLand(during, tx.caller, block.beneficiary, back, reward);
  }

  lemma Amounts(tx: Tx, block: Block, london: bool, used: U64) returns (back: U256, reward: U256)
    requires tx.gasLimit * EffectiveGasPrice(tx, block.baseFee) <= U128_MAX && used <= tx.gasLimit
    ensures var price := EffectiveGasPrice(tx, block.baseFee);
            && back == price * (tx.gasLimit - used) == SatMul128(price, tx.gasLimit - used)
            && reward == CoinbasePrice(tx, block, london) * used <= U128_MAX
            && price * used == reward + Burned(tx, block, london, used)
            && tx.gasLimit * price == back + reward + Burned(tx, block, london, used)
  {
    var price := EffectiveGasPrice(tx, block.baseFee);
    BillSplits(tx, block, london, tx.gasLimit - used, used);
    assert tx.gasLimit * price == price * (tx.gasLimit - used) + price * used;
    back, reward := price * (tx.gasLimit - used), CoinbasePrice(tx, block, london) * used;
  }

  lemma FeesSettle(m: Slots, during: Slots, tx: Tx, block: Block, skipPriorityCheck: bool, london: bool,
                   left: U256, used: U64, after: Slots)
    requires Supply(m) <= U256_MAX && PricesOk(tx, block, skipPriorityCheck)
    requires Get(m, Balance(tx.caller)) <= U256_MAX
    requires CalculateCallerFee(Get(m, Balance(tx.caller)), tx, block, true) == NewBalance(left)
    requires Supply(during) == Supply(Put(m, Balance(tx.caller), left))
    requires used <= tx.gasLimit && CoinbasePrice(tx, block, london) * used <= U128_MAX
    requires after == RewardBeneficiary(ReimburseCaller(during, tx, block, tx.gasLimit - used), tx, block, london, used)
    ensures FeesSettled(m, during, after, tx, block, london, used)
  {
    PriceIsCost(tx, block, london);
    DeductionSupply(m, tx, block, skipPriorityCheck, left);
    var back, reward := Amounts(tx, block, london, used);
    SplitCost(tx, block, london, used);
    FeesConserved(m, during, tx, block, skipPriorityCheck, london, left, tx.gasLimit - used, used);
    FeesLand(m, during, tx, block, skipPriorityCheck, london, left, used, back, reward);
  }

  lemma RewardFits(tx: Tx, block: Block, london: bool, used: U64)
    requires tx.gasLimit * EffectiveGasPrice(tx, block.baseFee) <= U128_MAX && used <= tx.gasLimit
    ensures CoinbasePrice(tx, block, london) * used <= U128_MAX
  {
    BillSplits(tx, block, london, tx.gasLimit - used, used);
  }
}
