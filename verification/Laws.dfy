/**
 Conservation of energy over the whole call tree, opcode by opcode and frame by frame.
 */
module Laws {
  import opened Words
  import opened Results
  import opened Energy
  import opened Journals
  import opened Frames

  /** The books of a frame. All the regular gas its caller paid for is still there, was
      burned, or was spilled into state charges; it can never show more gas than its
      limit; and while nothing left the signed range, reservoir plus state gas spent is
      the reservoir it was given plus what was spilled. */
  ghost predicate Balanced(g: Gas, b: Ledger) {
    && g.remaining + b.burned + b.spill == b.paid
    && g.remaining + b.spill <= g.limit
    && (b.kept ==> b.given + g.limit <= I64_MAX && InRange(g) && g.reservoir + g.stateSpent == b.given + b.spill)
  }

  ghost predicate Settled(l: Local) { Balanced(l.gas, l.ledger) }

  /** The terms on which a frame was opened do not change. */
  ghost predicate SameTerms(l: Local, l': Local) {
    l'.gas.limit == l.gas.limit && l'.ledger.paid == l.ledger.paid && l'.ledger.given == l.ledger.given
  }

  /** What a stretch of charges may do: keep the books, and never add gas. */
  ghost predicate Spends(l: Local, l': Local, atLeast: nat) {
    && SameTerms(l, l') && Settled(l')
    && l'.gas.remaining + l'.ledger.spill + atLeast <= l.gas.remaining + l.ledger.spill
    && l'.stack == l.stack
  }

  lemma ChargeCovers(g: Gas, cost: U64)
    ensures TronCharge(g, cost).1 >= cost
    ensures var g' := TronCharge(g, cost).0;
            g'.limit == g.limit && g'.remaining == g.remaining && g'.reservoir == g.reservoir
            && g'.stateSpent == g.stateSpent && g'.words == g.words && g'.memCost == g.memCost
  {
    ScaledStep(g.opRaw, cost, g.factor);
  }

  lemma PayRegularSpends(l: Local, cost: U64)
    requires Settled(l)
    ensures var (l', ok) := PayRegular(l, cost);
            && Spends(l, l', if ok then cost else 0) && l'.memory == l.memory
            && l'.gas.words == l.gas.words && l'.gas.memCost == l.gas.memCost
  {
    ChargeCovers(l.gas, cost);
  }

  lemma PayStateSpends(l: Local, cost: U64)
    requires Settled(l)
    ensures var (l', ok) := PayState(l, cost);
            && Spends(l, l', 0) && l'.memory == l.memory
            && l'.gas.words == l.gas.words && l'.gas.memCost == l.gas.memCost
  {
    ChargeCovers(l.gas, cost);
  }

  lemma RefillSpends(l: Local, amount: U64)
    requires Settled(l)
    ensures Spends(l, RefillLocal(l, amount), 0)
  {
  }

  // ---------------------------------------------------------------------------
  // Memory and its price
  // ---------------------------------------------------------------------------

  /** The buffer has the size that was recorded, and that size was priced correctly. */
  ghost predicate MemoryOk(l: Local, cfg: Config) {
    |l.memory| == 32 * l.gas.words && l.gas.memCost == MemoryCost(cfg, l.gas.words)
  }

  lemma DivMono(a: nat, b: nat, d: Positive)
    requires a <= b
    ensures a / d <= b / d
  {
    DivAdd(a, b - a, d);
  }

  /** The subtraction in `set_words_num` cannot underflow. */
  lemma MemoryCostMono(cfg: Config, a: nat, b: nat)
    requires a <= b
    ensures MemoryCost(cfg, a) <= MemoryCost(cfg, b)
  {
    MulMono(a, b, cfg.memLinear);
    MulMono(a, b, a);
    MulMono(a, b, b);
    DivMono(SatMul(a, a), SatMul(b, b), cfg.memQuadratic);
  }

  /** An expansion inside memory that is already there changes nothing. Any other costs
      exactly the charge for the difference of the two prices, goes through exactly when
      limit and gas allow, and covers the window that was asked for. */
  lemma ExpandPays(l: Local, offset: U64, len: U64, cfg: Config)
    requires Settled(l) && MemoryOk(l, cfg)
    ensures var e := ExpandMemory(l, offset, len, cfg);
            && Spends(l, e.local, 0)
            && (e.Halt? ==> e.result.MemoryOOG? || e.result.MemoryLimitOOG?)
            && (e.Ok? ==> MemoryOk(e.local, cfg)
                          && l.memory <= e.local.memory
                          && (offset + len <= U64_MAX ==> offset + len <= |e.local.memory|))
    ensures var e, words := ExpandMemory(l, offset, len, cfg), NumWords(SatAdd(offset, len));
            if words <= l.gas.words then e == Ok(l)
            else
              && MemoryCost(cfg, l.gas.words) <= MemoryCost(cfg, words)
              && (var price := TronCharge(l.gas, MemoryCost(cfg, words) - MemoryCost(cfg, l.gas.words)).1;
                  && (e.Ok? <==> words * 32 <= cfg.memoryLimit && price <= l.gas.remaining)
                  && (e.Ok? ==> e.local.gas.words == words && e.local.gas.remaining == l.gas.remaining - price))
  {
    var words := NumWords(SatAdd(offset, len));
    if words > l.gas.words {
      MemoryCostMono(cfg, l.gas.words, words);
      var cost := MemoryCost(cfg, words);
      PayRegularSpends(l.(gas := l.gas.(words := words, memCost := cost)), SatSub(cost, l.gas.memCost));
    }
  }

  // ---------------------------------------------------------------------------
  // Opcodes
  // ---------------------------------------------------------------------------

  lemma ChargeSpends(c: Charge, l: Local, cfg: Config)
    requires Settled(l) && MemoryOk(l, cfg)
    ensures var e := ExecCharge(c, l, cfg);
            && Spends(l, e.local, if e.Ok? && c.Regular? then c.cost else 0)
            && (e.Ok? ==> MemoryOk(e.local, cfg) && l.memory <= e.local.memory)
            && (e.Halt? ==> !IsOkOrRevert(e.result))
            && (e.Ok? && c.Expand? && c.offset + c.len <= U64_MAX ==> c.offset + c.len <= |e.local.memory|)
  {
    match c
    case Regular(cost) => PayRegularSpends(l, cost);
    case State(cost) => PayStateSpends(l, cost);
    case RefillState(amount) => RefillSpends(l, amount);
    case Refund(_) =>
    case Expand(offset, len) => ExpandPays(l, offset, len, cfg);
  }

  /** What the charges in `cs` take at the very least. */
  function RegularTotal(cs: seq<Charge>): nat {
    if cs == [] then 0 else (if cs[0].Regular? then cs[0].cost else 0) + RegularTotal(cs[1..])
  }

  ghost predicate Covers(cs: seq<Charge>, memory: seq<Byte>) {
    forall i | 0 <= i < |cs| && cs[i].Expand? && cs[i].offset + cs[i].len <= U64_MAX ::
      cs[i].offset + cs[i].len <= |memory|
  }

  lemma {:induction false} ChargesSpend(cs: seq<Charge>, l: Local, cfg: Config)
    requires Settled(l) && MemoryOk(l, cfg)
    ensures var e := ExecCharges(cs, l, cfg);
            && Spends(l, e.local, if e.Ok? then RegularTotal(cs) else 0)
            && (e.Ok? ==> MemoryOk(e.local, cfg) && l.memory <= e.local.memory && Covers(cs, e.local.memory))
            && (e.Halt? ==> !IsOkOrRevert(e.result))
    decreases |cs|
  {
    if cs != [] {
      ChargeSpends(cs[0], l, cfg);
      var e := ExecCharge(cs[0], l, cfg);
      if e.Ok? {
        ChargesSpend(cs[1..], e.local, cfg);
        var rest := ExecCharges(cs[1..], e.local, cfg);
        if rest.Ok? {
          forall i | 0 <= i < |cs| && cs[i].Expand? && cs[i].offset + cs[i].len <= U64_MAX
            ensures cs[i].offset + cs[i].len <= |rest.local.memory|
          {
            if i > 0 { assert cs[i] == cs[1..][i - 1]; }
          }
        }
      }
    }
  }

  /** What an opcode's charges credit to the refund counter. */
  function Credits(cs: seq<Charge>): int {
    if cs == [] then 0 else (if cs[0].Refund? then cs[0].credit else 0) + Credits(cs[1..])
  }

  /** Refunds are credited in full and by nothing else. */
  lemma {:induction false} ChargesCredit(cs: seq<Charge>, l: Local, cfg: Config)
    requires ExecCharges(cs, l, cfg).Ok?
    ensures ExecCharges(cs, l, cfg).local.gas.refunded == l.gas.refunded + Credits(cs)
    decreases |cs|
  {
    if cs != [] { ChargesCredit(cs[1..], ExecCharge(cs[0], l, cfg).local, cfg); }
  }

  /** The wrapped balance of a refused static charge is gone once the frame has halted. */
  lemma OpcodeSpends(staticGas: U64, cs: seq<Charge>, l: Local, cfg: Config)
    requires Settled(l) && MemoryOk(l, cfg)
    ensures var e := ExecOpcode(staticGas, cs, l, cfg);
            if e.Ok?
            then Spends(l, e.local, RegularTotal(cs)) && MemoryOk(e.local, cfg) && Covers(cs, e.local.memory)
            else Spends(l, HaltWith(e.local, e.result), 0) && !IsOkOrRevert(e.result)
  {
    var g0 := OpBoundary(l.gas);
    ChargeCovers(g0, staticGas);
    var effective := TronCharge(g0, staticGas).1;
    var (g, oog) := RecordUnsafe(g0, staticGas);
    if !oog {
      ChargesSpend(cs, Burn(l.(gas := g), effective), cfg);
    }
  }

  /** An opcode without further charges goes through if and only if the gas that is left covers its
      static charge, to the last unit, and takes exactly that. */
  lemma StaticChargeExact(staticGas: U64, l: Local, cfg: Config)
    ensures var e := ExecOpcode(staticGas, [], l, cfg);
            var price := TronCharge(OpBoundary(l.gas), staticGas).1;
            && (e.Ok? <==> price <= l.gas.remaining) && (e.Halt? ==> e.result == OutOfGas)
            && (e.Ok? ==> e.local.gas.remaining == l.gas.remaining - price && e.local.memory == l.memory)
  {
    ChargeCovers(OpBoundary(l.gas), staticGas);
  }

  /** A frame that has forwarded `paid` to a child and waits for it, with room for the stipend. */
  ghost predicate Waits(l: Local, paid: nat, stipend: nat) {
    && l.gas.remaining + l.ledger.burned + l.ledger.spill + paid == l.ledger.paid
    && l.gas.remaining + l.ledger.spill + paid + stipend <= l.gas.limit
    && (l.ledger.kept ==>
          && l.ledger.given + l.gas.limit <= I64_MAX
          && l.gas.remaining + paid + l.gas.reservoir <= I64_MAX
          && l.gas.reservoir + l.gas.stateSpent == l.ledger.given + l.ledger.spill)
  }

  lemma ForwardWaits(staticGas: U64, cs: seq<Charge>, forward: U64, stipend: nat, l: Local, cfg: Config)
    requires Settled(l) && MemoryOk(l, cfg) && stipend <= RegularTotal(cs)
    ensures var e := ExecForward(staticGas, cs, forward, l, cfg);
            if e.Ok?
            then Waits(e.local, forward, stipend) && SameTerms(l, e.local)
                 && MemoryOk(e.local, cfg) && Covers(cs, e.local.memory) && e.local.stack == l.stack
            else Spends(l, HaltWith(e.local, e.result), 0) && !IsOkOrRevert(e.result)
  {
    OpcodeSpends(staticGas, cs, l, cfg);
  }

  // ---------------------------------------------------------------------------
  // Outcomes and merges
  // ---------------------------------------------------------------------------

  /** An outcome whose books are in order and which answers the request `(paid, limit, given)`. */
  ghost predicate Answers(o: Outcome, paid: nat, limit: nat, given: nat) {
    && Balanced(o.gas, o.ledger)
    && o.gas.limit == limit && o.ledger.paid == paid && o.ledger.given == given
  }

  lemma SettleKeepsBooks(l: Local, o: Outcome, limit: U64)
    requires o.ledger.paid <= limit && Waits(l, o.ledger.paid, limit - o.ledger.paid)
    requires Answers(o, o.ledger.paid, limit, l.gas.reservoir)
    ensures l.gas.remaining + o.gas.remaining <= U64_MAX
    ensures Settled(SettleState(SettleRegular(l, o), o))
    ensures SameTerms(l, SettleState(SettleRegular(l, o), o))
  {
  }

  lemma KillKeepsBooks(l: Local, o: Outcome, limit: U64, r: InstructionResult)
    requires o.ledger.paid <= limit && Waits(l, o.ledger.paid, limit - o.ledger.paid)
    requires Answers(o, o.ledger.paid, limit, l.gas.reservoir)
    ensures Settled(Kill(l, o, r).local) && SameTerms(l, Kill(l, o, r).local)
    ensures Kill(l, o, r).local.gas.remaining == 0
  {
  }

  /** Free growth leaves buffer and baseline in step, and the write is in bounds. */
  lemma WriteFullFits(l: Local, o: Outcome, rawOffset: nat, cfg: Config)
    requires MemoryOk(l, cfg)
    ensures var e := WriteFull(l, o, rawOffset, cfg);
            && e.local.ledger.paid == l.ledger.paid
            && (e.Halt? ==> e.local == Forfeit(l) && !IsOkOrRevert(e.result))
            && (e.Ok? ==>
                  && MemoryOk(e.local, cfg)
                  && e.local == l.(memory := e.local.memory,
                                   gas := l.gas.(words := e.local.gas.words, memCost := e.local.gas.memCost))
                  && (var at := rawOffset % 0x1_0000_0000;
                      o.output != [] ==> at + |o.output| <= |e.local.memory|
                                         && e.local.memory[at..at + |o.output|] == o.output))
  {
    var at := rawOffset % 0x1_0000_0000;
    var words := NumWords(at + |o.output|);
    assert at + |o.output| <= words * 32;
  }

  /** Growth that a precompile's output got for free is never billed later: expansions inside
      it cost nothing, and those beyond it pay for the words beyond it alone. */
  lemma FreeGrowthStaysFree(l: Local, o: Outcome, rawOffset: nat, offset: U64, len: U64, cfg: Config)
    requires Settled(l) && MemoryOk(l, cfg) && WriteFull(l, o, rawOffset, cfg).Ok?
    ensures var l1 := WriteFull(l, o, rawOffset, cfg).local;
            var e := ExpandMemory(l1, offset, len, cfg);
            && l1.gas.remaining == l.gas.remaining
            && (offset + len <= |l1.memory| ==> e == Ok(l1))
            && (e.Ok? && e != Ok(l1) ==>
                  && MemoryCost(cfg, l1.gas.words) <= MemoryCost(cfg, e.local.gas.words)
                  && e.local.gas.remaining == l.gas.remaining
                     - TronCharge(l1.gas, MemoryCost(cfg, e.local.gas.words) - MemoryCost(cfg, l1.gas.words)).1)
  {
    WriteFullFits(l, o, rawOffset, cfg);
    ExpandPays(WriteFull(l, o, rawOffset, cfg).local, offset, len, cfg);
  }

  /** The window a call's return data goes to was paid for. */
  ghost predicate WindowOk(memory: seq<Byte>, ret: Range) {
    ret.len > 0 ==> ret.start + ret.len <= |memory|
  }

  lemma WriteReturnFits(l: Local, o: Outcome, cfg: Config)
    requires MemoryOk(l, cfg) && o.reply.CallReply? && WindowOk(l.memory, o.reply.ret)
    ensures var e := WriteReturn(l, o, cfg);
            && (e.Halt? ==> e.local == Forfeit(l) && o.reply.fromPrecompile && !IsOkOrRevert(e.result))
            && (e.Ok? ==> MemoryOk(e.local, cfg)
                          && e.local == l.(memory := e.local.memory,
                                           gas := l.gas.(words := e.local.gas.words, memCost := e.local.gas.memCost)))
    ensures ReturnsGas(o.result) && !(o.reply.fromPrecompile && cfg.fullOutputWrite) ==>
      Fits(l.memory, o.reply.ret.start, o.output[..Min(o.reply.ret.len, |o.output|)])
  {
    WriteFullFits(l, o, o.reply.rawOffset, cfg);
  }

  /** The clamped write: the window gets as much of the output as fits it, the rest of memory
      stays as it was. */
  lemma WriteReturnLands(l: Local, o: Outcome, cfg: Config)
    requires o.reply.CallReply? && WindowOk(l.memory, o.reply.ret)
    requires ReturnsGas(o.result) && !(o.reply.fromPrecompile && cfg.fullOutputWrite)
    ensures var e := WriteReturn(l, o, cfg);
            var at, n := o.reply.ret.start, Min(o.reply.ret.len, |o.output|);
            && e.Ok? && |e.local.memory| == |l.memory|
            && (n > 0 ==> at + n <= |l.memory| && e.local.memory[at..at + n] == o.output[..n])
            && (forall i | 0 <= i < |l.memory| && !(at <= i < at + n) :: e.local.memory[i] == l.memory[i])
  {
    var at, n := o.reply.ret.start, Min(o.reply.ret.len, |o.output|);
    assert |o.output[..n]| == n;
  }

  ghost predicate MergedOk(l: Local, e: Exec, cfg: Config) {
    && Settled(e.local) && SameTerms(l, e.local)
    && (e.Ok? ==> MemoryOk(e.local, cfg))
    && (e.Halt? ==> e.local.gas.remaining == 0 && !IsOkOrRevert(e.result))
  }

  /** Settling the reservoir does not look at memory, stack or return data. */
  lemma StateSettlesAlike(l: Local, l1: Local, o: Outcome)
    requires l1.ledger == l.ledger && l1.gas == l.gas.(words := l1.gas.words, memCost := l1.gas.memCost)
    ensures Settled(SettleState(l, o)) ==> Settled(SettleRefund(SettleState(l1, o), o))
  {
  }

  /** A caller that has settled regular gas and written the output. */
  lemma WrittenKeepsBooks(l: Local, l1: Local, e: Exec, o: Outcome, limit: U64, cfg: Config)
    requires o.ledger.paid <= limit && Waits(l, o.ledger.paid, limit - o.ledger.paid)
    requires Answers(o, o.ledger.paid, limit, l.gas.reservoir)
    requires l1.gas == SettleRegular(l, o).gas && l1.ledger == SettleRegular(l, o).ledger
    requires e.Halt? ==> e.local == Forfeit(l1) && o.ledger.spill == 0 && !IsOkOrRevert(e.result)
    requires e.Ok? ==> MemoryOk(e.local, cfg)
                       && e.local == l1.(memory := e.local.memory,
                                         gas := l1.gas.(words := e.local.gas.words, memCost := e.local.gas.memCost))
    ensures MergedOk(l, if e.Halt? then e else Ok(SettleRefund(SettleState(e.local, o), o)), cfg)
  {
    if e.Ok? {
      SettleKeepsBooks(l, o, limit);
      StateSettlesAlike(SettleRegular(l, o), e.local, o);
    }
  }

  lemma MergeCallKeepsBooks(l: Local, o: Outcome, limit: U64, cfg: Config)
    requires o.ledger.paid <= limit && Waits(l, o.ledger.paid, limit - o.ledger.paid)
    requires Answers(o, o.ledger.paid, limit, l.gas.reservoir) && MemoryOk(l, cfg)
    requires o.reply.CallReply? && WindowOk(l.memory, o.reply.ret)
    requires o.reply.fromPrecompile ==> o.ledger.spill == 0
    ensures MergedOk(l, MergeCall(l, o, cfg), cfg)
  {
    var l0 := l.(returnData := o.output);
    if o.result.TronOutOfTime?
       || (o.reply.fromPrecompile && (o.result.PrecompileThrow? || o.result.TronPrecompileTransferFailure?)) {
      KillKeepsBooks(l0, o, limit, o.result);
    } else {
      var l1 := SettleRegular(l0.(stack := l0.stack + [if IsOk(o.result) then 1 else 0]), o);
      WriteReturnFits(l1, o, cfg);
      WrittenKeepsBooks(l, l1, WriteReturn(l1, o, cfg), o, limit, cfg);
    }
  }

  lemma MergeCreateKeepsBooks(l: Local, o: Outcome, limit: U64, cfg: Config)
    requires o.ledger.paid <= limit && Waits(l, o.ledger.paid, limit - o.ledger.paid)
    requires Answers(o, o.ledger.paid, limit, l.gas.reservoir) && MemoryOk(l, cfg)
    requires o.reply.CreateReply?
    ensures MergedOk(l, MergeCreate(l, o, cfg), cfg)
  {
    var l0 := l.(returnData := if o.result.Revert? then o.output else []);
    if o.result.TronOutOfTime? {
      KillKeepsBooks(l0, o, limit, TronOutOfTime);
    } else {
      SettleKeepsBooks(l0, o, limit);
      RefillSpends(SettleState(SettleRegular(l0, o), o), cfg.createState);
    }
  }

  /** Merging keeps the caller's books, whatever the child did: gas comes back only from a
      child that returned or reverted, a failed child's reservoir is unwound, and a caller
      that is killed has nothing left. The unchecked addition of returned gas cannot overflow. */
  lemma MergeKeepsBooks(l: Local, o: Outcome, limit: U64, cfg: Config)
    requires o.ledger.paid <= limit && Waits(l, o.ledger.paid, limit - o.ledger.paid)
    requires Answers(o, o.ledger.paid, limit, l.gas.reservoir) && MemoryOk(l, cfg)
    requires o.reply.CallReply? ==> WindowOk(l.memory, o.reply.ret)
    requires o.reply.CallReply? && o.reply.fromPrecompile ==> o.ledger.spill == 0
    ensures l.gas.remaining + o.gas.remaining <= U64_MAX
    ensures MergedOk(l, Merge(l, o, cfg), cfg)
  {
    if o.reply.CallReply? { MergeCallKeepsBooks(l, o, limit, cfg); }
    else { MergeCreateKeepsBooks(l, o, limit, cfg); }
  }

  lemma StartSettled(paid: nat, limit: U64, reservoir: U64, factor: Factor)
    requires paid <= limit
    ensures Settled(Start(paid, limit, reservoir, factor))
  {
  }

  lemma PrecompileAnswers(out: PrecompileOutput, start: Local, c: CallSpec)
    requires Settled(start) && start.gas.remaining == start.gas.limit && start.ledger.spill == 0
    ensures var o := PrecompileOutcome(out, start, c);
            Answers(o, start.ledger.paid, start.gas.limit, start.ledger.given) && o.ledger.spill == 0
  {
  }

  lemma OpenCallAnswers(c: CallSpec, callee: Callee, start: Local, depth: nat, w: World, nonce: nat, cfg: Config)
    requires Settled(start) && start.gas.remaining == start.gas.limit && start.ledger.spill == 0
    ensures var o := OpenCall(c, callee, start, depth, w, nonce, cfg);
            && (o.Inline? ==> Answers(o.outcome, start.ledger.paid, start.gas.limit, start.ledger.given)
                              && o.outcome.reply.CallReply? && o.outcome.reply.ret == c.ret
                              && o.outcome.ledger.spill == 0)
            && (o.Pushed? ==> depth <= MAX_DEPTH && o.local == start && o.kind == CallKind(c.ret, c.rawOffset))
  {
    if callee.Precompile? {
      var d := if c.moves then Transfer(w.slots, c.caller, c.target, c.value).1 else Delta(w.slots, []);
      PrecompileAnswers(callee.body(PrecompileInput(start.gas.limit, start.gas.reservoir, World(d.slots, w.logs))),
                        start, c);
    }
  }

  lemma OpenCreateAnswers(c: CreateSpec, init: Code, start: Local, depth: nat, w: World, nonce: nat, cfg: Config)
    requires Settled(start)
    ensures var o := OpenCreate(c, init, start, depth, w, nonce, cfg);
            && (o.Inline? ==> Answers(o.outcome, start.ledger.paid, start.gas.limit, start.ledger.given)
                              && o.outcome.reply == CreateReply(None))
            && (o.Pushed? ==> depth <= MAX_DEPTH && o.local == start && o.kind.CreateKind?)
  {
  }

  lemma DepositStateSpends(l: Local, code: seq<Byte>, cfg: Config)
    requires Settled(l)
    ensures var (r, l') := DepositState(l, code, cfg);
            Settled(l') && SameTerms(l, l') && (r.Return? || !IsOkOrRevert(r))
  {
    PayRegularSpends(l, SatMul(cfg.keccakWord, NumWords(|code|)));
    var l1 := PayRegular(l, SatMul(cfg.keccakWord, NumWords(|code|))).0;
    PayStateSpends(l1, SatMul(cfg.codeDepositState, |code|));
  }

  lemma DepositSpends(l: Local, output: seq<Byte>, cfg: Config)
    requires Settled(l)
    ensures var (r, l', code) := Deposit(l, output, cfg);
            Settled(l') && SameTerms(l, l') && (r.Return? || !IsOkOrRevert(r))
  {
    var price := SatMul(cfg.codeDeposit, |output|);
    var (g, paid) := RecordUnscaled(l.gas, price);
    if paid { DepositStateSpends(Burn(l.(gas := g), price), output, cfg); }
    else { DepositStateSpends(l, [], cfg); }
  }

  lemma CloseAnswers(kind: Kind, r: InstructionResult, output: seq<Byte>, l: Local, w: World, snapshot: World, cfg: Config)
    requires Settled(l)
    ensures var o := Close(kind, r, output, l, w, snapshot, cfg).0;
            && Answers(o, l.ledger.paid, l.gas.limit, l.ledger.given)
            && (kind.CallKind? ==> o.result == r && o.reply == CallReply(false, kind.ret, kind.rawOffset))
            && (kind.CreateKind? ==> o.reply == CreateReply(Some(kind.address)) && (IsOk(o.result) ==> IsOk(r)))
  {
    DepositSpends(l, output, cfg);
  }

  lemma {:induction false} RegularTotalSplit(xs: seq<Charge>, ys: seq<Charge>)
    ensures RegularTotal(xs + ys) == RegularTotal(xs) + RegularTotal(ys)
    decreases |xs|
  {
    if xs == [] { assert xs + ys == ys; }
    else {
      assert (xs + ys)[1..] == xs[1..] + ys;
      RegularTotalSplit(xs[1..], ys);
    }
  }

  /** A call's charges cover its stipend and its return window. */
  lemma CallChargesCover(s: CallSite)
    ensures Stipend(s.call) <= RegularTotal(CallCharges(s))
    ensures RegularTotal(CallCharges(s))
            == RegularTotal(s.before) + RegularTotal(s.after) + if s.call.moves && s.call.value > 0 then 9000 else 0
    ensures forall memory | Covers(CallCharges(s), memory) :: WindowOk(memory, s.call.ret)
  {
    var window := if s.call.ret.len > 0 then [Expand(s.call.ret.start, s.call.ret.len)] else [];
    var value := if Stipend(s.call) > 0 then [Regular(CALL_VALUE)] else [];
    RegularTotalSplit(s.before + window + value, s.after);
    RegularTotalSplit(s.before + window, value);
    RegularTotalSplit(s.before, window);
    assert (window != [] ==> window[1..] == []) && (value != [] ==> value[1..] == []);
    if s.call.ret.len > 0 {
      assert CallCharges(s)[|s.before|] == window[0];
    }
  }

  /** Code between two frame actions keeps the books. */
  ghost predicate PauseOk(l: Local, p: Pause, cfg: Config) {
    match p
    case Returned(r, _, l1, _) => Settled(l1) && SameTerms(l, l1)
    case WantsCall(s, _, _, l1, _) =>
      Waits(l1, s.forward, Stipend(s.call)) && SameTerms(l, l1) && MemoryOk(l1, cfg) && WindowOk(l1.memory, s.call.ret)
    case WantsCreate(s, _, _, l1, _) =>
      Waits(l1, s.forward, 0) && SameTerms(l, l1) && MemoryOk(l1, cfg)
  }

  lemma {:induction false} InterpKeepsBooks(c: Code, l: Local, w: World, cfg: Config)
    requires Settled(l) && MemoryOk(l, cfg)
    ensures PauseOk(l, Interp(c, l, w, cfg), cfg)
    decreases c
  {
    var v := View(l, w);
    match c
    case End(result, _) =>
    case If(test, yes, no) =>
      if test(v) { InterpKeepsBooks(yes, l, w, cfg); } else { InterpKeepsBooks(no, l, w, cfg); }
    case Step(op, next) =>
      OpcodeSpends(op(v).staticGas, op(v).charges, l, cfg);
      var e := ExecOpcode(op(v).staticGas, op(v).charges, l, cfg);
      if e.Ok? {
        InterpKeepsBooks(next, e.local, if op(v).effect.Some? then Apply(op(v).effect.value, w) else w, cfg);
      }
    case Call(site, _, _) =>
      CallChargesCover(site(v));
      ForwardWaits(site(v).staticGas, CallCharges(site(v)), site(v).forward, Stipend(site(v).call), l, cfg);
    case Create(site, _, _) =>
      ForwardWaits(site(v).staticGas, CreateCharges(site(v), cfg), site(v).forward, 0, l, cfg);
  }
}
