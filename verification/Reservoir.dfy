/**
 The EIP-8037 reservoir law: reservoir plus signed state gas spent is what a frame was
 given, plus what its state charges spilled into regular gas, over every call tree.
 */
module Reservoirs {
  import opened Words
  import opened Results
  import opened Energy
  import opened Journals
  import opened Frames
  import opened Machines
  import opened Laws
  import opened Runs

  // ---------------------------------------------------------------------------
  // One merge
  // ---------------------------------------------------------------------------

  /** A failed child that spilled nothing hands back exactly the reservoir it was given, and
      the signed addition that computes it does not saturate. */
  lemma FailedChildHandsBack(l: Local, o: Outcome, limit: U64, cfg: Config)
    requires Answers(o, o.ledger.paid, limit, l.gas.reservoir) && o.ledger.kept && o.ledger.spill == 0
    requires !IsOk(o.result) && !o.result.TronOutOfTime?
    requires o.reply.CallReply? ==> !o.reply.fromPrecompile
    ensures SatAddSigned(o.gas.reservoir, o.gas.stateSpent) == o.gas.reservoir + o.gas.stateSpent == l.gas.reservoir
    ensures var e := Merge(l, o, cfg);
            && e.Ok?
            && (o.reply.CallReply? || !cfg.eip8037 ==>
                  e.local.gas.reservoir == l.gas.reservoir && e.local.gas.stateSpent == l.gas.stateSpent)
            && (o.reply.CreateReply? && cfg.eip8037 ==>
                  e.local.gas.reservoir == SatAdd(l.gas.reservoir, cfg.createState)
                  && e.local.gas.stateSpent == SatSigned(l.gas.stateSpent, -AsI64(cfg.createState)))
  {
  }

  /** A precompile that answers with a failure hands back the caller's reservoir if and only
      if reservoir and state gas in its reply add up to what it was given. */
  lemma PrecompileHandsBack(out: PrecompileOutput, start: Local, c: CallSpec, l: Local)
    requires start.ledger.given == l.gas.reservoir && out.stateGas <= I64_MAX
    requires out.status.Reverted? || out.status.OutOfEnergy? || out.status.Failed?
    ensures SettleState(l, PrecompileOutcome(out, start, c)).gas.reservoir == l.gas.reservoir
            <==> Min(out.reservoir + out.stateGas, U64_MAX) == l.gas.reservoir
  {
  }

  /** The TRON reply to a failed precompile reports no reservoir, so a caller that had one
      loses it. */
  lemma PrecompileDrainsReservoir(start: Local, c: CallSpec, l: Local)
    requires start.ledger.given == l.gas.reservoir > 0
    ensures var out := PrecompileOutput(Reverted, start.gas.limit, 0, 0, 0, [], []);
            SettleState(l, PrecompileOutcome(out, start, c)).gas.reservoir == 0
  {
  }

  // ---------------------------------------------------------------------------
  // Whole call trees
  // ---------------------------------------------------------------------------

  /** What a list of charges may refill, and what it charges to state gas at the least. */
  function RefillTotal(cs: seq<Charge>): nat {
    if cs == [] then 0 else (if cs[0].RefillState? then cs[0].amount else 0) + RefillTotal(cs[1..])
  }

  function StateTotal(cs: seq<Charge>): nat {
    if cs == [] then 0 else (if cs[0].State? then cs[0].cost else 0) + StateTotal(cs[1..])
  }

  /** The precompile accounts for the reservoir it is handed whenever it answers at all. */
  ghost predicate Honest(body: PrecompileInput -> PrecompileOutput) {
    forall i :: var out := body(i); out.status.Threw? || out.status.TimedOut? || out.reservoir + out.stateGas == i.reservoir
  }

  /** Code in which no opcode refills more than `q` and every precompile accounts for state gas. */
  ghost predicate Tame(c: Code, q: nat) {
    match c
    case End(_, _) => true
    case Step(op, next) => (forall v :: RefillTotal(op(v).charges) <= q) && Tame(next, q)
    case If(_, yes, no) => Tame(yes, q) && Tame(no, q)
    case Call(site, callee, next) =>
      (forall v :: RefillTotal(CallCharges(site(v))) <= q) && TameCallee(callee, q) && Tame(next, q)
    case Create(site, init, next) =>
      (forall v :: RefillTotal(site(v).charges) <= q) && Tame(init, q) && Tame(next, q)
  }

  ghost predicate TameCallee(callee: Callee, q: nat) {
    match callee
    case Precompile(body) => Honest(body)
    case EmptyAccount => true
    case Contract(code) => Tame(code, q)
  }

  /** The most that code and all its callees can refill, at `q` an opcode. */
  function Budget(c: Code, q: nat): nat {
    match c
    case End(_, _) => 0
    case Step(_, next) => q + Budget(next, q)
    case If(_, yes, no) => Max(Budget(yes, q), Budget(no, q))
    case Call(_, callee, next) => q + CalleeBudget(callee, q) + Budget(next, q)
    case Create(_, init, next) => q + Budget(init, q) + Budget(next, q)
  }

  function CalleeBudget(callee: Callee, q: nat): nat { if callee.Contract? then Budget(callee.code, q) else 0 }

  /** With `more` yet to be refilled, the frame stays inside the signed range. */
  ghost predicate Room(l: Local, more: nat) { l.ledger.given + l.gas.limit + more <= I64_MAX }

  /** The books are in order, nothing has left the signed range, and state gas spent, which
      may be negative, has gone down by no more than the `u` that may have been refilled. */
  ghost predicate Steady(l: Local, u: nat) { Settled(l) && l.ledger.kept && l.gas.stateSpent + u >= 0 }

  lemma ChargeSteady(c: Charge, l: Local, u: nat, cfg: Config)
    requires Steady(l, u) && MemoryOk(l, cfg) && Room(l, u + RefillTotal([c]))
    ensures var e := ExecCharge(c, l, cfg);
            && e.local.ledger.kept
            && e.local.gas.stateSpent + RefillTotal([c]) >= l.gas.stateSpent + (if e.Ok? then StateTotal([c]) else 0)
  {
    assert [c][1..] == [];
    match c
    case Regular(cost) => ChargeCovers(l.gas, cost);
    case State(cost) => ChargeCovers(l.gas, cost);
    case RefillState(_) =>
    case Refund(_) =>
    case Expand(offset, len) =>
      var words := NumWords(SatAdd(offset, len));
      var cost := MemoryCost(cfg, words);
      ChargeCovers(l.gas.(words := words, memCost := cost), SatSub(cost, l.gas.memCost));
  }

  lemma TotalsUnfold(cs: seq<Charge>)
    requires cs != []
    ensures RefillTotal(cs) == RefillTotal([cs[0]]) + RefillTotal(cs[1..])
    ensures StateTotal(cs) == StateTotal([cs[0]]) + StateTotal(cs[1..])
  {
    assert [cs[0]][1..] == [];
  }

  lemma {:induction false} ChargesSteady(cs: seq<Charge>, l: Local, u: nat, cfg: Config)
    requires Steady(l, u) && MemoryOk(l, cfg) && Room(l, u + RefillTotal(cs))
    ensures var e := ExecCharges(cs, l, cfg);
            && e.local.ledger.kept
            && e.local.gas.stateSpent + RefillTotal(cs) >= l.gas.stateSpent + (if e.Ok? then StateTotal(cs) else 0)
    decreases |cs|
  {
    if cs != [] {
      TotalsUnfold(cs);
      ChargeSteady(cs[0], l, u, cfg);
      ChargeSpends(cs[0], l, cfg);
      var e := ExecCharge(cs[0], l, cfg);
      if e.Ok? { ChargesSteady(cs[1..], e.local, u + RefillTotal([cs[0]]), cfg); }
    }
  }

  lemma OpcodeSteady(staticGas: U64, cs: seq<Charge>, l: Local, u: nat, cfg: Config)
    requires Steady(l, u) && MemoryOk(l, cfg) && Room(l, u + RefillTotal(cs))
    ensures var e := ExecOpcode(staticGas, cs, l, cfg);
            && HaltWith(e.local, if e.Halt? then e.result else Stop).ledger.kept
            && e.local.gas.stateSpent + RefillTotal(cs) >= l.gas.stateSpent + (if e.Ok? then StateTotal(cs) else 0)
  {
    var g0 := OpBoundary(l.gas);
    ChargeCovers(g0, staticGas);
    var effective := TronCharge(g0, staticGas).1;
    var (g, oog) := RecordUnsafe(g0, staticGas);
    if !oog {
      ChargesSteady(cs, Burn(l.(gas := g), effective), u, cfg);
    }
  }

  /** What a paused frame and its child may refill from now on. */
  function Ahead(p: Pause, q: nat): nat {
    match p
    case Returned(_, _, _, _) => 0
    case WantsCall(_, callee, next, _, _) => CalleeBudget(callee, q) + Budget(next, q)
    case WantsCreate(_, init, next, _, _) => Budget(init, q) + Budget(next, q)
  }

  /** A paused frame that is steady within the `total` it and its descendants may refill, and
      whose continuation and child are tame. */
  ghost predicate SteadyPause(p: Pause, total: nat, q: nat, cfg: Config) {
    && p.local.ledger.kept && Ahead(p, q) <= total && p.local.gas.stateSpent + total - Ahead(p, q) >= 0
    && (p.WantsCall? ==> Tame(p.next, q) && TameCallee(p.callee, q))
    && (p.WantsCreate? ==>
          && Tame(p.next, q) && Tame(p.init, q)
          && (cfg.eip8037 ==> p.local.gas.stateSpent + total - Ahead(p, q) >= cfg.createState))
  }

  lemma {:induction false} TotalsSplit(xs: seq<Charge>, ys: seq<Charge>)
    ensures RefillTotal(xs + ys) == RefillTotal(xs) + RefillTotal(ys)
    ensures StateTotal(xs + ys) == StateTotal(xs) + StateTotal(ys)
    decreases |xs|
  {
    if xs == [] { assert xs + ys == ys; }
    else {
      assert (xs + ys)[1..] == xs[1..] + ys;
      TotalsSplit(xs[1..], ys);
    }
  }

  lemma CreateTotals(s: CreateSite, cfg: Config)
    ensures RefillTotal(CreateCharges(s, cfg)) == RefillTotal(s.charges)
    ensures cfg.eip8037 ==> StateTotal(CreateCharges(s, cfg)) >= cfg.createState
  {
    TotalsSplit(s.charges, if cfg.eip8037 then [State(cfg.createState)] else []);
  }

  lemma WiderPause(p: Pause, total: nat, more: nat, q: nat, cfg: Config)
    requires SteadyPause(p, total, q, cfg) && total <= more
    ensures SteadyPause(p, more, q, cfg)
  {
  }

  lemma CallPauseSteady(s: CallSite, callee: Callee, next: Code, l: Local, u: nat, w: World, q: nat, cfg: Config)
    requires RefillTotal(CallCharges(s)) <= q && TameCallee(callee, q) && Tame(next, q)
    requires Steady(l, u) && MemoryOk(l, cfg) && Room(l, u + q)
    ensures var total := u + q + CalleeBudget(callee, q) + Budget(next, q);
            var e := ExecForward(s.staticGas, CallCharges(s), s.forward, l, cfg);
            if e.Halt? then SteadyPause(Returned(e.result, [], HaltWith(e.local, e.result), w), total, q, cfg)
            else SteadyPause(WantsCall(s, callee, next, e.local, w), total, q, cfg)
  {
    OpcodeSteady(s.staticGas, CallCharges(s), l, u, cfg);
  }

  lemma CreatePauseSteady(s: CreateSite, init: Code, next: Code, l: Local, u: nat, w: World, q: nat, cfg: Config)
    requires RefillTotal(s.charges) <= q && Tame(init, q) && Tame(next, q)
    requires Steady(l, u) && MemoryOk(l, cfg) && Room(l, u + q)
    ensures var total := u + q + Budget(init, q) + Budget(next, q);
            var e := ExecForward(s.staticGas, CreateCharges(s, cfg), s.forward, l, cfg);
            if e.Halt? then SteadyPause(Returned(e.result, [], HaltWith(e.local, e.result), w), total, q, cfg)
            else SteadyPause(WantsCreate(s, init, next, e.local, w), total, q, cfg)
  {
    CreateTotals(s, cfg);
    OpcodeSteady(s.staticGas, CreateCharges(s, cfg), l, u, cfg);
  }

  lemma StepSteady(op: Opcode, l: Local, u: nat, w: World, q: nat, cfg: Config)
    requires RefillTotal(op.charges) <= q && Steady(l, u) && MemoryOk(l, cfg) && Room(l, u + q)
    ensures var e := ExecOpcode(op.staticGas, op.charges, l, cfg);
            if e.Halt? then SteadyPause(Returned(e.result, [], HaltWith(e.local, e.result), w), u + q, q, cfg)
            else Steady(e.local, u + q) && MemoryOk(e.local, cfg) && SameTerms(l, e.local)
  {
    OpcodeSteady(op.staticGas, op.charges, l, u, cfg);
    OpcodeSpends(op.staticGas, op.charges, l, cfg);
  }

  lemma {:induction false} InterpSteady(c: Code, l: Local, u: nat, w: World, q: nat, cfg: Config)
    requires Tame(c, q) && Steady(l, u) && MemoryOk(l, cfg) && Room(l, u + Budget(c, q))
    ensures SteadyPause(Interp(c, l, w, cfg), u + Budget(c, q), q, cfg)
    decreases c
  {
    var v := View(l, w);
    match c
    case End(result, _) =>
    case If(test, yes, no) =>
      var taken := if test(v) then yes else no;
      InterpSteady(taken, l, u, w, q, cfg);
      WiderPause(Interp(taken, l, w, cfg), u + Budget(taken, q), u + Budget(c, q), q, cfg);
    case Step(op, next) =>
      StepSteady(op(v), l, u, w, q, cfg);
      match ExecOpcode(op(v).staticGas, op(v).charges, l, cfg) {
        case Halt(l1, r) => WiderPause(Returned(r, [], HaltWith(l1, r), w), u + q, u + Budget(c, q), q, cfg);
        case Ok(l1) =>
          InterpSteady(next, l1, u + q, if op(v).effect.Some? then Apply(op(v).effect.value, w) else w, q, cfg);
      }
    case Call(site, callee, next) => CallPauseSteady(site(v), callee, next, l, u, w, q, cfg);
    case Create(site, init, next) => CreatePauseSteady(site(v), init, next, l, u, w, q, cfg);
  }

  /** A child's outcome that keeps the law, having refilled `b` at the most. */
  ghost predicate SteadyOutcome(o: Outcome, b: nat) { o.ledger.kept && o.gas.stateSpent + b >= 0 }

  /** A child is opened within the signed range of its parent. */
  lemma StartSteady(l: Local, used: nat, more: nat, forward: U64, stipend: nat, factor: Factor)
    requires Waits(l, forward, stipend) && l.ledger.kept && l.gas.stateSpent + used >= 0 && Room(l, used + more)
    ensures forward + stipend <= U64_MAX
    ensures var start := Start(forward, SatAdd(forward, stipend), l.gas.reservoir, factor);
            Steady(start, 0) && Room(start, more)
  {
  }

  /** What may answer a tame parent: an outcome that keeps the law, or an exception that
      kills the parent. */
  ghost predicate MayAnswer(o: Outcome, b: nat) {
    SteadyOutcome(o, b) || o.result.TronOutOfTime?
    || (o.reply.CallReply? && o.reply.fromPrecompile && o.result.PrecompileThrow?)
  }

  lemma OpenCallSteady(c: CallSpec, callee: Callee, start: Local, depth: nat, w: World, nonce: nat, q: nat, cfg: Config)
    requires Steady(start, 0) && start.gas.remaining == start.gas.limit && start.gas.stateSpent == 0
    requires start.gas.reservoir == start.ledger.given && start.ledger.spill == 0
    requires TameCallee(callee, q)
    ensures var o := OpenCall(c, callee, start, depth, w, nonce, cfg);
            if o.Inline? then MayAnswer(o.outcome, 0) else o.local == start && Tame(o.code, q)
  {
    if callee.Precompile? && AdmitCall(c, depth, w, cfg).Admitted? {
      var i := PrecompileInput(start.gas.limit, start.gas.reservoir, AdmitCall(c, depth, w, cfg).world);
      var out := callee.body(i);
      assert out.status.Threw? || out.status.TimedOut? || out.reservoir + out.stateGas == i.reservoir;
    }
  }

  lemma OpenCreateSteady(c: CreateSpec, init: Code, start: Local, depth: nat, w: World, nonce: nat, cfg: Config)
    requires Steady(start, 0)
    ensures var o := OpenCreate(c, init, start, depth, w, nonce, cfg);
            if o.Inline? then SteadyOutcome(o.outcome, 0) else o.local == start && o.code == init && o.kind.CreateKind?
  {
  }

  lemma RegularSteady(l: Local, u: nat, cost: U64)
    requires Steady(l, u)
    ensures Steady(PayRegular(l, cost).0, u)
  {
    ChargeCovers(l.gas, cost);
  }

  lemma StateSteady(l: Local, u: nat, cost: U64)
    requires Steady(l, u)
    ensures Steady(PayState(l, cost).0, u)
  {
    ChargeCovers(l.gas, cost);
  }

  lemma DepositSteady(l: Local, u: nat, output: seq<Byte>, cfg: Config)
    requires Steady(l, u)
    ensures Steady(Deposit(l, output, cfg).1, u)
  {
    var price := SatMul(cfg.codeDeposit, |output|);
    var (g, paid) := RecordUnscaled(l.gas, price);
    var (l1, code) := if paid then (Burn(l.(gas := g), price), output) else (l, []);
    RegularSteady(l1, u, SatMul(cfg.keccakWord, NumWords(|code|)));
    StateSteady(PayRegular(l1, SatMul(cfg.keccakWord, NumWords(|code|))).0, u, SatMul(cfg.codeDepositState, |code|));
  }

  lemma CloseSteady(kind: Kind, r: Ran, u: nat, snap: World, cfg: Config)
    requires Steady(r.local, u)
    ensures SteadyOutcome(Closed(kind, r, snap, cfg).outcome, u)
  {
    DepositSteady(r.local, u, r.output, cfg);
  }

  /** A frame that waits, having refilled `used` at the most, for a child that refills `b`. */
  ghost predicate WaitsSteadily(l: Local, used: nat, b: nat) {
    l.ledger.kept && l.gas.stateSpent + used >= 0 && Room(l, used + b)
  }

  lemma SettleSteady(l: Local, o: Outcome, limit: U64, used: nat, b: nat)
    requires o.ledger.paid <= limit && Waits(l, o.ledger.paid, limit - o.ledger.paid)
    requires Answers(o, o.ledger.paid, limit, l.gas.reservoir)
    requires WaitsSteadily(l, used, b) && SteadyOutcome(o, b)
    ensures var l1 := SettleState(SettleRegular(l, o), o);
            l1.ledger.kept && l1.gas.stateSpent + (if IsOk(o.result) then b else 0) >= l.gas.stateSpent
  {
  }

  lemma MergeCallSteady(l: Local, o: Outcome, limit: U64, used: nat, b: nat, cfg: Config)
    requires o.ledger.paid <= limit && Waits(l, o.ledger.paid, limit - o.ledger.paid)
    requires Answers(o, o.ledger.paid, limit, l.gas.reservoir) && MemoryOk(l, cfg)
    requires o.reply.CallReply? && WindowOk(l.memory, o.reply.ret)
    requires WaitsSteadily(l, used, b) && MayAnswer(o, b)
    ensures var e := MergeCall(l, o, cfg); e.local.ledger.kept && e.local.gas.stateSpent + used + b >= 0
  {
    if SteadyOutcome(o, b) {
      var l1 := SettleRegular(l.(returnData := o.output, stack := l.stack + [if IsOk(o.result) then 1 else 0]), o);
      WriteReturnFits(l1, o, cfg);
      SettleSteady(l, o, limit, used, b);
    }
  }

  lemma MergeCreateSteady(l: Local, o: Outcome, limit: U64, used: nat, b: nat, cfg: Config)
    requires o.ledger.paid <= limit && Waits(l, o.ledger.paid, limit - o.ledger.paid)
    requires Answers(o, o.ledger.paid, limit, l.gas.reservoir) && o.reply.CreateReply?
    requires WaitsSteadily(l, used, b) && MayAnswer(o, b)
    requires cfg.eip8037 ==> l.gas.stateSpent + used >= cfg.createState
    ensures var e := MergeCreate(l, o, cfg); e.local.ledger.kept && e.local.gas.stateSpent + used + b >= 0
  {
    if SteadyOutcome(o, b) {
      var l0 := l.(returnData := if o.result.Revert? then o.output else []);
      SettleSteady(l0, o, limit, used, b);
      SettleKeepsBooks(l0, o, limit);
    }
  }

  lemma MergeSteady(l: Local, o: Outcome, limit: U64, used: nat, b: nat, cfg: Config)
    requires o.ledger.paid <= limit && Waits(l, o.ledger.paid, limit - o.ledger.paid)
    requires Answers(o, o.ledger.paid, limit, l.gas.reservoir) && MemoryOk(l, cfg)
    requires o.reply.CallReply? ==> WindowOk(l.memory, o.reply.ret)
    requires WaitsSteadily(l, used, b) && MayAnswer(o, b)
    requires o.reply.CreateReply? && cfg.eip8037 ==> l.gas.stateSpent + used >= cfg.createState
    ensures var e := Merge(l, o, cfg); e.local.ledger.kept && e.local.gas.stateSpent + used + b >= 0
  {
    if o.reply.CallReply? { MergeCallSteady(l, o, limit, used, b, cfg); }
    else { MergeCreateSteady(l, o, limit, used, b, cfg); }
  }

  /** `o` answers the request that `l` waits with, and keeps the law. */
  ghost predicate AnswersSteadily(l: Local, o: Outcome, used: nat, b: nat, cfg: Config) {
    && o.ledger.paid <= o.gas.limit && Waits(l, o.ledger.paid, o.gas.limit - o.ledger.paid)
    && Answers(o, o.ledger.paid, o.gas.limit, l.gas.reservoir)
    && (o.reply.CallReply? ==> WindowOk(l.memory, o.reply.ret))
    && (o.reply.CallReply? && o.reply.fromPrecompile ==> o.ledger.spill == 0)
    && (o.reply.CreateReply? && cfg.eip8037 ==> l.gas.stateSpent + used >= cfg.createState)
    && MayAnswer(o, b)
  }

  /** What a request of a steady, tame frame leads to. */
  ghost predicate OpensSteadily(p: Pause, o: Opened, used: nat, b: nat, q: nat, cfg: Config)
    requires !p.Returned?
  {
    if o.Inline? then AnswersSteadily(p.local, o.outcome, used, b, cfg)
    else
      && Steady(o.local, 0) && Room(o.local, b) && MemoryOk(o.local, cfg)
      && Tame(o.code, q) && Budget(o.code, q) == b && o.kind.CreateKind? == p.WantsCreate?
      && o.local.ledger.paid <= o.local.gas.limit
      && Waits(p.local, o.local.ledger.paid, o.local.gas.limit - o.local.ledger.paid)
      && o.local.ledger.given == p.local.gas.reservoir
      && (o.kind.CallKind? ==> WindowOk(p.local.memory, o.kind.ret))
  }

  /** What the child of a paused frame may refill, and what the frame may have refilled so far. */
  function ChildBudget(p: Pause, q: nat): nat
    requires !p.Returned?
  {
    if p.WantsCall? then CalleeBudget(p.callee, q) else Budget(p.init, q)
  }

  lemma CallSteady(l: Local, p: Pause, total: nat, depth: nat, nonce: nat, q: nat, cfg: Config)
    requires p.WantsCall? && PauseOk(l, p, cfg) && SteadyPause(p, total, q, cfg) && Room(l, total)
    ensures OpensSteadily(p, Request(p, depth, nonce, cfg), total - Ahead(p, q), ChildBudget(p, q), q, cfg)
  {
    var s := p.callSite;
    StartSteady(p.local, total - Ahead(p, q), ChildBudget(p, q), s.forward, Stipend(s.call), s.call.factor);
    var start := Start(s.forward, SatAdd(s.forward, Stipend(s.call)), p.local.gas.reservoir, s.call.factor);
    OpenCallSteady(s.call, p.callee, start, depth + 1, p.world, nonce, q, cfg);
    OpenCallAnswers(s.call, p.callee, start, depth + 1, p.world, nonce, cfg);
  }

  /** A create that is answered at once, or pushed with `start`. */
  lemma CreateOpensSteadily(p: Pause, o: Opened, start: Local, used: nat, b: nat, q: nat, cfg: Config)
    requires p.WantsCreate? && Waits(p.local, start.ledger.paid, 0) && start.ledger.paid == start.gas.limit
    requires start.ledger.given == p.local.gas.reservoir && Steady(start, 0) && Room(start, b) && MemoryOk(start, cfg)
    requires Tame(p.init, q) && b == Budget(p.init, q)
    requires cfg.eip8037 ==> p.local.gas.stateSpent + used >= cfg.createState
    requires if o.Inline?
             then SteadyOutcome(o.outcome, 0) && o.outcome.reply.CreateReply?
                  && Answers(o.outcome, start.ledger.paid, start.gas.limit, start.ledger.given)
             else o.local == start && o.code == p.init && o.kind.CreateKind?
    ensures OpensSteadily(p, o, used, b, q, cfg)
  {
  }

  lemma CreateSteady(l: Local, p: Pause, total: nat, depth: nat, nonce: nat, q: nat, cfg: Config)
    requires p.WantsCreate? && PauseOk(l, p, cfg) && SteadyPause(p, total, q, cfg) && Room(l, total)
    ensures OpensSteadily(p, Request(p, depth, nonce, cfg), total - Ahead(p, q), ChildBudget(p, q), q, cfg)
  {
    var s := p.createSite;
    StartSteady(p.local, total - Ahead(p, q), ChildBudget(p, q), s.forward, 0, 0);
    assert SatAdd(s.forward, 0) == s.forward;
    var start := Start(s.forward, s.forward, p.local.gas.reservoir, 0);
    OpenCreateSteady(s.create, p.init, start, depth + 1, p.world, nonce, cfg);
    OpenCreateAnswers(s.create, p.init, start, depth + 1, p.world, nonce, cfg);
    CreateOpensSteadily(p, OpenCreate(s.create, p.init, start, depth + 1, p.world, nonce, cfg), start,
                        total - Ahead(p, q), ChildBudget(p, q), q, cfg);
  }

  lemma RequestSteady(l: Local, p: Pause, total: nat, depth: nat, nonce: nat, q: nat, cfg: Config)
    requires !p.Returned? && PauseOk(l, p, cfg) && SteadyPause(p, total, q, cfg) && Room(l, total)
    ensures OpensSteadily(p, Request(p, depth, nonce, cfg), total - Ahead(p, q), ChildBudget(p, q), q, cfg)
  {
    if p.WantsCall? { CallSteady(l, p, total, depth, nonce, q, cfg); }
    else { CreateSteady(l, p, total, depth, nonce, q, cfg); }
  }

  lemma ClosedSteadily(p: Pause, o: Opened, r: Ran, total: nat, used: nat, b: nat, q: nat, cfg: Config)
    requires !p.Returned? && SteadyPause(p, total, q, cfg) && used == total - Ahead(p, q)
    requires o.Pushed? && OpensSteadily(p, o, used, b, q, cfg)
    requires Steady(r.local, b) && SameTerms(o.local, r.local)
    ensures AnswersSteadily(p.local, Closed(o.kind, r, o.snapshot, cfg).outcome, used, b, cfg)
  {
    CloseSteady(o.kind, r, b, o.snapshot, cfg);
    CloseAnswers(o.kind, r.result, r.output, r.local, r.world, o.snapshot, cfg);
  }

  lemma MergedSteadily(l: Local, p: Pause, o: Outcome, used: nat, b: nat, cfg: Config)
    requires !p.Returned? && PauseOk(l, p, cfg) && WaitsSteadily(p.local, used, b)
    requires AnswersSteadily(p.local, o, used, b, cfg)
    ensures var e := Merge(p.local, o, cfg);
            Steady(e.local, used + b) && SameTerms(l, e.local) && (e.Ok? ==> MemoryOk(e.local, cfg))
  {
    MergeKeepsBooks(p.local, o, o.gas.limit, cfg);
    MergeSteady(p.local, o, o.gas.limit, used, b, cfg);
  }

  /** What a paused frame runs to: its child is evaluated and merged, and it goes on. */
  function GoesOn(p: Pause, depth: nat, nonce: nat, cfg: Config): Ran
    requires !p.Returned?
  {
    var child := Evaluate(Request(p, depth, nonce, cfg), depth + 1, cfg);
    var e := Merge(p.local, child.outcome, cfg);
    if e.Halt? then Ran(e.result, [], e.local, child.world, child.nonce)
    else Run(p.next, e.local, depth, child.world, child.nonce, cfg)
  }

  lemma RunUnfolds(c: Code, l: Local, depth: nat, w: World, nonce: nat, cfg: Config)
    ensures var p := Interp(c, l, w, cfg);
            Run(c, l, depth, w, nonce, cfg)
            == if p.Returned? then Ran(p.result, p.output, p.local, p.world, nonce) else GoesOn(p, depth, nonce, cfg)
  {
  }

  function PauseSize(p: Pause): nat {
    match p
    case Returned(_, _, _, _) => 0
    case WantsCall(_, callee, next, _, _) => Size(next) + if callee.Contract? then Size(callee.code) else 0
    case WantsCreate(_, init, next, _, _) => Size(next) + Size(init)
  }

  /** The child a tame frame waits for answers it steadily, whatever its own tree does. */
  lemma ChildSteady(l: Local, p: Pause, total: nat, depth: nat, nonce: nat, q: nat, cfg: Config) returns (child: Final)
    requires !p.Returned? && PauseOk(l, p, cfg) && SteadyPause(p, total, q, cfg) && Room(l, total)
    ensures child == Evaluate(Request(p, depth, nonce, cfg), depth + 1, cfg)
    ensures AnswersSteadily(p.local, child.outcome, total - Ahead(p, q), ChildBudget(p, q), cfg)
    decreases PauseSize(p), 1
  {
    var o := Request(p, depth, nonce, cfg);
    RequestSteady(l, p, total, depth, nonce, q, cfg);
    child := Evaluate(o, depth + 1, cfg);
    if o.Pushed? {
      RunSteady(o.code, o.local, 0, depth + 1, o.world, o.nonce, q, cfg);
      ClosedSteadily(p, o, Run(o.code, o.local, depth + 1, o.world, o.nonce, cfg), total, total - Ahead(p, q),
                     ChildBudget(p, q), q, cfg);
    }
  }

  lemma ResumeSteady(l: Local, p: Pause, child: Final, total: nat, q: nat, cfg: Config) returns (left: nat)
    requires !p.Returned? && PauseOk(l, p, cfg) && SteadyPause(p, total, q, cfg) && Room(l, total)
    requires AnswersSteadily(p.local, child.outcome, total - Ahead(p, q), ChildBudget(p, q), cfg)
    ensures left + Budget(p.next, q) == total
    ensures var e := Merge(p.local, child.outcome, cfg);
            && SameTerms(l, e.local) && Steady(e.local, left)
            && (e.Ok? ==> MemoryOk(e.local, cfg) && Tame(p.next, q))
  {
    left := total - Budget(p.next, q);
    MergedSteadily(l, p, child.outcome, total - Ahead(p, q), ChildBudget(p, q), cfg);
  }

  lemma GoesOnSteadily(l: Local, p: Pause, total: nat, depth: nat, nonce: nat, q: nat, cfg: Config)
    requires !p.Returned? && PauseOk(l, p, cfg) && SteadyPause(p, total, q, cfg) && Room(l, total)
    ensures var r := GoesOn(p, depth, nonce, cfg); Steady(r.local, total) && SameTerms(l, r.local)
    decreases PauseSize(p), 2
  {
    var child := ChildSteady(l, p, total, depth, nonce, q, cfg);
    var left := ResumeSteady(l, p, child, total, q, cfg);
    var e := Merge(p.local, child.outcome, cfg);
    if e.Ok? { RunSteady(p.next, e.local, left, depth, child.world, child.nonce, q, cfg); }
  }

  /** Over every call tree of tame code: the law holds in the end, and state gas spent has
      gone down by no more than what the tree may refill. */
  lemma {:induction false} RunSteady(c: Code, l: Local, u: nat, depth: nat, w: World, nonce: nat, q: nat, cfg: Config)
    requires Tame(c, q) && Steady(l, u) && MemoryOk(l, cfg) && Room(l, u + Budget(c, q))
    ensures var r := Run(c, l, depth, w, nonce, cfg); Steady(r.local, u + Budget(c, q)) && SameTerms(l, r.local)
    decreases Size(c), 0
  {
    InterpSteady(c, l, u, w, q, cfg);
    InterpKeepsBooks(c, l, w, cfg);
    RunUnfolds(c, l, depth, w, nonce, cfg);
    var p := Interp(c, l, w, cfg);
    if !p.Returned? { GoesOnSteadily(l, p, u + Budget(c, q), depth, nonce, q, cfg); }
  }

  // ---------------------------------------------------------------------------
  // The law
  // ---------------------------------------------------------------------------

  /** The reservoir law for a transaction. With a tame root frame that starts far enough
      inside the signed range for all it may refill, reservoir and state gas spent, which may
      be negative, add up to the reservoir it was given and what was spilled, and the spill
      came out of its regular gas. */
  lemma ReservoirLaw(o: Opened, limit: U64, reservoir: U64, factor: Factor, q: nat, cfg: Config)
    requires o.Pushed? && o.local == Start(limit, limit, reservoir, factor) && Tame(o.code, q)
    requires limit + reservoir + Budget(o.code, q) <= I64_MAX
    ensures var done := Evaluate(o, 0, cfg).outcome;
            && done.ledger.kept
            && done.gas.reservoir + done.gas.stateSpent == reservoir + done.ledger.spill
            && 0 <= done.gas.stateSpent + Budget(o.code, q) && done.gas.remaining + done.ledger.spill <= limit
  {
    RunSteady(o.code, o.local, 0, 0, o.world, o.nonce, q, cfg);
    var r := Run(o.code, o.local, 0, o.world, o.nonce, cfg);
    CloseSteady(o.kind, r, Budget(o.code, q), o.snapshot, cfg);
    CloseAnswers(o.kind, r.result, r.output, r.local, r.world, o.snapshot, cfg);
  }

  /** So in every tame tree, a child that fails without having spilled hands back exactly the
      reservoir it was given, whatever it and its descendants charged and refilled, and the
      signed addition does not saturate. */
  lemma FailedTreeHandsBack(l: Local, p: Pause, total: nat, depth: nat, nonce: nat, q: nat, cfg: Config)
    requires !p.Returned? && PauseOk(l, p, cfg) && SteadyPause(p, total, q, cfg) && Room(l, total)
    requires var o := Evaluate(Request(p, depth, nonce, cfg), depth + 1, cfg).outcome;
             && !IsOk(o.result) && !o.result.TronOutOfTime? && o.ledger.spill == 0
             && !(o.reply.CallReply? && o.reply.fromPrecompile && o.result.PrecompileThrow?)
    ensures var o := Evaluate(Request(p, depth, nonce, cfg), depth + 1, cfg).outcome;
            && SatAddSigned(o.gas.reservoir, o.gas.stateSpent) == o.gas.reservoir + o.gas.stateSpent
            && o.gas.reservoir + o.gas.stateSpent == p.local.gas.reservoir
  {
    var child := ChildSteady(l, p, total, depth, nonce, q, cfg);
  }

  // ---------------------------------------------------------------------------
  // A charge that is never given back
  // ---------------------------------------------------------------------------

  lemma {:induction false} StateTotalCovers(cs: seq<Charge>, n: U64)
    requires State(n) in cs
    ensures StateTotal(cs) >= n
    decreases |cs|
  {
    if cs[0] != State(n) { StateTotalCovers(cs[1..], n); }
  }

  /** State gas that a call charges in front of its child, such as that for a new account, stays
      spent when the child fails: merging the failure leaves the caller's count as it was. */
  lemma StateChargeStays(s: CallSite, n: U64, l: Local, u: nat, o: Outcome, cfg: Config)
    requires Steady(l, u) && MemoryOk(l, cfg) && Room(l, u + RefillTotal(CallCharges(s))) && State(n) in CallCharges(s)
    requires ExecForward(s.staticGas, CallCharges(s), s.forward, l, cfg).Ok?
    requires o.reply.CallReply? && !o.reply.fromPrecompile && !IsOk(o.result) && !o.result.TronOutOfTime?
    ensures var waiting := ExecForward(s.staticGas, CallCharges(s), s.forward, l, cfg).local;
            var e := Merge(waiting, o, cfg);
            && e.Ok? && e.local.gas.stateSpent == waiting.gas.stateSpent
            && e.local.gas.stateSpent + RefillTotal(CallCharges(s)) >= l.gas.stateSpent + n
  {
    OpcodeSteady(s.staticGas, CallCharges(s), l, u, cfg);
    StateTotalCovers(CallCharges(s), n);
  }
}
