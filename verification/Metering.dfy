/**
 State gas against storage. Code is metered if whatever it refills undoes a charge: for each
 opcode, refills and growth of storage are paid for by state charges. SSTORE is. A successful
 run of metered code has then spent at least what the storage it has added is worth, so that
 a transaction never ends with a negative count.
 */
module Metering {
  import opened Words
  import opened Results
  import opened Energy
  import opened Journals
  import opened Frames
  import opened Machines
  import opened Laws
  import opened Runs
  import opened Reservoirs

  // ---------------------------------------------------------------------------
  // What added storage is worth
  // ---------------------------------------------------------------------------

  /** A transaction's tariff: the storage it started from, and the state gas for one new slot. */
  datatype Tariff = Tariff(base: Slots, price: U64)

  /** Storage slots that were zero when the transaction started, and are not now. */
  function Added(m: Slots, base: Slots): set<Slot> { set s | s in m && s.Storage? && s !in base }

  function Worth(m: Slots, t: Tariff): nat { |Added(m, t.base)| * t.price }

  lemma WorthOfBase(t: Tariff)
    ensures Worth(t.base, t) == 0
  {
    assert Added(t.base, t.base) == {};
  }

  ghost predicate SameStorage(m: Slots, n: Slots) { forall s: Slot | s.Storage? :: Get(m, s) == Get(n, s) }

  lemma SameWorth(m: Slots, n: Slots, t: Tariff)
    requires SameStorage(m, n)
    ensures Worth(m, t) == Worth(n, t)
  {
    forall s: Slot | s.Storage? ensures s in m <==> s in n { assert Get(m, s) == Get(n, s); }
    assert Added(m, t.base) == Added(n, t.base);
  }

  /** A slot appears in, or goes from, what has been added. */
  predicate Appears(m: Slots, s: Slot, value: nat, base: Slots) { Get(base, s) == 0 && Get(m, s) == 0 && value != 0 }

  predicate Goes(m: Slots, s: Slot, value: nat, base: Slots) { Get(base, s) == 0 && Get(m, s) != 0 && value == 0 }

  lemma AddedPut(m: Slots, s: Slot, value: nat, base: Slots)
    requires s.Storage?
    ensures |Added(Put(m, s, value), base)|
            == |Added(m, base)| + (if Appears(m, s, value, base) then 1 else 0) - (if Goes(m, s, value, base) then 1 else 0)
  {
    var before, after := Added(m, base), Added(Put(m, s, value), base);
    if Appears(m, s, value, base) {
      assert after == before + {s} && s !in before;
    } else if Goes(m, s, value, base) {
      assert before == after + {s} && s !in after;
    } else {
      assert after == before;
    }
  }

  lemma OneMore(n: nat, price: nat)
    ensures (n + 1) * price == n * price + price
  {
  }

  /** Writing a slot changes the worth by the price of one slot, if it appears or goes. */
  lemma WorthPut(m: Slots, s: Slot, value: nat, t: Tariff)
    requires s.Storage?
    ensures Worth(Put(m, s, value), t) + (if Goes(m, s, value, t.base) then t.price else 0)
            == Worth(m, t) + (if Appears(m, s, value, t.base) then t.price else 0)
  {
    AddedPut(m, s, value, t.base);
    OneMore(|Added(m, t.base)|, t.price);
    OneMore(|Added(Put(m, s, value), t.base)|, t.price);
  }

  // ---------------------------------------------------------------------------
  // Metered code
  // ---------------------------------------------------------------------------

  function Effect(op: Opcode, w: World): World { if op.effect.Some? then Apply(op.effect.value, w) else w }

  ghost predicate MeteredOpcode(op: Opcode, w: World, t: Tariff) {
    RefillTotal(op.charges) + Worth(Effect(op, w).slots, t) <= StateTotal(op.charges) + Worth(w.slots, t)
  }

  ghost predicate MeteredSite(cs: seq<Charge>) { RefillTotal(cs) <= StateTotal(cs) }

  ghost predicate Metered(c: Code, t: Tariff) {
    match c
    case End(_, _) => true
    case Step(op, next) => (forall v :: MeteredOpcode(op(v), v.world, t)) && Metered(next, t)
    case If(_, yes, no) => Metered(yes, t) && Metered(no, t)
    case Call(site, callee, next) =>
      (forall v :: MeteredSite(CallCharges(site(v)))) && MeteredCallee(callee, t) && Metered(next, t)
    case Create(site, init, next) =>
      (forall v :: MeteredSite(site(v).charges)) && Metered(init, t) && Metered(next, t)
  }

  /** A precompile that succeeds reports the state gas for the storage it adds. */
  ghost predicate MeteredCallee(callee: Callee, t: Tariff) {
    match callee
    case Precompile(body) => forall i ::
      var out := body(i);
      out.status.Success? ==> Worth(ApplyAll(out.ops, i.world).slots, t) <= out.stateGas + Worth(i.world.slots, t)
    case EmptyAccount => true
    case Contract(code) => Metered(code, t)
  }

  // ---------------------------------------------------------------------------
  // SSTORE
  // ---------------------------------------------------------------------------

  /** `sstore_state_gas` */
  function StoreStateGas(original: nat, present: nat, value: nat, price: U64): U64 {
    if value != present && original == present && original == 0 then price else 0
  }

  /** `sstore_state_gas_refill` */
  function StoreRefill(original: nat, present: nat, value: nat, price: U64): U64 {
    if value != present && original == value && original == 0 then price else 0
  }

  /** `sstore` with EIP-8037 on: static and dynamic gas, state gas, refill, refund. */
  function SStoreOpcode(who: Address, key: nat, value: nat, staticGas: U64, dynamicGas: U64, credit: int, w: World,
                        t: Tariff): Opcode
  {
    var original, present := Get(t.base, Storage(who, key)), Get(w.slots, Storage(who, key));
    var refill := StoreRefill(original, present, value, t.price);
    Opcode(staticGas,
           [Regular(dynamicGas), State(StoreStateGas(original, present, value, t.price))]
           + (if refill > 0 then [RefillState(refill)] else []) + [Refund(credit)],
           Some(Store(who, key, value)))
  }

  lemma StoreTotals(dynamicGas: U64, state: U64, refill: U64, credit: int)
    ensures var cs := [Regular(dynamicGas), State(state)] + (if refill > 0 then [RefillState(refill)] else []) + [Refund(credit)];
            RefillTotal(cs) == refill && StateTotal(cs) == state
  {
    TotalsSplit([Regular(dynamicGas), State(state)] + (if refill > 0 then [RefillState(refill)] else []), [Refund(credit)]);
    TotalsSplit([Regular(dynamicGas), State(state)], if refill > 0 then [RefillState(refill)] else []);
    assert [Regular(dynamicGas), State(state)][1..] == [State(state)] && [State(state)][1..] == [];
    assert [RefillState(refill)][1..] == [] && [Refund(credit)][1..] == [];
  }

  /** SSTORE charges for exactly the slots that appear, and refills for exactly those that go. */
  lemma SStoreMetered(who: Address, key: nat, value: nat, staticGas: U64, dynamicGas: U64, credit: int, w: World, t: Tariff)
    ensures var op := SStoreOpcode(who, key, value, staticGas, dynamicGas, credit, w, t);
            && MeteredOpcode(op, w, t)
            && RefillTotal(op.charges) + Worth(Effect(op, w).slots, t) == StateTotal(op.charges) + Worth(w.slots, t)
            && RefillTotal(op.charges) <= t.price
  {
    var original, present := Get(t.base, Storage(who, key)), Get(w.slots, Storage(who, key));
    StoreTotals(dynamicGas, StoreStateGas(original, present, value, t.price),
                StoreRefill(original, present, value, t.price), credit);
    WorthPut(w.slots, Storage(who, key), value, t);
  }

  /** A contract that sets a slot and clears it again. */
  function SetThenClear(who: Address, key: nat, dynamicGas: U64, t: Tariff): Code {
    Step((v: View) => SStoreOpcode(who, key, 1, 0, dynamicGas, 0, v.world, t),
         Step((v: View) => SStoreOpcode(who, key, 0, 0, dynamicGas, 0, v.world, t), End(Stop, v => [])))
  }

  lemma SetThenClearMetered(who: Address, key: nat, dynamicGas: U64, t: Tariff)
    ensures var c := SetThenClear(who, key, dynamicGas, t);
            Metered(c, t) && Tame(c, t.price) && Budget(c, t.price) == 2 * t.price
  {
    forall v: View, value: nat
      ensures var op := SStoreOpcode(who, key, value, 0, dynamicGas, 0, v.world, t);
              MeteredOpcode(op, v.world, t) && RefillTotal(op.charges) <= t.price
    {
      SStoreMetered(who, key, value, 0, dynamicGas, 0, v.world, t);
    }
    assert Budget(SetThenClear(who, key, dynamicGas, t).next, t.price) == t.price;
  }

  /** An opcode that has no effect on storage and no refill is metered. */
  lemma OtherMetered(op: Opcode, w: World, t: Tariff)
    requires RefillTotal(op.charges) == 0 && (op.effect.Some? ==> !op.effect.value.Store?)
    ensures MeteredOpcode(op, w, t)
  {
    if op.effect.Some? && op.effect.value.Pay? {
      TransferMoves(w.slots, op.effect.value.from, op.effect.value.to, op.effect.value.amount);
    }
    SameWorth(w.slots, Effect(op, w).slots, t);
  }

  // ---------------------------------------------------------------------------
  // Between two frame actions
  // ---------------------------------------------------------------------------

  /** What has been spent beyond the worth of what is stored. */
  function Slack(g: Gas, w: World, t: Tariff): int { g.stateSpent - Worth(w.slots, t) }

  /** A paused frame has at least the slack it started with, on top of the price of a create it
      asks for, unless it has failed. */
  ghost predicate MeteredPause(p: Pause, slack: int, t: Tariff, cfg: Config) {
    match p
    case Returned(r, _, l, w) => IsOk(r) ==> Slack(l.gas, w, t) >= slack
    case WantsCall(_, callee, next, l, w) =>
      Slack(l.gas, w, t) >= slack && MeteredCallee(callee, t) && Metered(next, t)
    case WantsCreate(_, init, next, l, w) =>
      && Slack(l.gas, w, t) >= slack + (if cfg.eip8037 then cfg.createState else 0)
      && Metered(init, t) && Metered(next, t)
  }

  lemma CreateTotalsExact(s: CreateSite, cfg: Config)
    ensures StateTotal(CreateCharges(s, cfg)) == StateTotal(s.charges) + if cfg.eip8037 then cfg.createState else 0
  {
    var up := if cfg.eip8037 then [State(cfg.createState)] else [];
    TotalsSplit(s.charges, up);
    assert up != [] ==> up[1..] == [];
  }

  lemma CallPauseMetered(s: CallSite, callee: Callee, next: Code, l: Local, u: nat, w: World, q: nat, t: Tariff, cfg: Config)
    requires RefillTotal(CallCharges(s)) <= q && MeteredSite(CallCharges(s)) && MeteredCallee(callee, t) && Metered(next, t)
    requires Steady(l, u) && MemoryOk(l, cfg) && Room(l, u + q)
    ensures var e := ExecForward(s.staticGas, CallCharges(s), s.forward, l, cfg);
            e.Ok? ==> MeteredPause(WantsCall(s, callee, next, e.local, w), Slack(l.gas, w, t), t, cfg)
  {
    OpcodeSteady(s.staticGas, CallCharges(s), l, u, cfg);
  }

  lemma CreatePauseMetered(s: CreateSite, init: Code, next: Code, l: Local, u: nat, w: World, q: nat, t: Tariff, cfg: Config)
    requires RefillTotal(s.charges) <= q && MeteredSite(s.charges) && Metered(init, t) && Metered(next, t)
    requires Steady(l, u) && MemoryOk(l, cfg) && Room(l, u + q)
    ensures var e := ExecForward(s.staticGas, CreateCharges(s, cfg), s.forward, l, cfg);
            e.Ok? ==> MeteredPause(WantsCreate(s, init, next, e.local, w), Slack(l.gas, w, t), t, cfg)
  {
    CreateTotals(s, cfg);
    CreateTotalsExact(s, cfg);
    OpcodeSteady(s.staticGas, CreateCharges(s, cfg), l, u, cfg);
  }

  lemma ForwardHalts(staticGas: U64, cs: seq<Charge>, forward: U64, l: Local, cfg: Config)
    requires Settled(l) && MemoryOk(l, cfg)
    ensures var e := ExecForward(staticGas, cs, forward, l, cfg); e.Halt? ==> !IsOk(e.result)
  {
    OpcodeSpends(staticGas, cs, l, cfg);
  }

  lemma {:induction false} InterpMetered(c: Code, l: Local, u: nat, w: World, q: nat, t: Tariff, cfg: Config)
    requires Tame(c, q) && Metered(c, t) && Steady(l, u) && MemoryOk(l, cfg) && Room(l, u + Budget(c, q))
    ensures MeteredPause(Interp(c, l, w, cfg), Slack(l.gas, w, t), t, cfg)
    decreases c
  {
    var v := View(l, w);
    match c
    case End(result, _) =>
    case If(test, yes, no) => InterpMetered(if test(v) then yes else no, l, u, w, q, t, cfg);
    case Step(op, next) =>
      StepSteady(op(v), l, u, w, q, cfg);
      OpcodeSteady(op(v).staticGas, op(v).charges, l, u, cfg);
      OpcodeSpends(op(v).staticGas, op(v).charges, l, cfg);
      match ExecOpcode(op(v).staticGas, op(v).charges, l, cfg) {
        case Halt(_, _) =>
        case Ok(l1) =>
          assert MeteredOpcode(op(v), v.world, t);
          InterpMetered(next, l1, u + q, Effect(op(v), w), q, t, cfg);
      }
    case Call(site, callee, next) =>
      assert MeteredSite(CallCharges(site(v)));
      CallPauseMetered(site(v), callee, next, l, u, w, q, t, cfg);
      ForwardHalts(site(v).staticGas, CallCharges(site(v)), site(v).forward, l, cfg);
    case Create(site, init, next) =>
      assert MeteredSite(site(v).charges);
      CreatePauseMetered(site(v), init, next, l, u, w, q, t, cfg);
      ForwardHalts(site(v).staticGas, CreateCharges(site(v), cfg), site(v).forward, l, cfg);
  }

  // ---------------------------------------------------------------------------
  // Children
  // ---------------------------------------------------------------------------

  /** A request made in world `w` has been answered: success has paid for the storage it added,
      failure has added none. */
  ghost predicate AnswersMetered(f: Final, w: World, t: Tariff) {
    if IsOk(f.outcome.result) then f.outcome.gas.stateSpent + Worth(w.slots, t) >= Worth(f.world.slots, t)
    else Worth(f.world.slots, t) == Worth(w.slots, t)
  }

  ghost predicate OpensMetered(o: Opened, w: World, t: Tariff) {
    if o.Inline? then AnswersMetered(Final(o.outcome, o.world, o.nonce), w, t)
    else
      && Metered(o.code, t) && o.local.gas.stateSpent == 0
      && Worth(o.world.slots, t) == Worth(o.snapshot.slots, t) == Worth(w.slots, t)
  }

  lemma AdmitWorth(c: CallSpec, depth: nat, w: World, t: Tariff, cfg: Config)
    ensures var a := AdmitCall(c, depth, w, cfg);
            Worth(a.world.slots, t) == Worth(w.slots, t) && (a.Admitted? ==> a.snapshot == w)
  {
    TransferMoves(w.slots, c.caller, c.target, c.value);
    SameWorth(w.slots, AdmitCall(c, depth, w, cfg).world.slots, t);
  }

  lemma PrecompileMetered(out: PrecompileOutput, start: Local, c: CallSpec, w: World, w1: World, nonce: nat, t: Tariff)
    requires Worth(w1.slots, t) == Worth(w.slots, t) && start.gas.reservoir <= I64_MAX
    requires out.status.Threw? || out.status.TimedOut? || out.reservoir + out.stateGas == start.gas.reservoir
    requires out.status.Success? ==> Worth(ApplyAll(out.ops, w1).slots, t) <= out.stateGas + Worth(w1.slots, t)
    ensures var o := PrecompileOutcome(out, start, c);
            AnswersMetered(Final(o, if IsOk(o.result) then ApplyAll(out.ops, w1) else w, nonce), w, t)
  {
  }

  lemma OpenCallMetered(c: CallSpec, callee: Callee, start: Local, depth: nat, w: World, nonce: nat, q: nat, t: Tariff,
                        cfg: Config)
    requires TameCallee(callee, q) && MeteredCallee(callee, t) && start.gas.stateSpent == 0 && start.gas.reservoir <= I64_MAX
    ensures OpensMetered(OpenCall(c, callee, start, depth, w, nonce, cfg), w, t)
  {
    AdmitWorth(c, depth, w, t, cfg);
    var a := AdmitCall(c, depth, w, cfg);
    if callee.Precompile? && a.Admitted? {
      var i := PrecompileInput(start.gas.limit, start.gas.reservoir, a.world);
      var out := callee.body(i);
      assert out.status.Threw? || out.status.TimedOut? || out.reservoir + out.stateGas == i.reservoir;
      PrecompileMetered(out, start, c, w, a.world, nonce, t);
    }
  }

  lemma AdmitCreateStorage(c: CreateSpec, a: Address, w: World, cfg: Config)
    ensures var r := AdmitCreate(c, a, w, cfg); SameStorage(w.slots, r.world.slots) && (r.Admitted? ==> r.snapshot == w)
  {
  }

  lemma OpenCreateMetered(c: CreateSpec, init: Code, start: Local, depth: nat, w: World, nonce: nat, t: Tariff, cfg: Config)
    requires Metered(init, t) && start.gas.stateSpent == 0
    ensures OpensMetered(OpenCreate(c, init, start, depth, w, nonce, cfg), w, t)
  {
    if !CreateRefused(c, depth, w) {
      var bumped := World(BumpNonce(w.slots, c.caller).slots, w.logs);
      SameWorth(w.slots, bumped.slots, t);
      AdmitCreateStorage(c, c.address(nonce), bumped, cfg);
      SameWorth(bumped.slots, AdmitCreate(c, c.address(nonce), bumped, cfg).world.slots, t);
    }
  }

  lemma StateCountGrows(l: Local, u: nat, cost: U64)
    requires Steady(l, u)
    ensures PayState(l, cost).0.gas.stateSpent >= l.gas.stateSpent
  {
    ChargeCovers(l.gas, cost);
  }

  lemma DepositStateGrows(l: Local, u: nat, code: seq<Byte>, cfg: Config)
    requires Steady(l, u)
    ensures DepositState(l, code, cfg).1.gas.stateSpent >= l.gas.stateSpent
  {
    var hash := SatMul(cfg.keccakWord, NumWords(|code|));
    RegularSteady(l, u, hash);
    ChargeCovers(l.gas, hash);
    StateCountGrows(PayRegular(l, hash).0, u, SatMul(cfg.codeDepositState, |code|));
  }

  lemma DepositGrows(l: Local, u: nat, output: seq<Byte>, cfg: Config)
    requires Steady(l, u)
    ensures Deposit(l, output, cfg).1.gas.stateSpent >= l.gas.stateSpent
  {
    var price := SatMul(cfg.codeDeposit, |output|);
    var (g, paid) := RecordUnscaled(l.gas, price);
    var (l1, code) := if paid then (Burn(l.(gas := g), price), output) else (l, []);
    assert Steady(l1, u);
    DepositStateGrows(l1, u, code, cfg);
  }

  /** Closing a frame that started in a world worth as much as `w` and its snapshot. */
  lemma CloseMetered(kind: Kind, r: Ran, u: nat, snap: World, w: World, t: Tariff, cfg: Config)
    requires Steady(r.local, u) && Worth(snap.slots, t) == Worth(w.slots, t)
    requires IsOk(r.result) ==> Slack(r.local.gas, r.world, t) + Worth(w.slots, t) >= 0
    ensures AnswersMetered(Closed(kind, r, snap, cfg), w, t)
  {
    DepositGrows(r.local, u, r.output, cfg);
    var done := Closed(kind, r, snap, cfg);
    if IsOk(done.outcome.result) { SameWorth(r.world.slots, done.world.slots, t); }
  }

  // ---------------------------------------------------------------------------
  // Merging
  // ---------------------------------------------------------------------------

  /** What a merge gives back of the caller's count: the price of a create that failed. */
  function GivenBack(o: Outcome, cfg: Config): nat {
    if o.reply.CreateReply? && cfg.eip8037 && (o.reply.address.None? || !IsOk(o.result)) then cfg.createState else 0
  }

  lemma SettleMetered(l: Local, o: Outcome, limit: U64)
    requires o.ledger.paid <= limit && Waits(l, o.ledger.paid, limit - o.ledger.paid) && l.ledger.kept
    requires Answers(o, o.ledger.paid, limit, l.gas.reservoir) && o.ledger.kept
    ensures SettleState(SettleRegular(l, o), o).gas.stateSpent
            >= l.gas.stateSpent + (if IsOk(o.result) then o.gas.stateSpent else 0)
  {
  }

  lemma MergeMetered(l: Local, o: Outcome, used: nat, b: nat, cfg: Config)
    requires AnswersSteadily(l, o, used, b, cfg) && l.ledger.kept
    ensures var e := Merge(l, o, cfg);
            e.Ok? ==> e.local.gas.stateSpent + GivenBack(o, cfg)
                      >= l.gas.stateSpent + (if IsOk(o.result) then o.gas.stateSpent else 0)
    ensures Merge(l, o, cfg).Halt? ==> !IsOk(Merge(l, o, cfg).result)
  {
    if SteadyOutcome(o, b) { SettleMetered(l, o, o.gas.limit); }
  }

  // ---------------------------------------------------------------------------
  // Whole call trees
  // ---------------------------------------------------------------------------

  lemma RequestMetered(l: Local, p: Pause, total: nat, slack: int, depth: nat, nonce: nat, q: nat, t: Tariff, cfg: Config)
    requires !p.Returned? && PauseOk(l, p, cfg) && SteadyPause(p, total, q, cfg) && Room(l, total)
    requires MeteredPause(p, slack, t, cfg)
    ensures OpensMetered(Request(p, depth, nonce, cfg), p.world, t)
  {
    if p.WantsCall? {
      var s := p.callSite;
      var start := Start(s.forward, SatAdd(s.forward, Stipend(s.call)), p.local.gas.reservoir, s.call.factor);
      OpenCallMetered(s.call, p.callee, start, depth + 1, p.world, nonce, q, t, cfg);
    } else {
      var s := p.createSite;
      OpenCreateMetered(s.create, p.init, Start(s.forward, s.forward, p.local.gas.reservoir, 0), depth + 1, p.world, nonce,
                        t, cfg);
    }
  }

  /** Once its child is merged, a frame has no less slack than it started with. */
  lemma ResumeMetered(p: Pause, child: Final, used: nat, b: nat, slack: int, t: Tariff, cfg: Config)
    requires !p.Returned? && MeteredPause(p, slack, t, cfg) && AnswersMetered(child, p.world, t)
    requires AnswersSteadily(p.local, child.outcome, used, b, cfg) && p.local.ledger.kept
    requires child.outcome.reply.CreateReply? ==> p.WantsCreate?
    ensures var e := Merge(p.local, child.outcome, cfg);
            if e.Ok? then Slack(e.local.gas, child.world, t) >= slack && Metered(p.next, t) else !IsOk(e.result)
  {
    MergeMetered(p.local, child.outcome, used, b, cfg);
  }

  lemma ReplyKind(p: Pause, depth: nat, nonce: nat, cfg: Config)
    requires !p.Returned?
    ensures Evaluate(Request(p, depth, nonce, cfg), depth + 1, cfg).outcome.reply.CreateReply? == p.WantsCreate?
  {
  }

  /** A request that has been opened is answered as metered code does. */
  lemma EvaluateMetered(o: Opened, w: World, depth: nat, b: nat, q: nat, t: Tariff, cfg: Config)
    requires OpensMetered(o, w, t)
    requires o.Pushed? ==> Tame(o.code, q) && Steady(o.local, 0) && MemoryOk(o.local, cfg)
                           && b == Budget(o.code, q) && Room(o.local, b)
    ensures AnswersMetered(Evaluate(o, depth, cfg), w, t)
    decreases if o.Pushed? then Size(o.code) else 0, 1
  {
    if o.Pushed? {
      RunMetered(o.code, o.local, 0, depth, o.world, o.nonce, q, t, cfg);
      RunSteady(o.code, o.local, 0, depth, o.world, o.nonce, q, cfg);
      CloseMetered(o.kind, Run(o.code, o.local, depth, o.world, o.nonce, cfg), b, o.snapshot, w, t, cfg);
    }
  }

  lemma ChildMetered(l: Local, p: Pause, total: nat, slack: int, depth: nat, nonce: nat, q: nat, t: Tariff, cfg: Config)
    returns (child: Final)
    requires !p.Returned? && PauseOk(l, p, cfg) && SteadyPause(p, total, q, cfg) && Room(l, total)
    requires MeteredPause(p, slack, t, cfg)
    ensures child == Evaluate(Request(p, depth, nonce, cfg), depth + 1, cfg)
    ensures AnswersSteadily(p.local, child.outcome, total - Ahead(p, q), ChildBudget(p, q), cfg)
    ensures AnswersMetered(child, p.world, t) && child.outcome.reply.CreateReply? == p.WantsCreate?
    decreases PauseSize(p), 2
  {
    child := ChildSteady(l, p, total, depth, nonce, q, cfg);
    ReplyKind(p, depth, nonce, cfg);
    RequestSteady(l, p, total, depth, nonce, q, cfg);
    RequestMetered(l, p, total, slack, depth, nonce, q, t, cfg);
    EvaluateMetered(Request(p, depth, nonce, cfg), p.world, depth + 1, ChildBudget(p, q), q, t, cfg);
  }

  lemma GoesOnMetered(l: Local, p: Pause, total: nat, slack: int, depth: nat, nonce: nat, q: nat, t: Tariff, cfg: Config)
    requires !p.Returned? && PauseOk(l, p, cfg) && SteadyPause(p, total, q, cfg) && Room(l, total)
    requires MeteredPause(p, slack, t, cfg)
    ensures var r := GoesOn(p, depth, nonce, cfg); IsOk(r.result) ==> Slack(r.local.gas, r.world, t) >= slack
    decreases PauseSize(p), 3
  {
    var child := ChildMetered(l, p, total, slack, depth, nonce, q, t, cfg);
    var left := ResumeSteady(l, p, child, total, q, cfg);
    ResumeMetered(p, child, total - Ahead(p, q), ChildBudget(p, q), slack, t, cfg);
    var e := Merge(p.local, child.outcome, cfg);
    if e.Ok? { RunMetered(p.next, e.local, left, depth, child.world, child.nonce, q, t, cfg); }
  }

  /** Over every call tree of tame and metered code: a frame that succeeds has spent at least
      what the storage that it and its descendants added is worth. */
  lemma {:induction false} RunMetered(c: Code, l: Local, u: nat, depth: nat, w: World, nonce: nat, q: nat, t: Tariff, cfg: Config)
    requires Tame(c, q) && Metered(c, t) && Steady(l, u) && MemoryOk(l, cfg) && Room(l, u + Budget(c, q))
    ensures var r := Run(c, l, depth, w, nonce, cfg); IsOk(r.result) ==> Slack(r.local.gas, r.world, t) >= Slack(l.gas, w, t)
    decreases Size(c), 0
  {
    InterpMetered(c, l, u, w, q, t, cfg);
    InterpSteady(c, l, u, w, q, cfg);
    InterpKeepsBooks(c, l, w, cfg);
    RunUnfolds(c, l, depth, w, nonce, cfg);
    var p := Interp(c, l, w, cfg);
    if !p.Returned? { GoesOnMetered(l, p, u + Budget(c, q), Slack(l.gas, w, t), depth, nonce, q, t, cfg); }
  }
}
