/**
 Code without state gas, which is all there is while EIP-8037 is off: reservoir, state gas
 spent and spill stay at zero over every call tree, whatever the gas limit.
 */
module Stateless {
  import opened Words
  import opened Results
  import opened Energy
  import opened Journals
  import opened Frames
  import opened Machines
  import opened Laws
  import opened Reservoirs

  predicate NoState(cs: seq<Charge>) { forall i | 0 <= i < |cs| :: !cs[i].State? && !cs[i].RefillState? }

  /** A precompile that is handed no reservoir reports none and no state gas. */
  ghost predicate Modest(body: PrecompileInput -> PrecompileOutput) {
    forall i: PrecompileInput | i.reservoir == 0 :: var out := body(i);
      out.status.Threw? || out.status.TimedOut? || (out.reservoir == 0 && out.stateGas == 0)
  }

  /** Code without state charges, refills or precompiles that make up a reservoir. */
  ghost predicate Plain(c: Code) {
    match c
    case End(_, _) => true
    case Step(op, next) => (forall v :: NoState(op(v).charges)) && Plain(next)
    case If(_, yes, no) => Plain(yes) && Plain(no)
    case Call(site, callee, next) => (forall v :: NoState(CallCharges(site(v)))) && PlainCallee(callee) && Plain(next)
    case Create(site, init, next) => (forall v :: NoState(site(v).charges)) && Plain(init) && Plain(next)
  }

  ghost predicate PlainCallee(callee: Callee) {
    match callee
    case Precompile(body) => Modest(body)
    case EmptyAccount => true
    case Contract(code) => Plain(code)
  }

  predicate Zero(g: Gas, b: Ledger) { g.reservoir == 0 && g.stateSpent == 0 && b.spill == 0 }

  predicate ZeroLocal(l: Local) { Zero(l.gas, l.ledger) }

  predicate ZeroOutcome(o: Outcome) { Zero(o.gas, o.ledger) }

  lemma ChargeZero(c: Charge, l: Local, cfg: Config)
    requires ZeroLocal(l) && !c.State? && !c.RefillState?
    ensures ZeroLocal(ExecCharge(c, l, cfg).local)
  {
  }

  lemma {:induction false} ChargesZero(cs: seq<Charge>, l: Local, cfg: Config)
    requires ZeroLocal(l) && NoState(cs)
    ensures ZeroLocal(ExecCharges(cs, l, cfg).local)
    decreases |cs|
  {
    if cs != [] {
      ChargeZero(cs[0], l, cfg);
      var e := ExecCharge(cs[0], l, cfg);
      if e.Ok? { ChargesZero(cs[1..], e.local, cfg); }
    }
  }

  lemma OpcodeZero(staticGas: U64, cs: seq<Charge>, l: Local, cfg: Config)
    requires ZeroLocal(l) && NoState(cs)
    ensures ZeroLocal(ExecOpcode(staticGas, cs, l, cfg).local)
  {
    var g0 := OpBoundary(l.gas);
    var (g, oog) := RecordUnsafe(g0, staticGas);
    if !oog { ChargesZero(cs, Burn(l.(gas := g), TronCharge(g0, staticGas).1), cfg); }
  }

  ghost predicate ZeroPause(p: Pause) {
    && ZeroLocal(p.local)
    && (p.WantsCall? ==> Plain(p.next) && PlainCallee(p.callee))
    && (p.WantsCreate? ==> Plain(p.next) && Plain(p.init))
  }

  lemma {:induction false} InterpZero(c: Code, l: Local, w: World, cfg: Config)
    requires Plain(c) && ZeroLocal(l) && !cfg.eip8037
    ensures ZeroPause(Interp(c, l, w, cfg))
    decreases c
  {
    var v := View(l, w);
    match c
    case End(result, _) =>
    case If(test, yes, no) => InterpZero(if test(v) then yes else no, l, w, cfg);
    case Step(op, next) =>
      OpcodeZero(op(v).staticGas, op(v).charges, l, cfg);
      var e := ExecOpcode(op(v).staticGas, op(v).charges, l, cfg);
      if e.Ok? { InterpZero(next, e.local, if op(v).effect.Some? then Apply(op(v).effect.value, w) else w, cfg); }
    case Call(site, _, _) => OpcodeZero(site(v).staticGas, CallCharges(site(v)), l, cfg);
    case Create(site, _, _) =>
      assert CreateCharges(site(v), cfg) == site(v).charges;
      OpcodeZero(site(v).staticGas, site(v).charges, l, cfg);
  }

  lemma OpenCallZero(c: CallSpec, callee: Callee, start: Local, depth: nat, w: World, nonce: nat, cfg: Config)
    requires ZeroLocal(start) && PlainCallee(callee)
    ensures var o := OpenCall(c, callee, start, depth, w, nonce, cfg);
            if o.Inline? then ZeroOutcome(o.outcome) else o.local == start && Plain(o.code)
  {
    if callee.Precompile? && AdmitCall(c, depth, w, cfg).Admitted? {
      var i := PrecompileInput(start.gas.limit, start.gas.reservoir, AdmitCall(c, depth, w, cfg).world);
      var out := callee.body(i);
      assert out.status.Threw? || out.status.TimedOut? || out.reservoir + out.stateGas == i.reservoir;
    }
  }

  lemma OpenCreateZero(c: CreateSpec, init: Code, start: Local, depth: nat, w: World, nonce: nat, cfg: Config)
    requires ZeroLocal(start)
    ensures var o := OpenCreate(c, init, start, depth, w, nonce, cfg);
            if o.Inline? then ZeroOutcome(o.outcome) else o.local == start && o.code == init
  {
  }

  lemma RequestZero(p: Pause, depth: nat, nonce: nat, cfg: Config)
    requires !p.Returned? && ZeroPause(p)
    ensures var o := Request(p, depth, nonce, cfg);
            if o.Inline? then ZeroOutcome(o.outcome) else ZeroLocal(o.local) && Plain(o.code)
  {
    if p.WantsCall? {
      var s := p.callSite;
      OpenCallZero(s.call, p.callee,
                   Start(s.forward, SatAdd(s.forward, Stipend(s.call)), p.local.gas.reservoir, s.call.factor),
                   depth + 1, p.world, nonce, cfg);
    } else {
      var s := p.createSite;
      OpenCreateZero(s.create, p.init, Start(s.forward, s.forward, p.local.gas.reservoir, 0), depth + 1, p.world, nonce, cfg);
    }
  }

  lemma CloseZero(kind: Kind, r: Ran, snap: World, cfg: Config)
    requires ZeroLocal(r.local) && !cfg.eip8037
    ensures ZeroOutcome(Closed(kind, r, snap, cfg).outcome)
  {
  }

  lemma MergeZero(l: Local, o: Outcome, cfg: Config)
    requires ZeroLocal(l) && ZeroOutcome(o) && !cfg.eip8037
    ensures ZeroLocal(Merge(l, o, cfg).local)
  {
  }

  lemma ChildZero(p: Pause, depth: nat, nonce: nat, cfg: Config) returns (child: Final)
    requires !p.Returned? && ZeroPause(p) && !cfg.eip8037
    ensures child == Evaluate(Request(p, depth, nonce, cfg), depth + 1, cfg) && ZeroOutcome(child.outcome)
    decreases PauseSize(p), 1
  {
    var o := Request(p, depth, nonce, cfg);
    RequestZero(p, depth, nonce, cfg);
    child := Evaluate(o, depth + 1, cfg);
    if o.Pushed? {
      RunZero(o.code, o.local, depth + 1, o.world, o.nonce, cfg);
      CloseZero(o.kind, Run(o.code, o.local, depth + 1, o.world, o.nonce, cfg), o.snapshot, cfg);
    }
  }

  lemma GoesOnZero(p: Pause, depth: nat, nonce: nat, cfg: Config)
    requires !p.Returned? && ZeroPause(p) && !cfg.eip8037
    ensures ZeroLocal(GoesOn(p, depth, nonce, cfg).local)
    decreases PauseSize(p), 2
  {
    var child := ChildZero(p, depth, nonce, cfg);
    MergeZero(p.local, child.outcome, cfg);
    var e := Merge(p.local, child.outcome, cfg);
    if e.Ok? { RunZero(p.next, e.local, depth, child.world, child.nonce, cfg); }
  }

  /** Over every call tree of plain code. */
  lemma {:induction false} RunZero(c: Code, l: Local, depth: nat, w: World, nonce: nat, cfg: Config)
    requires Plain(c) && ZeroLocal(l) && !cfg.eip8037
    ensures ZeroLocal(Run(c, l, depth, w, nonce, cfg).local)
    decreases Size(c), 0
  {
    InterpZero(c, l, w, cfg);
    RunUnfolds(c, l, depth, w, nonce, cfg);
    var p := Interp(c, l, w, cfg);
    if !p.Returned? { GoesOnZero(p, depth, nonce, cfg); }
  }
}
