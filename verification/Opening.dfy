/**
 What opening a call or a create does, on its own terms: whose balance goes down and whose
 goes up, which slots stay, when it is refused and with what, and on what terms the child
 starts.
 */
module Openings {
  import opened Words
  import opened Results
  import opened Energy
  import opened Journals
  import opened Frames
  import opened Machines
  import opened Evms

  // ---------------------------------------------------------------------------
  // Calls
  // ---------------------------------------------------------------------------

  /** `amount` went from one balance to the other, and nothing else changed. */
  ghost predicate ValueMoved(m: Slots, n: Slots, from: Address, to: Address, amount: nat) {
    && (from != to ==>
          && Get(n, Balance(from)) == Get(m, Balance(from)) - amount
          && Get(n, Balance(to)) == Get(m, Balance(to)) + amount)
    && (from == to ==> Get(n, Balance(from)) == Get(m, Balance(from)))
    && (forall s | s != Balance(from) && s != Balance(to) :: Get(n, s) == Get(m, s))
  }

  /** What the callee of `c` finds, if the call was made in `w`. */
  ghost predicate CallEntered(c: CallSpec, w: World, w1: World) {
    w1.logs == w.logs && if c.moves then ValueMoved(w.slots, w1.slots, c.caller, c.target, c.value) else w1 == w
  }

  /** TRON refuses a plain call that brings a precompile value it cannot be given: value that is
      out of range, or value that the caller does have for a recipient that does not exist. */
  ghost predicate PrecompileRefuses(c: CallSpec, w: World, cfg: Config) {
    && cfg.tron && c.plainCall && c.isPrecompile
    && (|| (c.moves && c.value > 0x7FFF_FFFF_FFFF_FFFF)
        || (!c.targetExists && 0 < c.tokenValue <= c.tokenBalance)
        || (!c.targetExists && c.tokenValue <= 0 && c.moves && 0 < c.value <= Get(w.slots, Balance(c.caller))))
  }

  ghost predicate LacksFunds(c: CallSpec, w: World) { c.moves && Get(w.slots, Balance(c.caller)) < c.value }

  lemma GuardIs(c: CallSpec, w: World, cfg: Config)
    ensures TransferWouldThrow(c, w, cfg) <==> PrecompileRefuses(c, w, cfg)
  {
  }

  /** A call is refused for depth, for a precompile's sake and for lack of funds, in this order;
      a refusal leaves the world alone. */
  lemma CallRefused(c: CallSpec, callee: Callee, start: Local, depth: nat, w: World, nonce: nat, cfg: Config)
    requires Supply(w.slots) <= U256_MAX
    ensures var o := OpenCall(c, callee, start, depth, w, nonce, cfg);
            var r := if o.Inline? then Some(o.outcome.result) else None;
            var tooDeep, refuses, lacks := depth > 64, PrecompileRefuses(c, w, cfg), LacksFunds(c, w);
            && (r == Some(CallTooDeep) <==> tooDeep)
            && (r == Some(TronPrecompileTransferFailure) <==> !tooDeep && refuses)
            && (r == Some(InstructionResult.OutOfFunds) <==> !tooDeep && !refuses && lacks)
            && r != Some(InstructionResult.OverflowPayment)
            && (tooDeep || refuses || lacks ==>
                  && o.world == w && o.nonce == nonce && o.outcome.gas.remaining == start.gas.remaining
                  && o.outcome.reply == CallReply(!tooDeep && refuses, c.ret, c.rawOffset))
  {
    GuardIs(c, w, cfg);
    TransferKeepsSupply(w.slots, c.caller, c.target, c.value);
    TransferMoves(w.slots, c.caller, c.target, c.value);
  }

  /** A call that is not refused has moved its value from caller to target, behind a checkpoint
      that would undo it. A contract gets a frame, an account without code answers at once, and a
      precompile sees the moved value and keeps it only if it succeeds. */
  lemma CallEnters(c: CallSpec, callee: Callee, start: Local, depth: nat, w: World, nonce: nat, cfg: Config)
    returns (w1: World)
    requires Supply(w.slots) <= U256_MAX && depth <= 64 && !PrecompileRefuses(c, w, cfg) && !LacksFunds(c, w)
    ensures CallEntered(c, w, w1)
    ensures var o := OpenCall(c, callee, start, depth, w, nonce, cfg);
            var bumped := nonce + if depth == 0 then 0 else 1;
            match callee
            case Contract(code) =>
              && o.Pushed? && o.world == w1 && o.snapshot == w && o.code == code && o.local == start && o.nonce == bumped
              && o.kind == CallKind(c.ret, c.rawOffset)
            case EmptyAccount =>
              && o.Inline? && o.world == w1 && o.nonce == bumped && IsOk(o.outcome.result) && o.outcome.output == []
              && o.outcome.gas.remaining == start.gas.remaining && o.outcome.gas.reservoir == start.gas.reservoir
            case Precompile(body) =>
              && o.Inline? && o.nonce == nonce
              && (var out := body(PrecompileInput(start.gas.limit, start.gas.reservoir, w1));
                  o.world == if IsOk(o.outcome.result) then ApplyAll(out.ops, w1) else w)
  {
    TransferKeepsSupply(w.slots, c.caller, c.target, c.value);
    TransferMoves(w.slots, c.caller, c.target, c.value);
    w1 := if c.moves then World(Transfer(w.slots, c.caller, c.target, c.value).1.slots, w.logs) else w;
  }

  /** The gas a nested call starts with: what was forwarded, and 2300 more if it brings value. */
  ghost predicate ChildTerms(start: Local, p: Pause)
    requires p.WantsCall?
  {
    var s := p.callSite;
    var limit := s.forward + if s.call.moves && s.call.value > 0 then 2300 else 0;
    && start.gas.limit == start.gas.remaining == Min(limit, U64_MAX)
    && start.gas.reservoir == p.local.gas.reservoir && start.gas.stateSpent == 0 && start.gas.refunded == 0
    && start.gas.opRaw == 0 && start.gas.base == 0 && start.gas.penalty == 0
    && start.gas.factor == s.call.factor && start.memory == [] && start.stack == [] && start.returnData == []
  }

  /** The law for the calls a frame makes: when one is refused, and otherwise that the value has
      gone from caller to target when its code starts or its account has answered. */
  lemma NestedCallMoves(p: Pause, depth: nat, nonce: nat, cfg: Config)
    requires p.WantsCall? && Supply(p.world.slots) <= U256_MAX
    ensures var c, o := p.callSite.call, Request(p, depth, nonce, cfg);
            && (o.Pushed? ==> CallEntered(c, p.world, o.world) && o.snapshot == p.world && ChildTerms(o.local, p))
            && (o.Inline? && p.callee.EmptyAccount? && IsOk(o.outcome.result) ==> CallEntered(c, p.world, o.world))
            && (depth < 64 && !PrecompileRefuses(c, p.world, cfg) ==>
                  (o.Inline? && o.outcome.result == InstructionResult.OutOfFunds <==> LacksFunds(c, p.world)))
  {
    var s := p.callSite;
    var start := Start(s.forward, SatAdd(s.forward, Stipend(s.call)), p.local.gas.reservoir, s.call.factor);
    CallRefused(s.call, p.callee, start, depth + 1, p.world, nonce, cfg);
    if depth < 64 && !PrecompileRefuses(s.call, p.world, cfg) && !LacksFunds(s.call, p.world) {
      var w1 := CallEnters(s.call, p.callee, start, depth + 1, p.world, nonce, cfg);
    }
  }

  /** And for the transaction's own call. */
  lemma FirstCallMoves(first: First, start: Local, w: World, nonce: nat, cfg: Config)
    requires first.FirstCall? && Supply(w.slots) <= U256_MAX
    ensures var c, o := first.call, OpenFirst(first, start, w, nonce, cfg);
            && (o.Pushed? ==> CallEntered(c, w, o.world) && o.snapshot == w && o.local == start && o.nonce == nonce)
            && (o.Inline? && first.callee.EmptyAccount? && IsOk(o.outcome.result) ==> CallEntered(c, w, o.world))
            && (!PrecompileRefuses(c, w, cfg) ==>
                  (o.Inline? && o.outcome.result == InstructionResult.OutOfFunds <==> LacksFunds(c, w)))
  {
    CallRefused(first.call, first.callee, start, 0, w, nonce, cfg);
    if !PrecompileRefuses(first.call, w, cfg) && !LacksFunds(first.call, w) {
      var w1 := CallEnters(first.call, first.callee, start, 0, w, nonce, cfg);
    }
  }

  // ---------------------------------------------------------------------------
  // Creates
  // ---------------------------------------------------------------------------

  /** `n` is `m` with the creator's nonce moved on by one. */
  ghost predicate NonceMoved(m: Slots, n: Slots, who: Address) {
    Get(n, Nonce(who)) == Get(m, Nonce(who)) + 1 && forall s | s != Nonce(who) :: Get(n, s) == Get(m, s)
  }

  /** The account at `a` is new in `n`, and endowed by its creator. */
  ghost predicate AccountMade(m: Slots, n: Slots, creator: Address, a: Address, value: nat, cfg: Config) {
    && Get(n, Created(a)) == 1 && Get(n, CodeOf(a)) == 0 && Get(n, Nonce(a)) == (if cfg.spurious then 1 else 0)
    && Get(n, Balance(creator)) == Get(m, Balance(creator)) - value
    && Get(n, Balance(a)) == Get(m, Balance(a)) + value
    && forall s | s !in {Created(a), Nonce(a), Balance(a), Balance(creator)} :: Get(n, s) == Get(m, s)
  }

  /** The address is taken: by the committed store, by an account made in this transaction, or by
      code or a nonce. */
  ghost predicate Taken(c: CreateSpec, a: Address, m: Slots) {
    c.occupied(a) || Get(m, Created(a)) != 0 || Get(m, CodeOf(a)) != 0 || Get(m, Nonce(a)) != 0
  }

  /** A create is refused for depth, lack of funds, a nonce at its end and a taken address, in
      this order. Only the last has moved nonces. */
  lemma CreateRefusals(c: CreateSpec, init: Code, start: Local, depth: nat, w: World, nonce: nat, cfg: Config)
    requires Supply(w.slots) <= U256_MAX && c.address(nonce) != c.caller
    ensures var o := OpenCreate(c, init, start, depth, w, nonce, cfg);
            var r := if o.Inline? then Some(o.outcome.result) else None;
            var tooDeep, lacks := depth > 64, Get(w.slots, Balance(c.caller)) < c.value;
            var ended := Get(w.slots, Nonce(c.caller)) == U64_MAX;
            var early := tooDeep || lacks || ended;
            && (r == Some(CallTooDeep) <==> tooDeep)
            && (r == Some(InstructionResult.OutOfFunds) <==> !tooDeep && lacks)
            && (r == Some(Return) <==> !tooDeep && !lacks && ended)
            && (r == Some(CreateCollision) <==> !early && Taken(c, c.address(nonce), w.slots))
            && (o.Pushed? <==> !early && !Taken(c, c.address(nonce), w.slots))
            && (o.Inline? ==> o.outcome.reply == CreateReply(None) && o.outcome.gas.remaining == start.gas.remaining)
            && o.nonce == nonce + (if early then 0 else 1) && (early ==> o.world == w)
            && (o.Inline? && !early ==> NonceMoved(w.slots, o.world.slots, c.caller) && o.world.logs == w.logs)
  {
    if !CreateRefused(c, depth, w) {
      var bumped := BumpNonce(w.slots, c.caller).slots;
      SupplyPut(w.slots, Nonce(c.caller), Get(w.slots, Nonce(c.caller)) + 1);
      CreateKeepsSupply(bumped, c.caller, c.address(nonce), c.value, cfg.spurious);
    }
  }

  /** A create that gets its frame: the creator's nonce has moved for good, and behind the
      checkpoint the new account is marked and endowed at the creator's expense. */
  lemma CreateEnters(c: CreateSpec, init: Code, start: Local, depth: nat, w: World, nonce: nat, cfg: Config)
    requires OpenCreate(c, init, start, depth, w, nonce, cfg).Pushed? && c.address(nonce) != c.caller
    ensures var o := OpenCreate(c, init, start, depth, w, nonce, cfg);
            && o.kind == CreateKind(c.address(nonce)) && o.code == init && o.local == start && o.nonce == nonce + 1
            && NonceMoved(w.slots, o.snapshot.slots, c.caller) && o.snapshot.logs == o.world.logs == w.logs
            && AccountMade(o.snapshot.slots, o.world.slots, c.caller, c.address(nonce), c.value, cfg)
  {
    CreateMoves(BumpNonce(w.slots, c.caller).slots, c.caller, c.address(nonce), c.value, cfg.spurious);
  }

  /** The law for the creates a frame makes: the child starts without factor on exactly the gas
      that was forwarded. */
  lemma NestedCreateMoves(p: Pause, depth: nat, nonce: nat, cfg: Config)
    requires p.WantsCreate? && Request(p, depth, nonce, cfg).Pushed?
    requires p.createSite.create.address(nonce) != p.createSite.create.caller
    ensures var c, o := p.createSite.create, Request(p, depth, nonce, cfg);
            && depth < 64 && o.kind == CreateKind(c.address(nonce))
            && NonceMoved(p.world.slots, o.snapshot.slots, c.caller)
            && AccountMade(o.snapshot.slots, o.world.slots, c.caller, c.address(nonce), c.value, cfg)
            && o.local.gas.limit == o.local.gas.remaining == p.createSite.forward
            && o.local.gas.reservoir == p.local.gas.reservoir && o.local.gas.factor == 0
            && o.local.gas.stateSpent == 0 && o.local.gas.refunded == 0 && o.local.gas.base == 0 && o.local.gas.penalty == 0
  {
    var s := p.createSite;
    CreateEnters(s.create, p.init, Start(s.forward, s.forward, p.local.gas.reservoir, 0), depth + 1, p.world, nonce, cfg);
  }
}
