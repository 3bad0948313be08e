/**
 Frames: what a frame's code may do, how a child frame is opened, how a finished
 frame is closed, and how its outcome is merged into its caller.

 Code is an arbitrary finite decision tree. Every amount, address and branch in it is
 a function of what the frame can observe (gas, memory, pushed replies, return data,
 world), so one tree describes any terminating contract together with its callees.
 */
module Frames {
  import opened Words
  import opened Results
  import opened Energy
  import opened Journals

  type Byte = x: int | 0 <= x < 256

  /** `TRON_MAX_CALL_DEPTH` */
  const MAX_DEPTH: nat := 64
  /** `CALLVALUE` and `CALL_STIPEND` */
  const CALL_VALUE: U64 := 9000
  const CALL_STIPEND: U64 := 2300
  /** `TRON_FREE_GROWTH_LIMIT` */
  const FREE_GROWTH_LIMIT: nat := 3 * 1024 * 1024
  /** The 0x41 byte in front of a TRON address. */
  const ADDRESS_PREFIX: nat := 0x41_0000000000_0000000000_0000000000_0000000000

  datatype Config = Config(
    tron: bool,
    eip8037: bool,
    homestead: bool,
    spurious: bool,
    rejectEF: bool,
    fullOutputWrite: bool,
    maxCodeSize: nat,
    memoryLimit: nat,
    memLinear: U64,
    memQuadratic: Positive,
    codeDeposit: U64,
    keccakWord: U64,
    codeDepositState: U64,
    createState: U64)

  function SatMul(a: nat, b: nat): U64 { Min(a * b, U64_MAX) }

  function NumWords(len: nat): nat { (len + 31) / 32 }

  /** `GasParams::memory_cost` */
  function MemoryCost(cfg: Config, words: nat): U64 {
    SatAdd(SatMul(cfg.memLinear, words), SatMul(words, words) / cfg.memQuadratic)
  }

  /** A model-only ledger of the energy a caller paid for a frame.
      `burned` is regular gas charged or forfeited by the frame and its descendants, net
      of stipends; `spill` is regular gas that state charges took once the reservoir was
      empty; `kept` says that gas stayed in the signed range at every refill and return
      and that every precompile answered with the reservoir it was given. */
  datatype Ledger = Ledger(paid: nat, given: U64, burned: int, spill: nat, kept: bool)

  /** What one interpreter holds. `stack` is the replies pushed by finished children. */
  datatype Local = Local(
    gas: Gas, memory: seq<Byte>, stack: seq<nat>, returnData: seq<Byte>, ledger: Ledger)

  datatype View = View(local: Local, world: World)

  predicate InRange(g: Gas) { g.remaining + g.reservoir <= I64_MAX }

  function Start(paid: nat, limit: U64, reservoir: U64, factor: Factor): Local {
    Local(Fresh(limit, reservoir, factor), [], [], [],
          Ledger(paid, reservoir, paid - limit, 0, InRange(Fresh(limit, reservoir, factor))))
  }

  // ---------------------------------------------------------------------------
  // Code
  // ---------------------------------------------------------------------------

  /** One `record_*` call (or memory expansion) inside an opcode. */
  datatype Charge =
    | Regular(cost: U64)
    | State(cost: U64)
    | RefillState(amount: U64)
    | Refund(credit: int)
    | Expand(offset: U64, len: U64)

  datatype Opcode = Opcode(staticGas: U64, charges: seq<Charge>, effect: Option<Op>)

  datatype Span = Span(start: nat, len: nat)
  /** A `Range<usize>`; its end is representable. */
  type Range = s: Span | s.start + s.len <= U64_MAX witness Span(0, 0)

  /** What the CALL family hands to `make_call_frame`. `moves` is `CallValue::Transfer`;
      `isPrecompile`, `targetExists` and `tokenBalance` are the host's answers. */
  datatype CallSpec = CallSpec(
    caller: Address, target: Address, plainCall: bool, moves: bool, value: nat,
    tokenValue: int, tokenBalance: int, isPrecompile: bool, targetExists: bool,
    ret: Range, rawOffset: nat, factor: Factor)

  datatype CallSite = CallSite(
    staticGas: U64, before: seq<Charge>, after: seq<Charge>, forward: U64, call: CallSpec)

  /** `address` derives the new address from the per-transaction nonce (CREATE2 ignores
      it); `occupied` is the committed store's part of the `tron_taken` test. */
  datatype CreateSpec = CreateSpec(
    caller: Address, value: nat, address: nat -> Address, occupied: Address -> bool)

  datatype CreateSite = CreateSite(
    staticGas: U64, charges: seq<Charge>, forward: U64, create: CreateSpec)

  datatype Status = Success | Reverted | OutOfEnergy | Failed | Threw | TimedOut

  datatype PrecompileInput = PrecompileInput(limit: U64, reservoir: U64, world: World)

  datatype PrecompileOutput = PrecompileOutput(
    status: Status, gasUsed: U64, refunded: int, stateGas: U64, reservoir: U64,
    bytes: seq<Byte>, ops: seq<Op>)

  datatype Callee =
    | Precompile(body: PrecompileInput -> PrecompileOutput)
    | EmptyAccount
    | Contract(code: Code)

  datatype Code =
    | End(result: EndResult, output: View -> seq<Byte>)
    | Step(op: View -> Opcode, next: Code)
    | If(test: View -> bool, yes: Code, no: Code)
    | Call(callSite: View -> CallSite, callee: Callee, next: Code)
    | Create(createSite: View -> CreateSite, init: Code, next: Code)

  function Size(c: Code): nat {
    match c
    case End(_, _) => 1
    case Step(_, next) => 1 + Size(next)
    case If(_, yes, no) => 1 + Size(yes) + Size(no)
    case Call(_, callee, next) => 1 + Size(next) + (if callee.Contract? then Size(callee.code) else 0)
    case Create(_, init, next) => 1 + Size(init) + Size(next)
  }

  // ---------------------------------------------------------------------------
  // Opcodes
  // ---------------------------------------------------------------------------

  datatype Exec = Ok(local: Local) | Halt(local: Local, result: InstructionResult)

  function Burn(l: Local, amount: int): Local {
    l.(ledger := l.ledger.(burned := l.ledger.burned + amount))
  }

  /** `spend_all`, with what it forfeits entered in the ledger. */
  function Forfeit(l: Local): Local {
    Burn(l.(gas := SpendAll(l.gas)), l.gas.remaining)
  }

  function PayRegular(l: Local, cost: U64): (Local, bool) {
    var effective := TronCharge(l.gas, cost).1;
    var (g, ok) := RecordRegular(l.gas, cost);
    (if ok then Burn(l.(gas := g), effective) else l.(gas := g), ok)
  }

  function PayState(l: Local, cost: U64): (Local, bool) {
    var effective := TronCharge(l.gas, cost).1;
    var (g, ok) := RecordState(l.gas, cost);
    var spilled := if ok then Max(effective - l.gas.reservoir, 0) else 0;
    (l.(gas := g, ledger := l.ledger.(spill := l.ledger.spill + spilled)), ok)
  }

  function RefillLocal(l: Local, amount: U64): Local {
    var g := Refill(l.gas, amount);
    l.(gas := g, ledger := l.ledger.(kept := l.ledger.kept && l.gas.reservoir + amount <= U64_MAX
                                             && amount <= I64_MAX && InRange(g)))
  }

  function Zeros(n: nat): seq<Byte> { seq(n, _ => 0) }

  function Resize(memory: seq<Byte>, size: nat): seq<Byte> {
    if size <= |memory| then memory[..size] else memory + Zeros(size - |memory|)
  }

  /** `resize_memory`: the new baseline is recorded before the price is asked for. */
  function ExpandMemory(l: Local, offset: U64, len: U64, cfg: Config): Exec {
    var words := NumWords(SatAdd(offset, len));
    if words <= l.gas.words then Ok(l)
    else if words * 32 > cfg.memoryLimit then Halt(l, MemoryLimitOOG)
    else
      var cost := MemoryCost(cfg, words);
      var (l1, ok) := PayRegular(l.(gas := l.gas.(words := words, memCost := cost)), SatSub(cost, l.gas.memCost));
      if ok then Ok(l1.(memory := Resize(l1.memory, words * 32))) else Halt(l1, MemoryOOG)
  }

  function ExecCharge(c: Charge, l: Local, cfg: Config): Exec {
    match c
    case Regular(cost) =>
      var (l1, ok) := PayRegular(l, cost);
      if ok then Ok(l1) else Halt(l1, OutOfGas)
    case State(cost) =>
      var (l1, ok) := PayState(l, cost);
      if ok then Ok(l1) else Halt(l1, OutOfGas)
    case RefillState(amount) => Ok(RefillLocal(l, amount))
    case Refund(credit) => Ok(l.(gas := l.gas.(refunded := l.gas.refunded + credit)))
    case Expand(offset, len) => ExpandMemory(l, offset, len, cfg)
  }

  function ExecCharges(cs: seq<Charge>, l: Local, cfg: Config): Exec
    decreases |cs|
  {
    if cs == [] then Ok(l)
    else match ExecCharge(cs[0], l, cfg)
      case Ok(l1) => ExecCharges(cs[1..], l1, cfg)
      case Halt(l1, r) => Halt(l1, r)
  }

  /** `Interpreter::step` up to the effect: opcode boundary, the unchecked static charge,
      then the instruction's own charges. A refused static charge leaves a wrapped
      balance behind, which `halt` overwrites. */
  function ExecOpcode(staticGas: U64, cs: seq<Charge>, l: Local, cfg: Config): Exec {
    var g0 := OpBoundary(l.gas);
    var effective := TronCharge(g0, staticGas).1;
    var (g, oog) := RecordUnsafe(g0, staticGas);
    if oog then Halt(Burn(l.(gas := g), l.gas.remaining - g.remaining), OutOfGas)
    else ExecCharges(cs, Burn(l.(gas := g), effective), cfg)
  }

  /** `Interpreter::halt` */
  function HaltWith(l: Local, r: InstructionResult): Local {
    if r.OutOfGas? then Forfeit(l) else l
  }

  /** The CALL family's charges, in order: input window, return window, value surcharge, the rest. */
  function CallCharges(s: CallSite): seq<Charge> {
    s.before
    + (if s.call.ret.len > 0 then [Expand(s.call.ret.start, s.call.ret.len)] else [])
    + (if Stipend(s.call) > 0 then [Regular(CALL_VALUE)] else [])
    + s.after
  }

  function Stipend(c: CallSpec): U64 { if c.moves && c.value > 0 then CALL_STIPEND else 0 }

  /** CREATE pays its EIP-8037 state gas up front. */
  function CreateCharges(s: CreateSite, cfg: Config): seq<Charge> {
    s.charges + if cfg.eip8037 then [State(cfg.createState)] else []
  }

  /** Runs an opcode that opens a child and takes the forwarded gas off, unscaled. */
  function ExecForward(staticGas: U64, cs: seq<Charge>, forward: U64, l: Local, cfg: Config): Exec {
    match ExecOpcode(staticGas, cs, l, cfg)
    case Halt(l1, r) => Halt(l1, r)
    case Ok(l1) =>
      var (g, ok) := RecordUnscaled(l1.gas, forward);
      if ok then Ok(l1.(gas := g)) else Halt(l1, OutOfGas)
  }

  /** What `run_plain` stops with. */
  datatype Pause =
    | Returned(result: InstructionResult, output: seq<Byte>, local: Local, world: World)
    | WantsCall(callSite: CallSite, callee: Callee, next: Code, local: Local, world: World)
    | WantsCreate(createSite: CreateSite, init: Code, next: Code, local: Local, world: World)

  /** `Interpreter::run_plain`: runs the code up to the next frame action. */
  function Interp(c: Code, l: Local, w: World, cfg: Config): (p: Pause)
    ensures p.WantsCall? ==> p.next < c && (p.callee.Contract? ==> p.callee.code < c)
    ensures p.WantsCreate? ==> p.next < c && p.init < c
    ensures p.WantsCall? ==>
      Size(p.next) + (if p.callee.Contract? then Size(p.callee.code) else 0) < Size(c)
    ensures p.WantsCreate? ==> Size(p.next) + Size(p.init) < Size(c)
    decreases c
  {
    var v := View(l, w);
    match c
    case End(result, output) => Returned(result, output(v), HaltWith(l, result), w)
    case If(test, yes, no) => if test(v) then Interp(yes, l, w, cfg) else Interp(no, l, w, cfg)
    case Step(op, next) =>
      (match ExecOpcode(op(v).staticGas, op(v).charges, l, cfg)
       case Halt(l1, r) => Returned(r, [], HaltWith(l1, r), w)
       case Ok(l1) => Interp(next, l1, if op(v).effect.Some? then Apply(op(v).effect.value, w) else w, cfg))
    case Call(site, callee, next) =>
      (match ExecForward(site(v).staticGas, CallCharges(site(v)), site(v).forward, l, cfg)
       case Halt(l1, r) => Returned(r, [], HaltWith(l1, r), w)
       case Ok(l1) => WantsCall(site(v), callee, next, l1, w))
    case Create(site, init, next) =>
      (match ExecForward(site(v).staticGas, CreateCharges(site(v), cfg), site(v).forward, l, cfg)
       case Halt(l1, r) => Returned(r, [], HaltWith(l1, r), w)
       case Ok(l1) => WantsCreate(site(v), init, next, l1, w))
  }

  // ---------------------------------------------------------------------------
  // Opening a child
  // ---------------------------------------------------------------------------

  /** `FrameData`, with what the frame's input contributes to its outcome. */
  datatype Kind =
    | CallKind(ret: Range, rawOffset: nat)
    | CreateKind(address: Address)

  datatype Reply =
    | CallReply(fromPrecompile: bool, ret: Range, rawOffset: nat)
    | CreateReply(address: Option<Address>)

  datatype Outcome = Outcome(
    result: InstructionResult, output: seq<Byte>, gas: Gas, ledger: Ledger, reply: Reply)

  datatype Frame = Frame(
    kind: Kind, code: Code, local: Local, depth: nat, halted: Option<InstructionResult>, finished: bool,
    mark: Mark)

  /** What a request for a child leads to: an immediate answer, or a frame to push
      together with the world its checkpoint would restore. */
  datatype Opened =
    | Inline(outcome: Outcome, world: World, nonce: nat)
    | Pushed(kind: Kind, code: Code, local: Local, snapshot: World, world: World, nonce: nat)

  function Answer(r: InstructionResult, start: Local, reply: Reply): Outcome {
    Outcome(r, [], start.gas.(factor := 0), start.ledger, reply)
  }

  /** `precompile_output_to_interpreter_result`, and TRON's two escaping exceptions. */
  function PrecompileOutcome(out: PrecompileOutput, start: Local, c: CallSpec): Outcome {
    var limit := start.gas.limit;
    var fits := out.gasUsed <= limit && (out.status.Success? || out.status.Reverted?);
    var gas :=
      if out.status.Threw? || out.status.TimedOut? then SpendAll(Fresh(limit, 0, 0))
      else Fresh(limit, out.reservoir, 0).(stateSpent := AsI64(out.stateGas), refunded := out.refunded,
                                           remaining := if fits then limit - out.gasUsed else 0,
                                           base := if fits || out.status.Success? || out.status.Reverted?
                                                   then out.gasUsed else 0);
    var result := match out.status
      case Success => if fits then Return else PrecompileOOG
      case Reverted => if fits then InstructionResult.Revert else PrecompileOOG
      case OutOfEnergy => PrecompileOOG
      case Failed => PrecompileError
      case Threw => PrecompileThrow
      case TimedOut => TronOutOfTime;
    Outcome(result, if fits then out.bytes else [], gas,
            start.ledger.(burned := start.ledger.burned + limit - gas.remaining,
                          kept := start.ledger.kept && out.stateGas <= I64_MAX
                                  && gas.reservoir + gas.stateSpent == start.ledger.given && InRange(gas)),
            CallReply(true, c.ret, c.rawOffset))
  }

  /** The TRON precompile guard: a value-bearing plain call whose target has no row. */
  predicate TransferWouldThrow(c: CallSpec, w: World, cfg: Config) {
    var trx := if c.moves then c.value else 0;
    && cfg.tron && c.plainCall && c.isPrecompile
    && (|| trx > I64_MAX
        || (&& (trx != 0 || c.tokenValue > 0)
            && (if c.tokenValue > 0 then c.tokenBalance >= c.tokenValue else Get(w.slots, Balance(c.caller)) >= trx)
            && !c.targetExists))
  }

  /** `make_call_frame` once the value has moved from `w` to `w1`: a precompile answers, an
      account without code answers, a contract gets a frame. */
  function EnterCallee(c: CallSpec, callee: Callee, start: Local, depth: nat, w: World, w1: World, nonce: nat): Opened {
    match callee
    case Precompile(body) =>
      var out := body(PrecompileInput(start.gas.limit, start.gas.reservoir, w1));
      var o := PrecompileOutcome(out, start, c);
      Inline(o, if IsOk(o.result) then ApplyAll(out.ops, w1) else w, nonce)
    case EmptyAccount =>
      Inline(Answer(Stop, start, CallReply(false, c.ret, c.rawOffset)), w1, nonce + if depth >= 1 then 1 else 0)
    case Contract(code) =>
      Pushed(CallKind(c.ret, c.rawOffset), code, start, w, w1, nonce + if depth >= 1 then 1 else 0)
  }

  /** The checks in front of a child. A refusal answers at once, with the world it leaves;
      an admission has moved the value (and, for a create, marked the new account). */
  datatype Admission =
    | Refused(result: InstructionResult, world: World)
    | Admitted(snapshot: World, world: World)

  function AdmitCall(c: CallSpec, depth: nat, w: World, cfg: Config): Admission {
    if depth > MAX_DEPTH then Refused(CallTooDeep, w)
    else if TransferWouldThrow(c, w, cfg) then Refused(TronPrecompileTransferFailure, w)
    else if !c.moves then Admitted(w, w)
    else
      var (moved, d) := Transfer(w.slots, c.caller, c.target, c.value);
      match moved
      case OutOfFunds => Refused(InstructionResult.OutOfFunds, w)
      case OverflowPayment => Refused(InstructionResult.OverflowPayment, World(d.slots, w.logs))
      case Moved => Admitted(w, World(d.slots, w.logs))
  }

  /** `make_call_frame`. Only the precompile guard's refusal counts as made by a precompile. */
  function OpenCall(c: CallSpec, callee: Callee, start: Local, depth: nat, w: World, nonce: nat, cfg: Config): Opened {
    match AdmitCall(c, depth, w, cfg)
    case Refused(r, w1) =>
      Inline(Answer(r, start, CallReply(r.TronPrecompileTransferFailure?, c.ret, c.rawOffset)), w1, nonce)
    case Admitted(snapshot, w1) => EnterCallee(c, callee, start, depth, snapshot, w1, nonce)
  }

  /** `make_create_frame` before its address is known to be free. */
  predicate CreateRefused(c: CreateSpec, depth: nat, w: World) {
    || depth > MAX_DEPTH
    || Get(w.slots, Balance(c.caller)) < c.value
    || Get(w.slots, Nonce(c.caller)) == U64_MAX
  }

  function CreateRefusal(c: CreateSpec, depth: nat, w: World): InstructionResult {
    if depth > MAX_DEPTH then CallTooDeep
    else if Get(w.slots, Balance(c.caller)) < c.value then InstructionResult.OutOfFunds
    else Return
  }

  /** The rest of it, in the world `w` in which the caller's nonce has been bumped. */
  function AdmitCreate(c: CreateSpec, a: Address, w: World, cfg: Config): Admission {
    if c.occupied(a) || Get(w.slots, Created(a)) != 0 then Refused(CreateCollision, w)
    else match CreateAccount(w.slots, c.caller, a, c.value, cfg.spurious)
      case None =>
        var collides := Get(w.slots, CodeOf(a)) != 0 || Get(w.slots, Nonce(a)) != 0;
        Refused(if collides then CreateCollision else InstructionResult.OverflowPayment, w)
      case Some(d) => Admitted(w, World(d.slots, w.logs))
  }

  /** `make_create_frame` for CREATE and CREATE2. The creation nonce moves on whether or not
      the address turns out to be free. */
  function OpenCreate(c: CreateSpec, init: Code, start: Local, depth: nat, w: World, nonce: nat, cfg: Config): Opened {
    if CreateRefused(c, depth, w) then
      Inline(Answer(CreateRefusal(c, depth, w), start, CreateReply(None)), w, nonce)
    else
      var a := c.address(nonce);
      match AdmitCreate(c, a, World(BumpNonce(w.slots, c.caller).slots, w.logs), cfg)
      case Refused(r, w1) => Inline(Answer(r, start, CreateReply(None)), w1, nonce + 1)
      case Admitted(snapshot, w1) => Pushed(CreateKind(a), init, start, snapshot, w1, nonce + 1)
  }

  // ---------------------------------------------------------------------------
  // Closing a frame
  // ---------------------------------------------------------------------------

  /** EIP-8037's part of `return_create`: hashing the code, then state gas for its bytes. */
  function DepositState(l: Local, code: seq<Byte>, cfg: Config): (InstructionResult, Local) {
    if !cfg.eip8037 then (Return, l)
    else
      var (l1, hashed) := PayRegular(l, SatMul(cfg.keccakWord, NumWords(|code|)));
      if !hashed then (OutOfGas, l1)
      else
        var (l2, stored) := PayState(l1, SatMul(cfg.codeDepositState, |code|));
        (if stored then Return else OutOfGas, l2)
  }

  /** The charges and checks of `return_create`, before it commits or reverts. */
  function Deposit(l: Local, output: seq<Byte>, cfg: Config): (InstructionResult, Local, seq<Byte>) {
    if cfg.spurious && |output| > cfg.maxCodeSize then (CreateContractSizeLimit, l, output)
    else if cfg.rejectEF && |output| > 0 && output[0] == 0xEF then (CreateContractStartingWithEF, l, output)
    else
      var price := SatMul(cfg.codeDeposit, |output|);
      var (g, paid) := RecordUnscaled(l.gas, price);
      if !paid && cfg.homestead then (OutOfGas, l, output)
      else
        var (l1, code) := if paid then (Burn(l.(gas := g), price), output) else (l, []);
        var (r, l2) := DepositState(l1, code, cfg);
        (r, l2, code)
  }

  /** An identifier for deployed bytecode; 0 is the empty code. */
  function CodeId(code: seq<Byte>): nat {
    if code == [] then 0 else 1 + code[0] + 256 * CodeId(code[1..])
  }

  /** `process_next_action` on a returned frame: the outcome, and the world that is left
      after its checkpoint was committed or reverted to `snapshot`. */
  function Close(kind: Kind, r: InstructionResult, output: seq<Byte>, l: Local, w: World, snapshot: World, cfg: Config)
    : (Outcome, World)
  {
    match kind
    case CallKind(ret, rawOffset) =>
      (Outcome(r, output, l.gas, l.ledger, CallReply(false, ret, rawOffset)), if IsOk(r) then w else snapshot)
    case CreateKind(a) =>
      if !IsOk(r) then (Outcome(r, output, l.gas, l.ledger, CreateReply(Some(a))), snapshot)
      else
        var (r1, l1, code) := Deposit(l, output, cfg);
        (Outcome(r1, code, l1.gas, l1.ledger, CreateReply(Some(a))),
         if IsOk(r1) then World(SetCode(w.slots, a, CodeId(code)).slots, w.logs) else snapshot)
  }

  // ---------------------------------------------------------------------------
  // Merging an outcome into the caller
  // ---------------------------------------------------------------------------

  /** The caller dies with the outcome: all it has and all it forwarded is gone. */
  function Kill(l: Local, o: Outcome, r: InstructionResult): Exec {
    Halt(Burn(Forfeit(l), o.gas.remaining + o.ledger.burned + o.ledger.spill), r)
  }

  /** `erase_cost` for a child that returns its gas, or forfeiture of what it had left. */
  function SettleRegular(l: Local, o: Outcome): Local {
    var back := if ReturnsGas(o.result) then o.gas.remaining else 0;
    l.(gas := l.gas.(remaining := Min(l.gas.remaining + back, U64_MAX)),
       ledger := l.ledger.(burned := l.ledger.burned + o.ledger.burned + o.gas.remaining - back,
                           spill := l.ledger.spill + o.ledger.spill))
  }

  /** `handle_reservoir_remaining_gas` */
  function SettleState(l: Local, o: Outcome): Local {
    var g :=
      if IsOk(o.result)
      then l.gas.(reservoir := o.gas.reservoir, stateSpent := SatSigned(l.gas.stateSpent, o.gas.stateSpent))
      else l.gas.(reservoir := SatAddSigned(o.gas.reservoir, o.gas.stateSpent));
    l.(gas := g, ledger := l.ledger.(kept := l.ledger.kept && o.ledger.kept && InRange(g)))
  }

  function SettleRefund(l: Local, o: Outcome): Local {
    if IsOk(o.result) then l.(gas := l.gas.(refunded := l.gas.refunded + o.gas.refunded)) else l
  }

  predicate Fits(memory: seq<Byte>, at: nat, data: seq<Byte>) { data == [] || at + |data| <= |memory| }

  /** `SharedMemory::set`. Outside the buffer the source's behaviour is undefined. */
  function Write(memory: seq<Byte>, at: nat, data: seq<Byte>): seq<Byte> {
    if data == [] || at + |data| > |memory| then memory
    else memory[..at] + data + memory[at + |data|..]
  }

  /** A precompile's output before proposal #94: written in full at the raw offset,
      growing memory and its price baseline for free. */
  function WriteFull(l: Local, o: Outcome, rawOffset: nat, cfg: Config): Exec {
    var at := rawOffset % 0x1_0000_0000;
    if o.output == [] then Ok(l)
    else if at >= 0x8000_0000 then Halt(Forfeit(l), PrecompileThrow)
    else if at + |o.output| > FREE_GROWTH_LIMIT then Halt(Forfeit(l), MemoryLimitOOG)
    else
      var words := NumWords(at + |o.output|);
      var l1 := if words > l.gas.words
                then l.(memory := Resize(l.memory, words * 32),
                        gas := l.gas.(words := words, memCost := MemoryCost(cfg, words)))
                else l;
      Ok(l1.(memory := Write(l1.memory, at, o.output)))
  }

  function WriteReturn(l: Local, o: Outcome, cfg: Config): Exec
    requires o.reply.CallReply?
  {
    if !ReturnsGas(o.result) then Ok(l)
    else if o.reply.fromPrecompile && cfg.fullOutputWrite then WriteFull(l, o, o.reply.rawOffset, cfg)
    else Ok(l.(memory := Write(l.memory, o.reply.ret.start, o.output[..Min(o.reply.ret.len, |o.output|)])))
  }

  /** `return_result` for a call */
  function MergeCall(l: Local, o: Outcome, cfg: Config): Exec
    requires o.reply.CallReply?
  {
    var l0 := l.(returnData := o.output);
    if o.result.TronOutOfTime?
       || (o.reply.fromPrecompile && (o.result.PrecompileThrow? || o.result.TronPrecompileTransferFailure?))
    then Kill(l0, o, o.result)
    else
      var l1 := SettleRegular(l0.(stack := l0.stack + [if IsOk(o.result) then 1 else 0]), o);
      match WriteReturn(l1, o, cfg)
      case Halt(l2, r) => Halt(l2, r)
      case Ok(l2) => Ok(SettleRefund(SettleState(l2, o), o))
  }

  function AddressWord(a: Option<Address>, cfg: Config): nat {
    (if a.Some? then a.value else 0) + if cfg.tron then ADDRESS_PREFIX else 0
  }

  /** `return_result` for a create */
  function MergeCreate(l: Local, o: Outcome, cfg: Config): Exec
    requires o.reply.CreateReply?
  {
    var l0 := l.(returnData := if o.result.Revert? then o.output else []);
    if o.result.TronOutOfTime? then Kill(l0, o, TronOutOfTime)
    else
      var l1 := SettleState(SettleRegular(l0, o), o);
      var failed := o.reply.address.None? || !IsOk(o.result);
      var l2 := if failed && cfg.eip8037 then RefillLocal(l1, cfg.createState) else l1;
      var word := if IsOk(o.result) then AddressWord(o.reply.address, cfg) else 0;
      Ok(SettleRefund(l2.(stack := l2.stack + [word]), o))
  }

  /** `EthFrame::return_result` */
  function Merge(l: Local, o: Outcome, cfg: Config): Exec {
    if o.reply.CallReply? then MergeCall(l, o, cfg) else MergeCreate(l, o, cfg)
  }
}
