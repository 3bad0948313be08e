/**
 The frame loop as the node runs it: frames in a pooled stack, the world behind an undo
 log, everything updated in place. Each method is proved against the functions of
 `Frames` and `Machines`, and the loop against the recursive meaning.
 */
module Evms {
  import opened Words
  import opened Results
  import opened Energy
  import opened Journals
  import opened FrameStacks
  import opened Frames
  import opened Machines
  import opened Laws
  import opened Runs

  // ---------------------------------------------------------------------------
  // Addresses under construction
  // ---------------------------------------------------------------------------

  /** The account is marked as created and its code has not been set. */
  predicate UnderConstruction(w: World, a: Address) {
    Get(w.slots, Created(a)) != 0 && Get(w.slots, CodeOf(a)) == 0
  }

  function Deployment(w: World, a: Address): (nat, nat) {
    (Get(w.slots, Created(a)), Get(w.slots, CodeOf(a)))
  }

  lemma ApplyKeepsDeployment(op: Op, w: World, a: Address)
    ensures Deployment(Apply(op, w), a) == Deployment(w, a)
  {
  }

  lemma {:induction false} ApplyAllKeepsDeployment(ops: seq<Op>, w: World, a: Address)
    ensures Deployment(ApplyAll(ops, w), a) == Deployment(w, a)
    decreases |ops|
  {
    if ops != [] {
      ApplyKeepsDeployment(ops[0], w, a);
      ApplyAllKeepsDeployment(ops[1..], Apply(ops[0], w), a);
    }
  }

  lemma {:induction false} InterpKeepsDeployment(c: Code, l: Local, w: World, cfg: Config, a: Address)
    ensures Deployment(Interp(c, l, w, cfg).world, a) == Deployment(w, a)
    decreases c
  {
    var v := View(l, w);
    match c
    case If(test, yes, no) =>
      InterpKeepsDeployment(if test(v) then yes else no, l, w, cfg, a);
    case Step(op, next) =>
      var e := ExecOpcode(op(v).staticGas, op(v).charges, l, cfg);
      if e.Ok? {
        var w1 := if op(v).effect.Some? then Apply(op(v).effect.value, w) else w;
        if op(v).effect.Some? { ApplyKeepsDeployment(op(v).effect.value, w, a); }
        InterpKeepsDeployment(next, e.local, w1, cfg, a);
      }
    case _ =>
  }

  lemma OpenCallKeepsDeployment(c: CallSpec, callee: Callee, start: Local, depth: nat, w: World, nonce: nat,
                                cfg: Config, a: Address)
    ensures var o := OpenCall(c, callee, start, depth, w, nonce, cfg);
            Deployment(o.world, a) == Deployment(w, a) && (o.Pushed? ==> o.snapshot == w)
  {
    var d := if c.moves then Transfer(w.slots, c.caller, c.target, c.value).1 else Delta(w.slots, []);
    var w1 := World(d.slots, w.logs);
    if callee.Precompile? {
      ApplyAllKeepsDeployment(callee.body(PrecompileInput(start.gas.limit, start.gas.reservoir, w1)).ops, w1, a);
    }
  }

  /** A new deployment never reuses an address that is under construction. */
  lemma OpenCreateKeepsDeployment(c: CreateSpec, init: Code, start: Local, depth: nat, w: World, nonce: nat,
                                  cfg: Config, a: Address)
    ensures var o := OpenCreate(c, init, start, depth, w, nonce, cfg);
            && (o.Inline? ==> Deployment(o.world, a) == Deployment(w, a))
            && (o.Pushed? ==>
                  && o.kind.CreateKind? && UnderConstruction(o.world, o.kind.address)
                  && Get(w.slots, Created(o.kind.address)) == 0
                  && Deployment(o.snapshot, a) == Deployment(w, a)
                  && (a != o.kind.address ==> Deployment(o.world, a) == Deployment(w, a)))
  {
  }

  predicate Pending(f: Frame, w: World) { f.kind.CreateKind? ==> UnderConstruction(w, f.kind.address) }

  predicate Apart(f: Frame, g: Frame) {
    f.kind.CreateKind? && g.kind.CreateKind? ==> f.kind.address != g.kind.address
  }

  /** Every create frame's account is under construction, now and in every world that a
      younger frame could go back to, so setting its code can be undone. */
  ghost predicate Deploying(m: Machine) {
    && |m.frames| == |m.snaps|
    && (forall k {:trigger Pending(m.frames[k], m.world)} | 0 <= k < |m.frames| :: Pending(m.frames[k], m.world))
    && (forall j, k {:trigger Pending(m.frames[j], m.snaps[k])} {:trigger Apart(m.frames[j], m.frames[k])}
          | 0 <= j < k < |m.frames| :: Pending(m.frames[j], m.snaps[k]) && Apart(m.frames[j], m.frames[k]))
  }

  lemma ActKeepsDeploying(m: Machine, cfg: Config)
    requires Deploying(m) && |m.frames| > 0
    ensures Deploying(m.(world := Act(m.frames[|m.frames| - 1], m.world, cfg).world))
  {
    var top := m.frames[|m.frames| - 1];
    var w := Act(top, m.world, cfg).world;
    forall k | 0 <= k < |m.frames| ensures Pending(m.frames[k], w) {
      assert Pending(m.frames[k], m.world);
      if m.frames[k].kind.CreateKind? && top.halted.None? {
        InterpKeepsDeployment(top.code, top.local, m.world, cfg, m.frames[k].kind.address);
      }
    }
  }

  /** Closing the top frame leaves the deployments below it under construction. */
  lemma CloseKeepsPending(f: Frame, top: Frame, r: Ran, snap: World, cfg: Config)
    requires Pending(f, r.world) && Pending(f, snap) && Apart(f, top)
    ensures Pending(f, Closed(top.kind, r, snap, cfg).world)
  {
  }

  /** `fs` is `gs` up to everything but the frames' kinds. */
  ghost predicate SameKinds(fs: seq<Frame>, gs: seq<Frame>) {
    |fs| == |gs| && forall k | 0 <= k < |fs| :: fs[k].kind == gs[k].kind
  }

  lemma DeployingAlike(m: Machine, fs: seq<Frame>, w: World, nonce: nat)
    requires Deploying(m) && SameKinds(m.frames, fs)
    requires forall k | 0 <= k < |m.frames| :: Pending(m.frames[k], w)
    ensures Deploying(Machine(fs, m.snaps, w, nonce))
  {
    forall j, k | 0 <= j < k < |fs| ensures Pending(fs[j], m.snaps[k]) && Apart(fs[j], fs[k]) {
      assert Pending(m.frames[j], m.snaps[k]) && Apart(m.frames[j], m.frames[k]);
    }
    forall k | 0 <= k < |fs| ensures Pending(fs[k], w) {
      assert Pending(m.frames[k], w);
    }
  }

  lemma BackKeepsDeploying(m: Machine, f: Final, cfg: Config)
    requires Deploying(m) && |m.frames| > 0
    requires forall k | 0 <= k < |m.frames| - 1 :: Pending(m.frames[k], f.world)
    ensures var n := |m.frames| - 1;
            var t := Back(m.frames[..n], m.snaps[..n], f, cfg);
            t.Running? ==> Deploying(t.machine)
  {
    var n := |m.frames| - 1;
    if n > 0 {
      var m1 := Machine(m.frames[..n], m.snaps[..n], m.world, m.nonce);
      forall j, k | 0 <= j < k < n ensures Pending(m1.frames[j], m1.snaps[k]) && Apart(m1.frames[j], m1.frames[k]) {
        assert Pending(m.frames[j], m.snaps[k]) && Apart(m.frames[j], m.frames[k]);
      }
      DeployingAlike(m1, Back(m.frames[..n], m.snaps[..n], f, cfg).machine.frames, f.world, f.nonce);
    }
  }

  lemma ReturnKeepsDeploying(m: Machine, r: Ran, cfg: Config)
    requires Deploying(m) && |m.frames| > 0 && m.world == r.world
    ensures var n := |m.frames| - 1;
            var t := Back(m.frames[..n], m.snaps[..n], Closed(m.frames[n].kind, r, m.snaps[n], cfg), cfg);
            t.Running? ==> Deploying(t.machine)
  {
    var n := |m.frames| - 1;
    var f := Closed(m.frames[n].kind, r, m.snaps[n], cfg);
    forall k | 0 <= k < n ensures Pending(m.frames[k], f.world) {
      assert Pending(m.frames[k], m.world);
      assert Pending(m.frames[k], m.snaps[n]) && Apart(m.frames[k], m.frames[n]);
      CloseKeepsPending(m.frames[k], m.frames[n], r, m.snaps[n], cfg);
    }
    BackKeepsDeploying(m, f, cfg);
  }

  lemma DeployingPush(m: Machine, child: Frame, snap: World, w: World, nonce: nat)
    requires Deploying(m) && Pending(child, w)
    requires forall k | 0 <= k < |m.frames| ::
               Pending(m.frames[k], w) && Pending(m.frames[k], snap) && Apart(m.frames[k], child)
    ensures Deploying(Machine(m.frames + [child], m.snaps + [snap], w, nonce))
  {
    var m' := Machine(m.frames + [child], m.snaps + [snap], w, nonce);
    forall j, k | 0 <= j < k < |m'.frames| ensures Pending(m'.frames[j], m'.snaps[k]) && Apart(m'.frames[j], m'.frames[k]) {
      assert Pending(m.frames[j], w) && Apart(m.frames[j], child);
      if k < |m.frames| { assert Pending(m.frames[j], m.snaps[k]) && Apart(m.frames[j], m.frames[k]); }
    }
    forall k | 0 <= k < |m'.frames| ensures Pending(m'.frames[k], w) {
      if k < |m.frames| { assert Pending(m.frames[k], w); }
    }
  }

  /** `o` leaves the deployment of `f` alone, and brings one of its own at most. */
  ghost predicate Spares(f: Frame, o: Opened, depth: nat, mark: Mark) {
    && Pending(f, o.world)
    && (o.Pushed? ==>
          && Pending(f, o.snapshot) && Apart(f, NewFrame(o, depth, mark))
          && Pending(NewFrame(o, depth, mark), o.world))
  }

  lemma PushKeepsDeploying(m: Machine, waiting: Frame, o: Opened, mark: Mark)
    requires Deploying(m) && |m.frames| > 0 && o.Pushed?
    requires waiting.kind == m.frames[|m.frames| - 1].kind
    requires forall k | 0 <= k < |m.frames| :: Spares(m.frames[k], o, waiting.depth + 1, mark)
    ensures Deploying(Machine(m.frames[..|m.frames| - 1] + [waiting] + [NewFrame(o, waiting.depth + 1, mark)],
                              m.snaps + [o.snapshot], o.world, o.nonce))
  {
    var n := |m.frames| - 1;
    var depth := waiting.depth + 1;
    forall k | 0 <= k <= n ensures Pending(m.frames[k], o.world) {
      assert Spares(m.frames[k], o, depth, mark);
    }
    DeployingAlike(m, m.frames[..n] + [waiting], o.world, o.nonce);
    var m1 := Machine(m.frames[..n] + [waiting], m.snaps, o.world, o.nonce);
    forall k | 0 <= k <= n
      ensures Pending(m1.frames[k], o.world) && Pending(m1.frames[k], o.snapshot)
      ensures Apart(m1.frames[k], NewFrame(o, depth, mark))
    {
      assert m1.frames[k].kind == m.frames[k].kind && Spares(m.frames[k], o, depth, mark);
    }
    assert Spares(m.frames[n], o, depth, mark);
    DeployingPush(m1, NewFrame(o, depth, mark), o.snapshot, o.world, o.nonce);
  }

  lemma AnsweredKeepsDeploying(m: Machine, p: Pause, o: Opened, mark: Mark, cfg: Config)
    requires Deploying(m) && |m.frames| > 0 && !p.Returned?
    requires forall k | 0 <= k < |m.frames| :: Spares(m.frames[k], o, m.frames[|m.frames| - 1].depth + 1, mark)
    ensures Deploying(Answered(m.frames, m.snaps, p, o, mark, cfg))
  {
    var n := |m.frames| - 1;
    var waiting := m.frames[n].(code := p.next, local := p.local);
    if o.Inline? {
      forall k | 0 <= k <= n ensures Pending(m.frames[k], o.world) {
        assert Spares(m.frames[k], o, m.frames[n].depth + 1, mark);
      }
      AbsorbKeeps(waiting, o.outcome, cfg);
      DeployingAlike(m, m.frames[..n] + [Absorb(waiting, o.outcome, cfg)], o.world, o.nonce);
    } else {
      PushKeepsDeploying(m, waiting, o, mark);
    }
  }

  /** What a request may do to an account that is under construction: nothing. */
  lemma RequestSpares(f: Frame, p: Pause, depth: nat, nonce: nat, mark: Mark, cfg: Config)
    requires !p.Returned? && Pending(f, p.world)
    ensures Spares(f, Request(p, depth, nonce, cfg), depth + 1, mark)
  {
    var a := if f.kind.CreateKind? then f.kind.address else 0;
    var reservoir := p.local.gas.reservoir;
    if p.WantsCall? {
      var s := p.callSite;
      OpenCallKeepsDeployment(s.call, p.callee, Start(s.forward, SatAdd(s.forward, Stipend(s.call)), reservoir, s.call.factor),
                              depth + 1, p.world, nonce, cfg, a);
    } else {
      var s := p.createSite;
      OpenCreateKeepsDeployment(s.create, p.init, Start(s.forward, s.forward, reservoir, 0),
                                depth + 1, p.world, nonce, cfg, a);
    }
  }

  lemma RequestKeepsDeploying(m: Machine, p: Pause, mark: Mark, cfg: Config)
    requires Deploying(m) && |m.frames| > 0 && !p.Returned? && p.world == m.world
    ensures Deploying(Asked(m.frames, m.snaps, m.nonce, p, mark, cfg))
  {
    var depth := m.frames[|m.frames| - 1].depth;
    var o := Request(p, depth, m.nonce, cfg);
    forall k | 0 <= k < |m.frames| ensures Spares(m.frames[k], o, depth + 1, mark) {
      assert Pending(m.frames[k], m.world);
      RequestSpares(m.frames[k], p, depth, m.nonce, mark, cfg);
    }
    AnsweredKeepsDeploying(m, p, o, mark, cfg);
  }

  /** The code of a contract is only ever set while its undo, which empties it, is right. */
  lemma TurnKeepsDeploying(m: Machine, mark: Mark, cfg: Config)
    requires Deploying(m) && |m.frames| > 0
    ensures Turn(m, mark, cfg).Running? ==> Deploying(Turn(m, mark, cfg).machine)
  {
    var p := Act(m.frames[|m.frames| - 1], m.world, cfg);
    ActKeepsDeploying(m, cfg);
    if p.Returned? {
      ReturnTurn(m, p, mark, cfg);
      ReturnKeepsDeploying(m.(world := p.world), Ran(p.result, p.output, p.local, p.world, m.nonce), cfg);
    } else {
      RequestTurn(m, p, mark, cfg);
      RequestKeepsDeploying(m.(world := p.world), p, mark, cfg);
    }
  }

  lemma AbsorbKeeps(f: Frame, o: Outcome, cfg: Config)
    ensures var g := Absorb(f, o, cfg);
            g.kind == f.kind && g.mark == f.mark && g.depth == f.depth && g.finished == f.finished
  {
  }

  // ---------------------------------------------------------------------------
  // The first frame
  // ---------------------------------------------------------------------------

  /** The transaction's own call or create, at depth 0. */
  datatype First = FirstCall(call: CallSpec, callee: Callee) | FirstCreate(create: CreateSpec, init: Code)

  function OpenFirst(first: First, start: Local, w: World, nonce: nat, cfg: Config): Opened {
    match first
    case FirstCall(c, callee) => OpenCall(c, callee, start, 0, w, nonce, cfg)
    case FirstCreate(c, init) => OpenCreate(c, init, start, 0, w, nonce, cfg)
  }

  function FirstState(o: Opened, mark: Mark): Machine
    requires o.Pushed?
  {
    Machine([NewFrame(o, 0, mark)], [o.snapshot], o.world, o.nonce)
  }

  /** The loop starts with the books in order and means what the recursion computes. */
  lemma FirstSane(first: First, limit: U64, reservoir: U64, factor: Factor, w: World, nonce: nat, mark: Mark, cfg: Config)
    ensures var start := Start(limit, limit, reservoir, factor);
            var o := OpenFirst(first, start, w, nonce, cfg);
            && (o.Inline? ==> AnswersRoot(o.outcome, start))
            && (o.Pushed? ==> Sane(FirstState(o, mark), start, cfg))
  {
    var start := Start(limit, limit, reservoir, factor);
    StartSettled(limit, limit, reservoir, factor);
    match first
    case FirstCall(c, callee) => OpenCallAnswers(c, callee, start, 0, w, nonce, cfg);
    case FirstCreate(c, init) => OpenCreateAnswers(c, init, start, 0, w, nonce, cfg);
  }

  lemma FirstDeploying(first: First, start: Local, w: World, nonce: nat, mark: Mark, cfg: Config)
    requires OpenFirst(first, start, w, nonce, cfg).Pushed?
    ensures Deploying(FirstState(OpenFirst(first, start, w, nonce, cfg), mark))
  {
    if first.FirstCreate? { OpenCreateKeepsDeployment(first.create, first.init, start, 0, w, nonce, cfg, 0); }
  }

  lemma FirstMeaning(o: Opened, mark: Mark, cfg: Config)
    requires o.Pushed?
    ensures var m := FirstState(o, mark);
            Meaning(m.frames, m.snaps, m.world, m.nonce, cfg) == Evaluate(o, 0, cfg)
  {
  }

  // ---------------------------------------------------------------------------
  // The machine
  // ---------------------------------------------------------------------------

  class Evm {
    const stack: FrameStack<Frame>
    const journal: Journal
    const cfg: Config
    var nonce: nat

    /** Frame k holds the k-th open checkpoint. */
    ghost predicate Valid()
      reads this, stack, journal
    {
      && stack.Valid() && journal.Valid()
      && |stack.Contents()| == |journal.marks|
      && (forall k | 0 <= k < |journal.marks| :: stack.Contents()[k].mark == journal.marks[k])
    }

    /** As `Valid`, with one more checkpoint open than there are frames. */
    ghost predicate Behind()
      reads this, stack, journal
    {
      && stack.Valid() && journal.Valid()
      && |stack.Contents()| + 1 == |journal.marks|
      && (forall k | 0 <= k < |journal.marks| - 1 :: stack.Contents()[k].mark == journal.marks[k])
    }

    ghost function State(): Machine
      requires stack.Valid()
      reads this, stack, journal
    {
      Machine(stack.Contents(), journal.snaps, journal.Now(), nonce)
    }

    constructor (cfg: Config, world: World, nonce: nat)
      requires Supply(world.slots) <= U256_MAX
      ensures Valid() && fresh(stack) && fresh(journal) && this.cfg == cfg
      ensures stack.index.None? && State() == Machine([], [], world, nonce) && !journal.transferFailed
    {
      this.cfg, this.nonce := cfg, nonce;
      stack := new FrameStack<Frame>();
      journal := new Journal(world);
    }

    /** `Interpreter::run_plain`, with journal effects made in place. */
    method RunPlain(code: Code, local: Local) returns (p: Pause)
      requires journal.Valid()
      modifies journal
      ensures p == Interp(code, local, old(journal.Now()), cfg)
      ensures journal.Valid() && journal.Now() == p.world && journal.transferFailed == old(journal.transferFailed)
      ensures journal.snaps == old(journal.snaps) && journal.marks == old(journal.marks)
    {
      var c, l := code, local;
      while true
        invariant Interp(c, l, journal.Now(), cfg) == Interp(code, local, old(journal.Now()), cfg)
        invariant journal.Valid() && journal.transferFailed == old(journal.transferFailed)
        invariant journal.snaps == old(journal.snaps) && journal.marks == old(journal.marks)
        decreases c
      {
        var w := journal.Now();
        var v := View(l, w);
        match c
        case End(result, output) =>
          return Returned(result, output(v), HaltWith(l, result), w);
        case If(test, yes, no) =>
          c := if test(v) then yes else no;
        case Step(op, next) =>
          var opcode := op(v);
          match ExecOpcode(opcode.staticGas, opcode.charges, l, cfg) {
            case Halt(l1, r) => return Returned(r, [], HaltWith(l1, r), w);
            case Ok(l1) =>
              if opcode.effect.Some? {
                journal.Perform(opcode.effect.value);
              }
              c, l := next, l1;
          }
        case Call(site, callee, next) =>
          var s := site(v);
          match ExecForward(s.staticGas, CallCharges(s), s.forward, l, cfg) {
            case Halt(l1, r) => return Returned(r, [], HaltWith(l1, r), w);
            case Ok(l1) => return WantsCall(s, callee, next, l1, w);
          }
        case Create(site, init, next) =>
          var s := site(v);
          match ExecForward(s.staticGas, CreateCharges(s, cfg), s.forward, l, cfg) {
            case Halt(l1, r) => return Returned(r, [], HaltWith(l1, r), w);
            case Ok(l1) => return WantsCreate(s, init, next, l1, w);
          }
      }
    }

    /** The stack half of `frame_init`: the first frame starts the stack, others go on top. */
    method Install(frame: Frame)
      requires stack.Valid()
      modifies stack
      ensures stack.Valid() && stack.Contents() == old(stack.Contents()) + [frame]
    {
      if stack.index.None? {
        var out := stack.StartInit();
        var token := stack.Fill(out, frame);
        stack.EndInit(token);
      } else {
        var out := stack.GetNext();
        var token := stack.Fill(out, frame);
        stack.Push(token);
      }
    }

    /** A frame that takes the checkpoint opened for it. */
    method InstallBehind(frame: Frame)
      requires Behind() && frame.mark == journal.marks[journal.depth - 1]
      modifies stack
      ensures Valid() && stack.Contents() == old(stack.Contents()) + [frame]
    {
      Install(frame);
    }

    /** The machine after `frame_init` has dealt with a request: answered or pushed. */
    ghost predicate Initialised(o: Opened, depth: nat, before: Machine, r: Option<Outcome>)
      requires stack.Valid()
      reads this, stack, journal
    {
      if o.Inline? then
        r == Some(o.outcome) && State() == before.(world := o.world, nonce := o.nonce)
      else
        && r.None? && |journal.marks| > 0
        && State() == Machine(before.frames + [NewFrame(o, depth, journal.marks[|journal.marks| - 1])],
                              before.snaps + [o.snapshot], o.world, o.nonce)
    }

    /** Runs a precompile behind its open checkpoint, and commits or reverts. */
    method RunPrecompile(c: CallSpec, body: PrecompileInput -> PrecompileOutput, start: Local, mark: Mark)
      returns (o: Outcome)
      requires journal.Valid() && journal.depth > 0 && mark == journal.marks[journal.depth - 1]
      modifies journal
      ensures journal.Valid() && journal.transferFailed == old(journal.transferFailed)
      ensures Inline(o, journal.Now(), nonce)
              == EnterCallee(c, Precompile(body), start, 0, old(journal.snaps[journal.depth - 1]),
                             old(journal.Now()), nonce)
      ensures journal.snaps == old(journal.snaps[..journal.depth - 1])
      ensures journal.marks == old(journal.marks[..journal.depth - 1])
    {
      var out := body(PrecompileInput(start.gas.limit, start.gas.reservoir, journal.Now()));
      o := PrecompileOutcome(out, start, c);
      journal.PerformAll(out.ops);
      if IsOk(o.result) {
        journal.CheckpointCommit();
      } else {
        journal.CheckpointRevert(mark);
      }
    }

    /** An account with code gets a frame. */
    method EnterContract(c: CallSpec, code: Code, start: Local, depth: nat, mark: Mark)
      requires Behind() && mark == journal.marks[journal.depth - 1]
      modifies this, stack
      ensures Valid() && nonce == old(nonce) + if depth >= 1 then 1 else 0
      ensures stack.Contents()
              == old(stack.Contents()) + [Frame(CallKind(c.ret, c.rawOffset), code, start, depth, None, false, mark)]
    {
      if depth >= 1 {
        nonce := nonce + 1;
      }
      InstallBehind(Frame(CallKind(c.ret, c.rawOffset), code, start, depth, None, false, mark));
    }

    /** An account without code answers. */
    method EnterEmpty(c: CallSpec, start: Local, depth: nat) returns (o: Outcome)
      requires Behind()
      modifies this, journal
      ensures Valid() && nonce == old(nonce) + if depth >= 1 then 1 else 0
      ensures o == Answer(Stop, start, CallReply(false, c.ret, c.rawOffset))
      ensures journal.Now() == old(journal.Now()) && journal.transferFailed == old(journal.transferFailed)
      ensures journal.snaps == old(journal.snaps[..journal.depth - 1])
      ensures journal.marks == old(journal.marks[..journal.depth - 1])
    {
      if depth >= 1 {
        nonce := nonce + 1;
      }
      journal.CheckpointCommit();
      o := Answer(Stop, start, CallReply(false, c.ret, c.rawOffset));
    }

    /** The last part of `make_call_frame`, behind its open checkpoint. */
    method EnterFrame(c: CallSpec, callee: Callee, start: Local, depth: nat, mark: Mark) returns (r: Option<Outcome>)
      requires Behind() && mark == journal.marks[journal.depth - 1]
      modifies this, stack, journal
      ensures Valid() && journal.transferFailed == old(journal.transferFailed)
      ensures Initialised(EnterCallee(c, callee, start, depth, old(journal.snaps[journal.depth - 1]),
                                      old(journal.Now()), old(nonce)),
                          depth, old(State().(snaps := journal.snaps[..journal.depth - 1])), r)
    {
      if callee.Precompile? {
        var o := RunPrecompile(c, callee.body, start, mark);
        return Some(o);
      }
      if callee.EmptyAccount? {
        var o := EnterEmpty(c, start, depth);
        return Some(o);
      }
      EnterContract(c, callee.code, start, depth, mark);
      r := None;
    }

    /** The checks of `make_call_frame`; the checkpoint stays open only on admission. */
    method Admit(c: CallSpec, depth: nat) returns (a: Admission, mark: Mark)
      requires journal.Valid()
      modifies journal
      ensures journal.Valid() && journal.transferFailed == old(journal.transferFailed)
      ensures a == AdmitCall(c, depth, old(journal.Now()), cfg) && journal.Now() == a.world
      ensures a.Refused? ==> journal.snaps == old(journal.snaps) && journal.marks == old(journal.marks)
      ensures a.Admitted? ==>
        && a.snapshot == old(journal.Now())
        && journal.snaps == old(journal.snaps) + [a.snapshot] && journal.marks == old(journal.marks) + [mark]
    {
      mark := Mark(0, 0);
      if depth > MAX_DEPTH {
        return Refused(CallTooDeep, journal.Now()), mark;
      }
      var before := journal.Now();
      mark := journal.Checkpoint();
      if TransferWouldThrow(c, journal.Now(), cfg) {
        journal.CheckpointRevert(mark);
        return Refused(TronPrecompileTransferFailure, journal.Now()), mark;
      }
      if c.moves {
        var (moved, d) := Transfer(journal.slots, c.caller, c.target, c.value);
        TransferKeepsSupply(journal.slots, c.caller, c.target, c.value);
        if moved.OutOfFunds? {
          journal.CheckpointRevert(mark);
          return Refused(InstructionResult.OutOfFunds, journal.Now()), mark;
        }
        TransferReversible(journal.slots, c.caller, c.target, c.value);
        journal.Record(d, []);
      }
      a := Admitted(before, journal.Now());
    }

    method MakeCallFrame(c: CallSpec, callee: Callee, start: Local, depth: nat) returns (r: Option<Outcome>)
      requires Valid()
      modifies this, stack, journal
      ensures Valid() && journal.transferFailed == old(journal.transferFailed)
      ensures Initialised(OpenCall(c, callee, start, depth, old(journal.Now()), old(nonce), cfg), depth, old(State()), r)
    {
      var a, mark := Admit(c, depth);
      if a.Refused? {
        return Some(Answer(a.result, start, CallReply(a.result.TronPrecompileTransferFailure?, c.ret, c.rawOffset)));
      }
      r := EnterFrame(c, callee, start, depth, mark);
    }

    /** `make_create_frame` from the nonce bump to the checkpoint. */
    method AdmitNew(c: CreateSpec, a: Address) returns (admission: Admission, mark: Mark)
      requires journal.Valid() && Get(journal.slots, Nonce(c.caller)) != U64_MAX
      requires c.value <= Get(journal.slots, Balance(c.caller))
      modifies journal
      ensures journal.Valid() && journal.transferFailed == old(journal.transferFailed)
      ensures admission == AdmitCreate(c, a, World(BumpNonce(old(journal.slots), c.caller).slots, old(journal.logs)), cfg)
      ensures journal.Now() == admission.world
      ensures admission.Refused? ==> journal.snaps == old(journal.snaps) && journal.marks == old(journal.marks)
      ensures admission.Admitted? ==>
        && journal.snaps == old(journal.snaps) + [admission.snapshot]
        && journal.marks == old(journal.marks) + [mark]
    {
      mark := Mark(0, 0);
      BumpReversible(journal.slots, c.caller);
      SupplyPut(journal.slots, Nonce(c.caller), Get(journal.slots, Nonce(c.caller)) + 1);
      journal.Record(BumpNonce(journal.slots, c.caller), []);
      var before := journal.Now();
      if c.occupied(a) || Get(journal.slots, Created(a)) != 0 || a == c.caller {
        return Refused(CreateCollision, before), mark;
      }
      CreateKeepsSupply(journal.slots, c.caller, a, c.value, cfg.spurious);
      var m := journal.CreateAccountCheckpoint(c.caller, a, c.value, cfg.spurious);
      if m.None? {
        return Refused(CreateCollision, before), mark;
      }
      admission, mark := Admitted(before, journal.Now()), m.value;
    }

    method MakeCreateFrame(c: CreateSpec, init: Code, start: Local, depth: nat) returns (r: Option<Outcome>)
      requires Valid()
      modifies this, stack, journal
      ensures Valid() && journal.transferFailed == old(journal.transferFailed)
      ensures Initialised(OpenCreate(c, init, start, depth, old(journal.Now()), old(nonce), cfg), depth, old(State()), r)
    {
      if CreateRefused(c, depth, journal.Now()) {
        return Some(Answer(CreateRefusal(c, depth, journal.Now()), start, CreateReply(None)));
      }
      var a := c.address(nonce);
      nonce := nonce + 1;
      var admission, mark := AdmitNew(c, a);
      if admission.Refused? {
        return Some(Answer(admission.result, start, CreateReply(None)));
      }
      InstallBehind(Frame(CreateKind(a), init, start, depth, None, false, mark));
      r := None;
    }

    /** `return_create`: deposit, then commit and set the code, or revert. */
    method ReturnCreate(a: Address, mark: Mark, result: InstructionResult, output: seq<Byte>, local: Local)
      returns (o: Outcome)
      requires journal.Valid() && journal.depth > 0 && mark == journal.marks[journal.depth - 1]
      requires Get(journal.slots, CodeOf(a)) == 0
      modifies journal
      ensures journal.Valid() && journal.transferFailed == old(journal.transferFailed)
      ensures (o, journal.Now()) == Close(CreateKind(a), result, output, local, old(journal.Now()),
                                          old(journal.snaps[journal.depth - 1]), cfg)
      ensures journal.snaps == old(journal.snaps[..journal.depth - 1])
      ensures journal.marks == old(journal.marks[..journal.depth - 1])
    {
      if !IsOk(result) {
        journal.CheckpointRevert(mark);
        return Outcome(result, output, local.gas, local.ledger, CreateReply(Some(a)));
      }
      var (r, l, code) := Deposit(local, output, cfg);
      o := Outcome(r, code, l.gas, l.ledger, CreateReply(Some(a)));
      if !IsOk(r) {
        journal.CheckpointRevert(mark);
        return;
      }
      journal.CheckpointCommit();
      assert journal.logs + [] == journal.logs;
      SetCodeReversible(journal.slots, a, CodeId(code));
      SupplyPut(journal.slots, CodeOf(a), CodeId(code));
      journal.Record(SetCode(journal.slots, a, CodeId(code)), []);
    }

    /** `process_next_action` on a returned frame: commit or revert. */
    method ProcessReturn(kind: Kind, mark: Mark, result: InstructionResult, output: seq<Byte>, local: Local)
      returns (o: Outcome)
      requires journal.Valid() && journal.depth > 0 && mark == journal.marks[journal.depth - 1]
      requires kind.CreateKind? ==> Get(journal.slots, CodeOf(kind.address)) == 0
      modifies journal
      ensures journal.Valid() && journal.transferFailed == old(journal.transferFailed)
      ensures Final(o, journal.Now(), nonce)
              == Closed(kind, Ran(result, output, local, old(journal.Now()), nonce),
                        old(journal.snaps[journal.depth - 1]), cfg)
      ensures journal.snaps == old(journal.snaps[..journal.depth - 1])
      ensures journal.marks == old(journal.marks[..journal.depth - 1])
    {
      if kind.CreateKind? {
        o := ReturnCreate(kind.address, mark, result, output, local);
        return;
      }
      if IsOk(result) {
        journal.CheckpointCommit();
      } else {
        journal.CheckpointRevert(mark);
      }
      o := Outcome(result, output, local.gas, local.ledger, CallReply(false, kind.ret, kind.rawOffset));
    }

    /** `frame_run` without `process_next_action`: a frame halted from outside is not stepped. */
    method RunTop() returns (p: Pause)
      requires Valid() && stack.index.Some?
      modifies journal
      ensures p == Act(stack.Contents()[|stack.Contents()| - 1], old(journal.Now()), cfg)
      ensures Valid() && journal.Now() == p.world && journal.transferFailed == old(journal.transferFailed)
      ensures journal.snaps == old(journal.snaps) && journal.marks == old(journal.marks)
    {
      var top := stack.Get();
      if top.halted.None? {
        p := RunPlain(top.code, top.local);
      } else {
        p := Returned(top.halted.value, [], top.local, journal.Now());
      }
    }

    /** `frame_init` for the request of a paused frame. */
    method FrameInit(p: Pause, depth: nat) returns (r: Option<Outcome>, ghost o: Opened)
      requires Valid() && !p.Returned? && p.world == journal.Now()
      modifies this, stack, journal
      ensures Valid() && journal.transferFailed == old(journal.transferFailed)
      ensures o == Request(p, depth, old(nonce), cfg) && Initialised(o, depth + 1, old(State()), r)
    {
      o := Request(p, depth, nonce, cfg);
      var reservoir := p.local.gas.reservoir;
      if p.WantsCall? {
        var s := p.callSite;
        r := MakeCallFrame(s.call, p.callee,
                           Start(s.forward, SatAdd(s.forward, Stipend(s.call)), reservoir, s.call.factor), depth + 1);
      } else {
        var s := p.createSite;
        r := MakeCreateFrame(s.create, p.init, Start(s.forward, s.forward, reservoir, 0), depth + 1);
      }
    }

    /** The machine after a turn of the loop. */
    ghost predicate TurnedInto(t: Turned, failedBefore: bool, r: Option<Outcome>)
      requires stack.Valid()
      reads this, stack, journal
    {
      if t.Done? then
        && r == Some(t.final.outcome) && journal.Now() == t.final.world && nonce == t.final.nonce
        && stack.index.None? && journal.depth == 0
        && journal.transferFailed == (failedBefore || t.final.outcome.result.TransferFailed?)
      else
        r.None? && State() == t.machine && journal.transferFailed == failedBefore
    }

    /** Pops the top frame if it is finished; its checkpoint is closed already. */
    method PopFinished()
      requires stack.Valid() && stack.index.Some? && journal.Valid()
      requires var fs := stack.Contents();
               && |fs| == |journal.marks| + (if fs[|fs| - 1].finished then 1 else 0)
               && forall k | 0 <= k < |journal.marks| :: fs[k].mark == journal.marks[k]
      modifies stack
      ensures Valid() && stack.Contents() == old(stack.Contents())[..|journal.marks|]
    {
      var top := stack.Get();
      if top.finished {
        stack.Pop();
      } else {
        assert stack.Contents()[..|journal.marks|] == stack.Contents();
      }
    }

    /** `EthFrame::return_result` on the frame that is on top now. */
    method ReturnResult(o: Outcome)
      requires Valid() && stack.index.Some?
      modifies stack
      ensures Valid() && stack.index.Some?
      ensures stack.Contents() == old(stack.Contents())[..|journal.marks| - 1]
                                  + [Absorb(old(stack.Contents())[|journal.marks| - 1], o, cfg)]
    {
      var parent := stack.Get();
      AbsorbKeeps(parent, o, cfg);
      stack.Set(Absorb(parent, o, cfg));
    }

    /** `frame_return_result`: a finished frame is popped; popping the root ends the loop, and
        alone decides the transfer-failed flag. */
    method FrameReturnResult(o: Outcome) returns (r: Option<Outcome>)
      requires stack.Valid() && stack.index.Some? && journal.Valid()
      requires var fs := stack.Contents();
               && |fs| == |journal.marks| + (if fs[|fs| - 1].finished then 1 else 0)
               && forall k | 0 <= k < |journal.marks| :: fs[k].mark == journal.marks[k]
      modifies stack, journal
      ensures Valid()
      ensures TurnedInto(Back(old(stack.Contents()[..|journal.marks|]), old(journal.snaps),
                              Final(o, old(journal.Now()), nonce), cfg),
                         old(journal.transferFailed), r)
    {
      PopFinished();
      if stack.index.None? {
        if o.result.TransferFailed? {
          journal.MarkTransferFailed();
        }
        return Some(o);
      }
      ReturnResult(o);
      r := None;
    }

    /** The top frame is done. */
    method ReturnFrom(p: Pause) returns (r: Option<Outcome>)
      requires Valid() && stack.index.Some? && p.Returned? && journal.Now() == p.world
      requires Pending(stack.Contents()[|stack.Contents()| - 1], p.world)
      modifies stack, journal
      ensures Valid()
      ensures var m := old(State());
              var n := |m.frames| - 1;
              TurnedInto(Back(m.frames[..n], m.snaps[..n],
                              Closed(m.frames[n].kind, Ran(p.result, p.output, p.local, p.world, m.nonce), m.snaps[n], cfg),
                              cfg),
                         old(journal.transferFailed), r)
    {
      var top := stack.Get();
      var o := ProcessReturn(top.kind, top.mark, p.result, p.output, p.local);
      stack.Set(top.(finished := true));
      assert stack.Contents()[..|journal.marks|] == old(stack.Contents()[..|journal.marks| - 1]);
      r := FrameReturnResult(o);
    }

    /** The second half of a turn in which `frame_init` opened `o` for the suspended top frame
        of `m`: an answer that needed no frame is merged at once. */
    method MergeAnswer(r: Option<Outcome>, ghost o: Opened, ghost m: Machine, ghost p: Pause, ghost before: Machine)
      returns (ghost mark: Mark)
      requires Valid() && 0 < |m.frames| == |m.snaps| && !p.Returned?
      requires before.frames == m.frames[..|m.frames| - 1]
                                + [m.frames[|m.frames| - 1].(code := p.next, local := p.local)]
      requires before.snaps == m.snaps && !m.frames[|m.frames| - 1].finished
      requires Initialised(o, m.frames[|m.frames| - 1].depth + 1, before, r)
      modifies stack, journal
      ensures Valid() && stack.index.Some? && journal.transferFailed == old(journal.transferFailed)
      ensures State() == Answered(m.frames, m.snaps, p, o, mark, cfg)
    {
      mark := if r.Some? then Mark(0, 0) else journal.marks[|journal.marks| - 1];
      assert before.frames[..|m.frames| - 1] == m.frames[..|m.frames| - 1];
      if r.Some? {
        assert before.frames[..|journal.marks|] == before.frames;
        var ended := FrameReturnResult(r.value);
      }
    }

    /** The top frame will go on with `next` once it has an answer. */
    method Suspend(next: Code, local: Local) returns (depth: nat)
      requires Valid() && stack.index.Some?
      modifies stack
      ensures Valid() && stack.index.Some?
      ensures var fs := old(stack.Contents());
              && depth == fs[|fs| - 1].depth
              && stack.Contents() == fs[..|fs| - 1] + [fs[|fs| - 1].(code := next, local := local)]
    {
      var top := stack.Get();
      depth := top.depth;
      stack.Set(top.(code := next, local := local));
    }

    /** The frame on top of `m`, suspended by now, asks for a child, which is pushed or answered
        at once. */
    method AskFor(p: Pause, depth: nat, ghost m: Machine) returns (ghost o: Opened, ghost mark: Mark)
      requires Valid() && !p.Returned? && journal.Now() == p.world && 0 < |m.frames| == |m.snaps|
      requires var top := m.frames[|m.frames| - 1];
               && !top.finished && depth == top.depth
               && stack.Contents() == m.frames[..|m.frames| - 1] + [top.(code := p.next, local := p.local)]
      requires journal.snaps == m.snaps
      modifies this, stack, journal
      ensures Valid() && stack.index.Some? && journal.transferFailed == old(journal.transferFailed)
      ensures o == Request(p, depth, old(nonce), cfg) && State() == Answered(m.frames, m.snaps, p, o, mark, cfg)
    {
      ghost var before := State();
      var r: Option<Outcome>;
      r, o := FrameInit(p, depth);
      mark := MergeAnswer(r, o, m, p, before);
    }

    /** The turn of a frame, on top of `m`, that has stopped to ask for a child. */
    method AdvanceByRequest(p: Pause, ghost m: Machine) returns (ghost mark: Mark)
      requires Valid() && stack.index.Some? && !p.Returned?
      requires State() == m.(world := p.world) && |m.frames| == |m.snaps|
      requires p == Act(m.frames[|m.frames| - 1], m.world, cfg) && !m.frames[|m.frames| - 1].finished
      modifies this, stack, journal
      ensures Valid() && TurnedInto(Turn(m, mark, cfg), old(journal.transferFailed), None)
    {
      var depth := Suspend(p.next, p.local);
      ghost var o;
      o, mark := AskFor(p, depth, m);
      RequestTurn(m, p, mark, cfg);
    }

    /** One turn of the loop. */
    method Advance() returns (r: Option<Outcome>, ghost mark: Mark)
      requires Valid() && stack.index.Some? && Deploying(State())
      requires !stack.Contents()[|stack.Contents()| - 1].finished
      modifies this, stack, journal
      ensures Valid() && TurnedInto(Turn(old(State()), mark, cfg), old(journal.transferFailed), r)
    {
      ghost var m := State();
      ActKeepsDeploying(m, cfg);
      var p := RunTop();
      if p.Returned? {
        assert Pending(m.frames[|m.frames| - 1], p.world);
        mark := Mark(0, 0);
        ReturnTurn(m, p, mark, cfg);
        r := ReturnFrom(p);
      } else {
        mark := AdvanceByRequest(p, m);
        r := None;
      }
    }

    /** `frame_init` for the transaction's own frame. */
    method InitFirst(first: First, start: Local) returns (answer: Option<Outcome>)
      requires Valid() && stack.index.None?
      modifies this, stack, journal
      ensures Valid() && journal.transferFailed == old(journal.transferFailed)
      ensures var root := OpenFirst(first, start, old(journal.Now()), old(nonce), cfg);
              if root.Inline? then answer == Some(root.outcome) && State() == Machine([], [], root.world, root.nonce)
              else answer.None? && |journal.marks| > 0 && State() == FirstState(root, journal.marks[0])
    {
      assert journal.snaps == [];
      match first {
        case FirstCall(c, callee) => answer := MakeCallFrame(c, callee, start, 0);
        case FirstCreate(c, init) => answer := MakeCreateFrame(c, init, start, 0);
      }
    }

    /** `run_exec_loop`: it ends with the outcome, world and nonce of the recursive meaning;
        every checkpoint is closed, no frame is left, the outcome's books are in order, and
        the transfer-failed flag is set exactly by a pushed root frame that ends so. */
    method RunExecLoop(first: First, limit: U64, reservoir: U64, factor: Factor) returns (o: Outcome)
      requires Valid() && stack.index.None?
      modifies this, stack, journal
      ensures Valid() && stack.index.None? && journal.depth == 0
      ensures var root := OpenFirst(first, Start(limit, limit, reservoir, factor), old(journal.Now()), old(nonce), cfg);
              && Final(o, journal.Now(), nonce) == Evaluate(root, 0, cfg)
              && journal.transferFailed
                 == (old(journal.transferFailed) || (root.Pushed? && o.result.TransferFailed?))
      ensures AnswersRoot(o, Start(limit, limit, reservoir, factor))
      ensures Supply(journal.slots) == old(Supply(journal.slots))
    {
      var start := Start(limit, limit, reservoir, factor);
      ghost var root := OpenFirst(first, start, journal.Now(), nonce, cfg);
      var answer := InitFirst(first, start);
      ghost var mark := if answer.Some? then Mark(0, 0) else journal.marks[0];
      FirstSane(first, limit, reservoir, factor, old(journal.Now()), old(nonce), mark, cfg);
      if answer.Some? {
        return answer.value;
      }
      FirstDeploying(first, start, old(journal.Now()), old(nonce), mark, cfg);
      FirstMeaning(root, mark, cfg);
      o := Loop(root, start);
    }

    /** The loop proper, from a root frame just pushed. */
    method Loop(ghost root: Opened, ghost start: Local) returns (o: Outcome)
      requires Valid() && stack.index.Some? && root.Pushed?
      requires Sane(State(), start, cfg) && Deploying(State())
      requires var m := State(); Meaning(m.frames, m.snaps, m.world, m.nonce, cfg) == Evaluate(root, 0, cfg)
      modifies this, stack, journal
      ensures Valid() && stack.index.None? && journal.depth == 0
      ensures Final(o, journal.Now(), nonce) == Evaluate(root, 0, cfg)
      ensures journal.transferFailed == (old(journal.transferFailed) || o.result.TransferFailed?)
      ensures AnswersRoot(o, start)
    {
      while true
        invariant Valid() && stack.index.Some? && journal.transferFailed == old(journal.transferFailed)
        invariant Sane(State(), start, cfg) && Deploying(State())
        invariant var m := State(); Meaning(m.frames, m.snaps, m.world, m.nonce, cfg) == Evaluate(root, 0, cfg)
        decreases Weight(stack.Contents())
      {
        ghost var m := State();
        var r, mark := Advance();
        TurnKeepsMeaning(m, mark, cfg);
        TurnKeepsSane(m, start, mark, cfg);
        TurnKeepsDeploying(m, mark, cfg);
        if r.Some? {
          return r.value;
        }
      }
    }

    /** `catch_error`, wherever the error came from: no frame is left current and nothing the
        transaction did survives. */
    method CatchError()
      requires stack.Valid() && journal.Valid()
      modifies stack, journal
      ensures stack.Valid() && stack.index.None? && journal.slots == Durable(journal.base) && journal.logs == []
    {
      journal.DiscardTx();
      stack.Clear();
    }
  }
}
