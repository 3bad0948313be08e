/**
 How far a failure reaches: a timeout ends the transaction, a precompile's exception ends
 the frame that called it, and any other failure ends only the child.
 */
module Failures {
  import opened Words
  import opened Results
  import opened Energy
  import opened Journals
  import opened Frames
  import opened Machines
  import opened Laws
  import opened Runs

  // ---------------------------------------------------------------------------
  // A timeout ends everything
  // ---------------------------------------------------------------------------

  lemma OutOfTimeKills(f: Frame, o: Outcome, cfg: Config)
    requires o.result.TronOutOfTime?
    ensures var g := Absorb(f, o, cfg);
            g.halted == Some(TronOutOfTime) && g.local.gas.remaining == 0 && g.kind == f.kind
  {
  }

  lemma CloseOutOfTime(kind: Kind, r: Ran, snap: World, cfg: Config)
    requires r.result.TronOutOfTime?
    ensures var f := Closed(kind, r, snap, cfg);
            f.outcome.result.TronOutOfTime? && f.world == snap && f.outcome.gas == r.local.gas && f.nonce == r.nonce
  {
  }

  /** Handed down a stack of any height, a timeout comes out at the bottom, every ancestor
      having lost all its gas and the world being that of the root's checkpoint. */
  lemma {:induction false} OutOfTimeUnwinds(fs: seq<Frame>, snaps: seq<World>, f: Final, cfg: Config)
    requires |fs| == |snaps| && f.outcome.result.TronOutOfTime?
    ensures var g := HandDown(fs, snaps, f, cfg);
            && g.outcome.result.TronOutOfTime? && g.nonce == f.nonce
            && (fs != [] ==> g.world == snaps[0] && g.outcome.gas.remaining == 0)
            && (fs == [] ==> g == f)
    decreases |fs|
  {
    if fs != [] {
      var n := |fs| - 1;
      var top := Absorb(fs[n], f.outcome, cfg);
      OutOfTimeKills(fs[n], f.outcome, cfg);
      var r := Resumed(top, f.world, f.nonce, cfg);
      var below := Closed(top.kind, r, snaps[n], cfg);
      CloseOutOfTime(top.kind, r, snaps[n], cfg);
      assert (fs[..n] + [top])[..n] == fs[..n];
      OutOfTimeUnwinds(fs[..n], snaps[..n], below, cfg);
    }
  }

  /** What this turn's frame or precompile ends with, if it ends. */
  function Raised(m: Machine, cfg: Config): Option<InstructionResult>
    requires 0 < |m.frames| == |m.snaps|
  {
    var top := m.frames[|m.frames| - 1];
    var p := Act(top, m.world, cfg);
    if p.Returned? then Some(p.result)
    else
      var o := Request(p, top.depth, m.nonce, cfg);
      if o.Inline? then Some(o.outcome.result) else None
  }

  lemma RaisedOutOfTime(m: Machine, cfg: Config)
    requires 0 < |m.frames| == |m.snaps| && Raised(m, cfg) == Some(TronOutOfTime)
    ensures Resumed(m.frames[|m.frames| - 1], m.world, m.nonce, cfg).result.TronOutOfTime?
  {
    var top := m.frames[|m.frames| - 1];
    if !Act(top, m.world, cfg).Returned? { ResumeUnfolds(top, m.world, m.nonce, cfg); }
  }

  lemma OutOfTimeMeans(m: Machine, cfg: Config)
    requires 0 < |m.frames| == |m.snaps| && Raised(m, cfg) == Some(TronOutOfTime)
    ensures var f := Meaning(m.frames, m.snaps, m.world, m.nonce, cfg);
            && f.outcome.result.TronOutOfTime? && f.world == m.snaps[0]
            && (|m.frames| > 1 ==> f.outcome.gas.remaining == 0)
  {
    var n := |m.frames| - 1;
    RaisedOutOfTime(m, cfg);
    var r := Resumed(m.frames[n], m.world, m.nonce, cfg);
    CloseOutOfTime(m.frames[n].kind, r, m.snaps[n], cfg);
    OutOfTimeUnwinds(m.frames[..n], m.snaps[..n], Closed(m.frames[n].kind, r, m.snaps[n], cfg), cfg);
  }

  /** A timeout on its way down: `k` frames are left, of which the innermost has just ended in
      it with no gas, and the others wait as they did; with none left the transaction has. */
  ghost predicate Unwinding(t: Turned, m: Machine, k: nat)
    requires k <= |m.frames| == |m.snaps| && m.frames != []
  {
    if k == 0 then
      && t.Done? && t.final.outcome.result.TronOutOfTime? && t.final.world == m.snaps[0]
      && (|m.frames| > 1 ==> t.final.outcome.gas.remaining == 0)
    else
      && t.Running? && |t.machine.frames| == k && t.machine.snaps == m.snaps[..k]
      && t.machine.frames[..k - 1] == m.frames[..k - 1]
      && (var f := t.machine.frames[k - 1];
          f.halted == Some(TronOutOfTime) && f.local.gas.remaining == 0)
  }

  /** The turn in which something times out kills its caller, or, for a frame, its parent. */
  lemma RaisedTurn(m: Machine, mark: Mark, cfg: Config) returns (k: nat)
    requires 0 < |m.frames| == |m.snaps| && Raised(m, cfg) == Some(TronOutOfTime)
    ensures |m.frames| - 1 <= k <= |m.frames| && (k < |m.frames| <==> Act(m.frames[|m.frames| - 1], m.world, cfg).Returned?)
    ensures Unwinding(Turn(m, mark, cfg), m, k)
  {
    var n := |m.frames| - 1;
    var top := m.frames[n];
    var p := Act(top, m.world, cfg);
    if p.Returned? {
      ReturnTurn(m, p, mark, cfg);
      var r := Ran(p.result, p.output, p.local, p.world, m.nonce);
      CloseOutOfTime(top.kind, r, m.snaps[n], cfg);
      if n > 0 { OutOfTimeKills(m.frames[n - 1], Closed(top.kind, r, m.snaps[n], cfg).outcome, cfg); }
      k := n;
    } else {
      RequestTurn(m, p, mark, cfg);
      OutOfTimeKills(top.(code := p.next, local := p.local), Request(p, top.depth, m.nonce, cfg).outcome, cfg);
      k := n + 1;
    }
  }

  lemma UnwindTurn(m1: Machine, m: Machine, k: nat, mark: Mark, cfg: Config)
    requires 0 < k <= |m.frames| == |m.snaps| && Unwinding(Running(m1), m, k)
    ensures Unwinding(Turn(m1, mark, cfg), m, k - 1)
  {
    HaltedTurn(m1, mark, cfg);
    var top := m1.frames[k - 1];
    var reply := if top.kind.CallKind? then CallReply(false, top.kind.ret, top.kind.rawOffset)
                 else CreateReply(Some(top.kind.address));
    if k > 1 {
      assert m1.frames[k - 2] == m.frames[..k - 1][k - 2];
      OutOfTimeKills(m1.frames[k - 2], Outcome(TronOutOfTime, [], top.local.gas, top.local.ledger, reply), cfg);
    }
  }

  /** The states of a run, one for each turn: every one but the last goes on. */
  ghost predicate IsRun(states: seq<Turned>, marks: seq<Mark>, cfg: Config) {
    && |states| == |marks| + 1
    && forall i {:trigger Follows(states, marks, i, cfg)} | 0 <= i < |marks| :: Follows(states, marks, i, cfg)
  }

  ghost predicate Follows(states: seq<Turned>, marks: seq<Mark>, i: nat, cfg: Config)
    requires i < |marks| < |states|
  {
    && states[i].Running? && 0 < |states[i].machine.frames| == |states[i].machine.snaps|
    && states[i + 1] == Turn(states[i].machine, marks[i], cfg)
  }

  /** How many frames are left once something has timed out in `m`: a frame is gone with its own
      turn, the caller of a precompile is still there. */
  function LeftBy(m: Machine, cfg: Config): nat
    requires m.frames != []
  {
    if Act(m.frames[|m.frames| - 1], m.world, cfg).Returned? then |m.frames| - 1 else |m.frames|
  }

  lemma UnwindNext(t: Turned, t1: Turned, m: Machine, k: int, mark: Mark, cfg: Config)
    requires 0 <= k <= |m.frames| == |m.snaps| && m.frames != [] && Unwinding(t, m, k)
    requires t.Running? && 0 < |t.machine.frames| == |t.machine.snaps| && t1 == Turn(t.machine, mark, cfg)
    ensures k > 0 && Unwinding(t1, m, k - 1)
  {
    UnwindTurn(t.machine, m, k, mark, cfg);
  }

  lemma {:induction false} UnwindingRun(states: seq<Turned>, marks: seq<Mark>, m: Machine, left: nat, i: nat, cfg: Config)
    requires IsRun(states, marks, cfg) && 0 < i < |states|
    requires left <= |m.frames| == |m.snaps| && m.frames != [] && Unwinding(states[1], m, left)
    ensures i <= left + 1 && Unwinding(states[i], m, left + 1 - i)
    decreases i
  {
    if i > 1 {
      UnwindingRun(states, marks, m, left, i - 1, cfg);
      assert Follows(states, marks, i - 1, cfg);
      UnwindNext(states[i - 1], states[i], m, left + 2 - i, marks[i - 1], cfg);
    }
  }

  lemma FirstUnwinds(m: Machine, t: Turned, mark: Mark, cfg: Config) returns (left: nat)
    requires 0 < |m.frames| == |m.snaps| && Raised(m, cfg) == Some(TronOutOfTime) && t == Turn(m, mark, cfg)
    ensures left == LeftBy(m, cfg) <= |m.frames| && Unwinding(t, m, left)
  {
    left := RaisedTurn(m, mark, cfg);
  }

  /** Turn by turn, every ancestor of what timed out ends in the timeout with no gas left, until
      the transaction has. */
  lemma AncestorsTimeOut(states: seq<Turned>, marks: seq<Mark>, m: Machine, i: nat, cfg: Config)
    requires IsRun(states, marks, cfg) && 0 < i < |states| && states[0] == Running(m)
    requires 0 < |m.frames| == |m.snaps| && Raised(m, cfg) == Some(TronOutOfTime)
    ensures i <= LeftBy(m, cfg) + 1 && Unwinding(states[i], m, LeftBy(m, cfg) + 1 - i)
  {
    assert Follows(states, marks, 0, cfg);
    var left := FirstUnwinds(m, states[1], marks[0], cfg);
    UnwindingRun(states, marks, m, left, i, cfg);
  }

  /** If any frame or precompile in any run ends in TronOutOfTime, the transaction does, and
      the world is back at the root's checkpoint. */
  lemma OutOfTimeIsFatal(m: Machine, root: Local, marks: seq<Mark>, cfg: Config)
    requires Sane(m, root, cfg)
    requires var t := Steps(m, marks, cfg); t.Running? && Raised(t.machine, cfg) == Some(TronOutOfTime)
    ensures var f := Meaning(m.frames, m.snaps, m.world, m.nonce, cfg);
            f.outcome.result.TronOutOfTime? && f.world == m.snaps[0]
  {
    RunKeepsSane(m, root, marks, cfg);
    OutOfTimeMeans(Steps(m, marks, cfg).machine, cfg);
  }

  // ---------------------------------------------------------------------------
  // Everything else is contained
  // ---------------------------------------------------------------------------

  /** What a frame's own outcome does to the frame that waits for it: only a timeout halts
      it. Otherwise it gets a success flag or an address, and gas back from a child that
      returned or reverted; a nested TransferFailed forfeits what was forwarded. */
  lemma ChildFailureContained(l: Local, o: Outcome, limit: U64, cfg: Config)
    requires o.ledger.paid <= limit && Waits(l, o.ledger.paid, limit - o.ledger.paid)
    requires Answers(o, o.ledger.paid, limit, l.gas.reservoir)
    requires o.reply.CallReply? ==> !o.reply.fromPrecompile
    ensures var e := Merge(l, o, cfg);
            && (e.Halt? <==> o.result.TronOutOfTime?)
            && (e.Halt? ==> e.result == TronOutOfTime && e.local.gas.remaining == 0)
            && (e.Ok? ==>
                  && e.local.gas.remaining == l.gas.remaining + (if ReturnsGas(o.result) then o.gas.remaining else 0)
                  && e.local.gas.refunded == l.gas.refunded + (if IsOk(o.result) then o.gas.refunded else 0)
                  && e.local.returnData == (if o.reply.CallReply? || o.result.Revert? then o.output else [])
                  && |e.local.stack| == |l.stack| + 1 && e.local.stack[..|l.stack|] == l.stack
                  && (o.reply.CallReply? ==> e.local.stack[|l.stack|] == if IsOk(o.result) then 1 else 0)
                  && (o.reply.CreateReply? && IsOk(o.result) ==>
                        e.local.stack[|l.stack|]
                        == (if o.reply.address.Some? then o.reply.address.value else 0)
                           + (if cfg.tron then 0x41 * 0x1_0000000000_0000000000_0000000000_0000000000 else 0))
                  && (o.reply.CreateReply? && !IsOk(o.result) ==> e.local.stack[|l.stack|] == 0))
  {
  }

  /** Whose unspent gas the caller gets back, by name: a child that returned, that reverted, or that
      was refused for depth or for lack of funds, and init code of a wrong format. Every other
      failure, a failed transfer and a taken address among them, forfeits what was forwarded. */
  lemma GasComesBack(l: Local, o: Outcome, limit: U64, cfg: Config)
    requires o.ledger.paid <= limit && Waits(l, o.ledger.paid, limit - o.ledger.paid)
    requires Answers(o, o.ledger.paid, limit, l.gas.reservoir)
    requires (o.reply.CallReply? ==> !o.reply.fromPrecompile) && !o.result.TronOutOfTime?
    ensures Merge(l, o, cfg).local.gas.remaining - l.gas.remaining
            == if o.result in {Stop, Return, SelfDestruct, Suspend, InstructionResult.Revert, CallTooDeep,
                               InstructionResult.OutOfFunds, CreateInitCodeStartingEF00, InvalidEOFInitCode,
                               InvalidExtDelegateCallTarget}
               then o.gas.remaining else 0
  {
    ChildFailureContained(l, o, limit, cfg);
  }

  /** A full-output write that does not go through: the offset is out of range, or memory would
      grow too far. */
  predicate WriteRefused(o: Outcome, cfg: Config)
    requires o.reply.CallReply?
  {
    var at := o.reply.rawOffset % 0x1_0000_0000;
    && cfg.fullOutputWrite && ReturnsGas(o.result) && o.output != []
    && (at >= 0x8000_0000 || at + |o.output| > 3_145_728)
  }

  /** What a precompile's answer does to the frame that called it: an exception, a timeout and a
      write that is refused halt it and take its gas. Otherwise it gets the success flag, the whole
      output as return data, and gas back from a precompile that returned or reverted. */
  lemma PrecompileAnswered(l: Local, o: Outcome, limit: U64, cfg: Config)
    requires o.ledger.paid <= limit && Waits(l, o.ledger.paid, limit - o.ledger.paid)
    requires Answers(o, o.ledger.paid, limit, l.gas.reservoir)
    requires o.reply.CallReply? && o.reply.fromPrecompile
    ensures var e := Merge(l, o, cfg);
            var kills := o.result.TronOutOfTime? || o.result.PrecompileThrow? || o.result.TronPrecompileTransferFailure?;
            && (e.Halt? <==> kills || WriteRefused(o, cfg))
            && (e.Halt? ==> e.local.gas.remaining == 0)
            && (e.Halt? ==> e.result == if kills then o.result
                                        else if o.reply.rawOffset % 0x1_0000_0000 >= 0x8000_0000 then PrecompileThrow
                                        else MemoryLimitOOG)
            && (e.Ok? ==>
                  && e.local.gas.remaining == l.gas.remaining + (if ReturnsGas(o.result) then o.gas.remaining else 0)
                  && e.local.gas.refunded == l.gas.refunded + (if IsOk(o.result) then o.gas.refunded else 0)
                  && e.local.returnData == o.output
                  && e.local.stack == l.stack + [if IsOk(o.result) then 1 else 0])
  {
  }

  /** An exception thrown inside a precompile, or by the transfer guard in front of one. */
  predicate Throws(r: InstructionResult) { r.PrecompileThrow? || r.TronPrecompileTransferFailure? }

  /** It halts the calling frame and takes all its gas. */
  lemma ThrowKills(f: Frame, o: Outcome, cfg: Config)
    requires o.reply.CallReply? && o.reply.fromPrecompile && Throws(o.result)
    ensures var g := Absorb(f, o, cfg);
            g.halted == Some(o.result) && g.local.gas.remaining == 0 && g.kind == f.kind && g.depth == f.depth
  {
  }

  /** A frame halted from outside returns what it was halted with, and its checkpoint is undone. */
  lemma HaltedTurn(m: Machine, mark: Mark, cfg: Config)
    requires 0 < |m.frames| == |m.snaps|
    requires var h := m.frames[|m.frames| - 1].halted; h.Some? && !IsOk(h.value)
    ensures var n := |m.frames| - 1;
            var top := m.frames[n];
            var reply := if top.kind.CallKind? then CallReply(false, top.kind.ret, top.kind.rawOffset)
                         else CreateReply(Some(top.kind.address));
            Turn(m, mark, cfg)
            == Back(m.frames[..n], m.snaps[..n],
                    Final(Outcome(top.halted.value, [], top.local.gas, top.local.ledger, reply), m.snaps[n], m.nonce), cfg)
  {
    var top := m.frames[|m.frames| - 1];
    ReturnTurn(m, Act(top, m.world, cfg), mark, cfg);
  }

  /** The answer that is on its way to the top frame. */
  ghost predicate AnsweredBy(m: Machine, o: Opened, cfg: Config)
    requires 0 < |m.frames| == |m.snaps|
  {
    var top := m.frames[|m.frames| - 1];
    var p := Act(top, m.world, cfg);
    !p.Returned? && o == Request(p, top.depth, m.nonce, cfg) && o.Inline?
  }

  /** The first turn: the calling frame is dead, the frames below are as they were. */
  lemma ThrowTurn(m: Machine, o: Opened, mark: Mark, cfg: Config)
    requires 0 < |m.frames| == |m.snaps| && AnsweredBy(m, o, cfg)
    requires o.outcome.reply.CallReply? && o.outcome.reply.fromPrecompile && Throws(o.outcome.result)
    ensures var t := Turn(m, mark, cfg);
            var n := |m.frames| - 1;
            && t.Running? && |t.machine.frames| == n + 1
            && t.machine.frames[..n] == m.frames[..n] && t.machine.snaps == m.snaps
            && t.machine.frames[n].halted == Some(o.outcome.result)
            && t.machine.frames[n].local.gas.remaining == 0
            && t.machine.frames[n].kind == m.frames[n].kind
  {
    var top := m.frames[|m.frames| - 1];
    var p := Act(top, m.world, cfg);
    RequestTurn(m, p, mark, cfg);
    ThrowKills(top.(code := p.next, local := p.local), o.outcome, cfg);
  }

  /** What the frame below makes of a child that died with `r`. */
  lemma DeadChildMerges(parent: Frame, child: Frame, r: InstructionResult, cfg: Config)
    requires Awaits(parent, child, cfg) && Settled(child.local) && !IsOkOrRevert(r) && !r.TronOutOfTime?
    ensures var reply := if child.kind.CallKind? then CallReply(false, child.kind.ret, child.kind.rawOffset)
                         else CreateReply(Some(child.kind.address));
            var g := Absorb(parent, Outcome(r, [], child.local.gas, child.local.ledger, reply), cfg);
            && g.halted.None? && g.local.stack == parent.local.stack + [0]
            && g.local.gas.remaining == parent.local.gas.remaining && g.code == parent.code
  {
    var reply := if child.kind.CallKind? then CallReply(false, child.kind.ret, child.kind.rawOffset)
                 else CreateReply(Some(child.kind.address));
    var o := Outcome(r, [], child.local.gas, child.local.ledger, reply);
    ChildFailureContained(parent.local, o, child.local.gas.limit, cfg);
    var e := Merge(parent.local, o, cfg);
    assert e.local.stack == parent.local.stack + [0];
  }

  /** The top frame of `m` died with `r`: the root takes the transaction with it; otherwise
      the frame below goes on where it waited, with zero pushed, none of the forwarded gas,
      and the world of the dead frame's checkpoint. */
  ghost predicate Died(t: Turned, m: Machine, r: InstructionResult)
    requires 0 < |m.frames| == |m.snaps|
  {
    var n := |m.frames| - 1;
    if n == 0 then
      t.Done? && t.final.outcome.result == r && t.final.outcome.gas.remaining == 0 && t.final.world == m.snaps[0]
    else
      && t.Running? && |t.machine.frames| == n && t.machine.frames[..n - 1] == m.frames[..n - 1]
      && t.machine.world == m.snaps[n] && t.machine.snaps == m.snaps[..n]
      && (var caller, parent := t.machine.frames[n - 1], m.frames[n - 1];
          && caller.halted.None? && caller.code == parent.code
          && caller.local.stack == parent.local.stack + [0]
          && caller.local.gas.remaining == parent.local.gas.remaining)
  }

  lemma DeadTurn(m: Machine, r: InstructionResult, mark: Mark, cfg: Config)
    requires 0 < |m.frames| == |m.snaps| && Chain(m.frames, cfg)
    requires !IsOkOrRevert(r) && !r.TronOutOfTime?
    requires var top := m.frames[|m.frames| - 1];
             top.halted == Some(r) && top.local.gas.remaining == 0 && Settled(top.local)
    ensures Died(Turn(m, mark, cfg), m, r)
  {
    var n := |m.frames| - 1;
    HaltedTurn(m, mark, cfg);
    if n > 0 {
      assert Awaits(m.frames[n - 1], m.frames[n], cfg);
      DeadChildMerges(m.frames[n - 1], m.frames[n], r, cfg);
    }
  }

  lemma TwoSteps(m: Machine, m1: Machine, first: Mark, second: Mark, cfg: Config)
    requires 0 < |m.frames| == |m.snaps| && Turn(m, first, cfg) == Running(m1)
    ensures Steps(m, [first, second], cfg) == Turn(m1, second, cfg)
  {
    assert [first, second][1..] == [second] && [second][1..] == [];
    var t := Turn(m1, second, cfg);
    if t.Running? { assert Steps(t.machine, [], cfg) == t; }
  }

  /** An exception thrown in or in front of a precompile has, two turns later, killed
      exactly the frame that made the call. */
  lemma ThrowContained(m: Machine, root: Local, o: Opened, first: Mark, second: Mark, cfg: Config)
    requires Sane(m, root, cfg) && AnsweredBy(m, o, cfg)
    requires o.outcome.reply.CallReply? && o.outcome.reply.fromPrecompile && Throws(o.outcome.result)
    ensures Died(Steps(m, [first, second], cfg), m, o.outcome.result)
  {
    var n := |m.frames| - 1;
    ThrowTurn(m, o, first, cfg);
    TurnKeepsSane(m, root, first, cfg);
    var m1 := Turn(m, first, cfg).machine;
    DeadTurn(m1, o.outcome.result, second, cfg);
    TwoSteps(m, m1, first, second, cfg);
    assert n > 0 ==> m1.frames[..n][..n - 1] == m1.frames[..n - 1] && m1.frames[..n][n - 1] == m1.frames[n - 1];
    assert n > 0 ==> m.frames[..n][..n - 1] == m.frames[..n - 1] && m.frames[..n][n - 1] == m.frames[n - 1];
  }

  // ---------------------------------------------------------------------------
  // A failed child leaves no trace
  // ---------------------------------------------------------------------------

  /** Whatever a called account and all its descendants did: if the call fails, the world is
      the caller's again. */
  lemma FailedCallLeavesNoTrace(p: Pause, depth: nat, nonce: nat, cfg: Config)
    requires p.WantsCall? && Supply(p.world.slots) <= U256_MAX
    ensures var done := Evaluate(Request(p, depth, nonce, cfg), depth + 1, cfg);
            !IsOk(done.outcome.result) ==> done.world == p.world
  {
    var c := p.callSite.call;
    TransferKeepsSupply(p.world.slots, c.caller, c.target, c.value);
  }

  /** A failed creation leaves at most the creator's nonce, bumped once, and that exactly
      when the request got past depth, balance and nonce. */
  lemma FailedCreateLeavesNonce(p: Pause, depth: nat, nonce: nat, cfg: Config)
    requires p.WantsCreate?
    ensures var c := p.createSite.create;
            var done := Evaluate(Request(p, depth, nonce, cfg), depth + 1, cfg);
            !IsOk(done.outcome.result) ==>
              done.world == if CreateRefused(c, depth + 1, p.world) then p.world
                            else World(BumpNonce(p.world.slots, c.caller).slots, p.world.logs)
  {
  }

  /** What deploying `code` costs by the tables: deposit, hashing and state gas. */
  function DeployPrice(code: seq<Byte>, cfg: Config): nat {
    SatMul(cfg.codeDeposit, |code|)
    + if cfg.eip8037 then SatMul(cfg.keccakWord, NumWords(|code|)) + SatMul(cfg.codeDepositState, |code|) else 0
  }

  lemma DepositStatePays(l: Local, code: seq<Byte>, cfg: Config)
    ensures var (r, l') := DepositState(l, code, cfg);
            IsOk(r) ==>
              var left := l'.gas.remaining + l'.gas.reservoir + DeployPrice(code, cfg);
              var had := l.gas.remaining + l.gas.reservoir + SatMul(cfg.codeDeposit, |code|);
              left <= had && (l.gas.factor == 0 ==> left == had)
  {
    var hash := SatMul(cfg.keccakWord, NumWords(|code|));
    ChargeCovers(l.gas, hash);
    ChargeCovers(PayRegular(l, hash).0.gas, SatMul(cfg.codeDepositState, |code|));
  }

  /** Different bytecodes have different identifiers, and only the empty one has that of no code. */
  lemma {:induction false} CodeIdInjective(x: seq<Byte>, y: seq<Byte>)
    ensures CodeId(x) == CodeId(y) ==> x == y
    ensures CodeId(x) == 0 <==> x == []
    decreases |x|
  {
    if x != [] && y != [] && CodeId(x) == CodeId(y) {
      CodeIdInjective(x[1..], y[1..]);
      assert x == [x[0]] + x[1..] && y == [y[0]] + y[1..];
    }
  }

  /** A successful creation has set the deployed code, which passed every check and has been
      paid for, exactly so while no dynamic factor is in force. Before Homestead a code whose
      deposit cannot be paid is replaced by the empty code. */
  lemma CreateDeploys(a: Address, r: Ran, snap: World, cfg: Config)
    ensures var done := Closed(CreateKind(a), r, snap, cfg);
            IsOk(done.outcome.result) ==>
              && IsOk(r.result)
              && (if SatMul(cfg.codeDeposit, |r.output|) <= r.local.gas.remaining then done.outcome.output == r.output
                  else done.outcome.output == [] && !cfg.homestead)
              && Get(done.world.slots, CodeOf(a)) == CodeId(done.outcome.output)
              && (cfg.spurious ==> |r.output| <= cfg.maxCodeSize)
              && (cfg.rejectEF && r.output != [] ==> r.output[0] != 0xEF)
              && done.world.logs == r.world.logs
              && forall s | s != CodeOf(a) :: Get(done.world.slots, s) == Get(r.world.slots, s)
    ensures var done := Closed(CreateKind(a), r, snap, cfg);
            IsOk(done.outcome.result) ==>
              var left := done.outcome.gas.remaining + done.outcome.gas.reservoir + DeployPrice(done.outcome.output, cfg);
              var had := r.local.gas.remaining + r.local.gas.reservoir;
              left <= had && (r.local.gas.factor == 0 ==> left == had)
  {
    var price := SatMul(cfg.codeDeposit, |r.output|);
    var (g, paid) := RecordUnscaled(r.local.gas, price);
    if paid { DepositStatePays(Burn(r.local.(gas := g), price), r.output, cfg); }
    else { DepositStatePays(r.local, [], cfg); }
  }

  /** What hashing and storing `code` would be charged, in this order, on top of the deposit. */
  ghost predicate StorageAffordable(g: Gas, code: seq<Byte>, cfg: Config) {
    cfg.eip8037 ==>
      var (g1, hash) := TronCharge(g, SatMul(cfg.keccakWord, NumWords(|code|)));
      var state := TronCharge(g1, SatMul(cfg.codeDepositState, |code|)).1;
      hash <= g.remaining && hash + state <= g.remaining + g.reservoir
  }

  lemma DepositStateSucceeds(l: Local, code: seq<Byte>, cfg: Config)
    ensures var r := DepositState(l, code, cfg).0;
            (r == Return || r == OutOfGas) && (r == Return <==> StorageAffordable(l.gas, code, cfg))
  {
    var hash := SatMul(cfg.keccakWord, NumWords(|code|));
    ChargeCovers(l.gas, hash);
    ChargeCovers(PayRegular(l, hash).0.gas, SatMul(cfg.codeDepositState, |code|));
  }

  /** When init code that has succeeded leads to a contract: exactly when its output passes size
      and prefix checks, the deposit can be paid or, before Homestead, need not be, and hashing
      and state gas can be paid. */
  lemma CreateSucceeds(a: Address, r: Ran, snap: World, cfg: Config)
    requires IsOk(r.result)
    ensures var deposit := SatMul(cfg.codeDeposit, |r.output|);
            var paid := deposit <= r.local.gas.remaining;
            var g := if paid then r.local.gas.(remaining := r.local.gas.remaining - deposit) else r.local.gas;
            IsOk(Closed(CreateKind(a), r, snap, cfg).outcome.result)
            <==> && (cfg.spurious ==> |r.output| <= cfg.maxCodeSize)
                 && (cfg.rejectEF && r.output != [] ==> r.output[0] != 0xEF)
                 && (paid || !cfg.homestead)
                 && StorageAffordable(g, if paid then r.output else [], cfg)
  {
    var deposit := SatMul(cfg.codeDeposit, |r.output|);
    var (g, paid) := RecordUnscaled(r.local.gas, deposit);
    var (l1, code) := if paid then (Burn(r.local.(gas := g), deposit), r.output) else (r.local, []);
    DepositStateSucceeds(l1, code, cfg);
  }

  /** What a precompile's reply becomes: success needs a success reply within the limit, gas
      is left only then or on a revert within the limit, and only then is output passed on. */
  lemma PrecompileReplies(out: PrecompileOutput, start: Local, c: CallSpec)
    ensures var o := PrecompileOutcome(out, start, c);
            var within := out.gasUsed <= start.gas.limit;
            && (IsOk(o.result) <==> out.status.Success? && within)
            && (o.result.Revert? <==> out.status.Reverted? && within)
            && (o.result.TronOutOfTime? <==> out.status.TimedOut?)
            && (o.result.PrecompileThrow? <==> out.status.Threw?)
            && (if within && (out.status.Success? || out.status.Reverted?)
                then o.gas.remaining == start.gas.limit - out.gasUsed && o.output == out.bytes
                else o.gas.remaining == 0 && o.output == [])
  {
  }
}
