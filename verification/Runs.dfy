/**
 What holds in every state of every run of the frame loop, and what follows for the
 way failures spread.
 */
module Runs {
  import opened Words
  import opened Results
  import opened Energy
  import opened Journals
  import opened Frames
  import opened Machines
  import opened Laws

  /** `p` has forwarded gas to `c` and waits for it. */
  ghost predicate Awaits(p: Frame, c: Frame, cfg: Config) {
    && p.halted.None? && MemoryOk(p.local, cfg)
    && c.local.ledger.paid <= c.local.gas.limit
    && Waits(p.local, c.local.ledger.paid, c.local.gas.limit - c.local.ledger.paid)
    && c.local.ledger.given == p.local.gas.reservoir
    && (c.kind.CallKind? ==> WindowOk(p.local.memory, c.kind.ret))
  }

  ghost predicate TopOk(f: Frame, cfg: Config) {
    && Settled(f.local)
    && (f.halted.None? ==> MemoryOk(f.local, cfg))
    && (f.halted.Some? ==> !IsOkOrRevert(f.halted.value))
  }

  ghost predicate Chain(fs: seq<Frame>, cfg: Config) {
    && (forall k | 0 <= k < |fs| :: fs[k].depth == k && !fs[k].finished)
    && (forall k | 0 <= k < |fs| - 1 :: Awaits(fs[k], fs[k + 1], cfg))
  }

  /** The invariant of the loop for a root frame opened on the terms of `root`. */
  ghost predicate Sane(m: Machine, root: Local, cfg: Config) {
    && 0 < |m.frames| == |m.snaps| <= MAX_DEPTH + 1
    && Chain(m.frames, cfg)
    && TopOk(m.frames[|m.frames| - 1], cfg)
    && SameTerms(root, m.frames[0].local) && root.ledger.paid <= root.gas.limit
  }

  ghost predicate AnswersRoot(o: Outcome, root: Local) {
    Answers(o, root.ledger.paid, root.gas.limit, root.ledger.given)
  }

  /** A child on the terms of `c` can be answered by `o`. */
  ghost predicate FitsChild(o: Outcome, c: Frame) {
    && Answers(o, c.local.ledger.paid, c.local.gas.limit, c.local.ledger.given)
    && (c.kind.CallKind? ==> o.reply == CallReply(false, c.kind.ret, c.kind.rawOffset))
    && (c.kind.CreateKind? ==> o.reply == CreateReply(Some(c.kind.address)))
  }

  lemma AbsorbTop(p: Frame, c: Frame, o: Outcome, cfg: Config)
    requires Awaits(p, c, cfg) && FitsChild(o, c)
    ensures TopOk(Absorb(p, o, cfg), cfg) && SameTerms(p.local, Absorb(p, o, cfg).local)
  {
    MergeKeepsBooks(p.local, o, c.local.gas.limit, cfg);
  }

  lemma ChainTop(fs: seq<Frame>, f: Frame, cfg: Config)
    requires Chain(fs, cfg) && |fs| > 0 && f.depth == |fs| - 1 && !f.finished
    requires |fs| > 1 ==> Awaits(fs[|fs| - 2], f, cfg)
    ensures Chain(fs[..|fs| - 1] + [f], cfg)
  {
    var gs := fs[..|fs| - 1] + [f];
    forall k | 0 <= k < |gs| - 1 ensures Awaits(gs[k], gs[k + 1], cfg) {
      assert gs[k] == fs[k];
      if k + 1 < |gs| - 1 { assert gs[k + 1] == fs[k + 1]; }
    }
  }

  lemma ReturnKeepsSane(m: Machine, root: Local, p: Pause, cfg: Config)
    requires Sane(m, root, cfg)
    requires p.Returned? && Settled(p.local) && SameTerms(m.frames[|m.frames| - 1].local, p.local)
    ensures var n := |m.frames| - 1;
            var f := Closed(m.frames[n].kind, Ran(p.result, p.output, p.local, p.world, m.nonce), m.snaps[n], cfg);
            var t := Back(m.frames[..n], m.snaps[..n], f, cfg);
            if t.Done? then t.final == f && AnswersRoot(f.outcome, root) else Sane(t.machine, root, cfg)
  {
    var n := |m.frames| - 1;
    var top := m.frames[n];
    CloseAnswers(top.kind, p.result, p.output, p.local, p.world, m.snaps[n], cfg);
    if n > 0 {
      var f := Closed(top.kind, Ran(p.result, p.output, p.local, p.world, m.nonce), m.snaps[n], cfg);
      assert Awaits(m.frames[n - 1], m.frames[n], cfg);
      AbsorbTop(m.frames[n - 1], top, f.outcome, cfg);
      ChainTop(m.frames[..n], Absorb(m.frames[n - 1], f.outcome, cfg), cfg);
    }
  }

  /** What a request from a sane top frame leads to. */
  ghost predicate RequestOk(p: Pause, depth: nat, o: Opened, cfg: Config) {
    && (o.Inline? ==> MergedOk(p.local, Merge(p.local, o.outcome, cfg), cfg))
    && (o.Pushed? ==>
          && depth + 1 <= MAX_DEPTH && Settled(o.local) && MemoryOk(o.local, cfg)
          && o.local.ledger.paid <= o.local.gas.limit
          && Waits(p.local, o.local.ledger.paid, o.local.gas.limit - o.local.ledger.paid)
          && o.local.ledger.given == p.local.gas.reservoir
          && (o.kind.CallKind? ==> WindowOk(p.local.memory, o.kind.ret)))
  }

  lemma CallRequestOk(l: Local, p: Pause, depth: nat, nonce: nat, cfg: Config)
    requires p.WantsCall? && PauseOk(l, p, cfg)
    ensures RequestOk(p, depth, Request(p, depth, nonce, cfg), cfg)
  {
    var s := p.callSite;
    var limit := SatAdd(s.forward, Stipend(s.call));
    var start := Start(s.forward, limit, p.local.gas.reservoir, s.call.factor);
    StartSettled(s.forward, limit, p.local.gas.reservoir, s.call.factor);
    OpenCallAnswers(s.call, p.callee, start, depth + 1, p.world, nonce, cfg);
    var o := OpenCall(s.call, p.callee, start, depth + 1, p.world, nonce, cfg);
    if o.Inline? { MergeKeepsBooks(p.local, o.outcome, limit, cfg); }
  }

  lemma CreateRequestOk(l: Local, p: Pause, depth: nat, nonce: nat, cfg: Config)
    requires p.WantsCreate? && PauseOk(l, p, cfg)
    ensures RequestOk(p, depth, Request(p, depth, nonce, cfg), cfg)
  {
    var s := p.createSite;
    var start := Start(s.forward, s.forward, p.local.gas.reservoir, 0);
    StartSettled(s.forward, s.forward, p.local.gas.reservoir, 0);
    OpenCreateAnswers(s.create, p.init, start, depth + 1, p.world, nonce, cfg);
    var o := OpenCreate(s.create, p.init, start, depth + 1, p.world, nonce, cfg);
    if o.Inline? { MergeKeepsBooks(p.local, o.outcome, s.forward, cfg); }
  }

  lemma InlineKeepsSane(m: Machine, root: Local, p: Pause, o: Outcome, w: World, nonce: nat, cfg: Config)
    requires Sane(m, root, cfg) && !p.Returned?
    requires m.frames[|m.frames| - 1].halted.None?
    requires SameTerms(m.frames[|m.frames| - 1].local, p.local)
    requires MergedOk(p.local, Merge(p.local, o, cfg), cfg)
    ensures var n := |m.frames| - 1;
            var waiting := m.frames[n].(code := p.next, local := p.local);
            Sane(Machine(m.frames[..n] + [Absorb(waiting, o, cfg)], m.snaps, w, nonce), root, cfg)
  {
    var n := |m.frames| - 1;
    var f := Absorb(m.frames[n].(code := p.next, local := p.local), o, cfg);
    if n > 0 { assert Awaits(m.frames[n - 1], m.frames[n], cfg); }
    ChainTop(m.frames, f, cfg);
  }

  lemma PushKeepsSane(m: Machine, root: Local, p: Pause, o: Opened, mark: Mark, cfg: Config)
    requires Sane(m, root, cfg) && !p.Returned? && o.Pushed?
    requires m.frames[|m.frames| - 1].halted.None?
    requires SameTerms(m.frames[|m.frames| - 1].local, p.local) && MemoryOk(p.local, cfg)
    requires |m.frames| <= MAX_DEPTH && Settled(o.local) && MemoryOk(o.local, cfg)
    requires o.local.ledger.paid <= o.local.gas.limit
    requires Waits(p.local, o.local.ledger.paid, o.local.gas.limit - o.local.ledger.paid)
    requires o.local.ledger.given == p.local.gas.reservoir
    requires o.kind.CallKind? ==> WindowOk(p.local.memory, o.kind.ret)
    ensures var n := |m.frames| - 1;
            var waiting := m.frames[n].(code := p.next, local := p.local);
            Sane(Machine(m.frames[..n] + [waiting] + [NewFrame(o, n + 1, mark)], m.snaps + [o.snapshot], o.world, o.nonce),
                 root, cfg)
  {
    var n := |m.frames| - 1;
    var waiting := m.frames[n].(code := p.next, local := p.local);
    var child := NewFrame(o, n + 1, mark);
    if n > 0 { assert Awaits(m.frames[n - 1], m.frames[n], cfg); }
    ChainTop(m.frames, waiting, cfg);
    var gs := m.frames[..n] + [waiting];
    var hs := gs + [child];
    forall k | 0 <= k < |hs| - 1 ensures Awaits(hs[k], hs[k + 1], cfg) {
      assert hs[k] == gs[k];
      if k + 1 < |gs| { assert hs[k + 1] == gs[k + 1]; }
    }
  }

  lemma ActOk(f: Frame, w: World, cfg: Config)
    requires TopOk(f, cfg)
    ensures PauseOk(f.local, Act(f, w, cfg), cfg)
  {
    if f.halted.None? { InterpKeepsBooks(f.code, f.local, w, cfg); }
  }

  /** Every turn of the loop keeps the invariant, and the outcome it ends with has its
      books in order and answers the terms of the root frame. */
  lemma TurnKeepsSane(m: Machine, root: Local, mark: Mark, cfg: Config)
    requires Sane(m, root, cfg)
    ensures var t := Turn(m, mark, cfg);
            if t.Done? then AnswersRoot(t.final.outcome, root) else Sane(t.machine, root, cfg)
  {
    var n := |m.frames| - 1;
    var top := m.frames[n];
    ActOk(top, m.world, cfg);
    var p := Act(top, m.world, cfg);
    if p.Returned? {
      ReturnKeepsSane(m, root, p, cfg);
    } else {
      if p.WantsCall? { CallRequestOk(top.local, p, top.depth, m.nonce, cfg); }
      else { CreateRequestOk(top.local, p, top.depth, m.nonce, cfg); }
      var o := Request(p, top.depth, m.nonce, cfg);
      if o.Inline? {
        InlineKeepsSane(m, root, p, o.outcome, o.world, o.nonce, cfg);
      } else {
        PushKeepsSane(m, root, p, o, mark, cfg);
      }
    }
  }

  /** Over every run: the invariant holds in every state, every state still means what the
      first one means, and the root's checkpoint stays at the bottom. */
  lemma {:induction false} RunKeepsSane(m: Machine, root: Local, marks: seq<Mark>, cfg: Config)
    requires Sane(m, root, cfg)
    ensures var t := Steps(m, marks, cfg);
            var meaning := Meaning(m.frames, m.snaps, m.world, m.nonce, cfg);
            if t.Done? then t.final == meaning && AnswersRoot(meaning.outcome, root)
            else
              var m1 := t.machine;
              && Sane(m1, root, cfg) && m1.snaps[0] == m.snaps[0]
              && Meaning(m1.frames, m1.snaps, m1.world, m1.nonce, cfg) == meaning
    decreases |marks|
  {
    if marks != [] {
      TurnKeepsSane(m, root, marks[0], cfg);
      TurnKeepsMeaning(m, marks[0], cfg);
      var t := Turn(m, marks[0], cfg);
      if t.Running? { RunKeepsSane(t.machine, root, marks[1..], cfg); }
    }
  }

  /** So the outcome a state stands for, too, answers the terms of the root frame. */
  lemma {:induction false} MeaningAnswers(m: Machine, root: Local, cfg: Config)
    requires Sane(m, root, cfg)
    ensures AnswersRoot(Meaning(m.frames, m.snaps, m.world, m.nonce, cfg).outcome, root)
    decreases Weight(m.frames)
  {
    TurnKeepsSane(m, root, Mark(0, 0), cfg);
    TurnKeepsMeaning(m, Mark(0, 0), cfg);
    var t := Turn(m, Mark(0, 0), cfg);
    if t.Running? { MeaningAnswers(t.machine, root, cfg); }
  }

  // ---------------------------------------------------------------------------
  // Energy is conserved at every step
  // ---------------------------------------------------------------------------

  function Held(f: Frame): int { f.local.gas.remaining + f.local.ledger.burned + f.local.ledger.spill }

  function Total(fs: seq<Frame>): int {
    if fs == [] then 0 else Total(fs[..|fs| - 1]) + Held(fs[|fs| - 1])
  }

  lemma {:induction false} PrefixTotal(fs: seq<Frame>, k: nat, cfg: Config)
    requires Chain(fs, cfg) && k < |fs|
    ensures Total(fs[..k]) + fs[k].local.ledger.paid == fs[0].local.ledger.paid
  {
    if k > 0 {
      PrefixTotal(fs, k - 1, cfg);
      assert Awaits(fs[k - 1], fs[k], cfg);
      assert fs[..k][..k - 1] == fs[..k - 1];
    }
  }

  /** In every reachable state, the gas left in all live frames together with what was
      burned and spilled is exactly what the transaction gave the root frame, and no frame
      shows more gas than its limit. */
  lemma EnergyConserved(m: Machine, root: Local, cfg: Config)
    requires Sane(m, root, cfg)
    ensures Total(m.frames) == root.ledger.paid
    ensures forall k | 0 <= k < |m.frames| :: m.frames[k].local.gas.remaining <= m.frames[k].local.gas.limit
  {
    var n := |m.frames| - 1;
    PrefixTotal(m.frames, n, cfg);
    forall k | 0 <= k < |m.frames| ensures m.frames[k].local.gas.remaining <= m.frames[k].local.gas.limit {
      if k < n { assert Awaits(m.frames[k], m.frames[k + 1], cfg); }
    }
  }

  /** The journal has one checkpoint more than the top frame's depth says, so
      `tron_call_depth_exhausted` answers exactly whether a child would be refused. */
  lemma DepthExhausted(m: Machine, root: Local, p: Pause, cfg: Config)
    requires Sane(m, root, cfg) && !p.Returned?
    ensures var top := m.frames[|m.frames| - 1];
            var o := Request(p, top.depth, m.nonce, cfg);
            |m.snaps| > MAX_DEPTH <==> o.Inline? && o.outcome.result == CallTooDeep
  {
  }
}
