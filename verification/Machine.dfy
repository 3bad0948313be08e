/**
 Two meanings of a transaction's call tree: a recursive one, in which a failed child is
 undone by going back to the world its parent had, and the iterative frame loop. They
 agree, turn by turn.
 */
module Machines {
  import opened Words
  import opened Results
  import opened Energy
  import opened Journals
  import opened Frames

  // ---------------------------------------------------------------------------
  // Recursive meaning
  // ---------------------------------------------------------------------------

  /** Opens the child that a paused frame at `depth` asks for. */
  function Request(p: Pause, depth: nat, nonce: nat, cfg: Config): (o: Opened)
    requires !p.Returned?
    ensures o.Pushed? && p.WantsCall? ==> p.callee.Contract? && o.code == p.callee.code
    ensures o.Pushed? && p.WantsCreate? ==> o.code == p.init
  {
    var reservoir := p.local.gas.reservoir;
    if p.WantsCall? then
      var s := p.callSite;
      OpenCall(s.call, p.callee,
               Start(s.forward, SatAdd(s.forward, Stipend(s.call)), reservoir, s.call.factor),
               depth + 1, p.world, nonce, cfg)
    else
      var s := p.createSite;
      OpenCreate(s.create, p.init, Start(s.forward, s.forward, reservoir, 0), depth + 1, p.world, nonce, cfg)
  }

  datatype Ran = Ran(result: InstructionResult, output: seq<Byte>, local: Local, world: World, nonce: nat)

  datatype Final = Final(outcome: Outcome, world: World, nonce: nat)

  /** Runs a frame to its end, evaluating children recursively. */
  function Run(c: Code, l: Local, depth: nat, w: World, nonce: nat, cfg: Config): Ran
    decreases c
  {
    var p := Interp(c, l, w, cfg);
    if p.Returned? then Ran(p.result, p.output, p.local, p.world, nonce)
    else
      var o := Request(p, depth, nonce, cfg);
      var child :=
        if o.Inline? then Final(o.outcome, o.world, o.nonce)
        else Closed(o.kind, Run(o.code, o.local, depth + 1, o.world, o.nonce, cfg), o.snapshot, cfg);
      match Merge(p.local, child.outcome, cfg)
      case Halt(l1, r) => Ran(r, [], l1, child.world, child.nonce)
      case Ok(l1) => Run(p.next, l1, depth, child.world, child.nonce, cfg)
  }

  function Closed(kind: Kind, r: Ran, snapshot: World, cfg: Config): Final {
    var (o, w) := Close(kind, r.result, r.output, r.local, r.world, snapshot, cfg);
    Final(o, w, r.nonce)
  }

  /** The recursive meaning of a whole request. */
  function Evaluate(o: Opened, depth: nat, cfg: Config): Final {
    if o.Inline? then Final(o.outcome, o.world, o.nonce)
    else Closed(o.kind, Run(o.code, o.local, depth, o.world, o.nonce, cfg), o.snapshot, cfg)
  }

  // ---------------------------------------------------------------------------
  // The frame loop
  // ---------------------------------------------------------------------------

  /** Live frames, outermost first, the world each one's checkpoint would restore, the
      current world, and the per-transaction creation nonce, which no revert touches. */
  datatype Machine = Machine(frames: seq<Frame>, snaps: seq<World>, world: World, nonce: nat)

  datatype Turned = Running(machine: Machine) | Done(final: Final)

  function Absorb(f: Frame, o: Outcome, cfg: Config): Frame {
    match Merge(f.local, o, cfg)
    case Ok(l) => f.(local := l)
    case Halt(l, r) => f.(local := l, halted := Some(r))
  }

  /** `frame_return_result`, once a finished frame has been popped. */
  function Back(fs: seq<Frame>, snaps: seq<World>, f: Final, cfg: Config): Turned {
    if fs == [] then Done(f)
    else Running(Machine(fs[..|fs| - 1] + [Absorb(fs[|fs| - 1], f.outcome, cfg)], snaps, f.world, f.nonce))
  }

  /** What the top frame does next: a pending halt is taken as it is, otherwise it runs. */
  function Act(f: Frame, w: World, cfg: Config): Pause {
    if f.halted.Some? then Returned(f.halted.value, [], f.local, w) else Interp(f.code, f.local, w, cfg)
  }

  /** The frame that `frame_init` puts on the stack. */
  function NewFrame(o: Opened, depth: nat, mark: Mark): Frame
    requires o.Pushed?
  {
    Frame(o.kind, o.code, o.local, depth, None, false, mark)
  }

  /** One turn of `run_exec_loop` with `top` on top of `fs`: `frame_run`, then `frame_init` or
      `frame_return_result`. */
  function TurnTop(fs: seq<Frame>, top: Frame, snaps: seq<World>, snap: World, w: World, nonce: nat,
                   mark: Mark, cfg: Config): Turned
  {
    var p := Act(top, w, cfg);
    if p.Returned? then
      Back(fs, snaps, Closed(top.kind, Ran(p.result, p.output, p.local, p.world, nonce), snap, cfg), cfg)
    else
      var o := Request(p, top.depth, nonce, cfg);
      var waiting := top.(code := p.next, local := p.local);
      if o.Inline? then
        Running(Machine(fs + [Absorb(waiting, o.outcome, cfg)], snaps + [snap], o.world, o.nonce))
      else
        Running(Machine(fs + [waiting] + [NewFrame(o, top.depth + 1, mark)],
                        snaps + [snap] + [o.snapshot], o.world, o.nonce))
  }

  function Turn(m: Machine, mark: Mark, cfg: Config): (t: Turned)
    requires 0 < |m.frames| == |m.snaps|
    ensures t.Running? ==> 0 < |t.machine.frames| == |t.machine.snaps| && t.machine.snaps[0] == m.snaps[0]
  {
    var n := |m.frames| - 1;
    TurnTop(m.frames[..n], m.frames[n], m.snaps[..n], m.snaps[n], m.world, m.nonce, mark, cfg)
  }

  /** Where a turn leads in which the top frame pauses with a request `p` that opens `o`. */
  function Answered(fs: seq<Frame>, snaps: seq<World>, p: Pause, o: Opened, mark: Mark, cfg: Config): Machine
    requires |fs| > 0 && !p.Returned?
  {
    var n := |fs| - 1;
    var waiting := fs[n].(code := p.next, local := p.local);
    if o.Inline? then Machine(fs[..n] + [Absorb(waiting, o.outcome, cfg)], snaps, o.world, o.nonce)
    else Machine(fs[..n] + [waiting] + [NewFrame(o, fs[n].depth + 1, mark)], snaps + [o.snapshot], o.world, o.nonce)
  }

  function Asked(fs: seq<Frame>, snaps: seq<World>, nonce: nat, p: Pause, mark: Mark, cfg: Config): Machine
    requires |fs| > 0 && !p.Returned?
  {
    Answered(fs, snaps, p, Request(p, fs[|fs| - 1].depth, nonce, cfg), mark, cfg)
  }

  /** A turn in which the top frame is done, and one in which it asks for a child. */
  lemma ReturnTurn(m: Machine, p: Pause, mark: Mark, cfg: Config)
    requires 0 < |m.frames| == |m.snaps| && p == Act(m.frames[|m.frames| - 1], m.world, cfg) && p.Returned?
    ensures var n := |m.frames| - 1;
            Turn(m, mark, cfg)
            == Back(m.frames[..n], m.snaps[..n],
                    Closed(m.frames[n].kind, Ran(p.result, p.output, p.local, p.world, m.nonce), m.snaps[n], cfg), cfg)
  {
  }

  lemma RequestTurn(m: Machine, p: Pause, mark: Mark, cfg: Config)
    requires 0 < |m.frames| == |m.snaps| && p == Act(m.frames[|m.frames| - 1], m.world, cfg) && !p.Returned?
    ensures Turn(m, mark, cfg) == Running(Asked(m.frames, m.snaps, m.nonce, p, mark, cfg))
  {
    var n := |m.frames| - 1;
    assert m.snaps[..n] + [m.snaps[n]] == m.snaps;
  }

  /** A run of `|marks|` turns, or fewer if it ends before. */
  function Steps(m: Machine, marks: seq<Mark>, cfg: Config): (t: Turned)
    requires 0 < |m.frames| == |m.snaps|
    ensures t.Running? ==> 0 < |t.machine.frames| == |t.machine.snaps| && t.machine.snaps[0] == m.snaps[0]
    decreases |marks|
  {
    if marks == [] then Running(m)
    else match Turn(m, marks[0], cfg)
      case Done(f) => Done(f)
      case Running(m1) => Steps(m1, marks[1..], cfg)
  }

  // ---------------------------------------------------------------------------
  // They agree
  // ---------------------------------------------------------------------------

  function Resumed(f: Frame, w: World, nonce: nat, cfg: Config): Ran {
    if f.halted.Some? then Ran(f.halted.value, [], f.local, w, nonce)
    else Run(f.code, f.local, f.depth, w, nonce, cfg)
  }

  /** What a machine state still means: evaluate the top frame recursively, hand its
      outcome down, and go on. */
  function Meaning(fs: seq<Frame>, snaps: seq<World>, w: World, nonce: nat, cfg: Config): Final
    requires 0 < |fs| == |snaps|
    decreases |fs|, 0
  {
    var n := |fs| - 1;
    HandDown(fs[..n], snaps[..n], Closed(fs[n].kind, Resumed(fs[n], w, nonce, cfg), snaps[n], cfg), cfg)
  }

  function HandDown(fs: seq<Frame>, snaps: seq<World>, f: Final, cfg: Config): Final
    requires |fs| == |snaps|
    decreases |fs|, 1
  {
    if fs == [] then f
    else Meaning(fs[..|fs| - 1] + [Absorb(fs[|fs| - 1], f.outcome, cfg)], snaps, f.world, f.nonce, cfg)
  }

  function Weight(fs: seq<Frame>): nat {
    if fs == [] then 0 else Size(fs[|fs| - 1].code) + Weight(fs[..|fs| - 1])
  }

  /** Resuming a frame that waits for a child is absorbing the child's recursive outcome. */
  lemma ResumeUnfolds(f: Frame, w: World, nonce: nat, cfg: Config)
    requires !Act(f, w, cfg).Returned?
    ensures var p := Act(f, w, cfg);
            var child := Evaluate(Request(p, f.depth, nonce, cfg), f.depth + 1, cfg);
            Resumed(f, w, nonce, cfg)
            == Resumed(Absorb(f.(code := p.next, local := p.local), child.outcome, cfg), child.world, child.nonce, cfg)
  {
  }

  /** The turn ended with the outcome `meaning`, or left a lighter machine that still means it. */
  ghost predicate SameMeaning(t: Turned, meaning: Final, weight: nat, cfg: Config) {
    if t.Done? then t.final == meaning
    else
      var m := t.machine;
      && 0 < |m.frames| == |m.snaps|
      && Meaning(m.frames, m.snaps, m.world, m.nonce, cfg) == meaning
      && Weight(m.frames) < weight
  }

  lemma WeightPush(fs: seq<Frame>, f: Frame)
    ensures Weight(fs + [f]) == Weight(fs) + Size(f.code)
  {
    assert (fs + [f])[..|fs|] == fs;
  }

  /** Replacing the top frame: only what it resumes to matters. */
  lemma MeaningOfTop(fs: seq<Frame>, f: Frame, snaps: seq<World>, snap: World, w: World, nonce: nat, cfg: Config)
    requires |fs| == |snaps|
    ensures Meaning(fs + [f], snaps + [snap], w, nonce, cfg)
            == HandDown(fs, snaps, Closed(f.kind, Resumed(f, w, nonce, cfg), snap, cfg), cfg)
  {
    assert (fs + [f])[..|fs|] == fs && (snaps + [snap])[..|fs|] == snaps;
  }

  lemma BackKeepsMeaning(fs: seq<Frame>, snaps: seq<World>, f: Final, cfg: Config)
    requires |fs| == |snaps|
    ensures var t := Back(fs, snaps, f, cfg);
            if t.Done? then t.final == HandDown(fs, snaps, f, cfg)
            else
              var m := t.machine;
              && 0 < |m.frames| == |m.snaps|
              && Meaning(m.frames, m.snaps, m.world, m.nonce, cfg) == HandDown(fs, snaps, f, cfg)
              && Weight(m.frames) == Weight(fs)
  {
    if fs != [] {
      var n := |fs| - 1;
      WeightPush(fs[..n], fs[n]);
      WeightPush(fs[..n], Absorb(fs[n], f.outcome, cfg));
      assert fs[..n] + [fs[n]] == fs;
    }
  }

  lemma SizePositive(c: Code)
    ensures Size(c) > 0
  {
  }

  /** The frame on top is answered at once: it absorbs the answer and stays on top. */
  lemma InlineKeepsMeaning(fs: seq<Frame>, top: Frame, snaps: seq<World>, snap: World, w: World, nonce: nat,
                           mark: Mark, cfg: Config)
    requires |fs| == |snaps| && !Act(top, w, cfg).Returned?
    requires Request(Act(top, w, cfg), top.depth, nonce, cfg).Inline?
    ensures SameMeaning(TurnTop(fs, top, snaps, snap, w, nonce, mark, cfg),
                        Meaning(fs + [top], snaps + [snap], w, nonce, cfg), Weight(fs + [top]), cfg)
  {
    var p := Act(top, w, cfg);
    var o := Request(p, top.depth, nonce, cfg);
    var f := Absorb(top.(code := p.next, local := p.local), o.outcome, cfg);
    ResumeUnfolds(top, w, nonce, cfg);
    MeaningOfTop(fs, f, snaps, snap, o.world, o.nonce, cfg);
    MeaningOfTop(fs, top, snaps, snap, w, nonce, cfg);
    WeightPush(fs, f);
    WeightPush(fs, top);
  }

  /** A child frame on top: evaluating it first is what the recursion does. */
  lemma ChildMeans(fs: seq<Frame>, waiting: Frame, snaps: seq<World>, snap: World, o: Opened, mark: Mark, cfg: Config)
    requires |fs| == |snaps| && o.Pushed?
    ensures var done := Evaluate(o, waiting.depth + 1, cfg);
            Meaning(fs + [waiting] + [NewFrame(o, waiting.depth + 1, mark)], snaps + [snap] + [o.snapshot],
                    o.world, o.nonce, cfg)
            == Meaning(fs + [Absorb(waiting, done.outcome, cfg)], snaps + [snap], done.world, done.nonce, cfg)
  {
    MeaningOfTop(fs + [waiting], NewFrame(o, waiting.depth + 1, mark), snaps + [snap], o.snapshot,
                 o.world, o.nonce, cfg);
    assert (fs + [waiting])[..|fs|] == fs;
  }

  lemma PushMeans(fs: seq<Frame>, top: Frame, snaps: seq<World>, snap: World, w: World, nonce: nat,
                  p: Pause, o: Opened, mark: Mark, cfg: Config)
    requires |fs| == |snaps| && p == Act(top, w, cfg) && !p.Returned?
    requires o == Request(p, top.depth, nonce, cfg) && o.Pushed?
    ensures Meaning(fs + [top.(code := p.next, local := p.local)] + [NewFrame(o, top.depth + 1, mark)],
                    snaps + [snap] + [o.snapshot], o.world, o.nonce, cfg)
            == Meaning(fs + [top], snaps + [snap], w, nonce, cfg)
  {
    var waiting := top.(code := p.next, local := p.local);
    ChildMeans(fs, waiting, snaps, snap, o, mark, cfg);
    var done := Evaluate(o, top.depth + 1, cfg);
    ResumeUnfolds(top, w, nonce, cfg);
    MeaningOfTop(fs, Absorb(waiting, done.outcome, cfg), snaps, snap, done.world, done.nonce, cfg);
    MeaningOfTop(fs, top, snaps, snap, w, nonce, cfg);
  }

  lemma PushLightens(fs: seq<Frame>, top: Frame, waiting: Frame, child: Frame)
    requires Size(waiting.code) + Size(child.code) < Size(top.code)
    ensures Weight(fs + [waiting] + [child]) < Weight(fs + [top])
  {
    WeightPush(fs + [waiting], child);
    WeightPush(fs, waiting);
    WeightPush(fs, top);
  }

  lemma PushKeepsMeaning(fs: seq<Frame>, top: Frame, snaps: seq<World>, snap: World, w: World, nonce: nat,
                         p: Pause, o: Opened, mark: Mark, cfg: Config)
    requires |fs| == |snaps| && p == Act(top, w, cfg) && !p.Returned?
    requires o == Request(p, top.depth, nonce, cfg) && o.Pushed?
    ensures var waiting := top.(code := p.next, local := p.local);
            SameMeaning(Running(Machine(fs + [waiting] + [NewFrame(o, top.depth + 1, mark)],
                                        snaps + [snap] + [o.snapshot], o.world, o.nonce)),
                        Meaning(fs + [top], snaps + [snap], w, nonce, cfg), Weight(fs + [top]), cfg)
  {
    PushMeans(fs, top, snaps, snap, w, nonce, p, o, mark, cfg);
    PushLightens(fs, top, top.(code := p.next, local := p.local), NewFrame(o, top.depth + 1, mark));
  }

  lemma TurnPushes(fs: seq<Frame>, top: Frame, snaps: seq<World>, snap: World, w: World, nonce: nat,
                   p: Pause, o: Opened, mark: Mark, cfg: Config)
    requires p == Act(top, w, cfg) && !p.Returned? && o == Request(p, top.depth, nonce, cfg) && o.Pushed?
    ensures var waiting := top.(code := p.next, local := p.local);
            TurnTop(fs, top, snaps, snap, w, nonce, mark, cfg)
            == Running(Machine(fs + [waiting] + [NewFrame(o, top.depth + 1, mark)],
                               snaps + [snap] + [o.snapshot], o.world, o.nonce))
  {
  }

  /** The frame on top is done: its outcome goes to the frame below. */
  lemma ReturnKeepsMeaning(fs: seq<Frame>, top: Frame, snaps: seq<World>, snap: World, w: World, nonce: nat,
                           mark: Mark, cfg: Config)
    requires |fs| == |snaps| && Act(top, w, cfg).Returned?
    ensures SameMeaning(TurnTop(fs, top, snaps, snap, w, nonce, mark, cfg),
                        Meaning(fs + [top], snaps + [snap], w, nonce, cfg), Weight(fs + [top]), cfg)
  {
    MeaningOfTop(fs, top, snaps, snap, w, nonce, cfg);
    WeightPush(fs, top);
    SizePositive(top.code);
    BackKeepsMeaning(fs, snaps, Closed(top.kind, Resumed(top, w, nonce, cfg), snap, cfg), cfg);
  }

  lemma TurnTopKeepsMeaning(fs: seq<Frame>, top: Frame, snaps: seq<World>, snap: World, w: World, nonce: nat,
                            mark: Mark, cfg: Config)
    requires |fs| == |snaps|
    ensures SameMeaning(TurnTop(fs, top, snaps, snap, w, nonce, mark, cfg),
                        Meaning(fs + [top], snaps + [snap], w, nonce, cfg), Weight(fs + [top]), cfg)
  {
    var p := Act(top, w, cfg);
    if p.Returned? {
      ReturnKeepsMeaning(fs, top, snaps, snap, w, nonce, mark, cfg);
    } else if Request(p, top.depth, nonce, cfg).Inline? {
      InlineKeepsMeaning(fs, top, snaps, snap, w, nonce, mark, cfg);
    } else {
      var o := Request(p, top.depth, nonce, cfg);
      TurnPushes(fs, top, snaps, snap, w, nonce, p, o, mark, cfg);
      PushKeepsMeaning(fs, top, snaps, snap, w, nonce, p, o, mark, cfg);
    }
  }

  /** A turn of the loop changes nothing about what the machine means, and consumes code. */
  lemma TurnKeepsMeaning(m: Machine, mark: Mark, cfg: Config)
    requires 0 < |m.frames| == |m.snaps|
    ensures SameMeaning(Turn(m, mark, cfg), Meaning(m.frames, m.snaps, m.world, m.nonce, cfg), Weight(m.frames), cfg)
  {
    var n := |m.frames| - 1;
    assert m.frames[..n] + [m.frames[n]] == m.frames && m.snaps[..n] + [m.snaps[n]] == m.snaps;
    TurnTopKeepsMeaning(m.frames[..n], m.frames[n], m.snaps[..n], m.snaps[n], m.world, m.nonce, mark, cfg);
  }
}
