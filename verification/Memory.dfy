/**
 Expanding a frame's memory in place: the meter's baseline, the charge and the buffer.
 */
module Memories {
  import opened Words
  import opened Results
  import opened Energy
  import opened GasMeters
  import opened Journals
  import opened Frames
  import opened Laws

  // ---------------------------------------------------------------------------
  // The price of memory
  // ---------------------------------------------------------------------------

  /** The price of `words` in 64-bit words: a linear part and the floor of a quadratic one. Nothing
      saturates up to 2^32 - 1 words, as long as the price itself fits. */
  lemma PriceFloors(cfg: Config, words: nat, p: nat)
    requires words <= 0xFFFF_FFFF && MemoryCost(cfg, words) == p < U64_MAX
    ensures cfg.memLinear * words <= p
    ensures cfg.memQuadratic * (p - cfg.memLinear * words) <= words * words
            < cfg.memQuadratic * (p - cfg.memLinear * words + 1)
  {
    ProductBound(words, words, 0xFFFF_FFFF, 0xFFFF_FFFF);
    var square := words * words;
    assert square == cfg.memQuadratic * (square / cfg.memQuadratic) + square % cfg.memQuadratic;
  }

  /** When the price fits, and what it is otherwise: from 2^32 words on the quadratic part stays
      where it is, and the sum stops at u64::MAX. */
  lemma PriceSaturates(cfg: Config, words: nat)
    ensures words <= 0xFFFF_FFFF ==>
              MemoryCost(cfg, words) == Min(cfg.memLinear * words + words * words / cfg.memQuadratic, U64_MAX)
    ensures words > 0xFFFF_FFFF ==>
              MemoryCost(cfg, words) == Min(cfg.memLinear * words + U64_MAX / cfg.memQuadratic, U64_MAX)
  {
    if words <= 0xFFFF_FFFF { ProductBound(words, words, 0xFFFF_FFFF, 0xFFFF_FFFF); }
    else { ProductBound(0x1_0000_0000, 0x1_0000_0000, words, words); }
  }

  /** Memory is counted in words of 32 bytes, rounded up. */
  lemma WordsRoundUp(len: nat)
    ensures 32 * NumWords(len) - 32 < len <= 32 * NumWords(len)
  {
  }

  lemma ResizedIs(memory: seq<Byte>, size: nat)
    requires |memory| <= size
    ensures var r := Resize(memory, size);
            |r| == size && forall i | 0 <= i < size :: r[i] == if i < |memory| then memory[i] else 0
  {
  }

  /** What is new in memory after a paid expansion is zero, and what was there is as it was. */
  lemma GrowthIsZero(l: Local, offset: U64, len: U64, cfg: Config)
    requires MemoryOk(l, cfg)
    ensures var e := ExpandMemory(l, offset, len, cfg);
            forall i | 0 <= i < |e.local.memory| :: e.local.memory[i] == if i < |l.memory| then l.memory[i] else 0
  {
    var words := NumWords(SatAdd(offset, len));
    if words > l.gas.words { ResizedIs(l.memory, words * 32); }
  }

  /** The same of memory that a precompile's output got for free, apart from the output. */
  lemma FreeGrowthIsZero(l: Local, o: Outcome, rawOffset: nat, cfg: Config)
    requires MemoryOk(l, cfg) && WriteFull(l, o, rawOffset, cfg).Ok?
    ensures var memory, at := WriteFull(l, o, rawOffset, cfg).local.memory, rawOffset % 0x1_0000_0000;
            forall i | 0 <= i < |memory| && !(at <= i < at + |o.output|) ::
              memory[i] == if i < |l.memory| then l.memory[i] else 0
  {
    var words := NumWords(rawOffset % 0x1_0000_0000 + |o.output|);
    if words > l.gas.words { ResizedIs(l.memory, words * 32); }
  }

  /** How far a list of expansions takes memory of `words`. */
  function Furthest(cs: seq<Charge>, words: nat): (far: nat)
    ensures words <= far
    decreases |cs|
  {
    if cs == [] then words
    else
      var asked := if cs[0].Expand? then NumWords(SatAdd(cs[0].offset, cs[0].len)) else 0;
      Furthest(cs[1..], Max(words, asked))
  }

  lemma ExpandOnce(l: Local, offset: U64, len: U64, cfg: Config)
    requires Settled(l) && MemoryOk(l, cfg) && l.gas.factor == 0
    ensures var e, far := ExpandMemory(l, offset, len, cfg), Max(l.gas.words, NumWords(SatAdd(offset, len)));
            && MemoryCost(cfg, l.gas.words) <= MemoryCost(cfg, far)
            && (e.Ok? <==> far == l.gas.words
                           || (far * 32 <= cfg.memoryLimit
                               && MemoryCost(cfg, far) - MemoryCost(cfg, l.gas.words) <= l.gas.remaining))
            && (e.Ok? ==> e.local.gas.words == far && e.local.gas.factor == 0 && Settled(e.local) && MemoryOk(e.local, cfg)
                          && e.local.gas.remaining
                             == l.gas.remaining - (MemoryCost(cfg, far) - MemoryCost(cfg, l.gas.words)))
  {
    ExpandPays(l, offset, len, cfg);
  }

  /** However an expansion is split up, the steps go through exactly when it would in one, and
      cost the same in all: the difference of the prices at the two ends. */
  lemma {:induction false} ExpansionsTelescope(cs: seq<Charge>, l: Local, cfg: Config)
    requires Settled(l) && MemoryOk(l, cfg) && l.gas.factor == 0
    requires forall i | 0 <= i < |cs| :: cs[i].Expand?
    ensures var e, far := ExecCharges(cs, l, cfg), Furthest(cs, l.gas.words);
            && MemoryCost(cfg, l.gas.words) <= MemoryCost(cfg, far)
            && (e.Ok? <==> far == l.gas.words
                           || (far * 32 <= cfg.memoryLimit
                               && MemoryCost(cfg, far) - MemoryCost(cfg, l.gas.words) <= l.gas.remaining))
            && (e.Ok? ==> e.local.gas.words == far && |e.local.memory| == 32 * far
                          && e.local.gas.remaining
                             == l.gas.remaining - (MemoryCost(cfg, far) - MemoryCost(cfg, l.gas.words)))
    decreases |cs|
  {
    MemoryCostMono(cfg, l.gas.words, Furthest(cs, l.gas.words));
    if cs != [] {
      ExpandOnce(l, cs[0].offset, cs[0].len, cfg);
      var first := Max(l.gas.words, NumWords(SatAdd(cs[0].offset, cs[0].len)));
      MemoryCostMono(cfg, first, Furthest(cs, l.gas.words));
      var e := ExecCharge(cs[0], l, cfg);
      if e.Ok? { ExpansionsTelescope(cs[1..], e.local, cfg); }
    }
  }

  lemma FirstWordsPay(cs: seq<Charge>, l: Local, cfg: Config) returns (w: nat, p: U64)
    requires Settled(l) && l.memory == [] && l.gas.words == 0 && l.gas.memCost == 0 && l.gas.factor == 0
    requires (forall i | 0 <= i < |cs| :: cs[i].Expand?) && ExecCharges(cs, l, cfg).Ok?
    ensures w == Furthest(cs, 0) && p == MemoryCost(cfg, w)
    ensures p <= l.gas.remaining && ExecCharges(cs, l, cfg).local.gas.remaining == l.gas.remaining - p
  {
    assert MemoryCost(cfg, 0) == 0;
    w := Furthest(cs, 0);
    p := MemoryCost(cfg, w);
    ExpansionsTelescope(cs, l, cfg);
  }

  /** A frame without memory that expands to `w` words, in any number of steps, pays the linear
      price and the floor of the quadratic one. */
  lemma FirstWordsPrice(cs: seq<Charge>, l: Local, cfg: Config) returns (w: nat, p: U64)
    requires Settled(l) && l.memory == [] && l.gas.words == 0 && l.gas.memCost == 0 && l.gas.factor == 0
    requires (forall i | 0 <= i < |cs| :: cs[i].Expand?) && ExecCharges(cs, l, cfg).Ok?
    requires l.gas.remaining < U64_MAX && Furthest(cs, 0) <= 0xFFFF_FFFF
    ensures w == Furthest(cs, 0) && p == l.gas.remaining - ExecCharges(cs, l, cfg).local.gas.remaining
    ensures cfg.memLinear * w <= p
    ensures cfg.memQuadratic * (p - cfg.memLinear * w) <= w * w < cfg.memQuadratic * (p - cfg.memLinear * w + 1)
  {
    w, p := FirstWordsPay(cs, l, cfg);
    PriceFloors(cfg, w, p);
  }

  // ---------------------------------------------------------------------------
  // In place
  // ---------------------------------------------------------------------------

  class FrameMemory {
    const meter: GasMeter
    var buffer: seq<Byte>

    constructor (meter: GasMeter, buffer: seq<Byte>)
      ensures this.meter == meter && this.buffer == buffer
    {
      this.meter, this.buffer := meter, buffer;
    }

    /** Buffer, recorded words and recorded price agree. */
    ghost predicate InStep(cfg: Config)
      reads this, meter
    {
      |buffer| == 32 * meter.words && meter.memCost == MemoryCost(cfg, meter.words)
    }

    /** `resize_memory_cold`. The difference of prices, which the source unwraps without a
        check, is always there. On success buffer and meter are in step again; a refused
        charge leaves the meter ahead, in a frame that halts for it. */
    method ResizeCold(words: nat, cost: U64, cfg: Config) returns (error: Option<InstructionResult>)
      requires InStep(cfg) && meter.words < words && cost == MemoryCost(cfg, words) && meter.memCost <= cost
      modifies this, meter
      ensures words * 32 > cfg.memoryLimit ==>
        error == Some(MemoryLimitOOG) && meter.Value() == old(meter.Value()) && buffer == old(buffer)
      ensures words * 32 <= cfg.memoryLimit && Ordinary(old(meter.Value()), cost) ==>
        var (g, ok) := RecordRegular(old(meter.Value()).(words := words, memCost := cost), cost - old(meter.memCost));
        && meter.Value() == g && error == (if ok then None else Some(MemoryOOG))
        && buffer == if ok then Resize(old(buffer), words * 32) else old(buffer)
      ensures error.None? ==> InStep(cfg) && meter.words == words && old(buffer) <= buffer
    {
      if words * 32 > cfg.memoryLimit {
        return Some(MemoryLimitOOG);
      }
      var difference := meter.SetWordsNum(words, cost);
      var ok := meter.RecordRegularCost(difference.value);
      if !ok {
        return Some(MemoryOOG);
      }
      buffer := Resize(buffer, words * 32);
      return None;
    }

    /** `resize_memory` */
    method ResizeMemory(offset: U64, len: U64, cfg: Config, ghost l: Local) returns (error: Option<InstructionResult>)
      requires InStep(cfg) && l.gas == meter.Value() && l.memory == buffer
      modifies this, meter
      ensures Ordinary(l.gas, MemoryCost(cfg, NumWords(SatAdd(offset, len)))) ==>
        var e := ExpandMemory(l, offset, len, cfg);
        && meter.Value() == e.local.gas && buffer == e.local.memory
        && error == if e.Ok? then None else Some(e.result)
      ensures error.None? ==> InStep(cfg) && old(buffer) <= buffer
      ensures error.None? && offset + len <= U64_MAX ==> offset + len <= |buffer|
    {
      var words := NumWords(SatAdd(offset, len));
      if words <= meter.words {
        return None;
      }
      MemoryCostMono(cfg, meter.words, words);
      error := ResizeCold(words, MemoryCost(cfg, words), cfg);
    }
  }
}
