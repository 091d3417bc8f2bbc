/** The polling-mode timer driver of the nxve1000 system-on-chip
    (system/src/nxve1000/timer.c): the singleton timer state, the
    register programming done by Init, GetTick and the Delay loop. */
module TimerDriver {
  import opened FixedWidth
  import opened TickAccumulator
  import opened TimerRegisters

  /** The tick rate the prescaler aims at: one tick per microsecond. */
  const TIMER_CLOCK_HZ: int := 1_000_000
  /** Source mux selector 0: bypass. */
  const TIMER_MUX_SEL: i32 := 0
  /** Distance between the register blocks of consecutive channels. */
  const TIMER_CH_OFFSET: int := 0x100
  /** Number of bytes one register block occupies (seven 32-bit words). */
  const REG_BLOCK_SIZE: int := 0x1C

  const TCFG0_PRESCALER_MASK: bv32 := 0xff
  const TCFG1_MUX_MASK: bv32 := 0x7
  const TCON_START: bv32 := 1 << 0
  const TCON_MANUALUPDATE: bv32 := 1 << 1
  const TCON_AUTORELOAD: bv32 := 1 << 3

  /** _mask(reg, m): the word reg with the bits of m cleared. */
  function Mask(reg: bv32, m: bv32): (r: bv32)
    ensures r & m == 0
    ensures r & !m == reg & !m
  {
    reg & !m
  }

  /** The address of channel ch's register block, TIMER_PHY_BASE +
      TIMER_CH_OFFSET * ch as a 32-bit pointer. For the eight channels the
      blocks lie one stride apart above phyBase. */
  function ChannelBase(phyBase: u32, ch: i32): (addr: u32)
    ensures 0 <= ch <= 7 && phyBase + 8 * TIMER_CH_OFFSET <= TWO_32 ==>
              addr == phyBase + TIMER_CH_OFFSET * ch
  {
    (phyBase + TIMER_CH_OFFSET * ch) % TWO_32
  }

  /** (int)clock / TIMER_CLOCK_HZ: the whole number of 1 MHz ticks per
      input clock cycle, rounded down. */
  function Scale(clock: u32): (scale: i32)
    requires clock <= 0x7FFF_FFFF
    ensures 0 <= scale <= 2147
    ensures scale * TIMER_CLOCK_HZ <= clock < (scale + 1) * TIMER_CLOCK_HZ
  {
    clock / TIMER_CLOCK_HZ
  }

  /** The TCFG1 word Config stores: the selector field holds the low three
      bits of (uint32_t)mux, and every other bit is the old bit ORed with
      the bit of (uint32_t)mux, which is not masked. */
  function MuxWord(tcfg1: bv32, mux: i32): (w: bv32)
    ensures w & TCFG1_MUX_MASK == Cast32(mux) & TCFG1_MUX_MASK
    ensures w & !TCFG1_MUX_MASK == (tcfg1 & !TCFG1_MUX_MASK) | (Cast32(mux) & !TCFG1_MUX_MASK)
  {
    Mask(tcfg1, TCFG1_MUX_MASK) | Cast32(mux)
  }

  /** The TCFG0 word Config stores: the prescaler field holds the low byte
      of (uint32_t)(scale - 1), and every other bit is the old bit ORed with
      the bit of (uint32_t)(scale - 1), which is not masked to 8 bits. */
  function PrescalerWord(tcfg0: bv32, scale: i32): (w: bv32)
    ensures w & TCFG0_PRESCALER_MASK == Cast32(scale - 1) & TCFG0_PRESCALER_MASK
    ensures w & !TCFG0_PRESCALER_MASK ==
              (tcfg0 & !TCFG0_PRESCALER_MASK) | (Cast32(scale - 1) & !TCFG0_PRESCALER_MASK)
  {
    Mask(tcfg0, TCFG0_PRESCALER_MASK) | Cast32(scale - 1)
  }

  /** The store log after Init's seven stores, in order: Stop, Config,
      Start, appended to the log `before`. */
  ghost function InitWrites(before: seq<RegWrite>, tcon: bv32, tcfg0: bv32, tcfg1: bv32, scale: i32): (log: seq<RegWrite>)
    ensures |log| == |before| + 7 && log[..|before|] == before
    ensures forall i :: |before| <= i < |log| ==>
              log[i].reg != Reg.TCNTO && log[i].reg != Reg.TINT_CSTAT
    ensures log[|before|].reg == Reg.TCON && log[|before|].value & TCON_START == 0
    ensures log[|before| + 6] == RegWrite(Reg.TCON, 0x9)
  {
    before
    + [RegWrite(Reg.TCON, Mask(tcon, TCON_START))]
    + [RegWrite(Reg.TCFG1, MuxWord(tcfg1, TIMER_MUX_SEL))]
    + [RegWrite(Reg.TCFG0, PrescalerWord(tcfg0, scale))]
    + [RegWrite(Reg.TCNTB, Cast32(MAX_COUNT))]
    + [RegWrite(Reg.TCMPB, Cast32(MAX_COUNT))]
    + [RegWrite(Reg.TCON, Mask(tcon, TCON_START) | TCON_MANUALUPDATE)]
    + [RegWrite(Reg.TCON, TCON_AUTORELOAD | TCON_START)]
  }

  /** The end tick of Delay: start + (uint64_t)us in 64-bit arithmetic.
      A non-negative us that does not overflow gives start + us; a negative
      us is converted to us + 2^64 and so lands below start or wraps high. */
  function DelayEnd(start: u64, us: i32): (end: u64)
    ensures 0 <= us && start + us < TWO_64 ==> end == start + us
    ensures us < 0 && start + us >= 0 ==> end == start + us
    ensures us < 0 && start + us < 0 ==> end == start + us + TWO_64
    ensures end == (start + us) % TWO_64
  {
    Wrap64(start + Wrap64(us))
  }

  /** The bypass mux leaves the three selector bits of TCFG1 clear and the
      rest of the register as it was. */
  lemma MuxBypassField(tcfg1: bv32)
    ensures MuxWord(tcfg1, TIMER_MUX_SEL) & TCFG1_MUX_MASK == 0
    ensures MuxWord(tcfg1, TIMER_MUX_SEL) & !TCFG1_MUX_MASK == tcfg1 & !TCFG1_MUX_MASK
  {
    assert Cast32(TIMER_MUX_SEL) == 0;
  }

  /** For an input clock of 1 MHz up to 257 MHz (exclusive) the prescaler
      field of TCFG0 holds scale - 1, a value of at most 0xff, and the
      other bits of TCFG0 are kept. */
  lemma PrescalerField(tcfg0: bv32, clock: u32)
    requires TIMER_CLOCK_HZ <= clock < 257 * TIMER_CLOCK_HZ
    ensures Cast32(Scale(clock) - 1) <= TCFG0_PRESCALER_MASK
    ensures PrescalerWord(tcfg0, Scale(clock)) & TCFG0_PRESCALER_MASK == Cast32(Scale(clock) - 1)
    ensures PrescalerWord(tcfg0, Scale(clock)) & !TCFG0_PRESCALER_MASK == tcfg0 & !TCFG0_PRESCALER_MASK
  {
    var v := Cast32(Scale(clock) - 1);
    assert v <= 0xff;
    PrescalerMerge(tcfg0, v);
  }

  lemma PrescalerMerge(tcfg0: bv32, v: bv32)
    requires v <= 0xff
    ensures (Mask(tcfg0, TCFG0_PRESCALER_MASK) | v) & TCFG0_PRESCALER_MASK == v
    ensures (Mask(tcfg0, TCFG0_PRESCALER_MASK) | v) & !TCFG0_PRESCALER_MASK == tcfg0 & !TCFG0_PRESCALER_MASK
  {
  }

  /** From 257 MHz up, scale - 1 no longer fits the 8-bit prescaler field:
      its higher bits are ORed into the rest of TCFG0. */
  lemma PrescalerOverflow(tcfg0: bv32, clock: u32)
    requires 257 * TIMER_CLOCK_HZ <= clock <= 0x7FFF_FFFF
    ensures Cast32(Scale(clock) - 1) & !TCFG0_PRESCALER_MASK != 0
    ensures PrescalerWord(tcfg0, Scale(clock)) & !TCFG0_PRESCALER_MASK ==
              (tcfg0 & !TCFG0_PRESCALER_MASK) | (Cast32(Scale(clock) - 1) & !TCFG0_PRESCALER_MASK)
  {
    CastAboveByte(Scale(clock) - 1);
    var v := Cast32(Scale(clock) - 1);
    assert v > 0xff;
  }

  /** At 300 MHz the value 299 = 0x12B sets bit 8 of TCFG0, outside the
      prescaler field. */
  lemma PrescalerOverflowAt300MHz(tcfg0: bv32)
    ensures PrescalerWord(tcfg0, Scale(300 * TIMER_CLOCK_HZ)) & 0x100 == 0x100
  {
    assert Scale(300 * TIMER_CLOCK_HZ) == 300;
    assert Wrap32(299) == 299;
    assert Cast32(299) == 0x12B;
  }

  /** Below 1 MHz the scale is 0 and (uint32_t)(0 - 1) sets every bit of
      TCFG0, whatever it held. */
  lemma PrescalerZeroScale(tcfg0: bv32, clock: u32)
    requires clock < TIMER_CLOCK_HZ
    ensures PrescalerWord(tcfg0, Scale(clock)) == 0xFFFF_FFFF
  {
    assert Scale(clock) - 1 == -1;
    CastMinusOne();
  }

  /** What Delay has done after the GetTick calls that read `trace`: the
      first call fixed end = DelayEnd(first value, us), every later call
      but the last returned less than end, and done says whether a later
      call reached end. */
  ghost predicate DelayPolled(s0: TickState, trace: seq<u32>, us: i32, done: bool) {
    && |trace| >= 1
    && var ticks := Ticks(s0, trace);
       var end := DelayEnd(ticks[0], us);
       && (forall k :: 1 <= k < |trace| - 1 ==> ticks[k] < end)
       && (done <==> |trace| > 1 && ticks[|trace| - 1] >= end)
  }

  /** A poll made while Delay is not done extends what it has done by one
      GetTick and keeps the first value, hence end. */
  lemma PollExtends(s0: TickState, trace: seq<u32>, raw: u32, us: i32)
    requires DelayPolled(s0, trace, us, false)
    ensures Run(s0, trace + [raw]) == Step(Run(s0, trace), raw)
    ensures Ticks(s0, trace + [raw])[0] == Ticks(s0, trace)[0]
    ensures DelayPolled(s0, trace + [raw], us,
              Step(Run(s0, trace), raw).timestamp >= DelayEnd(Ticks(s0, trace)[0], us))
  {
    TraceExtends(s0, trace, raw);
  }

  /** For a non-negative us without 64-bit overflow, a finished Delay made
      its last GetTick return at least the first value plus us, and every
      poll before it returned less. */
  lemma DelayWaitsLongEnough(s0: TickState, trace: seq<u32>, us: i32)
    requires DelayPolled(s0, trace, us, true)
    requires 0 <= us && Ticks(s0, trace)[0] + us < TWO_64
    ensures Ticks(s0, trace)[|trace| - 1] >= Ticks(s0, trace)[0] + us
    ensures forall k :: 1 <= k < |trace| - 1 ==> Ticks(s0, trace)[k] < Ticks(s0, trace)[0] + us
  {
  }

  lemma PrefixExtends(entry: u32, polls: seq<u32>, n: nat)
    requires n < |polls|
    ensures [entry] + polls[..n + 1] == ([entry] + polls[..n]) + [polls[n]]
  {
    assert polls[..n + 1] == polls[..n] + [polls[n]];
  }

  class Timer {
    /** TIMER_PHY_BASE, the address of channel 0's register block. */
    const phyBase: u32
    /** _timer.base: the address of the bound register block, 0 until Init. */
    var base: u32
    /** The register block found at address base. */
    var regs: TimerRegs?
    /** _timer.timestamp */
    var timestamp: u64
    /** _timer.lastdec */
    var lastdec: u32

    /** The accumulator part of the state. */
    function State(): TickState
      reads this
    {
      TickState(timestamp, lastdec)
    }

    /** The zero-initialised static _timer. */
    constructor (phyBase: u32)
      ensures this.phyBase == phyBase
      ensures base == 0 && regs == null
      ensures timestamp == 0 && lastdec == 0
    {
      this.phyBase := phyBase;
      base := 0;
      regs := null;
      timestamp := 0;
      lastdec := 0;
    }

    /** TIMER_GetTick, for a TCNTO read that returned raw: advances the
        accumulator by one Step and returns the new timestamp. */
    method GetTick(raw: u32) returns (t: u64)
      modifies this`timestamp, this`lastdec
      ensures State() == Step(old(State()), raw)
      ensures t == timestamp
    {
      var time := timestamp;
      var last := lastdec;
      var now := Now(raw);
      time := Accumulate(time, Delta(now, last));
      lastdec := now;
      timestamp := time;
      t := timestamp;
    }

    /** TIMER_Delay in polling mode. The hardware's progress is the trace of
        TCNTO values it shows: entry to the first GetTick, then polls[k] to
        the k-th poll of the loop. Delay stops polling as soon as a poll
        reaches DelayEnd(first tick, us) (done) or the trace is used up
        (where the source would go on spinning). */
    method Delay(us: i32, entry: u32, polls: seq<u32>) returns (done: bool, n: nat)
      modifies this`timestamp, this`lastdec
      ensures n <= |polls|
      ensures State() == Run(old(State()), [entry] + polls[..n])
      ensures DelayPolled(old(State()), [entry] + polls[..n], us, done)
      ensures !done ==> n == |polls|
    {
      ghost var s0 := State();
      ghost var trace := [entry];
      TraceExtends(s0, [], entry);
      assert [] + [entry] == trace;
      var start := GetTick(entry);
      var end := Wrap64(start + Wrap64(us));
      done, n := false, 0;
      while !done && n < |polls|
        invariant n <= |polls|
        invariant trace == [entry] + polls[..n]
        invariant State() == Run(s0, trace)
        invariant Ticks(s0, trace)[0] == start && end == DelayEnd(start, us)
        invariant DelayPolled(s0, trace, us, done)
        decreases |polls| - n
      {
        PollExtends(s0, trace, polls[n], us);
        PrefixExtends(entry, polls, n);
        var t := GetTick(polls[n]);
        trace := trace + [polls[n]];
        n := n + 1;
        done := t >= end;
      }
    }

    /** TIMER_Stop: clears the start bit of TCON with one store. */
    method Stop()
      requires regs != null
      modifies regs
      ensures regs.TCON == Mask(old(regs.TCON), TCON_START)
      ensures regs.TCFG0 == old(regs.TCFG0) && regs.TCFG1 == old(regs.TCFG1)
      ensures regs.TCNTB == old(regs.TCNTB) && regs.TCMPB == old(regs.TCMPB)
      ensures regs.TCNTO == old(regs.TCNTO) && regs.TINT_CSTAT == old(regs.TINT_CSTAT)
      ensures regs.writes == old(regs.writes) + [RegWrite(Reg.TCON, Mask(old(regs.TCON), TCON_START))]
    {
      regs.Write(Reg.TCON, Mask(regs.TCON, TCON_START));
    }

    /** TIMER_Config: stores the mux selector into TCFG1, scale - 1 into
        TCFG0, and count into TCNTB and TCMPB, in that order. */
    method Config(mux: i32, scale: i32, count: u32)
      requires regs != null
      modifies regs
      ensures regs.TCFG1 == MuxWord(old(regs.TCFG1), mux)
      ensures regs.TCFG0 == PrescalerWord(old(regs.TCFG0), scale)
      ensures regs.TCNTB == Cast32(count) && regs.TCMPB == Cast32(count)
      ensures regs.TCON == old(regs.TCON) && regs.TCNTO == old(regs.TCNTO)
      ensures regs.TINT_CSTAT == old(regs.TINT_CSTAT)
      ensures regs.writes == old(regs.writes)
                + [RegWrite(Reg.TCFG1, MuxWord(old(regs.TCFG1), mux))]
                + [RegWrite(Reg.TCFG0, PrescalerWord(old(regs.TCFG0), scale))]
                + [RegWrite(Reg.TCNTB, Cast32(count))]
                + [RegWrite(Reg.TCMPB, Cast32(count))]
    {
      regs.Write(Reg.TCFG1, MuxWord(regs.TCFG1, mux));
      regs.Write(Reg.TCFG0, PrescalerWord(regs.TCFG0, scale));
      regs.Write(Reg.TCNTB, Cast32(count));
      regs.Write(Reg.TCMPB, Cast32(count));
    }

    /** TIMER_Start: sets MANUALUPDATE in TCON, then overwrites TCON with
        AUTORELOAD | START, which leaves MANUALUPDATE clear. */
    method Start()
      requires regs != null
      modifies regs
      ensures regs.TCON == TCON_AUTORELOAD | TCON_START
      ensures regs.TCFG0 == old(regs.TCFG0) && regs.TCFG1 == old(regs.TCFG1)
      ensures regs.TCNTB == old(regs.TCNTB) && regs.TCMPB == old(regs.TCMPB)
      ensures regs.TCNTO == old(regs.TCNTO) && regs.TINT_CSTAT == old(regs.TINT_CSTAT)
      ensures regs.writes == old(regs.writes)
                + [RegWrite(Reg.TCON, old(regs.TCON) | TCON_MANUALUPDATE)]
                + [RegWrite(Reg.TCON, TCON_AUTORELOAD | TCON_START)]
    {
      regs.Write(Reg.TCON, regs.TCON | TCON_MANUALUPDATE);
      regs.Write(Reg.TCON, TCON_AUTORELOAD | TCON_START);
    }

    /** TIMER_Init: a channel above 7 is refused with -1 before anything is
        touched; any other channel (a negative one too) binds the block at
        ChannelBase(phyBase, ch), programs it through Stop, Config and Start
        and returns 0. The accumulator is left as it was. */
    method Init(ch: i32, clock: u32, block: TimerRegs) returns (rc: i32)
      requires clock <= 0x7FFF_FFFF
      modifies this`base, this`regs, block
      ensures rc == if ch > 7 then -1 else 0
      ensures timestamp == old(timestamp) && lastdec == old(lastdec)
      ensures ch > 7 ==> base == old(base) && regs == old(regs) && unchanged(block)
      ensures ch <= 7 ==>
                && base == ChannelBase(phyBase, ch) && regs == block
                && block.TCFG1 == MuxWord(old(block.TCFG1), TIMER_MUX_SEL)
                && block.TCFG0 == PrescalerWord(old(block.TCFG0), Scale(clock))
                && block.TCNTB == 0xFFFF_FFFF && block.TCMPB == 0xFFFF_FFFF
                && block.TCON == 0x9
                && block.TCNTO == old(block.TCNTO) && block.TINT_CSTAT == old(block.TINT_CSTAT)
                && block.writes ==
                     InitWrites(old(block.writes), old(block.TCON), old(block.TCFG0), old(block.TCFG1), Scale(clock))
    {
      var count: u32 := MAX_COUNT;
      if ch > 7 {
        return -1;
      }
      base := ChannelBase(phyBase, ch);
      regs := block;
      var scale := Scale(clock);
      Stop();
      Config(TIMER_MUX_SEL, scale, count);
      Start();
      CastAllOnes();
      return 0;
    }
  }

  /** Two channels' register blocks never overlap: each lies a full stride
      (more than one block) above the previous one. */
  lemma ChannelBlocksDisjoint(phyBase: u32, a: i32, b: i32)
    requires phyBase + 8 * TIMER_CH_OFFSET <= TWO_32
    requires 0 <= a < b <= 7
    ensures ChannelBase(phyBase, a) + REG_BLOCK_SIZE <= ChannelBase(phyBase, b)
  {
  }
}
