/** The arithmetic of TIMER_GetTick: a 32-bit hardware down-counter that
    reloads is turned into a 64-bit tick count that only grows.
    Everything here is a value; the driver's state and its GetTick method
    live in TimerDriver and are proved against Step below. */
module TickAccumulator {
  import opened FixedWidth

  /** TIMER_MAX_COUNT, the C expression -(1UL) with a 32-bit unsigned long */
  const MAX_COUNT: u32 := 0xFFFF_FFFF

  /** The accumulator state of the driver: the 64-bit tick count and the
      up-count seen at the previous read. */
  datatype TickState = TickState(timestamp: u64, lastdec: u32)

  /** The up-count for a raw read of the down-counting TCNTO register,
      computed as MAX_COUNT - raw in 32-bit unsigned arithmetic. */
  function Now(raw: u32): (now: u32)
    ensures now == MAX_COUNT - raw
    ensures raw == MAX_COUNT - now
  {
    Wrap32(MAX_COUNT - raw)
  }

  /** The ticks GetTick adds for a read whose up-count is `now`, with the
      C expressions evaluated in 32-bit unsigned arithmetic: now - lastdec
      when the counter has not reloaded, now + MAX_COUNT - lastdec after a
      reload. The result is the forward distance from lastdec to now on a
      counter that repeats every MAX_COUNT ticks. */
  function Delta(now: u32, lastdec: u32): (d: u32)
    ensures (lastdec + d) % MAX_COUNT == now % MAX_COUNT
    ensures d <= MAX_COUNT
    ensures now < lastdec ==> d < MAX_COUNT
  {
    if now >= lastdec then Wrap32(now - lastdec)
    else Wrap32(Wrap32(now + MAX_COUNT) - lastdec)
  }

  /** `time += delta` on the 64-bit timestamp: the sum modulo 2^64, which is
      the plain sum when it fits. */
  function Accumulate(time: u64, delta: u32): (r: u64)
    ensures r == (time + delta) % TWO_64
    ensures time + delta < TWO_64 ==> r == time + delta
  {
    Wrap64(time + delta)
  }

  /** One call of GetTick on the accumulator, for a raw TCNTO read. */
  function Step(s: TickState, raw: u32): (r: TickState)
    ensures r.lastdec == MAX_COUNT - raw
  {
    var now := Now(raw);
    TickState(Accumulate(s.timestamp, Delta(now, s.lastdec)), now)
  }

  /** The accumulator after successive GetTick calls that read `raws` in order. */
  function Run(s: TickState, raws: seq<u32>): TickState
    decreases |raws|
  {
    if raws == [] then s
    else Step(Run(s, raws[..|raws| - 1]), raws[|raws| - 1])
  }

  /** The values those successive GetTick calls return, one per read. */
  function Ticks(s: TickState, raws: seq<u32>): (ts: seq<u64>)
    ensures |ts| == |raws|
    ensures raws != [] ==> ts[|raws| - 1] == Run(s, raws).timestamp
    decreases |raws|
  {
    if raws == [] then []
    else Ticks(s, raws[..|raws| - 1]) + [Run(s, raws).timestamp]
  }

  /** With no reads the state is as it was; after at least one, lastdec holds
      the up-count of the last read. */
  lemma RunRecordsLastRead(s: TickState, raws: seq<u32>)
    ensures raws == [] ==> Run(s, raws) == s
    ensures raws != [] ==> Run(s, raws).lastdec == MAX_COUNT - raws[|raws| - 1]
  {
  }

  /** The k-th value is what the k-th GetTick call returned: the timestamp
      after the first k + 1 reads. */
  lemma {:induction false} TicksAreReturns(s: TickState, raws: seq<u32>, k: nat)
    requires k < |raws|
    ensures Ticks(s, raws)[k] == Run(s, raws[..k + 1]).timestamp
    decreases |raws|
  {
    var prefix := raws[..|raws| - 1];
    if k < |raws| - 1 {
      TicksAreReturns(s, prefix, k);
      assert prefix[..k + 1] == raws[..k + 1];
    } else {
      assert raws[..k + 1] == raws;
    }
  }

  /** One more read extends the run by one Step and the returned values by
      the new timestamp. */
  lemma TraceExtends(s: TickState, raws: seq<u32>, raw: u32)
    ensures Run(s, raws + [raw]) == Step(Run(s, raws), raw)
    ensures Ticks(s, raws + [raw]) == Ticks(s, raws) + [Step(Run(s, raws), raw).timestamp]
  {
    assert (raws + [raw])[..|raws|] == raws;
  }

  /** The delta is the mathematical value of the source's two formulas:
      now - lastdec, at most MAX_COUNT, and now + MAX_COUNT - lastdec, at
      most MAX_COUNT - 1. In the second formula the 32-bit intermediate
      now + MAX_COUNT wraps to now - 1 for every now >= 1, and the
      subtraction of lastdec wraps back. */
  lemma DeltaNoWrap(now: u32, lastdec: u32)
    ensures now >= lastdec ==> Delta(now, lastdec) == now - lastdec <= MAX_COUNT
    ensures now < lastdec ==> Delta(now, lastdec) == now + MAX_COUNT - lastdec <= MAX_COUNT - 1
    ensures now >= 1 ==> Wrap32(now + MAX_COUNT) == now - 1
  {
  }

  /** A zero delta comes from a repeated read, or from the two up-counts 0
      and MAX_COUNT, which a period of MAX_COUNT makes indistinguishable. */
  lemma DeltaZero(now: u32, lastdec: u32)
    ensures Delta(now, lastdec) == 0 <==> now == lastdec || (now == 0 && lastdec == MAX_COUNT)
  {
  }

  /** On a counter of period MAX_COUNT, if the up-count advanced by
      `elapsed` ticks with at most one reload in between, the delta recovers
      exactly `elapsed`. */
  lemma DeltaRecoversElapsed(lastdec: u32, elapsed: int)
    requires 0 <= elapsed < MAX_COUNT
    ensures Delta((lastdec + elapsed) % MAX_COUNT, lastdec) == elapsed
  {
  }

  /** Without a 64-bit overflow, GetTick adds exactly the delta: now - lastdec
      when now >= lastdec (nothing for a repeated read), now + MAX_COUNT -
      lastdec otherwise; the count never decreases and grows by at most
      MAX_COUNT. */
  lemma StepAdvances(s: TickState, raw: u32)
    requires s.timestamp + MAX_COUNT < TWO_64
    ensures var now := MAX_COUNT - raw;
            Step(s, raw).timestamp ==
              if now >= s.lastdec then s.timestamp + now - s.lastdec
              else s.timestamp + now + MAX_COUNT - s.lastdec
    ensures s.timestamp <= Step(s, raw).timestamp <= s.timestamp + MAX_COUNT
    ensures MAX_COUNT - raw == s.lastdec ==> Step(s, raw).timestamp == s.timestamp
  {
    DeltaNoWrap(Now(raw), s.lastdec);
  }

  /** Whatever the count, even across a 64-bit overflow, GetTick moves the
      timestamp forward by exactly the delta modulo 2^64. */
  lemma StepWrapsModulo64(s: TickState, raw: u32)
    ensures (Step(s, raw).timestamp - s.timestamp) % TWO_64 == Delta(MAX_COUNT - raw, s.lastdec)
  {
  }

  /** Two GetTick calls with no change of the counter in between return the
      same value: the second one adds nothing. */
  lemma StepRepeatIdempotent(s: TickState, raw: u32)
    ensures Step(Step(s, raw), raw) == Step(s, raw)
  {
  }

  /** Over n reads the count grows by at most n * MAX_COUNT, as long as
      that stays below 2^64. */
  lemma {:induction false} RunBounded(s: TickState, raws: seq<u32>)
    requires s.timestamp + |raws| * MAX_COUNT < TWO_64
    ensures s.timestamp <= Run(s, raws).timestamp <= s.timestamp + |raws| * MAX_COUNT
    decreases |raws|
  {
    if raws != [] {
      var prefix := raws[..|raws| - 1];
      RunBounded(s, prefix);
      StepAdvances(Run(s, prefix), raws[|raws| - 1]);
    }
  }

  /** The values of successive GetTick calls never decrease, and the i-th
      lies within i + 1 periods of the starting count, as long as the count
      cannot overflow 64 bits. */
  lemma {:induction false} TicksNondecreasing(s: TickState, raws: seq<u32>)
    requires s.timestamp + |raws| * MAX_COUNT < TWO_64
    ensures forall i, j :: 0 <= i <= j < |raws| ==> Ticks(s, raws)[i] <= Ticks(s, raws)[j]
    ensures forall i :: 0 <= i < |raws| ==>
              s.timestamp <= Ticks(s, raws)[i] <= s.timestamp + (i + 1) * MAX_COUNT
    decreases |raws|
  {
    if raws != [] {
      var n := |raws|;
      var prefix := raws[..n - 1];
      var before := Ticks(s, prefix);
      var ticks := Ticks(s, raws);
      var mid := Run(s, prefix).timestamp;
      TicksNondecreasing(s, prefix);
      RunBounded(s, prefix);
      StepAdvances(Run(s, prefix), raws[n - 1]);
      assert ticks == before + [Run(s, raws).timestamp];
      assert mid <= ticks[n - 1] <= mid + MAX_COUNT;
      assert n >= 2 ==> before[n - 2] == mid;
      forall i | 0 <= i < n
        ensures s.timestamp <= ticks[i] <= s.timestamp + (i + 1) * MAX_COUNT
        ensures ticks[i] <= ticks[n - 1]
      {
        if i < n - 1 {
          assert ticks[i] == before[i];
        }
      }
      forall i, j | 0 <= i <= j < n
        ensures ticks[i] <= ticks[j]
      {
        if j < n - 1 {
          assert ticks[i] == before[i] && ticks[j] == before[j];
        }
      }
    }
  }
}
