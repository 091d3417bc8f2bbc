# nxve1000 polling-mode timer driver, modelled in Dafny

This project models the hardware timer driver of the nxve1000 system-on-chip
(`system/src/nxve1000/timer.c`) in polling mode. It covers four things:

- **Register block.** `Timer_Reg` is the class `TimerRegisters.TimerRegs`.
  It has seven 32-bit register fields. Every store (`writel`) goes through
  `Write`, which also appends the store to a ghost log. The log lets the
  model state the order of the driver's stores.
- **Tick accumulator.** `TIMER_GetTick` turns the 32-bit down-counter `TCNTO`
  into a 64-bit tick count that only grows. The pure arithmetic is in
  `TickAccumulator`: `Now`, `Delta`, `Step`, and `Run`/`Ticks` for successive
  calls. Its properties are proved there as lemmas.
- **Driver state.** The singleton `_timer` is the class `TimerDriver.Timer`,
  with fields `base`, `timestamp` and `lastdec`. It also has a reference to
  the register block that `base` addresses.
  - `GetTick`, `Delay`, `Stop`, `Config`, `Start` and `Init` are methods that
    update those fields and registers in place.
  - Each method is proved against the pure functions.
- **Fixed-width arithmetic.** `FixedWidth` holds the C integer widths
  (`uint32_t`, `uint64_t`, `int`). Every unsigned wrap is written out, so
  each proof has to show when a wrap does or does not happen.

Hardware inputs become parameters:

- The value a `readl(&TCNTO)` returns is the `raw` argument of `GetTick`.
- The TCNTO values `Delay` would observe are a finite trace, `entry` plus
  `polls`.
- The register block at the computed address is the `block` argument of
  `Init`.
- `TIMER_PHY_BASE`, which `config.h` defines, is the constructor argument
  `phyBase`.

Behaviour of the code that the model keeps as written:

- `Init` rejects only `ch > 7`. A negative channel is accepted, programs
  the block and returns 0.
- The scale is not validated. Below 1 MHz it is 0, and `(uint32_t)(0 - 1)`
  sets every bit of TCFG0 (`PrescalerZeroScale`). `scale - 1` is not masked
  to the 8-bit prescaler field either. From 257 MHz up, its bits above
  bit 7 are ORed into the rest of TCFG0 (`PrescalerOverflow`); at 300 MHz
  that sets bit 8 (`PrescalerOverflowAt300MHz`).
- `Delay` converts a negative `us` with `(uint64_t)`. When `start < -us`
  the sum wraps and `end` lies just below 2^64 (`DelayEnd`), so `Delay`
  in practice never returns.
- `Start` overwrites TCON with `AUTORELOAD | START` after setting
  MANUALUPDATE. So after `Init`, TCON is exactly 0x9 and the manual-update
  bit is clear, not left set.
- The wrap formula adds `now + MAX_COUNT - lastdec`. With `MAX_COUNT` equal
  to 0xFFFFFFFF, the counter behaves as if it had period `MAX_COUNT`. So the
  up-counts 0 and `MAX_COUNT` give a zero delta (`DeltaZero`).

## Model

| member | source | states |
|---|---|---|
| FixedWidth.Wrap32 | system/src/nxve1000/timer.c:89-94 | the one-period correction equals C's unsigned 32-bit result, x modulo 2^32 |
| FixedWidth.Wrap64 | system/src/nxve1000/timer.c:77-94 | the one-period correction equals C's unsigned 64-bit result, x modulo 2^64 |
| FixedWidth.Cast32 | system/src/nxve1000/timer.c:104-105 | the cast `(uint32_t)` of a value in 0..0xff gives a word of at most 0xff |
| TickAccumulator.Now | system/src/nxve1000/timer.c:89 | `MAX_COUNT - raw` never underflows and is invertible: `raw == MAX_COUNT - now` |
| TickAccumulator.Delta | system/src/nxve1000/timer.c:91-94 | the delta is the forward distance from lastdec to now modulo the period `MAX_COUNT`, at most `MAX_COUNT`, and below `MAX_COUNT` after a wrap |
| TickAccumulator.Accumulate | system/src/nxve1000/timer.c:92-94 | `time +=` on the 64-bit timestamp is the sum modulo 2^64, and the plain sum when it fits |
| TickAccumulator.Step | system/src/nxve1000/timer.c:85-100 | one GetTick call stores the up-count `MAX_COUNT - raw` of its read as lastdec |
| TickAccumulator.StepWrapsModulo64 | system/src/nxve1000/timer.c:91-97 | even across a 64-bit overflow, one call moves the timestamp forward by exactly the delta modulo 2^64 |
| TickAccumulator.RunRecordsLastRead | system/src/nxve1000/timer.c:89-96 | with no calls the state is unchanged; after successive calls lastdec holds the up-count of the last read |
| TickAccumulator.Ticks | system/src/nxve1000/timer.c:85-100 | one returned value per read, and the last is the timestamp after the whole run |
| TickAccumulator.TicksAreReturns | system/src/nxve1000/timer.c:85-100 | the k-th value is what the k-th call returned: the timestamp after the first k + 1 reads |
| TickAccumulator.DeltaNoWrap | system/src/nxve1000/timer.c:91-94 | the delta equals the mathematical value `now - lastdec` (at most MAX) or `now + MAX - lastdec` (at most MAX-1); in the second formula the intermediate `now + MAX` wraps to `now - 1` for now >= 1 and the subtraction wraps back |
| TickAccumulator.DeltaZero | system/src/nxve1000/timer.c:91-94 | the delta is zero exactly for a repeated read, or for the pair now = 0, lastdec = MAX |
| TickAccumulator.DeltaRecoversElapsed | system/src/nxve1000/timer.c:91-94 | on a counter of period MAX_COUNT, with at most one wrap between reads, the delta recovers exactly the ticks elapsed |
| TickAccumulator.StepAdvances | system/src/nxve1000/timer.c:87-99 | without 64-bit overflow the timestamp grows by exactly the branch's delta, never decreases, grows by at most MAX, and a repeated read leaves it unchanged |
| TickAccumulator.StepRepeatIdempotent | system/src/nxve1000/timer.c:91-97 | a second call with the same TCNTO value changes nothing |
| TickAccumulator.RunBounded | system/src/nxve1000/timer.c:85-100 | over n calls the count grows by between 0 and n * MAX |
| TickAccumulator.TicksNondecreasing | system/src/nxve1000/timer.c:85-100 | successive return values never decrease, and the i-th is within (i+1) * MAX of the start |
| TimerRegisters.TimerRegs.Write | system/src/nxve1000/timer.c:51-59 | a store sets exactly one register of the block, leaves the other six alone, and is logged |
| TimerDriver.Mask | system/src/nxve1000/timer.c:121 | `_mask` clears the masked bits and keeps every other bit |
| TimerDriver.MuxWord | system/src/nxve1000/timer.c:104 | the TCFG1 selector field holds the low three bits of `(uint32_t)mux`; every other bit is the old bit ORed with the unmasked bit of mux |
| TimerDriver.PrescalerWord | system/src/nxve1000/timer.c:105 | the TCFG0 prescaler field holds the low byte of `(uint32_t)(scale - 1)`; every other bit is the old bit ORed with the unmasked bit of scale - 1 |
| TimerDriver.InitWrites | system/src/nxve1000/timer.c:104-121 | Init appends exactly seven stores, never to TCNTO or TINT_CSTAT; the first clears START in TCON and the last leaves TCON == 0x9 |
| TimerDriver.ChannelBase | system/src/nxve1000/timer.c:132 | for channels 0..7 the block address is `TIMER_PHY_BASE + 0x100 * ch` |
| TimerDriver.ChannelBlocksDisjoint | system/src/nxve1000/timer.c:132 | the register blocks of two different channels do not overlap |
| TimerDriver.Scale | system/src/nxve1000/timer.c:137 | scale is the whole number of MHz in the clock, rounded down |
| TimerDriver.DelayEnd | system/src/nxve1000/timer.c:77 | the end tick is start + us modulo 2^64: the plain sum for a non-negative us without overflow, and below start or near 2^64 for a negative us |
| TimerDriver.MuxBypassField | system/src/nxve1000/timer.c:104 | the bypass mux clears the three selector bits of TCFG1 and keeps the rest |
| TimerDriver.PrescalerField | system/src/nxve1000/timer.c:105 | for clocks from 1 MHz up to 257 MHz, the prescaler field holds scale - 1 and the other TCFG0 bits are kept |
| TimerDriver.PrescalerZeroScale | system/src/nxve1000/timer.c:105 | below 1 MHz, TCFG0 becomes all ones |
| TimerDriver.PrescalerOverflow | system/src/nxve1000/timer.c:105 | from 257 MHz up, scale - 1 has bits above the prescaler field and they are ORed into the rest of TCFG0 |
| TimerDriver.PrescalerOverflowAt300MHz | system/src/nxve1000/timer.c:105 | at 300 MHz the store sets bit 8 of TCFG0, outside the prescaler field |
| TimerDriver.DelayWaitsLongEnough | system/src/nxve1000/timer.c:77-81 | a finished Delay made its last tick reach entry tick + us, and every earlier poll was below it |
| TimerDriver.Timer.constructor | system/src/nxve1000/timer.c:64-71 | the driver state starts zeroed and unbound |
| TimerDriver.Timer.GetTick | system/src/nxve1000/timer.c:85-100 | the accumulator advances by one Step for the read, the return value is the stored timestamp, and base and registers are untouched |
| TimerDriver.Timer.Delay | system/src/nxve1000/timer.c:73-83 | polls until a tick reaches DelayEnd(entry tick, us); the state is the run over exactly the reads made, and every poll but the last was below the end |
| TimerDriver.Timer.Stop | system/src/nxve1000/timer.c:119-122 | one store clears the START bit of TCON |
| TimerDriver.Timer.Config | system/src/nxve1000/timer.c:102-108 | stores TCFG1, TCFG0, TCNTB, TCMPB in that order with the mux, prescaler and count words |
| TimerDriver.Timer.Start | system/src/nxve1000/timer.c:110-117 | two stores to TCON that leave it exactly AUTORELOAD, START |
| TimerDriver.Timer.Init | system/src/nxve1000/timer.c:124-144 | returns -1 with no store and no state change exactly when ch > 7; otherwise binds base, makes the seven stores in order, leaves TCON == 0x9, TCNTB == TCMPB == 0xFFFFFFFF, and keeps timestamp and lastdec |

## Left out

- The `TIMER_IRQ_MODE` branches (timer.c lines 75, 112-114, 134-136) are compile-time alternatives that are not elaborated. Only polling mode is modelled.
- Memory-mapped I/O semantics are not modelled: volatile access, the packed layout of `_timer`, and the value of `TIMER_PHY_BASE`. `config.h` and `io.h` are not part of this model. `_mask` is taken to be `reg & ~m`, and `BIT(n)` to be `1 << n`.
- The hardware counting down over time is not modelled. TCNTO reads are inputs, so the TCNTO field of the register block is never read by `GetTick`.
- `Timer.Delay` spins forever in the source when the count never reaches the end. The model polls a finite trace of TCNTO values and returns `done == false` when the trace runs out.
- `Timer.GetTick` states its effect as one `Step` of the accumulator. Its monotonicity and bounds are proved about `Step` in `StepAdvances`, `RunBounded` and `TicksNondecreasing`, not repeated in the method's contract.
- Physical-time accuracy is not claimed. The counter reloads from 0xFFFFFFFF, so the real period may be `MAX_COUNT + 1` ticks, and more than one wrap between calls loses ticks silently. The model states the code's arithmetic, with period `MAX_COUNT`.
- `TickAccumulator.StepAdvances`, `RunBounded` and `TicksNondecreasing` assume the 64-bit count does not overflow. The arithmetic itself models the 64-bit wrap.
- `Timer.Init` requires `clock <= 0x7FFFFFFF`. The `(int)clock` cast of larger clocks is implementation-defined in C.
- `ChannelBase` models `TIMER_CH_OFFSET * ch` for very negative channels as a 32-bit two's-complement wrap. In C that is a signed overflow.
- Concurrency and reentrancy from interrupt context are not modelled.
- `system/include/lib/time.h` (the `SysTime_Op` table) and the millisecond adapter are not part of this model.
