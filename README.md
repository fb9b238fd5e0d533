# cocotb-wrapper, modelled in Dafny

This project models the self-contained logic of `cocotb-wrapper`, a helper library for
cocotb hardware test benches, together with the two example test benches shipped with it.
It proves properties of the model with the Dafny verifier. The simulator is not modelled.
Everything the library awaits or writes on a signal becomes an entry of an action trace
(`Sim.Action`): a timer wait, an edge wait, the timeout race, a signal write, or an error or
warning log. Random draws and the outcome of the timeout race are inputs.

One module per source file:

- `Timer` (`cocotb_wrapper/timer.py`): the unit converter, `get_delay_specs`, and the waits
  of `delay`, `edge_trigger` and `trigger_with_timeout` as traces.
- `Clocks` (`cocotb_wrapper/clock.py`): the clock's parameters, and the driver-task state
  machine of `start_soon` and `stop`.
- `Scheduler` (`cocotb_wrapper/scheduler.py`):
  - the clamped jitter walk;
  - the loopback FIFO between the receiver and the sender, as a class;
  - the three loopback coroutines;
  - `validate_bit_stream`;
  - the signal drivers and `delay_triggered_action`.
- `BitConvert` (`cocotb_wrapper/convert.py`): int to bit array and back, and int to chunk
  list and back.
- `Check` (`cocotb_wrapper/check.py`): the `compare*` family and `compare_bit_stream`.
- `Models` (`cocotb_wrapper/models.py`): the enums, `TriggerConfig`, `Defaultable` and
  `PriorityFifoQueue`.
- `BlockBuffers` (`tests/test_benches/block_buffer/models.py`): the ring-buffer golden
  model. It has two layers:
  - classes `Block` and `BlockBuffer` updated in place;
  - a value view (`BufState`) on which the invariants are proved.
- `BlockBufferBench` (`tests/test_benches/block_buffer/test_bench.py`): `set_input`,
  `reset_inputs` and the tick counting of `check_output`.
- `PrbsBench` (`tests/test_benches/prbs_test/test_bench.py`): the delay list and the
  dispatch of `setup_signal_loopback`.
- `Axi` (`cocotb_wrapper/axi.py`): `bits_to_bytes`, the random payload generators and the
  AXI encodings of section A of the AMBA AXI protocol specification.

Shared support:

- `Results`: Option and Result.
- `Arith`: powers of two and division facts.
- `Sim`: the action trace.

Modelling conventions:

- Python's `int()` of a float is `Timer.Trunc`, truncation toward zero.
- Float quantities are Dafny `real`s, so they are exact.
- Python assertions and exceptions become `Failure` values.

## Model

| member | source | states |
|---|---|---|
| Timer.Trunc | cocotb_wrapper/timer.py:19 | `int()` truncates toward zero: the result is within one of its argument and never farther from zero |
| Timer.ConvertStep | cocotb_wrapper/timer.py:11-34 | missing clock iff the target is `cycle` without a clock; success only for us/ns to a different unit of us, ns, cycle; cycle counts are whole |
| Timer.Convert | cocotb_wrapper/timer.py:10-34 | the clock assertion fails exactly when `cycle` is the source or the target and no clock is given; results in cycles are whole numbers |
| Timer.ConvertWallClock | cocotb_wrapper/timer.py:20-30 | us to ns multiplies by 1000, ns to us divides by 1000, with no truncation, and us to ns to us is the identity |
| Timer.WallClockFactor | cocotb_wrapper/timer.py:16-27 | the exact factor between us and ns is positive, and is 1 only for the same unit |
| Timer.ConvertToCycles | cocotb_wrapper/timer.py:14-28 | us or ns to cycles of an ns or us clock is the truncated number of whole clock periods in the duration; any other clock unit leaves the factor undefined |
| Timer.WholePeriods | cocotb_wrapper/timer.py:23-28 | the truncated period count of a non-negative duration times the period lies in (duration - period, duration] |
| Timer.ConvertFromCycles | cocotb_wrapper/timer.py:31-32 | n cycles convert as n periods in the clock's unit; cycle to ns works only for a us clock and cycle to us only for an ns clock |
| Timer.ConvertUnsupported | cocotb_wrapper/timer.py:13-34 | same-unit pairs and pairs involving units other than us, ns and cycle raise NotImplementedError |
| Timer.ConvertCycleRoundTrip | cocotb_wrapper/timer.py:13-32 | us or ns to cycles and back, with a clock in the other wall-clock unit, gives whole periods that are at most the input and within one period of it |
| Timer.ConvertRoundTripNeedsOtherUnit | cocotb_wrapper/timer.py:13-34 | with a clock in the source's own unit, the way back from cycles is refused |
| Timer.GetDelaySpecs | cocotb_wrapper/timer.py:88-104 | success iff none of the three assertions fires, each assertion with its own error; the edge is returned unchanged; wall-clock units pass through; clock units resolve to the clock's unit |
| Timer.GetEdgeTrigger | cocotb_wrapper/timer.py:48-65 | rising, falling and any map to `RisingEdge`, `FallingEdge` and `Edge` of the clock's signal or the raw signal; `none` has no trigger |
| Timer.EdgeTrigger | cocotb_wrapper/timer.py:37-45 | one edge wait for an edge type other than `none`, nothing for `none` |
| Timer.Delay | cocotb_wrapper/timer.py:107-127 | a non-positive duration does nothing and skips the checks; otherwise success iff `get_delay_specs` succeeds; at most a timer wait then an edge wait, and never a signal write |
| Timer.DelayWaits | cocotb_wrapper/timer.py:118-127 | the waits of a delay with resolved specs: at most two, each a timer wait or an edge wait, and no signal write |
| Timer.DelayCycles | cocotb_wrapper/timer.py:93-95 | n cycles wait exactly n periods in the clock's unit, then the requested edge |
| Timer.DelayEdges | cocotb_wrapper/timer.py:96-103 | n edges wait n - 1 periods (half periods for `any`), then the edge; no timer wait when that is not positive |
| Timer.DelayWallClock | cocotb_wrapper/timer.py:107-127 | a positive wall-clock delay is one timer wait; without a clock, a sync edge fails the clock check; with a clock, the timer wait is followed by the wait for the requested edge on the clock |
| Timer.RaceTriggers | cocotb_wrapper/timer.py:70-75 | defined iff no configuration has edge `none`; then one trigger per configuration, in order, each exactly `get_edge_trigger` of that configuration's signal and edge |
| Timer.TriggerWithTimeout | cocotb_wrapper/timer.py:68-85 | fails iff the timeout's specs fail (a clock-relative unit without a clock, or `edge`, whose edge type passed on is `none`) or a trigger has no edge; otherwise the result is whether a trigger fired, the trace starts with the race, an error is logged iff it timed out and is not silent, and a warning iff a post-sync edge is asked without a clock |
| Timer.TriggerWithTimeoutTrace | cocotb_wrapper/timer.py:68-85 | with valid triggers and timeout, the whole trace: the race for the timeout (cycles as periods in the clock's unit, wall-clock units as given), the error log iff it timed out and is not silent, then the wait for the post-trigger edge on the clock, or, without a clock, a warning iff such an edge was asked |
| Clocks.ClockParams.HalfPeriod | cocotb_wrapper/clock.py:27 | the half period is positive and twice it is the period |
| Clocks.ClockParams.Periods | cocotb_wrapper/timer.py:95 | n periods have the sign of n |
| Clocks.ClockParams.Cycles | cocotb_wrapper/timer.py:25 | the number of periods in a duration is the inverse of `Periods` |
| Clocks.ClockParams.HalfPeriods | cocotb_wrapper/timer.py:100 | n half periods have the sign of n |
| Clocks.PeriodsMonotone | cocotb_wrapper/timer.py:95 | more cycles are a longer wait |
| Clocks.Task.Kill | cocotb_wrapper/clock.py:49 | a killed task is finished |
| Clocks.Clock.constructor | cocotb_wrapper/clock.py:22-29 | stores name, unit, period and signal (defaults "main", 10, ns), half period = period / 2, no task |
| Clocks.Clock.Start | cocotb_wrapper/clock.py:31-32 | `start` records no task |
| Clocks.Clock.StartSoon | cocotb_wrapper/clock.py:34-39 | a live task is returned again with a warning; otherwise a fresh running task is stored and returned |
| Clocks.Clock.Stop | cocotb_wrapper/clock.py:41-49 | no task, or a finished or cancelled one, only warns and changes nothing; a live task is killed |
| Clocks.StartThenStopOnlyWarns | cocotb_wrapper/clock.py:31-43 | after `start`, `stop` reports that the clock was not started |
| Clocks.StartSoonIsIdempotent | cocotb_wrapper/clock.py:34-49 | two `start_soon` return the same task; after `stop` a third one creates a new task |
| Scheduler.JitterStep | cocotb_wrapper/scheduler.py:190-195 | the sign flips only when the next sum would leave the bound; the sum moves by the signed draw; a walk within the bound stays within it and moves by exactly the draw |
| Scheduler.JitterWalk | cocotb_wrapper/scheduler.py:186-195 | the jitter sign stays 1 or -1 after any number of draws |
| Scheduler.JitterWalkBounded | cocotb_wrapper/scheduler.py:186-195 | from sum 0 and sign 1, with draws in [0, max], the jitter sum stays within [-max, max] after every number of draws |
| Scheduler.JitterOffsetsBounded | cocotb_wrapper/scheduler.py:189-195 | each offset has the size of its draw, and the offsets add up to the walk's final sum, which is within the bound |
| Scheduler.JitterOffsetsSum | cocotb_wrapper/scheduler.py:189-195 | the offsets of the first n draws add up to the running sum after n draws |
| Scheduler.JitterOffsets | cocotb_wrapper/scheduler.py:189-195 | one offset per draw, each the change of the running sum at that draw |
| Scheduler.JitterDelays | cocotb_wrapper/scheduler.py:189-195 | one replay delay per draw |
| Scheduler.JitterDelaysWithin | cocotb_wrapper/scheduler.py:189-195 | every replay delay lies in [period - max, period + max], and is exactly the period when the maximum is 0 |
| Scheduler.Loopback.constructor | cocotb_wrapper/scheduler.py:182-183 | a new loopback has an empty queue, a live receiver and nothing written |
| Scheduler.Loopback.Receive | cocotb_wrapper/scheduler.py:244-247 | a live receiver waits for one rising edge and appends exactly one sample to the queue |
| Scheduler.Loopback.SenderStep | cocotb_wrapper/scheduler.py:259-264 | on an empty queue the sender polls 1 ns; otherwise it pops exactly the oldest value, writes it to the target, then waits the delay; samples = written values + queue |
| Scheduler.Loopback.ReceiveAndSend | cocotb_wrapper/scheduler.py:244-264 | one sample followed by one sender step leaves the queue empty and the sample written; the trace grows by the rising-edge wait, the write of the sample and, when the wait succeeds, the sender's wait for the given delay |
| Scheduler.Loopback.ReplayAll | cocotb_wrapper/scheduler.py:212-214 | one sender step per delay; it succeeds iff every clock-less wait succeeds, and then the samples are written in order and the trace is the replay of the samples with those delays |
| Scheduler.Loopback.ReplayNext | cocotb_wrapper/scheduler.py:193-196 | one more sample is received and sent with delay d; it fails exactly when the wait in that unit is refused, and otherwise the replay grows by that period |
| Scheduler.Loopback.ReplayJitter | cocotb_wrapper/scheduler.py:186-196 | one sender step per sample, with the delays of the clamped jitter walk; on success the samples are written in order and the trace is their replay with those delays; a wall-clock unit always succeeds |
| Scheduler.Loopback.KillReceiver | cocotb_wrapper/scheduler.py:233 | killing the receiver stops sampling and changes nothing else |
| Scheduler.SendKeepsAccount | cocotb_wrapper/scheduler.py:259-264 | popping the oldest value and writing it keeps every sample either written, in order, or still queued |
| Scheduler.WallDelay | cocotb_wrapper/scheduler.py:264 | a sender wait never writes; it fails only for a positive clock-relative duration, which needs a clock |
| Scheduler.WallDelayIsDelay | cocotb_wrapper/scheduler.py:264 | the sender's wait is `delay` without a clock and edge |
| Scheduler.WallWait | cocotb_wrapper/scheduler.py:264 | the sender's wait is at most one timer wait, for the given delay, present iff the delay is positive |
| Scheduler.ReplayStep | cocotb_wrapper/scheduler.py:244-264 | one loopback period: the rising edge of the data clock, the write of the sample to the target, then the sender's wait |
| Scheduler.Replay | cocotb_wrapper/scheduler.py:244-264 | n loopback periods take between 2n and 3n actions: each period is an edge wait, a write and at most one wait |
| Scheduler.ReplayWrites | cocotb_wrapper/scheduler.py:244-264 | a replay of n periods writes exactly the first n samples, in order |
| Scheduler.IndividualDelays | cocotb_wrapper/scheduler.py:217-233 | an empty delay list fails on indexing; otherwise the trace is the wait of `delays[0]`, then per remaining delay the edge wait, the write of the next sample and the wait of that delay; the target receives exactly the first `len(delays) - 1` samples in order, and the receiver is killed |
| Scheduler.SignalLoopback | cocotb_wrapper/scheduler.py:199-214 | the trace is the constant delay, then per sample the edge wait, the write and a wait of one data clock period; the target receives the samples in order, none dropped or duplicated |
| Scheduler.RandomJitter | cocotb_wrapper/scheduler.py:170-196 | `constant_delay >= max_jitter` fails the assertion before anything runs; otherwise the trace is the constant delay, then per sample the edge wait, the write and a wait of the period shifted by the clamped jitter walk |
| Scheduler.JitterLoopStep | cocotb_wrapper/scheduler.py:189-195 | one more draw adds one step to the walk and one delay to the list |
| Scheduler.ValidateBitStream | cocotb_wrapper/scheduler.py:87-116 | samples exactly `len(data_exp)` values; valid iff every sample equals its expected bit; the error indexes are exactly the mismatching positions in increasing order; nothing is written |
| Scheduler.CompareBit | cocotb_wrapper/scheduler.py:106 | a sample matches iff it resolves to the expected bit |
| Scheduler.RunOf | cocotb_wrapper/scheduler.py:129-131 | a drive run fails iff one of its delays fails, and then with a delay error |
| Scheduler.RunOfError | cocotb_wrapper/scheduler.py:129-131 | a failed run ends with the error of its first failing delay, every earlier delay having succeeded |
| Scheduler.DriveRun | cocotb_wrapper/scheduler.py:129-131 | a drive run succeeds iff every step's delay succeeds |
| Scheduler.RunOfWrites | cocotb_wrapper/scheduler.py:129-131 | a successful run writes exactly its values, in list order, one per step |
| Scheduler.DriveRunError | cocotb_wrapper/scheduler.py:129-131 | a failed `drive_signal` raises the error of the first instruction whose `delay` fails; all earlier instructions were driven |
| Scheduler.DriveRunWrites | cocotb_wrapper/scheduler.py:129-131 | a successful `drive_signal` writes exactly the listed values, in order |
| Scheduler.LastWriteIsLastValue | cocotb_wrapper/scheduler.py:129-131 | after a successful run the signal was last written with the last listed value |
| Scheduler.DriveSignal | cocotb_wrapper/scheduler.py:119-131 | the loop writes each value and then waits its delay, stopping at the first failing delay |
| Scheduler.RangeValues | cocotb_wrapper/scheduler.py:145 | Python's `range(start, stop, step)`: element i is start + i * step, every element is before `stop`, and the next one would not be, so every value of the range is present |
| Scheduler.Uniform | cocotb_wrapper/scheduler.py:145-147 | every value is driven for the same duration and edge |
| Scheduler.DriveSignalIncremental | cocotb_wrapper/scheduler.py:134-147 | driving a range is `drive_signal` over the range's values with one constant delay each |
| Scheduler.PulseAlign | cocotb_wrapper/scheduler.py:41-44 | one edge wait iff the clock is high and a falling start is asked, or low and a rising start is asked |
| Scheduler.Pulse | cocotb_wrapper/scheduler.py:46-48 | writes the value and then the reset value, and ends with the reset value, iff the delay succeeds |
| Scheduler.DriveSinglePulse | cocotb_wrapper/scheduler.py:27-48 | without a clock it fails before writing; with a clock it leaves the signal at the reset value iff the delay succeeds |
| Scheduler.DriveSinglePulseIntended | cocotb_wrapper/scheduler.py:41-48 | with a clock it behaves as `drive_single_pulse`; without one it pulses with a wall-clock delay |
| Scheduler.PulseWithoutClock | cocotb_wrapper/scheduler.py:41 | a pulse without a clock fails as written, and is write, timer wait, write when intended |
| Scheduler.DelayTriggeredAction | cocotb_wrapper/scheduler.py:67-84 | the action's result when the trigger fires, `False` on a timeout (with an error logged); setup errors of the race are passed on |
| BitConvert.Bit | cocotb_wrapper/convert.py:17-19 | `data >> i & 1` is 0 or 1 |
| BitConvert.Reversed | cocotb_wrapper/convert.py:17 | element i of the reversal is element len - 1 - i |
| BitConvert.BitList | cocotb_wrapper/convert.py:16-19 | `width` elements, each 0 or 1 |
| BitConvert.Repeat | cocotb_wrapper/convert.py:21 | repeating each element n times multiplies the length by n |
| BitConvert.RepeatIndex | cocotb_wrapper/convert.py:21 | the j-th copy of element i sits at i * n + j |
| BitConvert.ToBitArray | cocotb_wrapper/convert.py:4-21 | a width or repeat count below one gives no bits; otherwise the array has `width * repeat_count` elements, and without repetition it is the bit list |
| BitConvert.ToBitArrayMsbIsReversed | cocotb_wrapper/convert.py:16-19 | the MSB-first array is the LSB-first array reversed |
| BitConvert.ToBitArrayRepeats | cocotb_wrapper/convert.py:16-21 | copy j of bit i is bit i of the data (LSB first) or bit width - 1 - i (MSB first) |
| BitConvert.LsbValue | cocotb_wrapper/convert.py:38-39 | the LSB-first value fits in len(data) bits |
| BitConvert.MsbValue | cocotb_wrapper/convert.py:38-39 | the MSB-first value fits in len(data) bits |
| BitConvert.Padding | cocotb_wrapper/convert.py:41-42 | the left shift is positive iff the width exceeds the length, and then fills up to the width |
| BitConvert.BitsValue | cocotb_wrapper/convert.py:34-43 | the value of a bit array fits in the padded width |
| BitConvert.ToInt | cocotb_wrapper/convert.py:24-43 | the accumulation loop computes the bit array's value |
| BitConvert.ValuesUseLowestBit | cocotb_wrapper/convert.py:39 | only the lowest bit of each element counts |
| BitConvert.LsbRoundTrip | cocotb_wrapper/convert.py:16-39 | reading back the LSB-first bits of x gives x mod 2^w |
| BitConvert.MsbRoundTrip | cocotb_wrapper/convert.py:16-39 | reading back the MSB-first bits of x gives x mod 2^w |
| BitConvert.BitArrayRoundTrip | cocotb_wrapper/convert.py:4-43 | `to_int(to_bit_array(x, w, m), w, m) == x mod 2^w` for both bit orders |
| BitConvert.ShortLsbArrayIsShifted | cocotb_wrapper/convert.py:41-42 | a short LSB-first array is shifted left, so `[1]` at width 4 reads 8 while `[1, 0, 0, 0]` reads 1 |
| BitConvert.Chunks | cocotb_wrapper/convert.py:57-60 | ceil(len / chunk_size) chunks, each below 2^chunk_size |
| BitConvert.ChunksStep | cocotb_wrapper/convert.py:58-59 | each chunk is `to_int` of the next slice, padded to the chunk size |
| BitConvert.ToInts | cocotb_wrapper/convert.py:46-60 | a chunk size of 0 fails (`range` with step 0); a negative one gives no chunks; a positive one gives the chunk list |
| BitConvert.SplitChunks | cocotb_wrapper/convert.py:75-77 | `chunk_count` chunks, each in [0, 2^chunk_size) |
| BitConvert.ChunksOfBitArray | cocotb_wrapper/convert.py:46-78 | for a positive chunk size, `to_ints` of the LSB-first bit array of n chunks of `x` is `split(x, chunk_size, n)` |
| BitConvert.Split | cocotb_wrapper/convert.py:63-78 | a negative chunk size with at least one chunk raises; otherwise, with `msb_first` the result is `None`, and without it the chunk list, empty for a count below one |
| BitConvert.ConcatValue | cocotb_wrapper/convert.py:95-97 | the concatenation fits in len * chunk_size bits |
| BitConvert.ConcatInts | cocotb_wrapper/convert.py:81-99 | with `msb_first` it fails; no values give 0; a negative chunk size with values raises; otherwise the loop computes the concatenated value |
| BitConvert.SplitConcatRoundTrip | cocotb_wrapper/convert.py:63-99 | `concat_ints(split(x, cs, cc), cs) == x mod 2^(cs * cc)` |
| BitConvert.SplitIntended | cocotb_wrapper/convert.py:75-78 | `chunk_count` chunks below 2^chunk_size, most significant first when asked |
| BitConvert.ConcatIntended | cocotb_wrapper/convert.py:92-97 | the concatenation of chunks stored most significant first when asked |
| BitConvert.IntendedRoundTrip | cocotb_wrapper/convert.py:63-99 | the intended split and concat are inverse in both orders, up to x mod 2^(cs * cc) |
| BitConvert.ReversedTwice | cocotb_wrapper/convert.py:94 | reversing twice restores the list |
| BitConvert.MsbFirstExample | cocotb_wrapper/convert.py:75-97 | `split(0x1234, 8, 2, True)` is `None` and `concat_ints(..., True)` fails, where `[0x12, 0x34]` and 0x1234 are meant |
| Check.SoftAssert | cocotb_wrapper/check.py:146-153 | the result is the predicate; a mismatch with the name, actual and expected text is logged exactly when it is false |
| Check.Digits | cocotb_wrapper/check.py:112 | a number has at least one digit, and exactly one iff it is below the base |
| Check.Format | cocotb_wrapper/check.py:112 | `hex` and `bin` texts start with 0x and 0b, and negative numbers with a minus sign |
| Check.Shown | cocotb_wrapper/check.py:111-115 | a resolved value is shown in the format; an unresolved one as its own text |
| Check.CompareFormat | cocotb_wrapper/check.py:100-115 | true iff the value resolves to the expected one, with or without a working format; logged iff false, with the expected value formatted |
| Check.Compare | cocotb_wrapper/check.py:44-55 | true iff the value resolves to the expected one |
| Check.CompareHex | cocotb_wrapper/check.py:58-69 | true iff the value resolves to the expected one |
| Check.CompareBin | cocotb_wrapper/check.py:72-83 | true iff the value resolves to the expected one |
| Check.CompareVariantsAgree | cocotb_wrapper/check.py:44-97 | `compare`, `compare_hex`, `compare_bin` and `compare_format` return the same boolean and log in the same cases (a corollary of the model's definitions, each being `CompareFormat` with a fixed radix; it adds no assurance of its own) |
| Check.CompareEnum | cocotb_wrapper/check.py:132-143 | fails unless both values name members; then true iff the raw integers are equal, with the member names in the log |
| Check.Mismatches | cocotb_wrapper/check.py:175-178 | at most n indexes, all below n |
| Check.MismatchesExact | cocotb_wrapper/check.py:175-178 | i is collected iff i < n and the streams differ at i |
| Check.MismatchesIncreasing | cocotb_wrapper/check.py:175-178 | the indexes are strictly increasing |
| Check.MismatchesOfEqual | cocotb_wrapper/check.py:175-178 | equal streams have no mismatch |
| Check.MismatchesPrefixOnly | cocotb_wrapper/check.py:175-178 | only the compared prefix matters |
| Check.MismatchesSnoc | cocotb_wrapper/check.py:176-178 | one more compared element adds its index iff it differs |
| Check.CompareBitStream | cocotb_wrapper/check.py:156-187 | valid iff the actual stream is not shorter; the indexes are the mismatches before the shorter length; count = number of indexes; the maximum only picks error or warning |
| Check.MismatchesEmptyIff | cocotb_wrapper/check.py:175-187 | no index iff the streams agree on the compared prefix |
| Check.MismatchesOfPrefix | cocotb_wrapper/check.py:175-178 | agreeing streams give no index |
| Models.EdgeTypeValue | cocotb_wrapper/models.py:9-13 | four edge types with values below 4, `none` being 0 |
| Models.UnitValue | cocotb_wrapper/models.py:16-25 | nine units with values below 9 |
| Models.EnumValuesDistinct | cocotb_wrapper/models.py:9-25 | enum values are distinct, and `cycle` and `edge` are exactly the clock-relative units |
| Models.Defaultable.DefaultTo | cocotb_wrapper/models.py:37-42 | only `None` fields take the other object's value; set fields are kept; no other object changes nothing; returns itself |
| Models.Defaultable.SetFrom | cocotb_wrapper/models.py:44-48 | every field of the other object is copied over; no other object changes nothing; returns itself |
| Models.PriorityFifoQueue.constructor | cocotb_wrapper/models.py:101-103 | a new queue is empty and its insertion index is 0 |
| Models.PriorityFifoQueue.Put | cocotb_wrapper/models.py:105-126 | stores (priority, index, item), taking the item's priority when none is given; fails and adds nothing when neither exists; the index grows by one per stored entry |
| Models.PriorityFifoQueue.FirstPosition | cocotb_wrapper/models.py:128-135 | finds the entry before all others: lowest priority, earliest inserted among equals |
| Models.PriorityFifoQueue.Get | cocotb_wrapper/models.py:128-135 | removes and returns the lowest-priority, earliest-inserted item and keeps the rest in order; empty gives nothing |
| Models.PriorityFifoQueue.HasItemOfPriority | cocotb_wrapper/models.py:137-149 | true iff some queued entry has the priority |
| BlockBuffers.Zeros | tests/test_benches/block_buffer/models.py:16 | n zeros |
| BlockBuffers.Cleared | tests/test_benches/block_buffer/models.py:14-17 | a cleared block is not full, at index 0, with depth zeros |
| BlockBuffers.ReadBlock | tests/test_benches/block_buffer/models.py:9-12 | raises the overflow exactly when the index reaches the depth; otherwise the cell at the index |
| BlockBuffers.ReadCleared | tests/test_benches/block_buffer/models.py:9-17 | a cleared block reads 0, unless its depth is 0 |
| BlockBuffers.Initial | tests/test_benches/block_buffer/models.py:21-27 | the initial buffer is well formed with `G_BLOCK_COUNT` blocks |
| BlockBuffers.Next | tests/test_benches/block_buffer/models.py:29-33 | pointers advance by one modulo the block count and stay in range |
| BlockBuffers.FillCount | tests/test_benches/block_buffer/models.py:35-43 | the fill count is in [0, COUNT]; it is COUNT iff full and 0 iff empty |
| BlockBuffers.NotFullAndEmpty | tests/test_benches/block_buffer/models.py:45-49 | never full and empty at once |
| BlockBuffers.Freed | tests/test_benches/block_buffer/models.py:59-60 | the tail block is cleared, the tail moves on and nothing else changes |
| BlockBuffers.Advanced | tests/test_benches/block_buffer/models.py:61-62 | only the tail block's index grows by one |
| BlockBuffers.Stored | tests/test_benches/block_buffer/models.py:65-68 | the head block becomes full with the input at index 0, the head moves on and nothing else changes |
| BlockBuffers.TickRead | tests/test_benches/block_buffer/models.py:58-62 | raises iff the tail block's index reached the depth; otherwise keeps the head and the inputs |
| BlockBuffers.TickWrite | tests/test_benches/block_buffer/models.py:64-68 | the write side keeps the tail |
| BlockBuffers.Ticked | tests/test_benches/block_buffer/models.py:57-68 | a tick raises iff the read side does, and otherwise yields a well-formed buffer of the same shape |
| BlockBuffers.InitialRing | tests/test_benches/block_buffer/models.py:21-27 | the initial buffer satisfies the ring invariant: full blocks are exactly those from tail up to head |
| BlockBuffers.RingFullEmpty | tests/test_benches/block_buffer/models.py:45-49 | under the ring invariant, full means every block full and empty means none |
| BlockBuffers.HeadDist | tests/test_benches/block_buffer/models.py:35-43 | the fill count is the distance from tail to head, except when full |
| BlockBuffers.TerminatorOnlyInFullBlock | tests/test_benches/block_buffer/models.py:58-62 | under the ring invariant, a terminator is only read from a full block |
| BlockBuffers.FreeKeepsRing | tests/test_benches/block_buffer/models.py:58-60 | freeing a full tail block keeps the ring invariant |
| BlockBuffers.TickReadKeepsRing | tests/test_benches/block_buffer/models.py:58-62 | the read side keeps the ring invariant |
| BlockBuffers.TickWriteKeepsRing | tests/test_benches/block_buffer/models.py:64-68 | the write side keeps the ring invariant |
| BlockBuffers.TickKeepsRing | tests/test_benches/block_buffer/models.py:57-68 | a tick keeps the ring invariant |
| BlockBuffers.TickNeverOverwritesFull | tests/test_benches/block_buffer/models.py:64-68 | a full block other than the tail is left unchanged by a tick, so a full block is never overwritten |
| BlockBuffers.TickWrites | tests/test_benches/block_buffer/models.py:64-68 | the input is stored and the head advances iff writing is enabled and the head block is not full after the read side; otherwise the write side changes nothing |
| BlockBuffers.OverrunRaises | tests/test_benches/block_buffer/models.py:57-64 | a full block reaching its last cell without a terminator makes the next tick raise |
| BlockBuffers.Block.constructor | tests/test_benches/block_buffer/models.py:5-7 | a new block is cleared |
| BlockBuffers.Block.Read | tests/test_benches/block_buffer/models.py:9-12 | `read` on the block's fields is `ReadBlock` |
| BlockBuffers.Block.Clear | tests/test_benches/block_buffer/models.py:14-17 | `clear` makes the block's fields those of a cleared block |
| BlockBuffers.Vals | tests/test_benches/block_buffer/models.py:23 | the value view holds each block's fields, in buffer order |
| BlockBuffers.BlockBuffer.constructor | tests/test_benches/block_buffer/models.py:21-27 | the new buffer is the initial state, with fresh blocks |
| BlockBuffers.BlockBuffer.IncrHead | tests/test_benches/block_buffer/models.py:29-30 | only the head moves, by one modulo the count |
| BlockBuffers.BlockBuffer.IncrTail | tests/test_benches/block_buffer/models.py:32-33 | only the tail moves, by one modulo the count |
| BlockBuffers.BlockBuffer.GetFillCount | tests/test_benches/block_buffer/models.py:35-43 | returns the fill count of the current state |
| BlockBuffers.BlockBuffer.GetIsFull | tests/test_benches/block_buffer/models.py:45-46 | returns whether the current state is full |
| BlockBuffers.BlockBuffer.GetIsEmpty | tests/test_benches/block_buffer/models.py:48-49 | returns whether the current state is empty |
| BlockBuffers.BlockBuffer.GetRdValid | tests/test_benches/block_buffer/models.py:51-52 | exactly the tail block's `full` flag |
| BlockBuffers.BlockBuffer.GetRdData | tests/test_benches/block_buffer/models.py:54-55 | the read of the tail block |
| BlockBuffers.BlockBuffer.Tick | tests/test_benches/block_buffer/models.py:57-68 | the new state is the ticked state, or the exception with the state unchanged |
| BlockBuffers.BlockBuffer.ReadSide | tests/test_benches/block_buffer/models.py:58-62 | the new state is the read side's |
| BlockBuffers.BlockBuffer.FreeTail | tests/test_benches/block_buffer/models.py:59-60 | the new state is the freed state |
| BlockBuffers.BlockBuffer.NextCell | tests/test_benches/block_buffer/models.py:61-62 | the new state has the tail block's index advanced |
| BlockBuffers.BlockBuffer.WriteSide | tests/test_benches/block_buffer/models.py:64-68 | the new state is the write side's |
| BlockBuffers.BlockBuffer.StoreInput | tests/test_benches/block_buffer/models.py:65-68 | the new state is the stored state |
| BlockBufferBench.MaxDataValue | tests/test_benches/block_buffer/test_bench.py:37 | 2^(width // 2) is at least 1 |
| BlockBufferBench.InputCheck | tests/test_benches/block_buffer/test_bench.py:36-38 | accepted iff `data_count < G_BLOCK_DEPTH` and the sample can be drawn; a too large count fails the assertion |
| BlockBufferBench.InputBlock | tests/test_benches/block_buffer/test_bench.py:38-41 | `G_BLOCK_DEPTH` cells: the data values, the terminator at `data_count`, then zeros |
| BlockBufferBench.NarrowCellsKeepTerminatorOut | tests/test_benches/block_buffer/test_bench.py:37-39 | up to 17 bits of block width, drawn data can never equal the terminator 0x19C |
| BlockBufferBench.WideCellsAdmitTerminator | tests/test_benches/block_buffer/test_bench.py:37-39 | from 18 bits on, a drawn value can be the terminator |
| BlockBufferBench.ResetOf | tests/test_benches/block_buffer/test_bench.py:24-26 | the write cells become zeros and writing is disabled; the blocks are untouched |
| BlockBufferBench.Step | tests/test_benches/block_buffer/test_bench.py:55-78 | one loop iteration: a raising tick is not counted and changes nothing; after a counted tick, the debug read of the tail block's current cell raises iff its index is past the block, leaving the ticked state; otherwise the ticked state, reset when asked; the buffer's shape is kept |
| BlockBufferBench.Cycles | tests/test_benches/block_buffer/test_bench.py:53-78 | n iterations count n ticks, or at most n when an iteration raises |
| BlockBufferBench.OverrunReportedAtOnce | tests/test_benches/block_buffer/test_bench.py:55-66 | a tick that moves a full tail block's index past its last cell is counted and raises in the same iteration, on the debug read |
| BlockBufferBench.CyclesEnd | tests/test_benches/block_buffer/test_bench.py:53-78 | a stop leaves a state whose next tick raises; it is a tick error iff no tick was counted, and then nothing changed |
| BlockBufferBench.CyclesInputs | tests/test_benches/block_buffer/test_bench.py:53-78 | after a run without error and `reset_inputs` the inputs are zeros with writing off; without `reset_inputs` they are unchanged |
| BlockBufferBench.CyclesErrorFinal | tests/test_benches/block_buffer/test_bench.py:53-55 | once a tick raised, more iterations change nothing |
| BlockBufferBench.StepKeepsRing | tests/test_benches/block_buffer/test_bench.py:55-78 | one iteration keeps the ring invariant |
| BlockBufferBench.CyclesKeepRing | tests/test_benches/block_buffer/test_bench.py:53-78 | `check_output` keeps the ring invariant |
| BlockBufferBench.DrainFrom | tests/test_benches/block_buffer/test_bench.py:107-111 | a full block at cell j drains in len - j + 1 ticks and is then freed |
| BlockBufferBench.SingleBlockDrains | tests/test_benches/block_buffer/test_bench.py:107-111 | in `single_block_rw` one block is stored and read out in `G_BLOCK_DEPTH + 1` cycles, leaving the buffer empty |
| BlockBufferBench.FirstTickStores | tests/test_benches/block_buffer/test_bench.py:110-111 | the first tick stores the block at the tail |
| BlockBufferBench.DrainedEmpty | tests/test_benches/block_buffer/test_bench.py:110-111 | freeing the only stored block empties the buffer |
| BlockBufferBench.TestContext.constructor | tests/test_benches/block_buffer/test_bench.py:19-22 | keeps the golden model and starts at cycle 0 |
| BlockBufferBench.TestContext.ResetInputs | tests/test_benches/block_buffer/test_bench.py:24-28 | zeros and write disable for the golden model and the DUT |
| BlockBufferBench.TestContext.SetInput | tests/test_benches/block_buffer/test_bench.py:30-50 | a rejected count changes nothing; otherwise the golden model gets the block in order with writing enabled, and the DUT the block reversed with `wr_en` 1 |
| BlockBufferBench.TestContext.Cycle | tests/test_benches/block_buffer/test_bench.py:55-78 | one iteration is `Step`: the golden model's new state, the error and whether the cycle count went up by one |
| BlockBufferBench.TestContext.CheckOutput | tests/test_benches/block_buffer/test_bench.py:52-78 | the run is `Cycles`: the golden model's final state, the error and the number of counted ticks added to the cycle count |
| PrbsBench.DriftSign | tests/test_benches/prbs_test/test_bench.py:17 | -1 iff the drift type is "speed_up", +1 for any other |
| PrbsBench.DriftStep | tests/test_benches/prbs_test/test_bench.py:38 | `int(1 / ratio)` is 0 exactly when the ratio exceeds 1 |
| PrbsBench.Jittered | tests/test_benches/prbs_test/test_bench.py:25-34 | one delay per draw |
| PrbsBench.Drifted | tests/test_benches/prbs_test/test_bench.py:36-40 | the drift keeps the length |
| PrbsBench.LoopbackDelays | tests/test_benches/prbs_test/test_bench.py:19-40 | exactly `data_value_count` delays; fails (zero `range` step) iff the ratio exceeds 1 |
| PrbsBench.Setup | tests/test_benches/prbs_test/test_bench.py:16-46 | individual delays iff the count is positive, else random jitter iff the maximum jitter is positive, else the constant loopback; fails iff count > 0 and ratio > 1 |
| PrbsBench.SetupSignalLoopback | tests/test_benches/prbs_test/test_bench.py:16-46 | the in-place list passes build exactly the specified dispatch |
| PrbsBench.AddJitter | tests/test_benches/prbs_test/test_bench.py:25-34 | the jitter loop turns the period list into the jittered delays |
| PrbsBench.AddDrift | tests/test_benches/prbs_test/test_bench.py:36-40 | the shift is added at indexes 0, K, 2K, ... and nowhere else |
| PrbsBench.NextMultiple | tests/test_benches/prbs_test/test_bench.py:39 | `range(0, n, K)` visits exactly the multiples of K |
| PrbsBench.JitterKeepsTotal | tests/test_benches/prbs_test/test_bench.py:25-34 | every delay moves by its draw, and the delays add up to count periods plus the final walk sum, which stays within the maximum |
| Axi.BitsToBytes | cocotb_wrapper/axi.py:30-39 | the smallest n with 8n >= b |
| Axi.BitsToBytesWhole | cocotb_wrapper/axi.py:39 | `bits_to_bytes(8k) == k` |
| Axi.FromBigEndian | cocotb_wrapper/axi.py:543-545 | n big-endian bytes hold a value below 2^(8n) |
| Axi.ToBigEndian | cocotb_wrapper/axi.py:543-545 | `to_bytes(n, "big")` succeeds iff the value fits, and then reads back as the value |
| Axi.DrawFits | cocotb_wrapper/axi.py:543-545 | a draw of w bits fits in `bits_to_bytes(w)` bytes |
| Axi.RandomWord | cocotb_wrapper/axi.py:537-545 | the AXI payload is `bits_to_bytes(w)` bytes holding the draw big-endian; a negative width fails |
| Axi.RandomWordBelowWidth | cocotb_wrapper/axi.py:802-810 | the AXI-Lite payload, identical, holds a value below 2^w |
| Axi.Words | cocotb_wrapper/axi.py:993-999 | `frame_length` words of `bits_to_bytes(w)` bytes each |
| Axi.WordsAt | cocotb_wrapper/axi.py:993-999 | word k of the frame is the k-th random word |
| Axi.StreamPayload | cocotb_wrapper/axi.py:987-1000 | the AXI-Stream payload has `frame_length * bits_to_bytes(w)` bytes, and is empty for a non-positive frame length |
| Axi.StreamPayloadWords | cocotb_wrapper/axi.py:987-1000 | slice k of the payload reads back as draw k |
| Axi.BurstTypeCode | cocotb_wrapper/axi.py:42-66 | FIXED, INCR and WRAP encode below 3 |
| Axi.BurstTypeOf | cocotb_wrapper/axi.py:42-66 | codes 0 to 2 decode, and decoding inverts the encoding |
| Axi.BurstTypeRoundTrip | cocotb_wrapper/axi.py:42-66 | decode(encode(t)) == t |
| Axi.BurstBytes | cocotb_wrapper/axi.py:97-119 | size code n means 2^n bytes, from 1 to 128 |
| Axi.BurstSizeOf | cocotb_wrapper/axi.py:97-119 | the code found for a byte count stands for exactly that many bytes |
| Axi.BurstSizeOfIsInverse | cocotb_wrapper/axi.py:97-119 | a byte count has size code n iff it is 2^n |
| Axi.RespCode | cocotb_wrapper/axi.py:186-213 | OKAY, EXOKAY, SLVERR and DECERR encode below 4 |
| Axi.RespOf | cocotb_wrapper/axi.py:186-213 | codes 0 to 3 decode, and decoding inverts the encoding |
| Axi.RespRoundTrip | cocotb_wrapper/axi.py:186-213 | decode(encode(r)) == r |
| Axi.LockCode | cocotb_wrapper/axi.py:122-133 | EXCLUSIVE is 1, NORMAL is 0 |
| Axi.CacheValue | cocotb_wrapper/axi.py:136-168 | the four cache bits B, M, RA and WA form a value below 16 |
| Axi.CacheFlagsOf | cocotb_wrapper/axi.py:136-168 | every value below 16 is a flag set, and decoding inverts the encoding |
| Axi.CacheFlagsRoundTrip | cocotb_wrapper/axi.py:136-168 | decode(encode(f)) == f |
| Axi.ProtValue | cocotb_wrapper/axi.py:172-183 | the three protection bits form a value below 8 |
| Axi.ProtFlagsOf | cocotb_wrapper/axi.py:172-183 | every value below 8 is a flag set, and decoding inverts the encoding |
| Axi.ProtFlagsRoundTrip | cocotb_wrapper/axi.py:172-183 | decode(encode(f)) == f |

## Left out

- Simulator semantics are not modelled: waits are recorded, not performed. This covers
  cocotb triggers, the `First`/`with_timeout` race (its outcome is an input), clock driving
  and task scheduling.
- Concurrency is not modelled. The loopback receiver and sender are single steps of one
  `Loopback` object. The sender's busy poll on an empty queue is one 1 ns wait per step.
- Randomness is passed in: `random.randint`, `random.sample` and `getrandbits` become
  parameters (`draws`, `sample`).
- Floating point is not modelled. Floats are exact reals, so IEEE rounding in `convert`,
  `half_period` and `int(1 / ratio)` is not captured.
- Log texts and levels beyond "an error or a warning is logged" are left out.
- `_get_val` (`cocotb_wrapper/check.py:8-26`) is not modelled. A DUT value is either
  resolved to an integer or unresolved text (`Check.SimValue`).
- `compare_sim` and `compare_str` are not modelled; they are not part of the modelled
  comparison family.
- `delay_action` and `drive_signal_random` are not modelled. The first is one `delay` before
  a call. The second is an endless random driver.
- `queue.Queue` and `queue.PriorityQueue` blocking and `maxsize` are not modelled. Queues
  are unbounded sequences. `PriorityFifoQueue` is specified by its ordering, not as a heap.
- Models.Defaultable.DefaultTo: requires that the other object has every attribute that is
  `None` here. Python raises `KeyError` otherwise, after updating the attributes before that
  one in dictionary order, and attribute order is not modelled.
- Timer.Convert: a clock whose unit is `cycle` gives `RecursionLimit`. Python recurses until
  the interpreter's recursion limit.
- Clocks.Clock.Start: the launched driver is not modelled. `start` records nothing, as in
  the source.
- BlockBuffers.BlockBuffer.constructor: requires `count >= 1` (as do `BlockBuffers.Initial` and
  `BlockBuffers.InitialRing`). A zero-block buffer (`G_BLOCK_COUNT == 0`) is excluded. Python
  builds it with an empty block list and then fails on first use (an `IndexError` on
  `self.buffer[...]`, a `ZeroDivisionError` in `incr_head`); that first-use error is not modelled.
- BlockBufferBench.TestContext.CheckOutput: the falling-edge wait and the comparisons of DUT
  outputs against the golden model are left out. The DUT is not modelled. Only the ticks,
  the cycle count, the debug read of the tail block's current cell (the first statement of
  an iteration that can raise after the tick) and the input reset are modelled.
- BlockBufferBench.TestContext.SetInput: the values written to the DUT ports are returned,
  not stored.
- The AXI wrapper classes (`AxiMaster`, `AxiRam`, `AxiLiteMaster`, `AxiLiteRam`,
  `AxiStreamSource`, `AxiStreamSink`) are not modelled. They pass calls through to
  cocotbext-axi, which is not part of this model.
- `testbench.py`, `const.py`, `package_handle.py`, `cocotb_ext.py`, `crc.py`, logging, the
  CLI and the pytest plumbing are not part of this model.

## Findings

| source | as written | input that shows it | evidently intended | confidence | as-written member | corrected member |
|---|---|---|---|---|---|---|
| cocotb_wrapper/convert.py:78 | `chunks.reverse()` reverses in place and returns `None`, so `split(..., msb_first=True)` returns `None` | `split(0x1234, 8, 2, True)` returns `None` (`BitConvert.MsbFirstExample`) | the chunks most significant first, `[0x12, 0x34]` | not executed | BitConvert.Split | BitConvert.SplitIntended |
| cocotb_wrapper/convert.py:93-95 | `reversed(values)` is an iterator, so `len(values)` raises `TypeError` when `msb_first` is set | `concat_ints([0x12, 0x34], 8, True)` raises (`BitConvert.MsbFirstExample`) | 0x1234, the inverse of the intended `split` (`BitConvert.IntendedRoundTrip`) | not executed | BitConvert.ConcatInts | BitConvert.ConcatIntended |
| cocotb_wrapper/scheduler.py:41 | `clk.signal` is read before `clk` is checked, although `clk` defaults to `None` | `drive_single_pulse(sig, duration=5, unit=Unit.ns)` raises `AttributeError` (`Scheduler.PulseWithoutClock`) | without a clock, skip the start alignment and pulse for a wall-clock duration | not executed | Scheduler.DriveSinglePulse | Scheduler.DriveSinglePulseIntended |
