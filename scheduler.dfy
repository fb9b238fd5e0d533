/** `cocotb_wrapper/scheduler.py`: signal drivers, the bit-stream validator
    and the loopback that samples a source signal on every rising edge of
    a data clock and replays it on a target signal after a delay. The
    simulator's answers (the value a signal holds when it is read, whether a
    trigger fires before its timeout) and the random draws are inputs; what
    the coroutines await, write and log is recorded as a trace. */
module Scheduler {
  import opened Results
  import opened Models
  import opened Sim
  import opened Clocks
  import opened Timer
  import Check

  /** Why a coroutine stops with an exception. */
  datatype SchedError =
    | NoClock                      // `clk.signal` on `clk = None`
    | DelayFailed(error: DelayError)
    | EmptyDelayList               // `delay_durations[0]` on an empty list
    | DelayNotBelowJitter          // the `constant_delay < max_jitter` assertion

  /** The trace a coroutine produced, up to the exception that ended it, if
      any. */
  datatype Run = Run(trace: seq<Action>, error: Option<SchedError>)

  function Abs(x: int): nat
  {
    if x < 0 then -x else x
  }

  // ---------------------------------------------------------------------
  // The clamped jitter walk
  // ---------------------------------------------------------------------

  /** `jitter_sum` and `jitter_sign` of the jitter loops. */
  datatype Walk = Walk(sum: int, sign: int)

  const WalkStart := Walk(0, 1)

  ghost predicate WalkInRange(w: Walk, maxJitter: int)
  {
    Abs(w.sum) <= maxJitter && (w.sign == 1 || w.sign == -1)
  }

  /** One draw of the walk: the sign flips when adding the signed draw would
      take the sum beyond `max_jitter`; the draw is then added with the new
      sign. A walk within range stays within range, and the signed draw
      moves it by no more than the maximum. */
  function JitterStep(w: Walk, jitter: int, maxJitter: int): (r: Walk)
    ensures r.sign == w.sign || r.sign == -w.sign
    ensures Abs(w.sum + w.sign * jitter) <= maxJitter ==> r.sign == w.sign
    ensures r.sum - w.sum == r.sign * jitter
    ensures WalkInRange(w, maxJitter) && 0 <= jitter <= maxJitter ==>
      WalkInRange(r, maxJitter) && Abs(r.sum - w.sum) == jitter
  {
    var sign := if Abs(w.sum + w.sign * jitter) > maxJitter then -w.sign else w.sign;
    Walk(w.sum + sign * jitter, sign)
  }

  /** The walk after the first `n` draws. */
  function JitterWalk(draws: seq<int>, maxJitter: int, n: nat): (w: Walk)
    requires n <= |draws|
    ensures w.sign == 1 || w.sign == -1
  {
    if n == 0 then WalkStart
    else JitterStep(JitterWalk(draws, maxJitter, n - 1), draws[n - 1], maxJitter)
  }

  /** With every draw in `[0, max_jitter]` the running jitter sum never
      leaves `[-max_jitter, max_jitter]`: the jitter never accumulates into
      drift. */
  lemma {:induction false} JitterWalkBounded(draws: seq<int>, maxJitter: int, n: nat)
    requires maxJitter >= 0 && n <= |draws|
    requires forall k :: 0 <= k < |draws| ==> 0 <= draws[k] <= maxJitter
    ensures WalkInRange(JitterWalk(draws, maxJitter, n), maxJitter)
  {
    if n > 0 {
      JitterWalkBounded(draws, maxJitter, n - 1);
    }
  }

  /** The signed jitter of the first `n` draws: the change of the running
      sum at each draw. */
  function JitterOffsets(draws: seq<int>, maxJitter: int, n: nat): (offsets: seq<int>)
    requires n <= |draws|
    ensures |offsets| == n
    ensures forall k {:trigger offsets[k]} :: 0 <= k < n ==>
      offsets[k] == JitterWalk(draws, maxJitter, k + 1).sum - JitterWalk(draws, maxJitter, k).sum
  {
    if n == 0 then []
    else JitterOffsets(draws, maxJitter, n - 1) + [JitterWalk(draws, maxJitter, n).sum - JitterWalk(draws, maxJitter, n - 1).sum]
  }

  /** Each signed jitter is the draw itself, up or down, and the offsets
      add up to the running sum, which stays within the maximum. */
  lemma JitterOffsetsBounded(draws: seq<int>, maxJitter: int, n: nat)
    requires maxJitter >= 0 && n <= |draws|
    requires forall k :: 0 <= k < |draws| ==> 0 <= draws[k] <= maxJitter
    ensures var offsets := JitterOffsets(draws, maxJitter, n);
      forall k :: 0 <= k < n ==> Abs(offsets[k]) == draws[k]
    ensures Sum(JitterOffsets(draws, maxJitter, n)) == JitterWalk(draws, maxJitter, n).sum
    ensures Abs(Sum(JitterOffsets(draws, maxJitter, n))) <= maxJitter
  {
    var offsets := JitterOffsets(draws, maxJitter, n);
    forall k | 0 <= k < n
      ensures Abs(offsets[k]) == draws[k]
    {
      JitterWalkBounded(draws, maxJitter, k);
    }
    JitterOffsetsSum(draws, maxJitter, n);
    JitterWalkBounded(draws, maxJitter, n);
  }

  /** The offsets telescope to the running sum. */
  lemma {:induction false} JitterOffsetsSum(draws: seq<int>, maxJitter: int, n: nat)
    requires n <= |draws|
    ensures Sum(JitterOffsets(draws, maxJitter, n)) == JitterWalk(draws, maxJitter, n).sum
  {
    if n > 0 {
      var offsets := JitterOffsets(draws, maxJitter, n);
      var before := JitterOffsets(draws, maxJitter, n - 1);
      JitterOffsetsSum(draws, maxJitter, n - 1);
      assert offsets == before + [offsets[n - 1]];
      SumSnoc(before, offsets[n - 1]);
    }
  }

  function Sum(xs: seq<int>): int
  {
    if xs == [] then 0 else Sum(xs[..|xs| - 1]) + xs[|xs| - 1]
  }

  lemma SumSnoc(xs: seq<int>, x: int)
    ensures Sum(xs + [x]) == Sum(xs) + x
  {
    assert (xs + [x])[..|xs|] == xs;
  }

  /** The replay delays of the first `n` periods of the jitter loopback:
      the period, shifted by the signed jitter when `max_jitter > 0`. */
  function JitterDelays(period: real, draws: seq<int>, maxJitter: int, n: nat): (delays: seq<real>)
    requires n <= |draws|
    ensures |delays| == n
  {
    if n == 0 then []
    else
      var offset := if maxJitter > 0 then JitterWalk(draws, maxJitter, n).sum - JitterWalk(draws, maxJitter, n - 1).sum else 0;
      JitterDelays(period, draws, maxJitter, n - 1) + [period + offset as real]
  }

  /** Every replay delay lies within `max_jitter` of the period, and is the
      period itself when there is no jitter. */
  lemma {:induction false} JitterDelaysWithin(period: real, draws: seq<int>, maxJitter: int, n: nat)
    requires n <= |draws|
    requires maxJitter > 0 ==> forall k :: 0 <= k < |draws| ==> 0 <= draws[k] <= maxJitter
    ensures DelaysWithin(JitterDelays(period, draws, maxJitter, n), period, maxJitter)
  {
    if n > 0 {
      JitterDelaysWithin(period, draws, maxJitter, n - 1);
      if maxJitter > 0 {
        JitterWalkBounded(draws, maxJitter, n - 1);
      }
    }
  }

  /** Every replay delay lies within `max_jitter` of the period, and is the
      period itself when there is no jitter. */
  ghost predicate DelaysWithin(delays: seq<real>, period: real, maxJitter: int)
  {
    (forall k :: 0 <= k < |delays| ==> period - Abs(maxJitter) as real <= delays[k] <= period + Abs(maxJitter) as real) &&
    (maxJitter <= 0 ==> forall k :: 0 <= k < |delays| ==> delays[k] == period)
  }

  // ---------------------------------------------------------------------
  // The loopback queue between receiver and sender
  // ---------------------------------------------------------------------

  /** The state shared by `signal_loopback_receiver` and
      `signal_loopback_sender`: the queue, whether the receiver task still
      runs, and the trace of both tasks. `sampled` records every value the
      receiver has put, to state that the replayed values are exactly the
      sampled ones, in order. */
  class Loopback {
    const target: SignalId
    const clock: ClockParams
    var queue: seq<int>
    var receiverAlive: bool
    var trace: seq<Action>
    ghost var sampled: seq<int>

    /** Every sampled value has been written to the target or still waits
        in the queue, and nothing else was written. */
    ghost predicate Valid()
      reads this
    {
      sampled == WrittenValues(trace) + queue
    }

    /** A fresh `queue.Queue()` and a started receiver. */
    constructor(target: SignalId, clock: ClockParams)
      ensures this.target == target && this.clock == clock
      ensures queue == [] && receiverAlive && trace == [] && sampled == []
      ensures Valid()
    {
      this.target := target;
      this.clock := clock;
      queue := [];
      receiverAlive := true;
      trace := [];
      sampled := [];
    }

    /** One iteration of the receiver: await a rising edge of the data clock
        and put the source's current value. A killed receiver does nothing. */
    method Receive(value: int)
      requires Valid()
      modifies this
      ensures Valid()
      ensures receiverAlive == old(receiverAlive)
      ensures old(receiverAlive) ==>
        queue == old(queue) + [value] && sampled == old(sampled) + [value] &&
        trace == old(trace) + [EdgeAwait(RisingEdgeOf(clock.signal))]
      ensures !old(receiverAlive) ==> queue == old(queue) && sampled == old(sampled) && trace == old(trace)
    {
      if receiverAlive {
        var edge := EdgeTrigger(FromClock(clock), Rising);
        assert edge == [EdgeAwait(RisingEdgeOf(clock.signal))];
        WrittenValuesAppend(trace, edge);
        NoWrites(edge);
        trace := trace + edge;
        queue := queue + [value];
        sampled := sampled + [value];
      }
    }

    /** One step of the sender: with an empty queue, one poll of
        `delay(1, ns)` (the sender then polls again); otherwise pop the
        oldest value, write it to the target and wait `delay_duration`.
        The delay raises for a clock-relative unit, since no clock is
        passed. */
    method SenderStep(delayDuration: real, unit: Unit) returns (r: Result<bool, DelayError>)
      requires Valid()
      modifies this
      ensures Valid()
      ensures receiverAlive == old(receiverAlive) && sampled == old(sampled)
      ensures old(queue) == [] ==> r == Success(false) && queue == [] && trace == old(trace) + [TimerWait(1.0, Ns)]
      ensures old(queue) != [] ==> queue == old(queue)[1..]
      ensures old(queue) != [] ==>
        match WallDelay(delayDuration, unit)
        case Success(w) => r == Success(true) && trace == old(trace) + [Write(target, old(queue)[0])] + w
        case Failure(e) => r == Failure(e) && trace == old(trace) + [Write(target, old(queue)[0])]
    {
      if queue == [] {
        WrittenValuesAppend(trace, [TimerWait(1.0, Ns)]);
        NoWrites([TimerWait(1.0, Ns)]);
        trace := trace + [TimerWait(1.0, Ns)];
        return Success(false);
      }
      var value := queue[0];
      var d := WallDelay(delayDuration, unit);
      var wait := if d.Success? then d.value else [];
      SendKeepsAccount(sampled, trace, queue, target, wait);
      trace := trace + [Write(target, value)] + wait;
      queue := queue[1..];
      r := if d.Success? then Success(true) else Failure(d.error);
    }

    /** One data clock period of both tasks while the queue is empty: the
        receiver samples `value`, the sender replays it and waits. */
    method ReceiveAndSend(value: int, delayDuration: real, unit: Unit) returns (err: Option<DelayError>)
      requires Valid() && queue == [] && receiverAlive
      modifies this
      ensures Valid() && queue == [] && receiverAlive
      ensures sampled == old(sampled) + [value]
      ensures err.None? <==> WallDelay(delayDuration, unit).Success?
      ensures err.None? ==> trace == old(trace) + ReplayStep(clock, target, value, WallWait(delayDuration, unit))
      ensures err.Some? ==> trace == old(trace) + ReplayStep(clock, target, value, [])
    {
      ghost var t0 := trace;
      Receive(value);
      var sent := SenderStep(delayDuration, unit);
      ghost var w := if sent.Success? then WallWait(delayDuration, unit) else [];
      StepOfPair(t0, clock, target, value, w);
      err := if sent.Success? then None else Some(sent.error);
    }

    /** The sender's calls over a list of delays, one data clock period
        each: `samples[k]` is sampled, replayed and followed by the wait
        of `delays[k]`; the first delay that raises ends it. */
    method ReplayAll(samples: seq<int>, delays: seq<real>, unit: Unit) returns (err: Option<DelayError>)
      requires Valid() && queue == [] && receiverAlive && |delays| <= |samples|
      modifies this
      ensures Valid() && queue == [] && receiverAlive
      ensures err.None? <==> WaitsSucceed(delays, unit)
      ensures err.None? ==> sampled == old(sampled) + samples[..|delays|]
      ensures err.None? ==> trace == old(trace) + Replay(clock, target, samples, delays, unit, |delays|)
    {
      var i := 0;
      while i < |delays|
        invariant 0 <= i <= |delays|
        invariant Valid() && queue == [] && receiverAlive
        invariant WaitsSucceedUpTo(delays, unit, i)
        invariant sampled == old(sampled) + samples[..i]
        invariant trace == old(trace) + Replay(clock, target, samples, delays, unit, i)
      {
        var sent := ReceiveAndSend(samples[i], delays[i], unit);
        if sent.Some? {
          WaitFails(delays, i, unit);
          return sent;
        }
        WaitsSucceedOneMore(delays, i, unit);
        ReplayExtend(old(trace), clock, target, samples, delays, unit, i);
        SampledOneMore(old(sampled), samples, i);
        i := i + 1;
      }
      err := None;
    }

    /** The next replayed period, `|delays|` periods in, waiting `d`. */
    method ReplayNext(ghost pre: seq<Action>, ghost preSampled: seq<int>, samples: seq<int>, delays: seq<real>,
                      d: real, unit: Unit) returns (err: Option<DelayError>)
      requires Valid() && queue == [] && receiverAlive && |delays| < |samples|
      requires sampled == preSampled + samples[..|delays|]
      requires trace == pre + Replay(clock, target, samples, delays, unit, |delays|)
      modifies this
      ensures Valid() && queue == [] && receiverAlive
      ensures err.None? <==> WallDelay(d, unit).Success?
      ensures err.None? ==> sampled == preSampled + samples[..|delays| + 1]
      ensures err.None? ==> trace == pre + Replay(clock, target, samples, delays + [d], unit, |delays| + 1)
    {
      var i := |delays|;
      err := ReceiveAndSend(samples[i], d, unit);
      if err.None? {
        ReplaySnoc(pre, clock, target, samples, delays, d, unit, i);
        SampledOneMore(preSampled, samples, i);
      }
    }

    /** The sender loop of `signal_loopback_random_jitter`: each period's
        delay is the data clock period shifted by the signed jitter of the
        walk (`draws[k]` is the k-th `randint(0, max_jitter)`, used only when
        `max_jitter > 0`); the first delay that raises ends it. `delays`
        are the delays used. */
    method ReplayJitter(samples: seq<int>, draws: seq<int>, maxJitter: int, unit: Unit)
      returns (delays: seq<real>, err: Option<DelayError>)
      requires Valid() && queue == [] && receiverAlive && |draws| == |samples|
      modifies this
      ensures Valid() && queue == [] && receiverAlive
      ensures !IsClockRelative(unit) ==> err.None?
      ensures |delays| <= |draws| && delays == JitterDelays(clock.period, draws, maxJitter, |delays|)
      ensures err.None? ==> |delays| == |samples| && sampled == old(sampled) + samples
      ensures err.None? ==> trace == old(trace) + Replay(clock, target, samples, delays, unit, |samples|)
    {
      delays := [];
      var jitterSum, jitterSign := 0, 1;
      var i := 0;
      while i < |samples|
        invariant 0 <= i <= |samples| && |delays| == i
        invariant Valid() && queue == [] && receiverAlive
        invariant sampled == old(sampled) + samples[..i]
        invariant maxJitter > 0 ==> Walk(jitterSum, jitterSign) == JitterWalk(draws, maxJitter, i)
        invariant delays == JitterDelays(clock.period, draws, maxJitter, i)
        invariant trace == old(trace) + Replay(clock, target, samples, delays, unit, i)
      {
        var w := Walk(jitterSum, jitterSign);
        var offset := 0;
        if maxJitter > 0 {
          var next := JitterStep(w, draws[i], maxJitter);
          offset := next.sign * draws[i];
          jitterSum, jitterSign := next.sum, next.sign;
        }
        var delayDuration := clock.period + offset as real;
        JitterLoopStep(clock.period, draws, i, maxJitter, w, offset, delays, delayDuration);
        var sent := ReplayNext(old(trace), old(sampled), samples, delays, delayDuration, unit);
        delays := delays + [delayDuration];
        if sent.Some? {
          return delays, sent;
        }
        i := i + 1;
      }
      err := None;
    }

    /** `receiver.kill()`. */
    method KillReceiver()
      modifies this
      ensures !receiverAlive
      ensures queue == old(queue) && trace == old(trace) && sampled == old(sampled)
    {
      receiverAlive := false;
    }
  }

  /** Popping the oldest value and writing it, followed by waits that
      write nothing, keeps every sampled value accounted for. */
  lemma SendKeepsAccount(sampled: seq<int>, trace: seq<Action>, queue: seq<int>, target: SignalId, wait: seq<Action>)
    requires sampled == WrittenValues(trace) + queue && queue != [] && WrittenValues(wait) == []
    ensures sampled == WrittenValues(trace + [Write(target, queue[0])] + wait) + queue[1..]
  {
    WriteOne(trace, target, queue[0]);
    WrittenValuesAppend(trace + [Write(target, queue[0])], wait);
    assert queue == [queue[0]] + queue[1..];
  }

  /** Appending one write appends its value to the written values. */
  lemma WriteOne(trace: seq<Action>, signal: SignalId, value: int)
    ensures WrittenValues(trace + [Write(signal, value)]) == WrittenValues(trace) + [value]
  {
    assert (trace + [Write(signal, value)])[..|trace|] == trace;
  }

  /** `delay(duration, unit)` with no clock and no edge, as the loopback
      tasks call it: nothing for a non-positive duration, a failed
      assertion for a clock-relative unit, otherwise one timer wait. */
  function WallDelay(duration: real, unit: Unit): (r: Result<seq<Action>, DelayError>)
    ensures r.Success? ==> WrittenValues(r.value) == [] && r.value == WallWait(duration, unit)
    ensures r.Success? <==> duration <= 0.0 || !IsClockRelative(unit)
  {
    if duration <= 0.0 then Success([])
    else if IsClockRelative(unit) then Failure(UnitNeedsClock)
    else
      NoWrites([TimerWait(duration, unit)]);
      Success([TimerWait(duration, unit)])
  }

  /** The clock-less delay is `delay` without a clock. */
  lemma WallDelayIsDelay(duration: real, unit: Unit)
    ensures WallDelay(duration, unit) == Delay(duration, unit, None, NoEdge)
  {
    if duration > 0.0 && !IsClockRelative(unit) {
      DelayWallClock(duration, unit, None, NoEdge);
    }
  }

  /** The waits of a clock-less `delay` that succeeds: one timer wait
      for a positive duration, none otherwise. */
  function WallWait(duration: real, unit: Unit): (w: seq<Action>)
    ensures |w| <= 1 && (w != [] <==> duration > 0.0)
    ensures forall i :: 0 <= i < |w| ==> w[i] == TimerWait(duration, unit)
  {
    if duration > 0.0 then [TimerWait(duration, unit)] else []
  }

  /** One data clock period of a loopback: the receiver's rising-edge wait
      on the data clock, the sender's write of the sampled value to the
      target, and the sender's wait. */
  function ReplayStep(clock: ClockParams, target: SignalId, value: int, wait: seq<Action>): (t: seq<Action>)
    ensures |t| == |wait| + 2 && t[0] == EdgeAwait(RisingEdgeOf(clock.signal)) && t[1] == Write(target, value)
    ensures t[2..] == wait
  {
    [EdgeAwait(RisingEdgeOf(clock.signal)), Write(target, value)] + wait
  }

  /** The trace of the first `n` data clock periods of a loopback whose
      replay delays all succeed: sample `k` is written after the k-th
      rising edge and followed by the wait of `delays[k]`. */
  function Replay(clock: ClockParams, target: SignalId, samples: seq<int>, delays: seq<real>, unit: Unit, n: nat): (trace: seq<Action>)
    requires n <= |samples| && n <= |delays|
    ensures 2 * n <= |trace| <= 3 * n
  {
    if n == 0 then []
    else Replay(clock, target, samples, delays, unit, n - 1) + ReplayStep(clock, target, samples[n - 1], WallWait(delays[n - 1], unit))
  }

  /** A replay writes exactly its samples, in order. */
  lemma {:induction false} ReplayWrites(clock: ClockParams, target: SignalId, samples: seq<int>, delays: seq<real>, unit: Unit, n: nat)
    requires n <= |samples| && n <= |delays|
    ensures WrittenValues(Replay(clock, target, samples, delays, unit, n)) == samples[..n]
  {
    if n > 0 {
      ReplayWrites(clock, target, samples, delays, unit, n - 1);
      StepWrites(Replay(clock, target, samples, delays, unit, n - 1), clock, target, samples[n - 1], delays[n - 1], unit);
      PrefixSnoc(samples, n - 1);
    }
  }

  /** A replay step writes its one value. */
  lemma StepWrites(prev: seq<Action>, clock: ClockParams, target: SignalId, x: int, d: real, unit: Unit)
    ensures WrittenValues(prev + ReplayStep(clock, target, x, WallWait(d, unit))) == WrittenValues(prev) + [x]
  {
    var e := [EdgeAwait(RisingEdgeOf(clock.signal))];
    var w := WallWait(d, unit);
    WrittenValuesAppend(prev, e);
    NoWrites(e);
    WriteOne(prev + e, target, x);
    NoWrites(w);
    WrittenValuesAppend(prev + e + [Write(target, x)], w);
    StepOfPair(prev, clock, target, x, w);
  }

  /** The clock-less waits of the first `i + 1` delays succeed when those
      of the first `i` and the next one do. */
  lemma WaitsSucceedOneMore(delays: seq<real>, i: nat, unit: Unit)
    requires i < |delays| && WallDelay(delays[i], unit).Success? && WaitsSucceedUpTo(delays, unit, i)
    ensures WaitsSucceedUpTo(delays, unit, i + 1)
  {
  }

  /** The clock-less waits of the first `n` delays all succeed: the unit
      is a wall-clock unit, or none of those delays is positive. */
  predicate WaitsSucceedUpTo(delays: seq<real>, unit: Unit, n: nat)
    requires n <= |delays|
  {
    !IsClockRelative(unit) || forall k :: 0 <= k < n ==> delays[k] <= 0.0
  }

  /** The clock-less waits of all delays succeed. */
  predicate WaitsSucceed(delays: seq<real>, unit: Unit)
  {
    WaitsSucceedUpTo(delays, unit, |delays|)
  }

  /** One clock-less wait that raises is a positive delay in a
      clock-relative unit. */
  lemma WaitFails(delays: seq<real>, i: nat, unit: Unit)
    requires i < |delays| && WallDelay(delays[i], unit).Failure?
    ensures !WaitsSucceed(delays, unit)
  {
  }

  /** The sampled values after one more period. */
  lemma SampledOneMore(before: seq<int>, samples: seq<int>, i: nat)
    requires i < |samples|
    ensures before + samples[..i] + [samples[i]] == before + samples[..i + 1]
  {
    PrefixSnoc(samples, i);
  }

  /** A replay of `n` periods does not look at delays past the n-th. */
  lemma {:induction false} ReplayIgnoresLaterDelays(clock: ClockParams, target: SignalId, samples: seq<int>, delays: seq<real>,
                                                    d: real, unit: Unit, n: nat)
    requires n <= |samples| && n <= |delays|
    ensures Replay(clock, target, samples, delays + [d], unit, n) == Replay(clock, target, samples, delays, unit, n)
  {
    if n > 0 {
      ReplayIgnoresLaterDelays(clock, target, samples, delays, d, unit, n - 1);
    }
  }

  /** One more period extends a replay by one step. */
  lemma ReplayExtend(pre: seq<Action>, clock: ClockParams, target: SignalId, samples: seq<int>, delays: seq<real>,
                     unit: Unit, i: nat)
    requires i < |samples| && i < |delays|
    ensures pre + Replay(clock, target, samples, delays, unit, i) + ReplayStep(clock, target, samples[i], WallWait(delays[i], unit)) ==
      pre + Replay(clock, target, samples, delays, unit, i + 1)
  {
  }

  /** A replay whose delay list grows by one as it runs: one more period
      with the new delay extends it by one step. */
  lemma ReplaySnoc(pre: seq<Action>, clock: ClockParams, target: SignalId, samples: seq<int>, delays: seq<real>,
                   d: real, unit: Unit, i: nat)
    requires i < |samples| && i == |delays|
    ensures pre + Replay(clock, target, samples, delays, unit, i) + ReplayStep(clock, target, samples[i], WallWait(d, unit)) ==
      pre + Replay(clock, target, samples, delays + [d], unit, i + 1)
  {
    ReplayIgnoresLaterDelays(clock, target, samples, delays, d, unit, i);
    ReplayExtend(pre, clock, target, samples, delays + [d], unit, i);
  }

  /** The receiver's edge wait followed by the sender's write and wait is
      one replay step. */
  lemma StepOfPair(t: seq<Action>, clock: ClockParams, target: SignalId, value: int, w: seq<Action>)
    ensures t + [EdgeAwait(RisingEdgeOf(clock.signal))] + [Write(target, value)] + w == t + ReplayStep(clock, target, value, w)
  {
  }

  /** `n` copies of `d`: the delays of `signal_loopback`. */
  function Constant(d: real, n: nat): (ds: seq<real>)
    ensures |ds| == n && forall i :: 0 <= i < n ==> ds[i] == d
  {
    if n == 0 then [] else Constant(d, n - 1) + [d]
  }

  /** `signal_loopback_individual_delays`: start the receiver, wait the first
      delay, then run one sender step per remaining delay and kill the
      receiver. The data clock delivers one sample per sender step;
      `samples` are the values the receiver reads, in order. */
  method IndividualDelays(target: SignalId, clkData: ClockParams, delays: seq<real>, unit: Unit, samples: seq<int>)
    returns (lb: Loopback, err: Option<SchedError>)
    requires |delays| <= |samples| + 1
    ensures fresh(lb)
    ensures delays == [] ==> err == Some(EmptyDelayList) && lb.receiverAlive && lb.trace == []
    ensures delays != [] && !IsClockRelative(unit) ==> err.None?
    ensures err.None? ==>
      WrittenValues(lb.trace) == samples[..|delays| - 1] && lb.queue == [] && !lb.receiverAlive
    ensures err.None? ==>
      lb.trace == WallWait(delays[0], unit) + Replay(clkData, target, samples, delays[1..], unit, |delays| - 1)
  {
    lb := new Loopback(target, clkData);
    if delays == [] {
      return lb, Some(EmptyDelayList);
    }
    var first := WallDelay(delays[0], unit);
    if first.Failure? {
      return lb, Some(DelayFailed(first.error));
    }
    lb.trace := first.value;
    var rest := delays[1..];
    var sent := lb.ReplayAll(samples, rest, unit);
    if sent.Some? {
      return lb, Some(DelayFailed(sent.value));
    }
    assert lb.sampled == samples[..|delays| - 1];
    lb.KillReceiver();
    err := None;
  }

  /** `signal_loopback`: after the constant delay, one sender step per data
      clock period. The source loops until the task is killed; the model
      runs one iteration per sample in `samples`. */
  method SignalLoopback(target: SignalId, clkData: ClockParams, constantDelay: real, unit: Unit, samples: seq<int>)
    returns (lb: Loopback, err: Option<SchedError>)
    ensures fresh(lb)
    ensures !IsClockRelative(unit) ==> err.None?
    ensures err.None? ==> WrittenValues(lb.trace) == samples && lb.queue == [] && lb.receiverAlive
    ensures err.None? ==>
      lb.trace == WallWait(constantDelay, unit) + Replay(clkData, target, samples, Constant(clkData.period, |samples|), unit, |samples|)
  {
    lb := new Loopback(target, clkData);
    var first := WallDelay(constantDelay, unit);
    if first.Failure? {
      return lb, Some(DelayFailed(first.error));
    }
    lb.trace := first.value;
    var sent := lb.ReplayAll(samples, Constant(clkData.period, |samples|), unit);
    if sent.Some? {
      return lb, Some(DelayFailed(sent.value));
    }
    assert lb.sampled == samples;
    assert WrittenValues(lb.trace) == samples;
    err := None;
  }

  /** `signal_loopback_random_jitter`: like `signal_loopback`, but each
      replay delay is the data clock period plus the signed jitter of the
      walk, drawn when `max_jitter > 0` (`draws[k]` is the k-th
      `randint(0, max_jitter)`). The assertion `constant_delay < max_jitter`
      comes first, so the defaults (0, 0) fail. `delays` are the replay
      delays used, one per iteration. */
  method RandomJitter(target: SignalId, clkData: ClockParams, constantDelay: real, maxJitter: int, unit: Unit,
                      samples: seq<int>, draws: seq<int>)
    returns (lb: Loopback, delays: seq<real>, err: Option<SchedError>)
    requires |draws| == |samples|
    ensures fresh(lb)
    ensures constantDelay >= maxJitter as real ==> err == Some(DelayNotBelowJitter) && lb.trace == []
    ensures constantDelay < maxJitter as real && !IsClockRelative(unit) ==> err.None?
    ensures err.None? ==> |delays| == |samples| && WrittenValues(lb.trace) == samples
    ensures |delays| <= |draws| && delays == JitterDelays(clkData.period, draws, maxJitter, |delays|)
    ensures err.None? ==> lb.trace == WallWait(constantDelay, unit) + Replay(clkData, target, samples, delays, unit, |samples|)
  {
    lb := new Loopback(target, clkData);
    delays := [];
    if constantDelay >= maxJitter as real {
      return lb, delays, Some(DelayNotBelowJitter);
    }
    var first := WallDelay(constantDelay, unit);
    if first.Failure? {
      return lb, delays, Some(DelayFailed(first.error));
    }
    lb.trace := first.value;
    var sent;
    delays, sent := lb.ReplayJitter(samples, draws, maxJitter, unit);
    if sent.Some? {
      return lb, delays, Some(DelayFailed(sent.value));
    }
    assert lb.sampled == samples;
    err := None;
  }

  /** A prefix one element longer. */
  lemma PrefixSnoc<T>(s: seq<T>, i: nat)
    requires i < |s|
    ensures s[..i + 1] == s[..i] + [s[i]]
  {
  }

  /** One iteration of the jitter loop: one more step of the walk and one
      more delay, the period shifted by the signed draw. */
  lemma JitterLoopStep(period: real, draws: seq<int>, i: nat, maxJitter: int, w: Walk, offset: int,
                       delays: seq<real>, d: real)
    requires i < |draws| && (maxJitter > 0 ==> w == JitterWalk(draws, maxJitter, i))
    requires offset == if maxJitter > 0 then JitterStep(w, draws[i], maxJitter).sign * draws[i] else 0
    requires delays == JitterDelays(period, draws, maxJitter, i) && d == period + offset as real
    ensures maxJitter > 0 ==> JitterWalk(draws, maxJitter, i + 1) == JitterStep(w, draws[i], maxJitter)
    ensures JitterDelays(period, draws, maxJitter, i + 1) == delays + [d]
  {
  }

  // ---------------------------------------------------------------------
  // The bit-stream validator
  // ---------------------------------------------------------------------

  /** The expected bits as the values `compare` expects. */
  function Expected(dataExp: seq<int>): (e: seq<Check.SimValue>)
    ensures |e| == |dataExp|
    ensures forall i :: 0 <= i < |e| ==> e[i] == Check.Resolved(dataExp[i])
  {
    if dataExp == [] then [] else Expected(dataExp[..|dataExp| - 1]) + [Check.Resolved(dataExp[|dataExp| - 1])]
  }

  /** `validate_bit_stream`: optionally align to the edge first, then for
      each expected bit compare the signal (`samples[i]` is its value at the
      i-th comparison), record the sample and await the edge. Returns the
      verdict, the mismatching indexes and the recorded samples. */
  method ValidateBitStream(clk: ClockParams, dataExp: seq<int>, edge: EdgeType, initSync: bool, samples: seq<Check.SimValue>)
    returns (valid: bool, errorIndexes: seq<nat>, bitStreamAct: seq<Check.SimValue>, trace: seq<Action>)
    requires |samples| == |dataExp|
    ensures bitStreamAct == samples
    ensures valid <==> forall i :: 0 <= i < |dataExp| ==> samples[i] == Check.Resolved(dataExp[i])
    ensures errorIndexes == Check.Mismatches(samples, Expected(dataExp), |dataExp|)
    ensures valid <==> errorIndexes == []
    ensures WrittenValues(trace) == []
  {
    var exp := Expected(dataExp);
    var sync := EdgeTrigger(FromClock(clk), edge);
    var errorLog := [LogError];
    NoWrites(sync);
    NoWrites(errorLog);
    bitStreamAct := [];
    errorIndexes := [];
    valid := true;
    trace := if initSync then sync else [];
    var i: nat := 0;
    while i < |dataExp|
      invariant 0 <= i <= |dataExp|
      invariant bitStreamAct == samples[..i]
      invariant errorIndexes == Check.Mismatches(samples, exp, i)
      invariant valid <==> errorIndexes == []
      invariant WrittenValues(trace) == []
    {
      var act := samples[i];
      var ok := CompareBit(act, dataExp[i]);
      if !ok {
        valid := false;
        errorIndexes := errorIndexes + [i];
        AppendNoWrites(trace, errorLog);
        trace := trace + errorLog;
      }
      PrefixSnoc(samples, i);
      bitStreamAct := bitStreamAct + [act];
      AppendNoWrites(trace, sync);
      trace := trace + sync;
      i := i + 1;
    }
    assert bitStreamAct == samples;
    Check.MismatchesEmptyIff(samples, exp, |dataExp|);
    if !valid {
      var report := [LogError, LogError, LogError];
      NoWrites(report);
      AppendNoWrites(trace, report);
      trace := trace + report;
    }
  }

  /** The `check.compare` of one sample against its expected bit. */
  method CompareBit(act: Check.SimValue, bit: int) returns (ok: bool)
    ensures ok <==> act == Check.Resolved(bit)
  {
    ok := Check.Compare("", act, bit).ok;
  }

  // ---------------------------------------------------------------------
  // Drivers
  // ---------------------------------------------------------------------

  /** One `(value, duration, edge)` instruction of `drive_signal`. */
  datatype DriveStep = DriveStep(value: int, duration: real, edge: EdgeType)

  function Values(steps: seq<DriveStep>): (vs: seq<int>)
    ensures |vs| == |steps|
    ensures forall i :: 0 <= i < |steps| ==> vs[i] == steps[i].value
  {
    if steps == [] then [] else [steps[0].value] + Values(steps[1..])
  }

  /** What `delay` returns for each instruction. */
  function Waits(clk: Option<ClockParams>, unit: Unit, steps: seq<DriveStep>): (ws: seq<Result<seq<Action>, DelayError>>)
    ensures |ws| == |steps|
    ensures forall i :: 0 <= i < |steps| ==> ws[i] == Delay(steps[i].duration, unit, clk, steps[i].edge)
  {
    if steps == [] then []
    else [Delay(steps[0].duration, unit, clk, steps[0].edge)] + Waits(clk, unit, steps[1..])
  }

  /** Writing each value and then waiting as told, until a wait fails. */
  function RunOf(signal: SignalId, vs: seq<int>, ws: seq<Result<seq<Action>, DelayError>>): (r: Run)
    requires |vs| == |ws|
    ensures r.error.None? <==> forall i :: 0 <= i < |ws| ==> ws[i].Success?
    ensures r.error.Some? ==> r.error.value.DelayFailed?
  {
    if vs == [] then
      Run([], None)
    else
      match ws[0]
      case Failure(e) => Run([Write(signal, vs[0])], Some(DelayFailed(e)))
      case Success(w) =>
        var rest := RunOf(signal, vs[1..], ws[1..]);
        Run([Write(signal, vs[0])] + w + rest.trace, rest.error)
  }

  /** What driving the instructions does: for each, write the value and then
      `delay` for its duration and edge; an invalid delay raises after the
      value is written. */
  function DriveRun(signal: SignalId, clk: Option<ClockParams>, unit: Unit, steps: seq<DriveStep>): (r: Run)
    ensures r.error.None? <==>
      forall i :: 0 <= i < |steps| ==> Delay(steps[i].duration, unit, clk, steps[i].edge).Success?
    ensures r.error.Some? ==> r.error.value.DelayFailed?
  {
    RunOf(signal, Values(steps), Waits(clk, unit, steps))
  }

  /** A completed run writes exactly its values when no wait writes. */
  lemma {:induction false} RunOfWrites(signal: SignalId, vs: seq<int>, ws: seq<Result<seq<Action>, DelayError>>)
    requires |vs| == |ws|
    requires forall i :: 0 <= i < |ws| && ws[i].Success? ==> WrittenValues(ws[i].value) == []
    ensures var r := RunOf(signal, vs, ws);
      r.error.None? ==> WrittenValues(r.trace) == vs
  {
    var r := RunOf(signal, vs, ws);
    if vs != [] && r.error.None? {
      var w := ws[0].value;
      var rest := RunOf(signal, vs[1..], ws[1..]);
      RunOfWrites(signal, vs[1..], ws[1..]);
      WrittenValuesAppend([Write(signal, vs[0])], w);
      WrittenValuesAppend([Write(signal, vs[0])] + w, rest.trace);
      assert WrittenValues([Write(signal, vs[0])]) == [vs[0]] by {
        assert [Write(signal, vs[0])][..0] == [];
      }
    }
  }

  /** A completed drive writes exactly the instruction values, in order. */
  lemma DriveRunWrites(signal: SignalId, clk: Option<ClockParams>, unit: Unit, steps: seq<DriveStep>)
    ensures var r := DriveRun(signal, clk, unit, steps);
      r.error.None? ==> WrittenValues(r.trace) == Values(steps)
  {
    RunOfWrites(signal, Values(steps), Waits(clk, unit, steps));
  }

  /** A failed run ends with the error of its first failing wait: every wait
      before that one succeeded, and the run stops there. */
  lemma {:induction false} RunOfError(signal: SignalId, vs: seq<int>, ws: seq<Result<seq<Action>, DelayError>>)
    requires |vs| == |ws|
    ensures var r := RunOf(signal, vs, ws);
      r.error.Some? ==>
        exists i :: 0 <= i < |ws| && ws[i].Failure? &&
          (forall j :: 0 <= j < i ==> ws[j].Success?) && r.error.value == DelayFailed(ws[i].error)
  {
    if vs != [] {
      var r := RunOf(signal, vs, ws);
      match ws[0]
      case Failure(e) =>
        assert r.error.value == DelayFailed(ws[0].error);
      case Success(_) =>
        RunOfError(signal, vs[1..], ws[1..]);
        var rest := RunOf(signal, vs[1..], ws[1..]);
        assert r.error == rest.error;
        if r.error.Some? {
          var k :| 0 <= k < |ws[1..]| && ws[1..][k].Failure? &&
            (forall j :: 0 <= j < k ==> ws[1..][j].Success?) && rest.error.value == DelayFailed(ws[1..][k].error);
          assert ws[k + 1] == ws[1..][k];
          assert forall j :: 1 <= j < k + 1 ==> ws[j] == ws[1..][j - 1];
        }
    }
  }

  /** A failed `drive_signal` raises the error of the first instruction whose
      `delay` fails; every earlier instruction was driven. */
  lemma DriveRunError(signal: SignalId, clk: Option<ClockParams>, unit: Unit, steps: seq<DriveStep>)
    ensures var r := DriveRun(signal, clk, unit, steps);
      r.error.Some? ==>
        exists i :: 0 <= i < |steps| &&
          Delay(steps[i].duration, unit, clk, steps[i].edge).Failure? &&
          (forall j :: 0 <= j < i ==> Delay(steps[j].duration, unit, clk, steps[j].edge).Success?) &&
          r.error.value == DelayFailed(Delay(steps[i].duration, unit, clk, steps[i].edge).error)
  {
    RunOfError(signal, Values(steps), Waits(clk, unit, steps));
  }

  /** A completed drive ends with the signal at the last value. */
  lemma LastWriteIsLastValue(signal: SignalId, clk: Option<ClockParams>, unit: Unit, steps: seq<DriveStep>)
    requires steps != [] && DriveRun(signal, clk, unit, steps).error.None?
    ensures var vs := WrittenValues(DriveRun(signal, clk, unit, steps).trace);
      vs != [] && vs[|vs| - 1] == steps[|steps| - 1].value
  {
    DriveRunWrites(signal, clk, unit, steps);
  }

  /** The first value of a run: write it, then either its wait fails or the
      wait is followed by the rest of the run. */
  lemma RunOfCons(signal: SignalId, vs: seq<int>, ws: seq<Result<seq<Action>, DelayError>>)
    requires |vs| == |ws| && vs != []
    ensures ws[0].Failure? ==> RunOf(signal, vs, ws) == Run([Write(signal, vs[0])], Some(DelayFailed(ws[0].error)))
    ensures ws[0].Success? ==>
      var rest := RunOf(signal, vs[1..], ws[1..]);
      RunOf(signal, vs, ws) == Run([Write(signal, vs[0])] + ws[0].value + rest.trace, rest.error)
  {
  }

  /** One more value of a run, `i` values in. */
  lemma RunOfStep(signal: SignalId, vs: seq<int>, ws: seq<Result<seq<Action>, DelayError>>, i: nat, trace: seq<Action>)
    requires |vs| == |ws| && i < |vs|
    requires RunOf(signal, vs, ws) == Run(trace + RunOf(signal, vs[i..], ws[i..]).trace, RunOf(signal, vs[i..], ws[i..]).error)
    ensures var t := trace + [Write(signal, vs[i])];
      var rest := RunOf(signal, vs[i + 1..], ws[i + 1..]);
      (ws[i].Failure? ==> RunOf(signal, vs, ws) == Run(t, Some(DelayFailed(ws[i].error)))) &&
      (ws[i].Success? ==> RunOf(signal, vs, ws) == Run(t + ws[i].value + rest.trace, rest.error))
  {
    SliceTail(vs, i);
    SliceTail(ws, i);
    RunOfCons(signal, vs[i..], ws[i..]);
    if ws[i].Success? {
      var rest := RunOf(signal, vs[i + 1..], ws[i + 1..]);
      ConcatRegroup(trace, [Write(signal, vs[i])], ws[i].value, rest.trace);
    }
  }

  /** The suffix from `i` starts with `s[i]`, followed by the suffix from `i + 1`. */
  lemma SliceTail<T>(s: seq<T>, i: nat)
    requires i < |s|
    ensures s[i..][0] == s[i] && s[i..][1..] == s[i + 1..]
  {
  }

  /** Concatenation is associative. */
  lemma ConcatRegroup<T>(a: seq<T>, b: seq<T>, c: seq<T>, d: seq<T>)
    ensures a + (b + c + d) == a + b + c + d
  {
  }

  /** `drive_signal`: the instructions in list order. */
  method DriveSignal(signal: SignalId, clk: Option<ClockParams>, unit: Unit, valueDuration: seq<DriveStep>) returns (run: Run)
    ensures run == DriveRun(signal, clk, unit, valueDuration)
  {
    ghost var vs, ws := Values(valueDuration), Waits(clk, unit, valueDuration);
    assert DriveRun(signal, clk, unit, valueDuration) == RunOf(signal, vs, ws);
    var trace: seq<Action> := [];
    var i := 0;
    while i < |valueDuration|
      invariant 0 <= i <= |valueDuration|
      invariant RunOf(signal, vs, ws) == Run(trace + RunOf(signal, vs[i..], ws[i..]).trace, RunOf(signal, vs[i..], ws[i..]).error)
    {
      var s := valueDuration[i];
      RunOfStep(signal, vs, ws, i, trace);
      trace := trace + [Write(signal, s.value)];
      var d := Delay(s.duration, unit, clk, s.edge);
      assert vs[i] == s.value && ws[i] == d;
      if d.Failure? {
        return Run(trace, Some(DelayFailed(d.error)));
      }
      trace := trace + d.value;
      i := i + 1;
    }
    assert vs[i..] == [];
    run := Run(trace, None);
  }

  /** A Python `range(start, stop, step)`; a range's step is never 0. */
  type NonZero = s: int | s != 0 witness 1

  /** The values a range yields, in order. */
  function RangeValues(start: int, stop: int, step: NonZero): (vs: seq<int>)
    ensures forall i :: 0 <= i < |vs| ==> vs[i] == start + i * step
    ensures forall i :: 0 <= i < |vs| ==> if step > 0 then vs[i] < stop else vs[i] > stop
    ensures step > 0 ==> start + |vs| * step >= stop
    ensures step < 0 ==> start + |vs| * step <= stop
    decreases if step > 0 then stop - start else start - stop
  {
    if (step > 0 && start < stop) || (step < 0 && start > stop) then
      var rest := RangeValues(start + step, stop, step);
      assert forall i :: 1 <= i <= |rest| ==> start + step + (i - 1) * step == start + i * step by {
        forall i | 1 <= i <= |rest|
          ensures start + step + (i - 1) * step == start + i * step
        {
          RangeShift(start, step, i);
        }
      }
      RangeShift(start, step, |rest| + 1);
      [start] + rest
    else
      []
  }

  /** Element `i` of the range from `start` is element `i - 1` of the range
      from `start + step`. */
  lemma RangeShift(start: int, step: int, i: int)
    ensures start + step + (i - 1) * step == start + i * step
  {
    assert (i - 1) * step + step == i * step;
  }

  /** The instructions `drive_signal_incremental` performs: each value of
      the range with the same duration and edge. */
  function Uniform(values: seq<int>, duration: real, edge: EdgeType): (steps: seq<DriveStep>)
    ensures |steps| == |values|
    ensures forall i :: 0 <= i < |values| ==> steps[i] == DriveStep(values[i], duration, edge)
  {
    if values == [] then [] else [DriveStep(values[0], duration, edge)] + Uniform(values[1..], duration, edge)
  }

  /** The values of uniform instructions. */
  function UniformValues(values: seq<int>, duration: real, edge: EdgeType): (vs: seq<int>)
    ensures |vs| == |values|
  {
    Values(Uniform(values, duration, edge))
  }

  /** The waits of uniform instructions. */
  function UniformWaits(clk: Option<ClockParams>, unit: Unit, values: seq<int>, duration: real, edge: EdgeType): (ws: seq<Result<seq<Action>, DelayError>>)
    ensures |ws| == |values|
  {
    Waits(clk, unit, Uniform(values, duration, edge))
  }

  /** Driving uniform instructions is the run of their values and waits. */
  lemma UniformRun(signal: SignalId, clk: Option<ClockParams>, unit: Unit, values: seq<int>, duration: real, edge: EdgeType)
    ensures DriveRun(signal, clk, unit, Uniform(values, duration, edge))
      == RunOf(signal, UniformValues(values, duration, edge), UniformWaits(clk, unit, values, duration, edge))
  {
  }

  /** Uniform instruction `i` writes `values[i]` and waits the one delay. */
  lemma UniformAt(clk: Option<ClockParams>, unit: Unit, values: seq<int>, duration: real, edge: EdgeType, i: nat)
    requires i < |values|
    ensures UniformValues(values, duration, edge)[i] == values[i]
    ensures UniformWaits(clk, unit, values, duration, edge)[i] == Delay(duration, unit, clk, edge)
  {
  }

  /** `drive_signal_incremental`: the range's values, each held for the same
      delay. */
  method DriveSignalIncremental(signal: SignalId, clk: Option<ClockParams>, start: int, stop: int, step: NonZero,
                                valueDuration: real, unit: Unit, edge: EdgeType) returns (run: Run)
    ensures run == DriveRun(signal, clk, unit, Uniform(RangeValues(start, stop, step), valueDuration, edge))
  {
    var values := RangeValues(start, stop, step);
    ghost var vs, ws := UniformValues(values, valueDuration, edge), UniformWaits(clk, unit, values, valueDuration, edge);
    UniformRun(signal, clk, unit, values, valueDuration, edge);
    var trace: seq<Action> := [];
    var i := 0;
    while i < |values|
      invariant 0 <= i <= |values|
      invariant RunOf(signal, vs, ws) == Run(trace + RunOf(signal, vs[i..], ws[i..]).trace, RunOf(signal, vs[i..], ws[i..]).error)
    {
      var value := values[i];
      RunOfStep(signal, vs, ws, i, trace);
      trace := trace + [Write(signal, value)];
      var d := Delay(valueDuration, unit, clk, edge);
      UniformAt(clk, unit, values, valueDuration, edge, i);
      if d.Failure? {
        return Run(trace, Some(DelayFailed(d.error)));
      }
      trace := trace + d.value;
      i := i + 1;
    }
    assert vs[i..] == [];
    run := Run(trace, None);
  }

  /** The optional alignment before a pulse: only a falling start edge while
      the clock is high, or a rising one while it is low, is awaited. */
  function PulseAlign(c: ClockParams, clkLevel: int, startEdge: EdgeType): (trace: seq<Action>)
    ensures |trace| <= 1 && WrittenValues(trace) == []
    ensures trace != [] <==> (clkLevel == 1 && startEdge == Falling) || (clkLevel == 0 && startEdge == Rising)
  {
    var t :=
      if clkLevel == 1 && startEdge == Falling then EdgeTrigger(FromSignal(c.signal), Falling)
      else if clkLevel == 0 && startEdge == Rising then EdgeTrigger(FromSignal(c.signal), Rising)
      else [];
    NoWrites(t);
    t
  }

  /** The pulse itself: write `value`, delay, write `reset_value`. */
  function Pulse(signal: SignalId, value: int, duration: real, unit: Unit, clk: Option<ClockParams>,
                 delayEdge: EdgeType, resetValue: int): (r: Run)
    ensures r.error.None? <==> Delay(duration, unit, clk, delayEdge).Success?
    ensures r.error.None? ==> WrittenValues(r.trace) == [value, resetValue]
    ensures r.error.None? ==> r.trace[|r.trace| - 1] == Write(signal, resetValue)
  {
    match Delay(duration, unit, clk, delayEdge)
    case Failure(e) => Run([Write(signal, value)], Some(DelayFailed(e)))
    case Success(w) =>
      var t := [Write(signal, value)] + w + [Write(signal, resetValue)];
      PulseWrites(signal, value, w, resetValue);
      Run(t, None)
  }

  lemma PulseWrites(signal: SignalId, value: int, w: seq<Action>, resetValue: int)
    requires forall i :: 0 <= i < |w| ==> !w[i].Write?
    ensures WrittenValues([Write(signal, value)] + w + [Write(signal, resetValue)]) == [value, resetValue]
  {
    NoWrites(w);
    WrittenValuesAppend([Write(signal, value)], w);
    WrittenValuesAppend([Write(signal, value)] + w, [Write(signal, resetValue)]);
    assert WrittenValues([Write(signal, value)]) == [value] by {
      assert [Write(signal, value)][..0] == [];
    }
    assert WrittenValues([Write(signal, resetValue)]) == [resetValue] by {
      assert [Write(signal, resetValue)][..0] == [];
    }
  }

  /** `drive_single_pulse` as written: the clock's signal is read before
      anything else, so a call without a clock raises at once. With a clock,
      a completed pulse leaves the signal at `reset_value`. `clkLevel` is
      the value the clock signal holds at the call. */
  function DriveSinglePulse(signal: SignalId, value: int, duration: real, unit: Unit, clk: Option<ClockParams>,
                            clkLevel: int, startEdge: EdgeType, delayEdge: EdgeType, resetValue: int): (r: Run)
    ensures clk.None? ==> r == Run([], Some(NoClock))
    ensures r.error.None? <==> clk.Some? && Delay(duration, unit, clk, delayEdge).Success?
    ensures r.error.None? ==> WrittenValues(r.trace) == [value, resetValue]
    ensures r.error.None? ==> r.trace[|r.trace| - 1] == Write(signal, resetValue)
  {
    if clk.None? then
      Run([], Some(NoClock))
    else
      var align := PulseAlign(clk.value, clkLevel, startEdge);
      var p := Pulse(signal, value, duration, unit, clk, delayEdge, resetValue);
      WrittenValuesAppend(align, p.trace);
      Run(align + p.trace, p.error)
  }

  /** `drive_single_pulse` with the clock optional, as its signature and
      documentation describe: without a clock there is no alignment and a
      wall-clock pulse is write, timer wait, write. */
  function DriveSinglePulseIntended(signal: SignalId, value: int, duration: real, unit: Unit, clk: Option<ClockParams>,
                                    clkLevel: int, startEdge: EdgeType, delayEdge: EdgeType, resetValue: int): (r: Run)
    ensures clk.Some? ==> r == DriveSinglePulse(signal, value, duration, unit, clk, clkLevel, startEdge, delayEdge, resetValue)
    ensures clk.None? ==> (r.error.None? <==> Delay(duration, unit, None, delayEdge).Success?)
    ensures r.error.None? ==> WrittenValues(r.trace) == [value, resetValue]
  {
    if clk.None? then Pulse(signal, value, duration, unit, clk, delayEdge, resetValue)
    else DriveSinglePulse(signal, value, duration, unit, clk, clkLevel, startEdge, delayEdge, resetValue)
  }

  /** Without a clock the intended pulse works for wall-clock units, where
      the pulse as written raises. */
  lemma PulseWithoutClock(signal: SignalId, value: int, duration: real, unit: Unit, resetValue: int)
    requires duration > 0.0 && !IsClockRelative(unit)
    ensures DriveSinglePulse(signal, value, duration, unit, None, 0, NoEdge, NoEdge, resetValue).error == Some(NoClock)
    ensures DriveSinglePulseIntended(signal, value, duration, unit, None, 0, NoEdge, NoEdge, resetValue) ==
      Run([Write(signal, value), TimerWait(duration, unit), Write(signal, resetValue)], None)
  {
    DelayWallClock(duration, unit, None, NoEdge);
  }

  /** What `delay_triggered_action` returns: `False` on a timeout, otherwise
      the action's own result. */
  datatype ActionOutcome<V> = TimedOut | Ran(result: V)

  /** `delay_triggered_action`: race one trigger against the timeout (no
      post-trigger edge, timeouts logged) and run the action only if the
      trigger fired. `fired` is the race's outcome and `actionResult` what
      the action returns. */
  function DelayTriggeredAction<V>(config: TriggerConfig, timeout: real, unit: Unit, clk: Option<ClockParams>,
                                   fired: bool, actionResult: V): (r: Result<(ActionOutcome<V>, seq<Action>), RaceError>)
    ensures r.Success? <==> TriggerWithTimeout([config], timeout, unit, clk, NoEdge, false, fired).Success?
    ensures r.Success? ==> (r.value.0 == if fired then Ran(actionResult) else TimedOut)
    ensures r.Success? ==> (LogError in r.value.1 <==> !fired)
  {
    match TriggerWithTimeout([config], timeout, unit, clk, NoEdge, false, fired)
    case Failure(e) => Failure(e)
    case Success(race) => Success((if race.valid then Ran(actionResult) else TimedOut, race.trace))
  }
}
