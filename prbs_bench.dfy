/** The PRBS test bench (`tests/test_benches/prbs_test/test_bench.py`): how
    `setup_signal_loopback` builds the per-bit replay delays of the data
    loopback, with clamped random jitter and a periodic clock drift, and
    which loopback coroutine it starts. The draws of `random.randint` are
    inputs; starting a coroutine is given as the value naming it and its
    arguments. */
module PrbsBench {
  import opened Results
  import opened Arith
  import opened Clocks
  import opened Timer
  import opened Scheduler

  /** `range(0, n, 0)` raises `ValueError`: a drift ratio above 1 makes the
      drift step `int(1 / ratio)` zero. */
  datatype SetupError = ZeroDriftStep

  /** The loopback coroutine `setup_signal_loopback` starts, with the
      arguments it passes besides the two data signals and the data clock. */
  datatype Dispatch =
    | IndividualDelaysLoopback(delays: seq<int>)
    | RandomJitterLoopback(constantDelay: int, maxJitter: int)
    | ConstantLoopback(constantDelay: int)

  /** `data_clk_drift`: the data clock speeds up (shorter periods) for
      `"speed_up"` and slows down for any other drift type. */
  function DriftSign(driftType: string): (d: int)
    ensures d == -1 <==> driftType == "speed_up"
    ensures d == 1 <==> driftType != "speed_up"
  {
    if driftType == "speed_up" then -1 else 1
  }

  /** `int(1 / ratio)`: the number of data cycles between two drift
      corrections. It is 0 exactly when the ratio exceeds 1. */
  function DriftStep(ratio: real): (k: int)
    requires ratio > 0.0
    ensures k >= 0
    ensures k == 0 <==> ratio > 1.0
  {
    var x := 1.0 / ratio;
    assert x * ratio == 1.0;
    assert ratio > 1.0 ==> x < 1.0;
    assert ratio <= 1.0 ==> x >= 1.0;
    Trunc(x)
  }

  /** The delays after the jitter pass: each period shifted by the signed
      jitter of its draw. */
  function Jittered(period: int, draws: seq<int>, maxJitter: int): (ds: seq<int>)
    ensures |ds| == |draws|
  {
    var offsets := JitterOffsets(draws, maxJitter, |draws|);
    seq(|draws|, k requires 0 <= k < |draws| => period + offsets[k])
  }

  /** The delays after the drift pass: `shift` added at the multiples of
      `step` and nowhere else. */
  function Drifted(ds: seq<int>, step: nat, shift: int): (r: seq<int>)
    requires step > 0
    ensures |r| == |ds|
  {
    seq(|ds|, j requires 0 <= j < |ds| => if j % step == 0 then ds[j] + shift else ds[j])
  }

  /** The delay list of `setup_signal_loopback` for a positive count: the
      data clock period, then the jitter pass when the maximum jitter is
      positive, then the drift pass when the drift ratio is positive. */
  function LoopbackDelays(count: nat, period: int, samplePeriod: int, draws: seq<int>, maxJitter: int,
                          ratio: real, driftType: string): (r: Result<seq<int>, SetupError>)
    requires maxJitter > 0 ==> |draws| == count
    ensures r.Failure? <==> ratio > 1.0
    ensures r.Success? ==> |r.value| == count
  {
    var base := if maxJitter > 0 then Jittered(period, draws, maxJitter) else seq(count, _ => period);
    if ratio > 0.0 then
      var step := DriftStep(ratio);
      if step == 0 then Failure(ZeroDriftStep)
      else Success(Drifted(base, step, DriftSign(driftType) * samplePeriod))
    else Success(base)
  }

  /** `setup_signal_loopback`: individual delays for a positive count,
      otherwise the random-jitter loopback for a positive maximum jitter,
      otherwise the constant-delay loopback. */
  function Setup(clkData: ClockParams, clkSample: ClockParams, count: int, constantDelay: int, maxJitter: int,
                 ratio: real, driftType: string, draws: seq<int>): (r: Result<Dispatch, SetupError>)
    requires count > 0 && maxJitter > 0 ==> |draws| == count
    ensures r.Failure? <==> count > 0 && ratio > 1.0
    ensures r.Success? ==> (r.value.IndividualDelaysLoopback? <==> count > 0)
    ensures r.Success? && r.value.IndividualDelaysLoopback? ==> |r.value.delays| == count
    ensures count <= 0 && maxJitter > 0 ==> r == Success(RandomJitterLoopback(constantDelay, maxJitter))
    ensures count <= 0 && maxJitter <= 0 ==> r == Success(ConstantLoopback(constantDelay))
  {
    if count > 0 then
      match LoopbackDelays(count, Trunc(clkData.period), Trunc(clkSample.period), draws, maxJitter, ratio, driftType)
      case Failure(e) => Failure(e)
      case Success(ds) => Success(IndividualDelaysLoopback(ds))
    else if maxJitter > 0 then Success(RandomJitterLoopback(constantDelay, maxJitter))
    else Success(ConstantLoopback(constantDelay))
  }

  /** `TestContext.setup_signal_loopback` of the PRBS bench. `draws[i]` is
      what `random.randint(0, max_data_clk_jitter)` returns in iteration
      `i` of the jitter loop. */
  method SetupSignalLoopback(clkData: ClockParams, clkSample: ClockParams, dataValueCount: int, constantDelay: int,
                             maxJitter: int, ratio: real, driftType: string, draws: seq<int>)
    returns (r: Result<Dispatch, SetupError>)
    requires dataValueCount > 0 && maxJitter > 0 ==> |draws| == dataValueCount
    ensures r == Setup(clkData, clkSample, dataValueCount, constantDelay, maxJitter, ratio, driftType, draws)
  {
    var drift := if driftType == "speed_up" then -1 else 1;
    if dataValueCount > 0 {
      var period := Trunc(clkData.period);
      var samplePeriod := Trunc(clkSample.period);
      var delays := seq(dataValueCount, _ => period);
      if maxJitter > 0 {
        delays := AddJitter(delays, period, draws, maxJitter);
      }
      if ratio > 0.0 {
        var step := Trunc(1.0 / ratio);
        if step == 0 {
          return Failure(ZeroDriftStep);
        }
        delays := AddDrift(delays, step, drift * samplePeriod);
      }
      r := Success(IndividualDelaysLoopback(delays));
    } else if maxJitter > 0 {
      r := Success(RandomJitterLoopback(constantDelay, maxJitter));
    } else {
      r := Success(ConstantLoopback(constantDelay));
    }
  }

  /** The jitter loop of `setup_signal_loopback`: every delay gets the next
      signed draw of the clamped walk. */
  method AddJitter(delays0: seq<int>, period: int, draws: seq<int>, maxJitter: int) returns (delays: seq<int>)
    requires |draws| == |delays0| && forall k :: 0 <= k < |delays0| ==> delays0[k] == period
    ensures delays == Jittered(period, draws, maxJitter)
  {
    delays := delays0;
    var n := |delays|;
    var jitterSum, jitterSign := 0, 1;
    var i := 0;
    while i < n
      invariant 0 <= i <= n && |delays| == n
      invariant Walk(jitterSum, jitterSign) == JitterWalk(draws, maxJitter, i)
      invariant forall k {:trigger delays[k]} :: 0 <= k < i ==>
        delays[k] == period + JitterWalk(draws, maxJitter, k + 1).sum - JitterWalk(draws, maxJitter, k).sum
      invariant forall k :: i <= k < n ==> delays[k] == period
    {
      var jitter := draws[i];
      if Abs(jitterSum + jitterSign * jitter) > maxJitter {
        jitterSign := -jitterSign;
      }
      delays := delays[i := delays[i] + jitterSign * jitter];
      jitterSum := jitterSum + jitterSign * jitter;
      i := i + 1;
    }
  }

  /** The drift loop `for i in range(0, n, step)`: the shift is added at
      indexes `0, step, 2 * step, ...` below the length. */
  method AddDrift(delays0: seq<int>, step: int, shift: int) returns (delays: seq<int>)
    requires step > 0
    ensures delays == Drifted(delays0, step, shift)
  {
    delays := delays0;
    var n := |delays|;
    var i := 0;
    while i < n
      invariant 0 <= i && i % step == 0 && |delays| == n
      invariant forall j :: 0 <= j < n ==> delays[j] == if j < i && j % step == 0 then delays0[j] + shift else delays0[j]
      decreases n - i
    {
      NextMultiple(i, step);
      delays := delays[i := delays[i] + shift];
      i := i + step;
    }
  }

  /** After a multiple of `step`, the next one is `step` further on. */
  lemma NextMultiple(i: int, step: int)
    requires i >= 0 && step > 0 && i % step == 0
    ensures (i + step) % step == 0
    ensures forall j :: i < j < i + step ==> j % step != 0
  {
    var q := i / step;
    DivModUnique(i + step, step, q + 1, 0);
    forall j | i < j < i + step
      ensures j % step != 0
    {
      DivModUnique(j, step, q, j - i);
    }
  }

  /** Shifting every element by `p` shifts the sum by `p` per element. */
  lemma {:induction false} SumShifted(xs: seq<int>, p: int)
    ensures Sum(seq(|xs|, k requires 0 <= k < |xs| => p + xs[k])) == |xs| * p + Sum(xs)
  {
    var ys := seq(|xs|, k requires 0 <= k < |xs| => p + xs[k]);
    if xs != [] {
      var n := |xs| - 1;
      var before := xs[..n];
      SumShifted(before, p);
      assert ys[..n] == seq(|before|, k requires 0 <= k < |before| => p + before[k]);
      assert |xs| * p == n * p + p;
    }
  }

  /** With draws from `randint(0, max_data_clk_jitter)`, every delay is
      the period moved by its draw, up or down, and the delays add up to
      `count` periods plus the final walk sum, which stays within the
      maximum: the jitter never turns into an overall delay. */
  lemma JitterKeepsTotal(period: int, draws: seq<int>, maxJitter: int)
    requires maxJitter >= 0 && forall k :: 0 <= k < |draws| ==> 0 <= draws[k] <= maxJitter
    ensures var ds := Jittered(period, draws, maxJitter);
      forall k :: 0 <= k < |ds| ==> Abs(ds[k] - period) == draws[k] <= maxJitter
    ensures Sum(Jittered(period, draws, maxJitter)) == |draws| * period + JitterWalk(draws, maxJitter, |draws|).sum
    ensures Abs(JitterWalk(draws, maxJitter, |draws|).sum) <= maxJitter
  {
    JitterOffsetsBounded(draws, maxJitter, |draws|);
    SumShifted(JitterOffsets(draws, maxJitter, |draws|), period);
  }
}
