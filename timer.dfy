/** `cocotb_wrapper/timer.py`: unit conversion, the resolution of a
    (duration, unit, clock, edge) request into a wall-clock wait, and the
    `edge_trigger`, `delay` and `trigger_with_timeout` primitives, each given
    as the trace of waits it performs. */
module Timer {
  import opened Results
  import opened Models
  import opened Clocks
  import opened Sim

  /** Why `convert` fails: the clock assertion, a clock unit for which no
      cycle factor is defined (Python's unbound local), an unsupported unit
      pair (`NotImplementedError`), or a clock whose own unit is `cycle`
      (Python recurses without end). */
  datatype ConvertError = MissingClock | UndefinedFactor | NotImplemented | RecursionLimit

  /** Python's `int()` of a real: truncation toward zero. */
  function Trunc(x: real): (n: int)
    ensures x >= 0.0 ==> n >= 0 && n as real <= x < n as real + 1.0
    ensures x < 0.0 ==> n <= 0 && n as real - 1.0 < x <= n as real
  {
    if x >= 0.0 then x.Floor else -((-x).Floor)
  }

  /** One call of `convert` for a source unit other than `cycle`: the clock
      assertion, then the us and ns branches. */
  function ConvertStep(duration: real, source: Unit, target: Unit, clk: Option<ClockParams>): (r: Result<real, ConvertError>)
    requires source != Cycle
    ensures r == Failure(MissingClock) <==> target == Cycle && clk.None?
    ensures r.Success? ==> source in {Us, Ns} && target in {Us, Ns, Cycle} && source != target
    ensures r.Success? && target == Cycle ==> r.value == r.value.Floor as real
  {
    if target == Cycle && clk.None? then
      Failure(MissingClock)
    else if source == Us then
      if target == Cycle then
        if clk.value.unit == Ns then Success(Trunc(clk.value.Cycles(duration * 1000.0)) as real)
        else if clk.value.unit == Us then Success(Trunc(clk.value.Cycles(duration)) as real)
        else Failure(UndefinedFactor)
      else if target == Ns then
        Success(duration * 1000.0)
      else
        Failure(NotImplemented)
    else if source == Ns then
      if target == Cycle then
        if clk.value.unit == Ns then Success(Trunc(clk.value.Cycles(duration)) as real)
        else if clk.value.unit == Us then Success(Trunc(clk.value.Cycles(duration * 0.001)) as real)
        else Failure(UndefinedFactor)
      else if target == Us then
        Success(duration * 0.001)
      else
        Failure(NotImplemented)
    else
      Failure(NotImplemented)
  }

  /** `convert(duration, source_unit, target_unit, clk)`. A `cycle` source is
      first expanded into the clock's own unit and converted again; when that
      unit is itself `cycle` the Python recursion never ends. */
  function Convert(duration: real, source: Unit, target: Unit, clk: Option<ClockParams>): (r: Result<real, ConvertError>)
    ensures r == Failure(MissingClock) <==> (source == Cycle || target == Cycle) && clk.None?
    ensures r.Success? && target == Cycle ==> r.value == r.value.Floor as real
  {
    if source == Cycle then
      if clk.None? then Failure(MissingClock)
      else if clk.value.unit == Cycle then Failure(RecursionLimit)
      else ConvertStep(clk.value.Periods(duration), clk.value.unit, target, clk)
    else
      ConvertStep(duration, source, target, clk)
  }

  /** Between microseconds and nanoseconds the factor is 1000 either way and
      nothing is truncated; no clock is needed. */
  lemma ConvertWallClock(d: real, clk: Option<ClockParams>)
    ensures Convert(d, Us, Ns, clk) == Success(d * 1000.0)
    ensures Convert(d, Ns, Us, clk) == Success(d / 1000.0)
    ensures Convert(Convert(d, Us, Ns, clk).value, Ns, Us, clk) == Success(d)
  {
  }

  /** The exact factor between the wall-clock units us and ns. */
  function WallClockFactor(source: Unit, target: Unit): (f: real)
    requires source in {Us, Ns} && target in {Us, Ns}
    ensures f > 0.0
    ensures source == target <==> f == 1.0
  {
    if source == target then 1.0
    else if source == Us then 1000.0
    else 0.001
  }

  /** Conversion from us or ns to cycles of an ns or us clock gives the
      number of whole clock periods that fit in the duration (for a
      non-negative duration): truncation, never rounding up. Any other
      clock unit has no factor. */
  lemma ConvertToCycles(d: real, source: Unit, c: ClockParams)
    requires d >= 0.0 && source in {Us, Ns}
    ensures c.unit in {Us, Ns} ==>
      var r := Convert(d, source, Cycle, Some(c));
      && r.Success? && r.value >= 0.0 && r.value == r.value.Floor as real
      && c.Periods(r.value) <= d * WallClockFactor(source, c.unit) < c.Periods(r.value + 1.0)
    ensures c.unit !in {Us, Ns} ==> Convert(d, source, Cycle, Some(c)) == Failure(UndefinedFactor)
  {
    if c.unit in {Us, Ns} {
      var e := d * WallClockFactor(source, c.unit);
      assert Convert(d, source, Cycle, Some(c)) == Success(Trunc(c.Cycles(e)) as real);
      WholePeriods(c, e);
    }
  }

  /** Truncating the exact number of periods in a non-negative duration
      gives the largest whole number of periods that fits in it. */
  lemma WholePeriods(c: ClockParams, e: real)
    requires e >= 0.0
    ensures var n := Trunc(c.Cycles(e)) as real;
      n >= 0.0 && c.Periods(n) <= e < c.Periods(n + 1.0)
  {
    var q := c.Cycles(e);
    var n := Trunc(q) as real;
    PeriodsMonotone(c, n, q);
    PeriodsMonotone(c, q, n + 1.0);
  }

  /** Cycles are first expanded into the clock's own unit: n cycles are n
      periods of the clock; a clock counted in cycles never terminates. */
  lemma ConvertFromCycles(n: real, c: ClockParams, target: Unit)
    ensures c.unit != Cycle ==> Convert(n, Cycle, target, Some(c)) == Convert(c.Periods(n), c.unit, target, Some(c))
    ensures c.unit == Cycle ==> Convert(n, Cycle, target, Some(c)) == Failure(RecursionLimit)
    ensures Convert(n, Cycle, Ns, Some(c)).Success? <==> c.unit == Us
    ensures Convert(n, Cycle, Us, Some(c)).Success? <==> c.unit == Ns
  {
  }

  /** Every pair outside us<->ns, {us, ns}->cycle and cycle->X is refused,
      the identity conversions included. */
  lemma ConvertUnsupported(d: real, source: Unit, target: Unit, clk: Option<ClockParams>)
    requires source !in {Us, Ns, Cycle} || (source == target && source != Cycle)
    requires target != Cycle || clk.Some?
    ensures Convert(d, source, target, clk) == Failure(NotImplemented)
  {
  }

  /** us or ns -> cycle -> back, with a clock counted in the other wall-clock
      unit, rounds down to a whole number of clock periods: the result is
      never more than the input and less by under one period. */
  lemma ConvertCycleRoundTrip(x: real, source: Unit, c: ClockParams)
    requires x >= 0.0 && source in {Us, Ns} && c.unit in {Us, Ns} && c.unit != source
    ensures Convert(x, source, Cycle, Some(c)).Success?
    ensures var n := Convert(x, source, Cycle, Some(c)).value;
      var back := Convert(n, Cycle, source, Some(c));
      var f := WallClockFactor(c.unit, source);
      && back == Success(c.Periods(n) * f)
      && back.value <= x < back.value + c.period * f
  {
    ConvertToCycles(x, source, c);
    var n := Convert(x, source, Cycle, Some(c)).value;
    var f := WallClockFactor(c.unit, source);
    var g := WallClockFactor(source, c.unit);
    ConvertFromCycles(n, c, source);
    assert Convert(c.Periods(n), c.unit, source, Some(c)) == Success(c.Periods(n) * f);
    assert c.Periods(n) <= x * g < c.Periods(n) + c.period;
    assert g * f == 1.0;
    assert c.Periods(n) * f <= x * g * f;
    assert x * g * f < (c.Periods(n) + c.period) * f;
  }

  /** With a clock counted in the source's own unit the round trip is refused
      (it would convert ns to ns, or us to us). */
  lemma ConvertRoundTripNeedsOtherUnit(x: real, source: Unit, c: ClockParams)
    requires source in {Us, Ns} && c.unit == source
    ensures Convert(Convert(x, source, Cycle, Some(c)).value, Cycle, source, Some(c)) == Failure(NotImplemented)
  {
  }

  /** The three assertions of `get_delay_specs`. */
  datatype DelayError = UnitNeedsClock | EdgeNeedsClock | EdgeUnitNeedsEdgeType

  /** A resolved wait: a wall-clock duration and unit and the edge to align to. */
  datatype DelaySpec = DelaySpec(duration: real, unit: Unit, edge: EdgeType)

  /** `get_delay_specs`: `cycle` becomes `duration` periods and `edge` becomes
      one period (half a period for `any`) fewer than `duration`, both in the
      clock's unit; other units pass through. The edge is never changed. */
  function GetDelaySpecs(duration: real, unit: Unit, clk: Option<ClockParams>, edge: EdgeType): (r: Result<DelaySpec, DelayError>)
    ensures r.Success? <==>
      (clk.Some? || (!IsClockRelative(unit) && edge == NoEdge)) && (unit == Edge ==> edge != NoEdge)
    ensures clk.None? && IsClockRelative(unit) ==> r == Failure(UnitNeedsClock)
    ensures clk.None? && !IsClockRelative(unit) && edge != NoEdge ==> r == Failure(EdgeNeedsClock)
    ensures clk.Some? && unit == Edge && edge == NoEdge ==> r == Failure(EdgeUnitNeedsEdgeType)
    ensures r.Success? ==> r.value.edge == edge
    ensures r.Success? && !IsClockRelative(unit) ==> r.value == DelaySpec(duration, unit, edge)
    ensures r.Success? && IsClockRelative(unit) ==> r.value.unit == clk.value.unit
  {
    if clk.None? && IsClockRelative(unit) then Failure(UnitNeedsClock)
    else if clk.None? && edge != NoEdge then Failure(EdgeNeedsClock)
    else if unit == Edge && edge == NoEdge then Failure(EdgeUnitNeedsEdgeType)
    else if unit == Cycle then Success(DelaySpec(clk.value.Periods(duration), clk.value.unit, edge))
    else if unit == Edge then
      if edge == AnyEdge then Success(DelaySpec(clk.value.HalfPeriods(duration - 1.0), clk.value.unit, edge))
      else Success(DelaySpec(clk.value.Periods(duration - 1.0), clk.value.unit, edge))
    else Success(DelaySpec(duration, unit, edge))
  }

  /** What `edge_trigger`/`get_edge_trigger` accept: a raw signal or a clock,
      whose signal is then used. */
  datatype EdgeSource = FromSignal(signal: SignalId) | FromClock(clock: ClockParams) {
    function Signal(): SignalId {
      match this
      case FromSignal(s) => s
      case FromClock(c) => c.signal
    }
  }

  /** `get_edge_trigger`: rising, falling and any map to `RisingEdge`,
      `FallingEdge` and `Edge` of the source's signal; `none` yields no
      trigger (Python's implicit `None`). */
  function GetEdgeTrigger(src: EdgeSource, edge: EdgeType): (w: Option<EdgeWait>)
    ensures w.None? <==> edge == NoEdge
    ensures w.Some? ==> w.value.signal == src.Signal()
    ensures edge == Rising ==> w.value.RisingEdgeOf?
    ensures edge == Falling ==> w.value.FallingEdgeOf?
    ensures edge == AnyEdge ==> w.value.AnyEdgeOf?
  {
    match edge
    case NoEdge => None
    case Rising => Some(RisingEdgeOf(src.Signal()))
    case Falling => Some(FallingEdgeOf(src.Signal()))
    case AnyEdge => Some(AnyEdgeOf(src.Signal()))
  }

  /** `edge_trigger`: one edge wait, or nothing for `none`. */
  function EdgeTrigger(src: EdgeSource, edge: EdgeType): (trace: seq<Action>)
    ensures edge == NoEdge ==> trace == []
    ensures edge != NoEdge ==> trace == [EdgeAwait(GetEdgeTrigger(src, edge).value)]
  {
    match GetEdgeTrigger(src, edge)
    case None => []
    case Some(w) => [EdgeAwait(w)]
  }

  /** `delay`: nothing for a non-positive duration (no checks either);
      otherwise a timer wait for a positive resolved duration, then, when a
      clock is given, the edge wait on its signal. */
  function Delay(duration: real, unit: Unit, clk: Option<ClockParams>, edge: EdgeType): (r: Result<seq<Action>, DelayError>)
    ensures duration <= 0.0 ==> r == Success([])
    ensures duration > 0.0 ==> (r.Success? <==> GetDelaySpecs(duration, unit, clk, edge).Success?)
    ensures r.Success? ==> |r.value| <= 2 && forall i :: 0 <= i < |r.value| ==> r.value[i].TimerWait? || r.value[i].EdgeAwait?
    ensures r.Success? ==> WrittenValues(r.value) == []
  {
    if duration <= 0.0 then
      Success([])
    else
      match GetDelaySpecs(duration, unit, clk, edge)
      case Failure(e) => Failure(e)
      case Success(spec) => Success(DelayWaits(spec, clk))
  }

  /** The waits of `delay` once its specs are resolved: the timer wait when
      the resolved duration is positive, then the edge wait on the clock's
      signal when a clock is given. */
  function DelayWaits(spec: DelaySpec, clk: Option<ClockParams>): (w: seq<Action>)
    ensures |w| <= 2 && forall i :: 0 <= i < |w| ==> w[i].TimerWait? || w[i].EdgeAwait?
    ensures WrittenValues(w) == []
  {
    var timer := if spec.duration > 0.0 then [TimerWait(spec.duration, spec.unit)] else [];
    var align := if clk.Some? then EdgeTrigger(FromSignal(clk.value.signal), spec.edge) else [];
    assert |timer| <= 1 && (timer != [] ==> timer[0].TimerWait?);
    assert |align| <= 1 && (align != [] ==> align[0].EdgeAwait?);
    NoWrites(timer + align);
    timer + align
  }

  /** `delay(n, cycle, clk, edge)` waits exactly n periods in the clock's unit
      and then aligns to the requested edge of the clock. */
  lemma DelayCycles(n: real, c: ClockParams, edge: EdgeType)
    requires n > 0.0
    ensures Delay(n, Cycle, Some(c), edge) ==
      Success([TimerWait(c.Periods(n), c.unit)] + EdgeTrigger(FromSignal(c.signal), edge))
  {
    assert GetDelaySpecs(n, Cycle, Some(c), edge) == Success(DelaySpec(c.Periods(n), c.unit, edge));
  }

  /** `delay(n, edge, clk, e)` waits n - 1 periods (half periods for `any`),
      skipped when n <= 1, and then one edge of kind `e`. */
  lemma DelayEdges(n: real, c: ClockParams, edge: EdgeType)
    requires n > 0.0 && edge != NoEdge
    ensures var wait := if edge == AnyEdge then c.HalfPeriods(n - 1.0) else c.Periods(n - 1.0);
      Delay(n, Edge, Some(c), edge) ==
        Success((if n > 1.0 then [TimerWait(wait, c.unit)] else []) +
                [EdgeAwait(GetEdgeTrigger(FromSignal(c.signal), edge).value)])
  {
    var wait := if edge == AnyEdge then c.HalfPeriods(n - 1.0) else c.Periods(n - 1.0);
    assert GetDelaySpecs(n, Edge, Some(c), edge) == Success(DelaySpec(wait, c.unit, edge));
  }

  /** A positive delay in a wall-clock unit is one timer wait of that
      duration and unit. Without a clock that is all, and an edge is
      refused; with a clock it is followed by the edge wait on the clock's
      signal (none for `none`), which may lengthen the delay. */
  lemma DelayWallClock(d: real, unit: Unit, clk: Option<ClockParams>, edge: EdgeType)
    requires d > 0.0 && !IsClockRelative(unit)
    ensures clk.None? && edge == NoEdge ==> Delay(d, unit, clk, edge) == Success([TimerWait(d, unit)])
    ensures clk.None? && edge != NoEdge ==> Delay(d, unit, clk, edge) == Failure(EdgeNeedsClock)
    ensures clk.Some? ==>
      Delay(d, unit, clk, edge) == Success([TimerWait(d, unit)] + EdgeTrigger(FromSignal(clk.value.signal), edge))
  {
    if clk.None? && edge == NoEdge {
      assert GetDelaySpecs(d, unit, clk, edge) == Success(DelaySpec(d, unit, NoEdge));
      assert [TimerWait(d, unit)] + [] == [TimerWait(d, unit)];
    } else if clk.Some? {
      assert GetDelaySpecs(d, unit, clk, edge) == Success(DelaySpec(d, unit, edge));
    }
  }

  /** Why `trigger_with_timeout` fails: a `get_delay_specs` assertion, or a
      configuration with edge `none`, whose missing trigger cocotb's `First`
      rejects. */
  datatype RaceError = SpecError(error: DelayError) | NotATrigger

  /** The edge triggers of all configurations, or `None` if one has no edge. */
  function RaceTriggers(configs: seq<TriggerConfig>): (r: Option<seq<EdgeWait>>)
    ensures r.Some? <==> forall i :: 0 <= i < |configs| ==> configs[i].edge != NoEdge
    ensures r.Some? ==> |r.value| == |configs|
    ensures r.Some? ==> forall i :: 0 <= i < |configs| ==> r.value[i].signal == configs[i].signal
    ensures r.Some? ==> forall i :: 0 <= i < |configs| ==>
      r.value[i] == GetEdgeTrigger(FromSignal(configs[i].signal), configs[i].edge).value
  {
    if configs == [] then
      Some([])
    else
      match (GetEdgeTrigger(FromSignal(configs[0].signal), configs[0].edge), RaceTriggers(configs[1..]))
      case (Some(w), Some(ws)) => Some([w] + ws)
      case _ => None
  }

  /** The result of `trigger_with_timeout`: whether a trigger fired first, and
      the trace of what it awaited and logged. */
  datatype RaceOutcome = RaceOutcome(valid: bool, trace: seq<Action>)

  /** `trigger_with_timeout` (a single configuration is passed as a list of
      one). `fired` says whether a trigger won the race against the timeout. */
  function TriggerWithTimeout(configs: seq<TriggerConfig>, duration: real, unit: Unit, clk: Option<ClockParams>,
                              postSyncEdge: EdgeType, silent: bool, fired: bool): (r: Result<RaceOutcome, RaceError>)
    ensures r.Failure? <==>
      (clk.None? && IsClockRelative(unit)) || unit == Edge || exists i :: 0 <= i < |configs| && configs[i].edge == NoEdge
    ensures (clk.None? && IsClockRelative(unit)) || unit == Edge ==> r.Failure? && r.error.SpecError?
    ensures r.Success? ==> r.value.valid == fired
    ensures r.Success? ==> |r.value.trace| >= 1 && r.value.trace[0].Race?
    ensures r.Success? ==> (LogError in r.value.trace <==> !fired && !silent)
    ensures r.Success? ==> (LogWarning in r.value.trace <==> clk.None? && postSyncEdge != NoEdge)
  {
    match (GetDelaySpecs(duration, unit, clk, NoEdge), RaceTriggers(configs))
    case (Failure(e), _) => Failure(SpecError(e))
    case (_, None) => Failure(NotATrigger)
    case (Success(spec), Some(triggers)) =>
      var report := if !fired && !silent then [LogError] else [];
      var sync :=
        if clk.Some? then EdgeTrigger(FromSignal(clk.value.signal), postSyncEdge)
        else if postSyncEdge != NoEdge then [LogWarning]
        else [];
      Success(RaceOutcome(fired, [Race(triggers, spec.duration, spec.unit)] + report + sync))
  }

  /** The whole trace of a `trigger_with_timeout` that does not fail: the
      race of the triggers against a timeout of `duration` in `unit` for a
      wall-clock unit, or of `duration` clock periods in the clock's unit
      for `cycle`; the error message when it times out and is not silent;
      then, with a clock, the edge wait on the clock's signal for the
      post-trigger sync edge, and without one a warning when such an edge
      was asked for. */
  lemma TriggerWithTimeoutTrace(configs: seq<TriggerConfig>, d: real, unit: Unit, clk: Option<ClockParams>,
                                post: EdgeType, silent: bool, fired: bool)
    requires forall i :: 0 <= i < |configs| ==> configs[i].edge != NoEdge
    requires unit != Edge && (clk.Some? || !IsClockRelative(unit))
    ensures var timeout := if unit == Cycle then clk.value.Periods(d) else d;
      var timeoutUnit := if unit == Cycle then clk.value.unit else unit;
      var report := if !fired && !silent then [LogError] else [];
      var sync :=
        if clk.Some? then EdgeTrigger(FromSignal(clk.value.signal), post)
        else if post != NoEdge then [LogWarning]
        else [];
      TriggerWithTimeout(configs, d, unit, clk, post, silent, fired) ==
        Success(RaceOutcome(fired, [Race(RaceTriggers(configs).value, timeout, timeoutUnit)] + report + sync))
  {
    assert RaceTriggers(configs).Some?;
    var spec := GetDelaySpecs(d, unit, clk, NoEdge);
    if unit == Cycle {
      assert spec == Success(DelaySpec(clk.value.Periods(d), clk.value.unit, NoEdge));
    } else {
      assert spec == Success(DelaySpec(d, unit, NoEdge));
    }
  }
}
