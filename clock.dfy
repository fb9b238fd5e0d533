/** The clock of `cocotb_wrapper/clock.py`: its fixed parameters and the
    life cycle of the background task that drives its signal. */
module Clocks {
  import opened Models

  type PositiveReal = r: real | r > 0.0 witness 1.0

  /** The attributes a `Clock` sets in its constructor and never changes. */
  datatype ClockParams = ClockParams(name: string, unit: Unit, period: PositiveReal, signal: SignalId) {
    /** `half_period`: exactly half the period. */
    function HalfPeriod(): (h: real)
      ensures h > 0.0 && h + h == period
    {
      period / 2.0
    }

    /** The length of `n` periods in the clock's unit (what a duration given
        in cycles becomes); it has the sign of `n`. */
    function Periods(n: real): (d: real)
      ensures n > 0.0 ==> d > 0.0
      ensures n <= 0.0 ==> d <= 0.0
    {
      n * period
    }

    /** How many periods (not necessarily whole) a duration `d` in the
        clock's unit spans; the inverse of `Periods`. */
    function Cycles(d: real): (n: real)
      ensures d > 0.0 ==> n > 0.0
      ensures Periods(n) == d
    {
      d / period
    }

    /** The length of `n` half periods, the spacing of successive edges of
        either kind. */
    function HalfPeriods(n: real): (d: real)
      ensures n > 0.0 ==> d > 0.0
      ensures n <= 0.0 ==> d <= 0.0
    {
      n * HalfPeriod()
    }
  }

  /** More periods never take less time, and strictly more periods take
      strictly longer. */
  lemma PeriodsMonotone(c: ClockParams, a: real, b: real)
    requires a <= b
    ensures c.Periods(a) <= c.Periods(b)
    ensures a < b ==> c.Periods(a) < c.Periods(b)
  {
    assert c.Periods(b) == c.Periods(a) + c.Periods(b - a);
  }

  datatype TaskStatus = Running | Finished | Cancelled

  /** A cocotb task handle; the simulator finishes or cancels it. */
  class Task {
    var status: TaskStatus

    constructor ()
      ensures status == Running
    {
      status := Running;
    }

    /** `kill`: the task stops and counts as done. */
    method Kill()
      modifies this
      ensures status == Finished
    {
      status := Finished;
    }
  }

  class Clock {
    const params: ClockParams
    /** `_task`: the handle recorded by `start_soon`, `null` for `None`. */
    var task: Task?

    /** Defaults: name "main", a period of 10, unit ns; no task yet. */
    constructor (signal: SignalId, name: string := "main", period: PositiveReal := 10.0, unit: Unit := Ns)
      ensures params == ClockParams(name, unit, period, signal)
      ensures params.HalfPeriod() == period / 2.0
      ensures task == null
    {
      params := ClockParams(name, unit, period, signal);
      task := null;
    }

    /** `start`: the waveform is launched without recording a task handle. */
    method Start()
      ensures task == old(task)
    {
    }

    /** `start_soon`: a live task is kept and returned with a warning; with no
        task, or a finished or cancelled one, a fresh task is started,
        recorded and returned. */
    method StartSoon() returns (t: Task, warned: bool)
      modifies this
      ensures task == t
      ensures warned <==> old(task) != null && old(task.status) == Running
      ensures warned ==> t == old(task)
      ensures !warned ==> fresh(t) && t.status == Running
    {
      if task != null && task.status == Running {
        return task, true;
      }
      t := new Task();
      task := t;
      warned := false;
    }

    /** `stop`: only a live task is killed; otherwise a warning is logged
        and nothing changes. Calling it is always safe. */
    method Stop() returns (warned: bool)
      modifies task
      ensures task == old(task)
      ensures warned <==> task == null || old(task.status) != Running
      ensures task != null ==> task.status == (if warned then old(task.status) else Finished)
    {
      if task == null {
        return true;
      } else if task.status == Cancelled {
        return true;
      } else if task.status == Finished {
        return true;
      }
      task.Kill();
      warned := false;
    }
  }

  /** A clock launched with `start` has no handle, so `stop` only warns. */
  method StartThenStopOnlyWarns(signal: SignalId) returns (warned: bool)
    ensures warned
  {
    var clk := new Clock(signal);
    clk.Start();
    warned := clk.Stop();
  }

  /** A second `start_soon` returns the first task instead of creating a second
      driver; after `stop` a new `start_soon` creates a fresh task. */
  method StartSoonIsIdempotent(signal: SignalId) returns (first: Task, second: Task, third: Task)
    ensures first == second && first != third
    ensures first.status == Finished && third.status == Running
  {
    var clk := new Clock(signal);
    var warned;
    first, warned := clk.StartSoon();
    second, warned := clk.StartSoon();
    assert warned;
    warned := clk.Stop();
    assert !warned;
    third, warned := clk.StartSoon();
    assert !warned;
  }
}
