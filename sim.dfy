/** The simulator interactions the core performs, recorded as a trace: the
    cocotb triggers it awaits, the values it writes to signals and the
    error/warning messages it logs. Waiting itself is not simulated. */
module Sim {
  import opened Models

  /** The edge triggers `RisingEdge`, `FallingEdge` and `Edge` of a signal. */
  datatype EdgeWait = RisingEdgeOf(signal: SignalId) | FallingEdgeOf(signal: SignalId) | AnyEdgeOf(signal: SignalId)

  datatype Action =
    | TimerWait(duration: real, unit: Unit)
    | EdgeAwait(trigger: EdgeWait)
    | Race(triggers: seq<EdgeWait>, timeout: real, unit: Unit)
    | Write(signal: SignalId, value: int)
    | LogError
    | LogWarning

  /** The values written to signals, in trace order. */
  function WrittenValues(trace: seq<Action>): (vs: seq<int>)
    ensures |vs| <= |trace|
  {
    if trace == [] then
      []
    else
      var last := trace[|trace| - 1];
      WrittenValues(trace[..|trace| - 1]) + (if last.Write? then [last.value] else [])
  }

  /** Writes of a concatenated trace are the writes of its parts. */
  lemma {:induction false} WrittenValuesAppend(a: seq<Action>, b: seq<Action>)
    ensures WrittenValues(a + b) == WrittenValues(a) + WrittenValues(b)
    decreases |b|
  {
    if b == [] {
      assert a + b == a;
    } else {
      var b' := b[..|b| - 1];
      assert (a + b)[..|a + b| - 1] == a + b';
      WrittenValuesAppend(a, b');
    }
  }

  /** A trace of waits and log messages writes nothing. */
  lemma {:induction false} NoWrites(trace: seq<Action>)
    requires forall i :: 0 <= i < |trace| ==> !trace[i].Write?
    ensures WrittenValues(trace) == []
    decreases |trace|
  {
    if trace != [] {
      NoWrites(trace[..|trace| - 1]);
    }
  }

  /** Joining two traces that write nothing writes nothing. */
  lemma AppendNoWrites(a: seq<Action>, b: seq<Action>)
    requires WrittenValues(a) == [] && WrittenValues(b) == []
    ensures WrittenValues(a + b) == []
  {
    WrittenValuesAppend(a, b);
  }
}
