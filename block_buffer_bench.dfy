/** The block buffer test bench (`tests/test_benches/block_buffer/test_bench.py`):
    the input block `set_input` builds, `reset_inputs`, and the ticking and
    cycle counting of `check_output`. The device under test is a simulator
    handle; the model keeps the values last written to its two input ports
    and leaves out the comparisons against its outputs. */
module BlockBufferBench {
  import opened Results
  import opened Arith
  import opened BlockBuffers
  import BitConvert

  // ---------------------------------------------------------------------
  // The input block
  // ---------------------------------------------------------------------

  /** Why `set_input` raises: its own assertion on the data count, or
      `random.sample` refusing a count that is negative or larger than the
      population (`ValueError`). */
  datatype InputError =
    | DataCountTooLarge(dataCount: int, depth: nat)
    | SampleSizeInvalid(dataCount: int, population: nat)

  /** `2 ** (G_BLOCK_WIDTH // 2)`: data values use only half of the cell
      width, the other half being kept for control words. */
  function MaxDataValue(width: nat): (m: nat)
    ensures m >= 1
  {
    Pow2(width / 2)
  }

  /** What `random.sample(range(population), k)` returns: `k` distinct
      values of the range. The draw itself is an input of the model. */
  ghost predicate IsSample(sample: seq<int>, k: int, population: nat)
  {
    |sample| == k &&
    (forall i :: 0 <= i < |sample| ==> 0 <= sample[i] < population) &&
    (forall i, j :: 0 <= i < j < |sample| ==> sample[i] != sample[j])
  }

  /** Whether `set_input(data_count)` raises, and with what: the assertion
      comes first, then `random.sample`. */
  function InputCheck(dataCount: int, depth: nat, width: nat): (r: Option<InputError>)
    ensures r.None? <==> 0 <= dataCount < depth && dataCount <= MaxDataValue(width)
    ensures dataCount >= depth ==> r == Some(DataCountTooLarge(dataCount, depth))
  {
    if dataCount >= depth then Some(DataCountTooLarge(dataCount, depth))
    else if dataCount < 0 || dataCount > MaxDataValue(width) then Some(SampleSizeInvalid(dataCount, MaxDataValue(width)))
    else None
  }

  /** The block `set_input` writes: the data, the sequence terminator, and
      zeros up to the block depth. */
  function InputBlock(sample: seq<int>, depth: nat): (block: seq<int>)
    requires |sample| < depth
    ensures |block| == depth
    ensures block[..|sample|] == sample
    ensures block[|sample|] == SequenceTerminator
    ensures forall i :: |sample| < i < depth ==> block[i] == 0
  {
    sample + [SequenceTerminator] + Zeros(depth - |sample| - 1)
  }

  /** With cells at most 17 bits wide, no data value can equal the
      terminator, so the terminator marks the end of the data. */
  lemma NarrowCellsKeepTerminatorOut(sample: seq<int>, k: int, width: nat)
    requires IsSample(sample, k, MaxDataValue(width)) && width <= 17
    ensures SequenceTerminator !in sample
  {
    Pow2Monotone(width / 2, 8);
    assert Pow2(8) == 256 by {
      assert Pow2(4) == 16;
    }
  }

  /** From 18-bit cells on, the data may contain the terminator value:
      with 18-bit cells, `0x19C` is a legal data value. */
  lemma WideCellsAdmitTerminator()
    ensures IsSample([SequenceTerminator], 1, MaxDataValue(18))
  {
    assert Pow2(9) == 512 by {
      assert Pow2(4) == 16;
    }
  }

  // ---------------------------------------------------------------------
  // Ticking: the specification of `check_output`
  // ---------------------------------------------------------------------

  /** `reset_inputs` on the golden model: all write cells 0, writing off. */
  function ResetOf(s: BufState): (r: BufState)
    ensures r.blocks == s.blocks && r.head == s.head && r.tail == s.tail && r.depth == s.depth
    ensures r.wrData == Zeros(s.depth) && !r.wrEn
  {
    s.(wrData := Zeros(s.depth), wrEn := false)
  }

  /** Why a pass of `check_output` raises: the tick itself (`read` past the
      last cell of the tail block), or, once the tick is done and counted,
      the debug message that indexes the tail block's `data` at its cell
      index (`IndexError`), which is built before `get_rd_data` reads the
      same cell. */
  datatype CheckError =
    | TickError(error: ReadError)
    | IndexOutOfRange(index: int, length: nat)

  /** A pass of `check_output`: the state it leaves, whether `cycle_count`
      was incremented, and the exception it raised, if any. */
  datatype CycleResult = CycleResult(state: BufState, counted: bool, error: Option<CheckError>)

  /** One pass of the loop of `check_output`: a tick, the count, the
      debug read of the tail block's current cell, then `reset_inputs`
      when asked. A tick that raises changes nothing and is not counted; a
      debug read that raises leaves the ticked state, counted and not
      reset. */
  function Step(s: BufState, reset: bool): (r: CycleResult)
    requires WellFormed(s)
    ensures WellFormed(r.state) && r.state.depth == s.depth && |r.state.blocks| == |s.blocks|
    ensures !r.counted <==> Ticked(s).Failure?
    ensures !r.counted ==> r.state == s && r.error == Some(TickError(Ticked(s).error))
    ensures r.counted ==> (r.error.Some? <==> Ticked(Ticked(s).value).Failure?)
    ensures r.counted && r.error.Some? ==>
      var t := Ticked(s).value;
      r.state == t && r.error == Some(IndexOutOfRange(t.blocks[t.tail].index, s.depth))
    ensures r.counted && r.error.None? ==>
      r.state == (if reset then ResetOf(Ticked(s).value) else Ticked(s).value)
  {
    match Ticked(s)
    case Failure(e) => CycleResult(s, false, Some(TickError(e)))
    case Success(t) =>
      var b := t.blocks[t.tail];
      if b.index >= |b.data| then CycleResult(t, true, Some(IndexOutOfRange(b.index, |b.data|)))
      else CycleResult(if reset then ResetOf(t) else t, true, None)
  }

  /** The state after a run of passes, how many were counted, and the
      exception that ended the run early, if any. */
  datatype Outcome = Outcome(state: BufState, ticks: nat, error: Option<CheckError>)

  /** An outcome preceded by `k` more counted passes. */
  function After(r: Outcome, k: nat): (q: Outcome)
    ensures q.state == r.state && q.error == r.error && q.ticks == r.ticks + k
  {
    r.(ticks := r.ticks + k)
  }

  /** `n` passes of `check_output`. A pass that raises ends the run. */
  function Cycles(s: BufState, n: nat, reset: bool): (r: Outcome)
    requires WellFormed(s)
    ensures WellFormed(r.state) && r.state.depth == s.depth && |r.state.blocks| == |s.blocks|
    ensures r.error.None? ==> r.ticks == n
    ensures r.ticks <= n
    decreases n
  {
    if n == 0 then Outcome(s, 0, None)
    else
      var c := Step(s, reset);
      if c.error.Some? then Outcome(c.state, if c.counted then 1 else 0, c.error)
      else After(Cycles(c.state, n - 1, reset), 1)
  }

  /** How a run ends: an exception leaves a state whose next tick would
      raise; the tick itself raises only in the first pass, and only when
      the run starts in such a state (afterwards the overrun is caught by
      the debug read of the pass that caused it). */
  lemma {:induction false} CyclesEnd(s: BufState, n: nat, reset: bool)
    requires WellFormed(s)
    ensures var r := Cycles(s, n, reset);
      (r.error.Some? ==> Ticked(r.state).Failure?) &&
      (r.error.Some? ==> (r.error.value.TickError? <==> r.ticks == 0)) &&
      (r.error.Some? && r.ticks == 0 ==> r.state == s && Ticked(s).Failure?)
    decreases n
  {
    if n > 0 {
      var c := Step(s, reset);
      if c.error.None? {
        CyclesEnd(c.state, n - 1, reset);
      }
    }
  }

  /** With resetting, a run that completes at least one pass leaves the
      write port all zeros and off; without it, the port keeps its values. */
  lemma {:induction false} CyclesInputs(s: BufState, n: nat, reset: bool)
    requires WellFormed(s)
    ensures var r := Cycles(s, n, reset);
      (reset && n >= 1 && r.error.None? ==> r.state.wrData == Zeros(s.depth) && !r.state.wrEn) &&
      (!reset ==> r.state.wrData == s.wrData && r.state.wrEn == s.wrEn)
    decreases n
  {
    if n > 0 {
      var c := Step(s, reset);
      if c.error.None? {
        CyclesInputs(c.state, n - 1, reset);
      }
    }
  }

  /** A pass that completes moves a run on by one counted pass. */
  lemma CyclesOn(s0: BufState, m: nat, i: nat, s: BufState, reset: bool)
    requires WellFormed(s0) && WellFormed(s) && i < m && Step(s, reset).error.None?
    requires Cycles(s0, m, reset) == After(Cycles(s, m - i, reset), i)
    ensures Cycles(s0, m, reset) == After(Cycles(Step(s, reset).state, m - (i + 1), reset), i + 1)
  {
  }

  /** A pass that raises ends the run there. */
  lemma CyclesStop(s0: BufState, m: nat, i: nat, s: BufState, reset: bool)
    requires WellFormed(s0) && WellFormed(s) && i < m && Step(s, reset).error.Some?
    requires Cycles(s0, m, reset) == After(Cycles(s, m - i, reset), i)
    ensures var c := Step(s, reset);
      Cycles(s0, m, reset) == Outcome(c.state, i + (if c.counted then 1 else 0), c.error)
  {
  }

  /** An exception ends a run for good: asking for more passes changes
      nothing. */
  lemma {:induction false} CyclesErrorFinal(s0: BufState, k: nat, k2: nat, reset: bool)
    requires WellFormed(s0) && k <= k2 && Cycles(s0, k, reset).error.Some?
    ensures Cycles(s0, k2, reset) == Cycles(s0, k, reset)
    decreases k
  {
    if Step(s0, reset).error.None? {
      CyclesErrorFinal(Step(s0, reset).state, k - 1, k2 - 1, reset);
    }
  }

  /** A full tail block read at its last cell without finding the
      terminator overruns in the very pass that reads it: the tick is
      counted, and the debug read raises before the inputs are reset, so a
      run of any length stops there. */
  lemma OverrunReportedAtOnce(s: BufState, n: nat, reset: bool)
    requires Ring(s) && s.depth >= 1 && n >= 1
    requires s.blocks[s.tail].full && s.blocks[s.tail].index == s.depth - 1
    requires s.blocks[s.tail].data[s.depth - 1] != SequenceTerminator
    ensures Cycles(s, n, reset) == Outcome(Ticked(s).value, 1, Some(IndexOutOfRange(s.depth, s.depth)))
  {
    OverrunRaises(s);
    var r := TickRead(s).value;
    assert r.tail == s.tail && r.blocks[s.tail].index == s.depth;
    if s.wrEn && !r.blocks[r.head].full {
      assert r.head != s.tail;
    }
    var t := Ticked(s).value;
    assert t.blocks[t.tail].index == s.depth;
  }

  /** A pass keeps the ring invariant: resetting the write port touches
      no block and no pointer. */
  lemma StepKeepsRing(s: BufState, reset: bool)
    requires Ring(s)
    ensures Ring(Step(s, reset).state)
  {
    if Ticked(s).Success? {
      TickKeepsRing(s);
      var t := Ticked(s).value;
      if reset {
        assert FillCount(ResetOf(t)) == FillCount(t);
      }
    }
  }

  /** Every run of passes keeps the ring invariant of the golden model. */
  lemma {:induction false} CyclesKeepRing(s: BufState, n: nat, reset: bool)
    requires Ring(s)
    ensures Ring(Cycles(s, n, reset).state)
    decreases n
  {
    if n > 0 {
      var c := Step(s, reset);
      StepKeepsRing(s, reset);
      if c.error.None? {
        CyclesKeepRing(c.state, n - 1, reset);
        assert Cycles(s, n, reset).state == Cycles(c.state, n - 1, reset).state;
      }
    }
  }

  /** With writing off, a full tail block holding an input block read from
      cell `j` delivers the rest of its data and then its terminator, which
      frees it, in exactly as many ticks. */
  lemma {:induction false} DrainFrom(s: BufState, sample: seq<int>, j: nat)
    requires WellFormed(s) && !s.wrEn && s.wrData == Zeros(s.depth)
    requires |sample| < s.depth && SequenceTerminator !in sample && j <= |sample|
    requires s.blocks[s.tail] == BlockVal(true, InputBlock(sample, s.depth), j)
    requires var nt := Next(s.tail, |s.blocks|); nt != s.tail ==> s.blocks[nt].index < s.depth
    ensures Cycles(s, |sample| - j + 1, true) == Outcome(Freed(s), |sample| - j + 1, None)
    decreases |sample| - j
  {
    var block := InputBlock(sample, s.depth);
    if j == |sample| {
      assert TickRead(s) == Success(Freed(s));
      assert Ticked(s) == Success(Freed(s));
      assert Step(s, true) == CycleResult(Freed(s), true, None);
    } else {
      assert block[j] == sample[j];
      var t := Advanced(s);
      assert TickRead(s) == Success(t);
      assert Ticked(s) == Success(t);
      assert Step(s, true) == CycleResult(t, true, None);
      DrainFrom(t, sample, j + 1);
      assert Freed(t) == Freed(s);
    }
  }

  /** The `single_block_rw` test: on a fresh buffer, an input block of `k`
      data values is taken by the first tick, read out by the next `k + 1`,
      and the buffer is empty again after `k + 2` ticks, which for
      `k = G_BLOCK_DEPTH - 1` is the `G_BLOCK_DEPTH + 1` the test waits. */
  lemma SingleBlockDrains(count: nat, depth: nat, sample: seq<int>)
    requires count >= 1 && |sample| < depth && SequenceTerminator !in sample
    ensures var s := Initial(count, depth).(wrData := InputBlock(sample, depth), wrEn := true);
      var r := Cycles(s, |sample| + 2, true);
      r.error.None? && r.ticks == |sample| + 2 && IsEmpty(r.state) && FillCount(r.state) == 0
  {
    var s := Initial(count, depth).(wrData := InputBlock(sample, depth), wrEn := true);
    var s1 := ResetOf(Stored(s));
    FirstTickStores(count, depth, sample);
    DrainFrom(s1, sample, 0);
    assert Cycles(s, |sample| + 2, true) == After(Cycles(s1, |sample| + 1, true), 1);
    DrainedEmpty(count, depth, sample);
  }

  /** The first tick of `single_block_rw` stores the input block in block 0
      and leaves the tail there, at cell 0. */
  lemma FirstTickStores(count: nat, depth: nat, sample: seq<int>)
    requires count >= 1 && |sample| < depth
    ensures var s := Initial(count, depth).(wrData := InputBlock(sample, depth), wrEn := true);
      var s1 := ResetOf(Stored(s));
      Step(s, true) == CycleResult(s1, true, None) && s1.blocks[s1.tail] == BlockVal(true, InputBlock(sample, depth), 0)
  {
    var s := Initial(count, depth).(wrData := InputBlock(sample, depth), wrEn := true);
    assert s.blocks[0] == Cleared(depth);
    assert TickRead(s) == Success(s);
    assert Ticked(s) == Success(Stored(s));
  }

  /** Freeing the stored block leaves the buffer empty. */
  lemma DrainedEmpty(count: nat, depth: nat, sample: seq<int>)
    requires count >= 1 && |sample| < depth
    ensures var s := Initial(count, depth).(wrData := InputBlock(sample, depth), wrEn := true);
      IsEmpty(Freed(ResetOf(Stored(s))))
  {
    var s := Initial(count, depth).(wrData := InputBlock(sample, depth), wrEn := true);
    var f := Freed(ResetOf(Stored(s)));
    if count > 1 {
      assert f.blocks[f.tail] == s.blocks[1];
    }
  }

  // ---------------------------------------------------------------------
  // The test context
  // ---------------------------------------------------------------------

  /** What a write to the DUT's `wr_data_i` and `wr_en_i` ports puts
      there. */
  datatype DutInputs = DutInputs(wrData: seq<int>, wrEn: int)

  /** `TestContext` of the block buffer bench: the golden model, the cycle
      counter, the cell width, and the DUT's input ports. */
  class TestContext {
    const gm: BlockBuffer
    const width: nat
    var cycleCount: int

    ghost predicate Valid()
      reads gm, gm.buffer
    {
      gm.Valid()
    }

    constructor(gm: BlockBuffer, width: nat)
      requires gm.Valid()
      ensures Valid() && this.gm == gm && this.width == width && cycleCount == 0
    {
      this.gm := gm;
      this.width := width;
      cycleCount := 0;
    }

    /** `reset_inputs`: all write cells 0 and writing off, on the golden
        model and on the DUT. */
    method ResetInputs() returns (written: DutInputs)
      requires Valid()
      modifies gm
      ensures Valid() && gm.State() == ResetOf(old(gm.State()))
      ensures written == DutInputs(Zeros(gm.depth), 0)
    {
      gm.wrData := Zeros(gm.depth);
      gm.wrEn := false;
      written := DutInputs(Zeros(gm.depth), 0);
    }

    /** `set_input(data_count)`: raises as `InputCheck` says, changing
        nothing; otherwise writes the input block to the golden model in
        order and to the DUT reversed, and enables writing on both. */
    method SetInput(dataCount: int, sample: seq<int>) returns (r: Option<InputError>, written: Option<DutInputs>)
      requires Valid()
      requires 0 <= dataCount <= MaxDataValue(width) ==> IsSample(sample, dataCount, MaxDataValue(width))
      modifies gm
      ensures Valid()
      ensures r == InputCheck(dataCount, gm.depth, width)
      ensures r.Some? ==> gm.State() == old(gm.State()) && written == None
      ensures r.None? ==>
        gm.State() == old(gm.State()).(wrData := InputBlock(sample, gm.depth), wrEn := true) &&
        written == Some(DutInputs(BitConvert.Reversed(InputBlock(sample, gm.depth)), 1))
    {
      if dataCount >= gm.depth {
        return Some(DataCountTooLarge(dataCount, gm.depth)), None;
      }
      var maxDataValue := Pow2(width / 2);
      if dataCount < 0 || dataCount > maxDataValue {
        return Some(SampleSizeInvalid(dataCount, maxDataValue)), None;
      }
      var data := sample + [SequenceTerminator];
      var i := 0;
      while i < gm.depth - dataCount - 1
        invariant 0 <= i <= gm.depth - dataCount - 1
        invariant data == sample + [SequenceTerminator] + Zeros(i)
      {
        data := data + [0];
        i := i + 1;
      }
      gm.wrData := data;
      gm.wrEn := true;
      r, written := None, Some(DutInputs(BitConvert.Reversed(data), 1));
    }

    /** One pass of the loop of `check_output`: a tick of the golden
        model, counted, the debug read of the tail block's current cell,
        then `reset_inputs` when asked. */
    method Cycle(reset: bool, ghost s: BufState) returns (err: Option<CheckError>)
      requires Valid() && s == gm.State()
      modifies this, gm, gm.buffer
      ensures Valid()
      ensures var c := Step(s, reset);
        gm.State() == c.state && err == c.error &&
        cycleCount == old(cycleCount) + (if c.counted then 1 else 0)
    {
      var t := gm.Tick();
      if t.Failure? {
        return Some(TickError(t.error));
      }
      cycleCount := cycleCount + 1;
      var current := gm.buffer[gm.tail];
      if current.index >= |current.data| {
        return Some(IndexOutOfRange(current.index, |current.data|));
      }
      if reset {
        var _ := ResetInputs();
      }
      err := None;
    }

    /** `check_output(cycle_count, reset_inputs)`: `cycle_count` passes
        (none when it is negative), each a counted tick of the golden model
        and the debug read, followed by `reset_inputs` when asked; a pass
        that raises ends it. */
    method CheckOutput(n: int, reset: bool) returns (err: Option<CheckError>)
      requires Valid()
      modifies this, gm, gm.buffer
      ensures Valid()
      ensures var r := Cycles(old(gm.State()), if n < 0 then 0 else n, reset);
        gm.State() == r.state && err == r.error && cycleCount == old(cycleCount) + r.ticks
    {
      ghost var s0 := gm.State();
      var m := if n < 0 then 0 else n;
      var i := 0;
      ghost var cur := s0;
      while i < m
        invariant 0 <= i <= m && Valid() && cur == gm.State()
        invariant cycleCount == old(cycleCount) + i
        invariant Cycles(s0, m, reset) == After(Cycles(cur, m - i, reset), i)
      {
        var e := Cycle(reset, cur);
        if e.Some? {
          CyclesStop(s0, m, i, cur, reset);
          return e;
        }
        CyclesOn(s0, m, i, cur, reset);
        cur := gm.State();
        i := i + 1;
      }
      err := None;
    }
  }
}
