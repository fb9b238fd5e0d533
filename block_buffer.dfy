/** The golden model of the block buffer test bench
    (`tests/test_benches/block_buffer/models.py`): a ring of `G_BLOCK_COUNT`
    blocks of `G_BLOCK_DEPTH` cells. A whole block is written at the head in
    one cycle; the block at the tail is read out one cell per cycle until
    the sequence terminator is read, which frees the block. */
module BlockBuffers {
  import opened Results

  /** `Constants.sequence_terminator`. */
  const SequenceTerminator: int := 0x019C

  /** `n` cells of zero. */
  function Zeros(n: nat): (z: seq<int>)
    ensures |z| == n
    ensures forall i :: 0 <= i < n ==> z[i] == 0
  {
    if n == 0 then [] else Zeros(n - 1) + [0]
  }

  // ---------------------------------------------------------------------
  // Values: the specification the classes below are proved against
  // ---------------------------------------------------------------------

  /** The fields of a `Block`. */
  datatype BlockVal = BlockVal(full: bool, data: seq<int>, index: int)

  /** A block as `clear` leaves it. */
  function Cleared(depth: nat): (b: BlockVal)
    ensures !b.full && b.index == 0 && b.data == Zeros(depth)
  {
    BlockVal(false, Zeros(depth), 0)
  }

  /** The exception `read` raises past the last cell. */
  datatype ReadError = Overflow(index: int, depth: nat)

  /** The shape every block keeps: `depth` cells and a cell index that only
      counts up from 0. */
  ghost predicate BlockOk(b: BlockVal, depth: nat)
  {
    |b.data| == depth && b.index >= 0
  }

  /** `Block.read`: the cell at the index, or the overflow exception once
      the index has reached the depth. */
  function ReadBlock(b: BlockVal, depth: nat): (r: Result<int, ReadError>)
    requires BlockOk(b, depth)
    ensures r.Failure? <==> b.index >= depth
    ensures r.Failure? ==> r.error == Overflow(b.index, depth)
    ensures r.Success? ==> r.value == b.data[b.index]
  {
    if b.index >= depth then Failure(Overflow(b.index, depth)) else Success(b.data[b.index])
  }

  /** A cleared block reads 0, unless it has no cells at all. */
  lemma ReadCleared(depth: nat)
    ensures depth > 0 ==> ReadBlock(Cleared(depth), depth) == Success(0)
    ensures depth == 0 ==> ReadBlock(Cleared(depth), depth).Failure?
  {
  }

  /** The fields of a `BlockBuffer`; the block count is `|blocks|`. */
  datatype BufState = BufState(depth: nat, blocks: seq<BlockVal>, head: int, tail: int, wrData: seq<int>, wrEn: bool)

  /** The shape every buffer keeps. */
  ghost predicate WellFormed(s: BufState)
  {
    |s.blocks| >= 1 && 0 <= s.head < |s.blocks| && 0 <= s.tail < |s.blocks| &&
    |s.wrData| == s.depth &&
    forall i :: 0 <= i < |s.blocks| ==> BlockOk(s.blocks[i], s.depth)
  }

  /** The buffer the constructor builds: every block cleared, both pointers
      at 0, the write port all zeros and disabled. */
  function Initial(count: nat, depth: nat): (s: BufState)
    requires count >= 1
    ensures WellFormed(s) && |s.blocks| == count
  {
    BufState(depth, seq(count, i => Cleared(depth)), 0, 0, Zeros(depth), false)
  }

  /** `incr_head`/`incr_tail`: one step around the ring. */
  function Next(p: int, count: nat): (q: int)
    requires count >= 1
    ensures 0 <= q < count
    ensures 0 <= p < count ==> q == if p + 1 == count then 0 else p + 1
  {
    (p + 1) % count
  }

  /** `get_fill_count`. */
  function FillCount(s: BufState): (n: int)
    requires WellFormed(s)
    ensures 0 <= n <= |s.blocks|
    ensures n == |s.blocks| <==> IsFull(s)
    ensures n == 0 <==> IsEmpty(s)
  {
    var count := |s.blocks|;
    if s.tail > s.head then count - (s.tail - s.head)
    else if s.tail < s.head then s.head - s.tail
    else if s.blocks[s.head].full then count
    else 0
  }

  /** `is_full`. */
  predicate IsFull(s: BufState)
    requires WellFormed(s)
  {
    s.blocks[s.head].full && s.head == s.tail
  }

  /** `is_empty`. */
  predicate IsEmpty(s: BufState)
    requires WellFormed(s)
  {
    !s.blocks[s.tail].full && s.head == s.tail
  }

  /** A buffer is never reported full and empty at once. */
  lemma NotFullAndEmpty(s: BufState)
    requires WellFormed(s)
    ensures !(IsFull(s) && IsEmpty(s))
  {
  }

  /** Reading the terminator: the tail block is cleared and the tail moves
      on. */
  function Freed(s: BufState): (r: BufState)
    requires WellFormed(s)
    ensures WellFormed(r) && r.head == s.head && r.tail == Next(s.tail, |s.blocks|)
    ensures r.blocks == s.blocks[s.tail := Cleared(s.depth)]
  {
    s.(blocks := s.blocks[s.tail := Cleared(s.depth)], tail := Next(s.tail, |s.blocks|))
  }

  /** Reading any other cell of a full block: the block moves on to its
      next cell. */
  function Advanced(s: BufState): (r: BufState)
    requires WellFormed(s)
    ensures WellFormed(r) && r.head == s.head && r.tail == s.tail
    ensures var b := s.blocks[s.tail]; r.blocks == s.blocks[s.tail := b.(index := b.index + 1)]
  {
    var b := s.blocks[s.tail];
    s.(blocks := s.blocks[s.tail := b.(index := b.index + 1)])
  }

  /** Storing the input block: it lands at the head, full, read from
      cell 0, and the head moves on. */
  function Stored(s: BufState): (r: BufState)
    requires WellFormed(s)
    ensures WellFormed(r) && r.tail == s.tail && r.head == Next(s.head, |s.blocks|)
    ensures r.blocks == s.blocks[s.head := BlockVal(true, s.wrData, 0)]
  {
    s.(blocks := s.blocks[s.head := BlockVal(true, s.wrData, 0)], head := Next(s.head, |s.blocks|))
  }

  /** `tick`, read side: `get_rd_data` raises past the end of the tail
      block; reading the terminator frees the tail block, otherwise a full
      tail block moves on to its next cell. */
  function TickRead(s: BufState): (r: Result<BufState, ReadError>)
    requires WellFormed(s)
    ensures r.Failure? <==> s.blocks[s.tail].index >= s.depth
    ensures r.Success? ==>
      WellFormed(r.value) && r.value.head == s.head &&
      r.value.wrData == s.wrData && r.value.wrEn == s.wrEn && |r.value.blocks| == |s.blocks|
  {
    var b := s.blocks[s.tail];
    match ReadBlock(b, s.depth)
    case Failure(e) => Failure(e)
    case Success(cell) =>
      if cell == SequenceTerminator then Success(Freed(s))
      else if b.full then Success(Advanced(s))
      else Success(s)
  }

  /** `tick`, write side: the input block is stored at the head only when
      writing is enabled and the head block is free; it is then full, read
      from cell 0, and the head moves on. */
  function TickWrite(s: BufState): (r: BufState)
    requires WellFormed(s)
    ensures WellFormed(r) && r.tail == s.tail && |r.blocks| == |s.blocks|
  {
    if s.wrEn && !s.blocks[s.head].full then Stored(s)
    else
      s
  }

  /** `tick`: the read side, then the write side. It raises exactly when
      the tail block is read past its last cell, and then changes nothing. */
  function Ticked(s: BufState): (r: Result<BufState, ReadError>)
    requires WellFormed(s)
    ensures r.Failure? <==> s.blocks[s.tail].index >= s.depth
    ensures r.Success? ==> WellFormed(r.value) && |r.value.blocks| == |s.blocks| && r.value.depth == s.depth
  {
    match TickRead(s)
    case Failure(e) => Failure(e)
    case Success(t) => Success(TickWrite(t))
  }

  // ---------------------------------------------------------------------
  // The ring invariant
  // ---------------------------------------------------------------------

  /** How far block `i` lies after the tail, going round the ring. */
  function Dist(i: int, tail: int, count: int): (d: int)
    requires 0 <= i < count && 0 <= tail < count
    ensures 0 <= d < count
    ensures d == 0 <==> i == tail
  {
    if i >= tail then i - tail else i - tail + count
  }

  /** The fill count tells which blocks hold data: exactly the `FillCount`
      blocks from the tail onwards are full, and a block that is not full
      is cleared. */
  ghost predicate Ring(s: BufState)
  {
    WellFormed(s) &&
    (forall i :: 0 <= i < |s.blocks| ==> (s.blocks[i].full <==> Dist(i, s.tail, |s.blocks|) < FillCount(s))) &&
    (forall i :: 0 <= i < |s.blocks| && !s.blocks[i].full ==> s.blocks[i] == Cleared(s.depth))
  }

  /** The constructor establishes the ring invariant. */
  lemma InitialRing(count: nat, depth: nat)
    requires count >= 1
    ensures Ring(Initial(count, depth))
  {
  }

  /** Under the ring invariant "full" means every block holds data and
      "empty" means none does. */
  lemma RingFullEmpty(s: BufState)
    requires Ring(s)
    ensures IsFull(s) <==> forall i :: 0 <= i < |s.blocks| ==> s.blocks[i].full
    ensures IsEmpty(s) <==> forall i :: 0 <= i < |s.blocks| ==> !s.blocks[i].full
  {
    if !IsEmpty(s) {
      assert s.blocks[s.tail].full by {
        assert Dist(s.tail, s.tail, |s.blocks|) == 0;
      }
    }
    if !IsFull(s) {
      var h := s.head;
      if h == s.tail {
        assert !s.blocks[h].full;
      } else {
        assert Dist(h, s.tail, |s.blocks|) == FillCount(s);
        assert !s.blocks[h].full;
      }
    }
  }

  /** The head block lies `FillCount` blocks after the tail (modulo the
      block count). */
  lemma HeadDist(s: BufState)
    requires WellFormed(s)
    ensures FillCount(s) < |s.blocks| ==> Dist(s.head, s.tail, |s.blocks|) == FillCount(s)
    ensures FillCount(s) == |s.blocks| ==> s.head == s.tail
  {
  }

  /** Reading the terminator is only possible from a full block: a free
      block is cleared and its cells are 0. */
  lemma TerminatorOnlyInFullBlock(s: BufState)
    requires Ring(s)
    requires TickRead(s).Success? && s.blocks[s.tail].data[s.blocks[s.tail].index] == SequenceTerminator
    ensures s.blocks[s.tail].full
  {
  }

  /** Freeing a full tail block and moving the tail on keeps the ring
      invariant: one block fewer holds data. */
  lemma FreeKeepsRing(s: BufState)
    requires Ring(s) && s.blocks[s.tail].full
    ensures Ring(Freed(s))
  {
    var r := Freed(s);
    var count := |s.blocks|;
    assert Dist(s.tail, s.tail, count) == 0;
    var fill := FillCount(s);
    HeadDist(s);
    assert FillCount(r) == fill - 1;
    forall i | 0 <= i < count
      ensures r.blocks[i].full <==> Dist(i, r.tail, count) < FillCount(r)
    {
      if i != s.tail {
        assert Dist(i, r.tail, count) == Dist(i, s.tail, count) - 1;
      }
    }
  }

  /** The read side keeps the ring invariant. */
  lemma TickReadKeepsRing(s: BufState)
    requires Ring(s) && TickRead(s).Success?
    ensures Ring(TickRead(s).value)
  {
    var b := s.blocks[s.tail];
    if b.data[b.index] == SequenceTerminator {
      TerminatorOnlyInFullBlock(s);
      FreeKeepsRing(s);
    }
  }

  /** The write side keeps the ring invariant. */
  lemma TickWriteKeepsRing(s: BufState)
    requires Ring(s)
    ensures Ring(TickWrite(s))
  {
    var count := |s.blocks|;
    if s.wrEn && !s.blocks[s.head].full {
      var r := TickWrite(s);
      var fill := FillCount(s);
      HeadDist(s);
      assert fill < count;
      assert FillCount(r) == fill + 1 by {
        if fill > 0 {
          assert Dist(s.tail, s.tail, count) == 0;
        }
      }
      forall i | 0 <= i < count
        ensures r.blocks[i].full <==> Dist(i, r.tail, count) < FillCount(r)
      {
      }
    }
  }

  /** A tick that does not raise keeps the ring invariant. */
  lemma TickKeepsRing(s: BufState)
    requires Ring(s) && Ticked(s).Success?
    ensures Ring(Ticked(s).value)
  {
    TickReadKeepsRing(s);
    TickWriteKeepsRing(TickRead(s).value);
  }

  /** A full block other than the one being read is never touched, so no
      block that still holds data is overwritten. */
  lemma TickNeverOverwritesFull(s: BufState, i: int)
    requires Ring(s) && Ticked(s).Success?
    requires 0 <= i < |s.blocks| && i != s.tail && s.blocks[i].full
    ensures Ticked(s).value.blocks[i] == s.blocks[i]
  {
    var r := TickRead(s).value;
    TickReadKeepsRing(s);
    assert r.blocks[i] == s.blocks[i];
    if s.wrEn && r.head == i {
      assert r.blocks[r.head].full;
    }
  }

  /** The input block is taken exactly when writing is enabled and the
      head block is free after the read side; it then sits at the old head,
      full, read from cell 0. */
  lemma TickWrites(s: BufState)
    requires WellFormed(s) && Ticked(s).Success?
    ensures var r := TickRead(s).value;
      var t := Ticked(s).value;
      (s.wrEn && !r.blocks[r.head].full ==>
        t.blocks[r.head] == BlockVal(true, s.wrData, 0) && t.head == Next(r.head, |s.blocks|)) &&
      (!(s.wrEn && !r.blocks[r.head].full) ==> t == r)
  {
  }

  /** A full tail block read at its last cell without finding the
      terminator makes the following tick raise. */
  lemma OverrunRaises(s: BufState)
    requires Ring(s) && s.depth >= 1
    requires s.blocks[s.tail].full && s.blocks[s.tail].index == s.depth - 1
    requires s.blocks[s.tail].data[s.depth - 1] != SequenceTerminator
    ensures Ticked(s).Success? && Ticked(Ticked(s).value).Failure?
  {
    var r := TickRead(s).value;
    assert r.tail == s.tail && r.blocks[s.tail].index == s.depth;
    if s.wrEn && !r.blocks[r.head].full {
      assert r.head != s.tail;
    }
  }

  /** Replacing one block by a block of the same shape keeps the buffer
      well formed, whichever block either pointer then designates. */
  lemma PutKeepsWellFormed(s: BufState, k: int, v: BlockVal, h: int, t: int)
    requires WellFormed(s) && 0 <= k < |s.blocks| && BlockOk(v, s.depth)
    requires 0 <= h < |s.blocks| && 0 <= t < |s.blocks|
    ensures WellFormed(s.(blocks := s.blocks[k := v], head := h, tail := t))
  {
  }

  // ---------------------------------------------------------------------
  // The classes
  // ---------------------------------------------------------------------

  /** `Block`: a block of cells, whether it holds data, and the cell being
      read. */
  class Block {
    const depth: nat
    var full: bool
    var data: seq<int>
    var index: int

    function Val(): BlockVal
      reads this
    {
      BlockVal(full, data, index)
    }

    constructor(depth: nat)
      ensures this.depth == depth && Val() == Cleared(depth)
    {
      this.depth := depth;
      full := false;
      data := Zeros(depth);
      index := 0;
    }

    /** `read`. */
    method Read() returns (r: Result<int, ReadError>)
      requires BlockOk(Val(), depth)
      ensures r == ReadBlock(Val(), depth)
    {
      if index >= depth {
        return Failure(Overflow(index, depth));
      }
      r := Success(data[index]);
    }

    /** `clear`. */
    method Clear()
      modifies this
      ensures Val() == Cleared(depth)
    {
      full := false;
      data := Zeros(depth);
      index := 0;
    }
  }

  /** The values of a list of blocks. */
  function Vals(bs: seq<Block>): (vs: seq<BlockVal>)
    reads bs
    ensures |vs| == |bs|
    ensures forall i :: 0 <= i < |bs| ==> vs[i] == bs[i].Val()
  {
    if bs == [] then [] else Vals(bs[..|bs| - 1]) + [bs[|bs| - 1].Val()]
  }

  /** No block object appears twice. */
  ghost predicate Distinct(bs: seq<Block>)
  {
    forall i, j :: 0 <= i < j < |bs| ==> bs[i] != bs[j]
  }

  /** Every block has `depth` cells. */
  ghost predicate AllOfDepth(bs: seq<Block>, depth: nat)
  {
    forall i :: 0 <= i < |bs| ==> bs[i].depth == depth
  }

  /** `BlockBuffer`. */
  class BlockBuffer {
    const depth: nat
    const buffer: seq<Block>
    var head: int
    var tail: int
    var wrData: seq<int>
    var wrEn: bool

    function State(): BufState
      reads this, buffer
    {
      BufState(depth, Vals(buffer), head, tail, wrData, wrEn)
    }

    /** Distinct block objects of this depth, in a well-formed state. */
    ghost predicate Valid()
      reads this, buffer
    {
      Distinct(buffer) && AllOfDepth(buffer, depth) && WellFormed(State())
    }

    constructor(count: nat, depth: nat)
      requires count >= 1
      ensures Valid() && State() == Initial(count, depth)
      ensures forall i :: 0 <= i < |buffer| ==> fresh(buffer[i])
    {
      var bs: seq<Block> := [];
      while |bs| < count
        invariant |bs| <= count
        invariant forall i :: 0 <= i < |bs| ==> fresh(bs[i]) && bs[i].depth == depth && bs[i].Val() == Cleared(depth)
        invariant forall i, j :: 0 <= i < j < |bs| ==> bs[i] != bs[j]
      {
        var b := new Block(depth);
        bs := bs + [b];
      }
      this.depth := depth;
      buffer := bs;
      head := 0;
      tail := 0;
      wrData := Zeros(depth);
      wrEn := false;
      new;
      assert Vals(buffer) == seq(count, i => Cleared(depth));
    }

    /** `incr_head`. */
    method IncrHead()
      requires Valid()
      modifies this
      ensures Valid() && State() == old(State()).(head := Next(old(head), |buffer|))
    {
      head := (head + 1) % |buffer|;
    }

    /** `incr_tail`. */
    method IncrTail()
      requires Valid()
      modifies this
      ensures Valid() && State() == old(State()).(tail := Next(old(tail), |buffer|))
    {
      tail := (tail + 1) % |buffer|;
    }

    /** `get_fill_count`. */
    method GetFillCount() returns (n: int)
      requires Valid()
      ensures n == FillCount(State())
    {
      if tail > head {
        n := |buffer| - (tail - head);
      } else if tail < head {
        n := head - tail;
      } else if buffer[head].full {
        n := |buffer|;
      } else {
        n := 0;
      }
    }

    /** `is_full`. */
    method GetIsFull() returns (full: bool)
      requires Valid()
      ensures full == IsFull(State())
    {
      full := buffer[head].full && head == tail;
    }

    /** `is_empty`. */
    method GetIsEmpty() returns (empty: bool)
      requires Valid()
      ensures empty == IsEmpty(State())
    {
      empty := !buffer[tail].full && head == tail;
    }

    /** `get_rd_valid`: the tail block holds data. */
    method GetRdValid() returns (valid: bool)
      requires Valid()
      ensures valid == State().blocks[tail].full
    {
      valid := buffer[tail].full;
    }

    /** `get_rd_data`: the tail block's current cell. */
    method GetRdData() returns (r: Result<int, ReadError>)
      requires Valid()
      ensures r == ReadBlock(State().blocks[tail], depth)
    {
      r := buffer[tail].Read();
    }

    /** `tick`. On the exception nothing has changed. */
    method Tick() returns (r: Result<(), ReadError>)
      requires Valid()
      modifies this, buffer
      ensures Valid()
      ensures r.Failure? <==> Ticked(old(State())).Failure?
      ensures r.Failure? ==> r.error == Ticked(old(State())).error && State() == old(State())
      ensures r.Success? ==> State() == Ticked(old(State())).value
    {
      r := ReadSide();
      if r.Success? {
        WriteSide();
      }
    }

    /** The read side of `tick`. */
    method ReadSide() returns (r: Result<(), ReadError>)
      requires Valid()
      modifies this, buffer
      ensures Valid()
      ensures r.Failure? <==> TickRead(old(State())).Failure?
      ensures r.Failure? ==> r.error == TickRead(old(State())).error && State() == old(State())
      ensures r.Success? ==> State() == TickRead(old(State())).value
    {
      ghost var s := State();
      var cell := GetRdData();
      if cell.Failure? {
        return Failure(cell.error);
      }
      if cell.value == SequenceTerminator {
        FreeTail();
      } else if buffer[tail].full {
        NextCell();
      }
      r := Success(());
    }

    /** The tail block is cleared and the tail moves on. */
    method FreeTail()
      requires Valid()
      modifies this, buffer
      ensures Valid()
      ensures State() == Freed(old(State()))
    {
      ghost var s := State();
      buffer[tail].Clear();
      ValsAfter(s.blocks, s.tail, Cleared(depth));
      PutKeepsWellFormed(s, s.tail, Cleared(depth), s.head, s.tail);
      assert State() == s.(blocks := s.blocks[s.tail := Cleared(depth)]);
      IncrTail();
      assert State() == Freed(s);
    }

    /** The tail block moves on to its next cell. */
    method NextCell()
      requires Valid()
      modifies buffer
      ensures Valid()
      ensures State() == Advanced(old(State()))
    {
      ghost var s := State();
      ghost var b := s.blocks[tail];
      buffer[tail].index := buffer[tail].index + 1;
      ValsAfter(s.blocks, tail, b.(index := b.index + 1));
      PutKeepsWellFormed(s, tail, b.(index := b.index + 1), head, tail);
      assert State() == Advanced(s);
    }

    /** The write side of `tick`. */
    method WriteSide()
      requires Valid()
      modifies this, buffer
      ensures Valid() && State() == TickWrite(old(State()))
    {
      if wrEn && !buffer[head].full {
        StoreInput();
      }
    }

    /** The input block is stored at the head, full, and the head moves on. */
    method StoreInput()
      requires Valid()
      modifies this, buffer
      ensures Valid()
      ensures State() == Stored(old(State()))
    {
      ghost var s := State();
      ghost var v := BlockVal(true, wrData, 0);
      var h := buffer[head];
      h.data := wrData;
      h.full := true;
      h.index := 0;
      ValsAfter(s.blocks, s.head, v);
      PutKeepsWellFormed(s, s.head, v, s.head, s.tail);
      assert State() == s.(blocks := s.blocks[s.head := v]);
      IncrHead();
      assert State() == Stored(s);
    }

    /** Only block `k` changed, to `v`: the values are the old ones with `v`
        at `k`. */
    lemma ValsAfter(old_: seq<BlockVal>, k: int, v: BlockVal)
      requires |old_| == |buffer| && 0 <= k < |buffer|
      requires buffer[k].Val() == v
      requires Distinct(buffer)
      requires forall i :: 0 <= i < |buffer| && i != k ==> buffer[i].Val() == old_[i]
      ensures Vals(buffer) == old_[k := v]
    {
    }
  }
}
