/** `cocotb_wrapper/convert.py`: integers to bit arrays and back, and
    integers to lists of fixed-width chunks and back. Python integers are
    unbounded two's complement, so `x >> n & 1` is `(x / 2^n) % 2` with
    Euclidean (floor) division, for negative `x` too. Widths, chunk sizes,
    counts and repeat counts are Python integers, negative ones included. */
module BitConvert {
  import opened Results
  import opened Arith

  /** Why a conversion raises: `range` with step 0 (`ValueError`), `len`
      of a `reversed` iterator (`TypeError`), or a mask `2**chunk_size - 1`
      that is a float for a negative chunk size, which `&` refuses
      (`TypeError`). */
  datatype CodecError = ZeroChunkSize | NoLengthOfReversed | NegativeChunkSize

  /** `x >> i & 1`. */
  function Bit(x: int, i: nat): (b: nat)
    ensures b < 2
  {
    (x / Pow2(i)) % 2
  }

  /** The elements of `s` in the opposite order. */
  function Reversed<T>(s: seq<T>): (r: seq<T>)
    ensures |r| == |s|
    ensures forall i :: 0 <= i < |s| ==> r[i] == s[|s| - 1 - i]
  {
    seq(|s|, i requires 0 <= i < |s| => s[|s| - 1 - i])
  }

  /** `[b for b in bits for i in range(n)]`: each element `n` times in a row. */
  function Repeat<T>(s: seq<T>, n: nat): (r: seq<T>)
    ensures |r| == |s| * n
  {
    if s == [] then []
    else
      assert |s| * n == n + (|s| - 1) * n;
      seq(n, _ => s[0]) + Repeat(s[1..], n)
  }

  /** Copy `j` of element `i` sits at index `i * n + j`. */
  lemma {:induction false} RepeatIndex<T>(s: seq<T>, n: nat, i: nat, j: nat)
    requires i < |s| && j < n
    ensures i * n + j < |s| * n
    ensures Repeat(s, n)[i * n + j] == s[i]
  {
    if i > 0 {
      RepeatIndex(s[1..], n, i - 1, j);
      assert i * n + j == n + ((i - 1) * n + j);
      assert |s| * n == n + (|s| - 1) * n;
    }
  }

  /** Repeating once changes nothing. */
  lemma {:induction false} RepeatOnce<T>(s: seq<T>)
    ensures Repeat(s, 1) == s
  {
    if s != [] {
      RepeatOnce(s[1..]);
      assert s == [s[0]] + s[1..];
    }
  }

  /** `bits` of `to_bit_array` before repetition: bit `i` of `data` at index
      `i` LSB first, at index `width - 1 - i` MSB first. */
  function BitList(data: int, width: nat, msbFirst: bool): (bits: seq<nat>)
    ensures |bits| == width
    ensures forall i :: 0 <= i < width ==> bits[i] == 0 || bits[i] == 1
  {
    seq(width, i requires 0 <= i < width => Bit(data, if msbFirst then width - 1 - i else i))
  }

  /** `to_bit_array(data, width, msb_first, repeat_count)`: a negative width
      or repeat count leaves its `range` empty. */
  function ToBitArray(data: int, width: int, msbFirst: bool, repeatCount: int): (bits: seq<nat>)
    ensures width <= 0 || repeatCount <= 0 ==> bits == []
    ensures width >= 0 && repeatCount >= 0 ==> |bits| == width * repeatCount
    ensures width >= 0 && repeatCount == 1 ==> bits == BitList(data, width, msbFirst)
  {
    var w: nat := if width < 0 then 0 else width;
    var n: nat := if repeatCount < 0 then 0 else repeatCount;
    RepeatOnce(BitList(data, w, msbFirst));
    Repeat(BitList(data, w, msbFirst), n)
  }

  /** The MSB-first array is the LSB-first array reversed. */
  lemma ToBitArrayMsbIsReversed(data: int, width: nat)
    ensures ToBitArray(data, width, true, 1) == Reversed(ToBitArray(data, width, false, 1))
  {
  }

  /** Each bit appears `repeatCount` times in a row: copy `j` of bit `i`. */
  lemma ToBitArrayRepeats(data: int, width: nat, msbFirst: bool, repeatCount: nat, i: nat, j: nat)
    requires i < width && j < repeatCount
    ensures i * repeatCount + j < width * repeatCount
    ensures ToBitArray(data, width, msbFirst, repeatCount)[i * repeatCount + j] ==
      Bit(data, if msbFirst then width - 1 - i else i)
  {
    RepeatIndex(BitList(data, width, msbFirst), repeatCount, i, j);
  }

  /** The LSB-first value of a bit array: element `i` has weight `2^i` and
      only its lowest bit counts (`data[i] & 1`). */
  function LsbValue(data: seq<int>): (v: nat)
    ensures v < Pow2(|data|)
  {
    if data == [] then 0
    else LsbValue(data[..|data| - 1]) + (data[|data| - 1] % 2) * Pow2(|data| - 1)
  }

  /** The MSB-first value: element `i` has weight `2^(len - 1 - i)`. */
  function MsbValue(data: seq<int>): (v: nat)
    ensures v < Pow2(|data|)
  {
    if data == [] then 0
    else MsbValue(data[..|data| - 1]) * 2 + data[|data| - 1] % 2
  }

  /** How far `to_int` shifts its result left: by `width - len(data)` when
      that is positive, otherwise not at all. */
  function Padding(length: nat, width: Option<int>): (shift: nat)
    ensures shift > 0 <==> width.Some? && width.value > length
    ensures shift > 0 ==> length + shift == width.value
  {
    if width.Some? && width.value > length then width.value - length else 0
  }

  /** What `to_int(data, width, msb_first)` returns. */
  function BitsValue(data: seq<int>, width: Option<int>, msbFirst: bool): (v: nat)
    ensures v < Pow2(|data| + Padding(|data|, width))
  {
    var v := if msbFirst then MsbValue(data) else LsbValue(data);
    var pad := Padding(|data|, width);
    ShiftedBound(v, |data|, pad);
    v * Pow2(pad)
  }

  /** Shifting a value of `n` bits left by `k` gives a value of `n + k` bits. */
  lemma ShiftedBound(v: nat, n: nat, k: nat)
    requires v < Pow2(n)
    ensures 0 <= v * Pow2(k) < Pow2(n + k)
  {
    Pow2Add(n, k);
    MulLess(v, Pow2(n), Pow2(k));
  }

  /** `to_int(data, width, msb_first)`: the weighted sum of the lowest bits,
      then the left shift that pads the value to `width` bits. */
  method ToInt(data: seq<int>, width: Option<int>, msbFirst: bool) returns (val: nat)
    ensures val == BitsValue(data, width, msbFirst)
  {
    val := 0;
    var n := |data|;
    for i := 0 to n
      invariant val == PartialValue(data, i, msbFirst)
    {
      var b := data[i] % 2;
      PartialValueStep(data, i, msbFirst);
      if msbFirst {
        val := val + b * Pow2(n - 1 - i);
      } else {
        val := val + b * Pow2(i);
      }
    }
    assert data[..n] == data;
    if width.Some? && width.value > n {
      val := val * Pow2(width.value - n);
    }
  }

  /** What `to_int` has summed after the first `i` elements. */
  ghost function PartialValue(data: seq<int>, i: nat, msbFirst: bool): int
    requires i <= |data|
  {
    if msbFirst then MsbValue(data[..i]) * Pow2(|data| - i) else LsbValue(data[..i])
  }

  /** Element `i` adds its lowest bit at its weight. */
  lemma PartialValueStep(data: seq<int>, i: nat, msbFirst: bool)
    requires i < |data|
    ensures PartialValue(data, i + 1, msbFirst) ==
      PartialValue(data, i, msbFirst) + (data[i] % 2) * Pow2(if msbFirst then |data| - 1 - i else i)
  {
    assert data[..i + 1][..i] == data[..i];
    if msbFirst {
      MsbStep(MsbValue(data[..i]), data[i] % 2, Pow2(|data| - 1 - i));
    }
  }

  /** One more MSB-first element: the bits so far move up one place. */
  lemma MsbStep(m: int, b: int, p: int)
    ensures m * (2 * p) + b * p == (m * 2 + b) * p
  {
  }

  /** Only the lowest bit of each element matters. */
  lemma {:induction false} ValuesUseLowestBit(a: seq<int>, b: seq<int>)
    requires |a| == |b| && forall i :: 0 <= i < |a| ==> a[i] % 2 == b[i] % 2
    ensures LsbValue(a) == LsbValue(b) && MsbValue(a) == MsbValue(b)
  {
    if a != [] {
      ValuesUseLowestBit(a[..|a| - 1], b[..|b| - 1]);
    }
  }

  /** The last element of a non-empty array is its most significant bit. */
  lemma LsbValueUnfold(s: seq<int>)
    requires s != []
    ensures LsbValue(s) == LsbValue(s[..|s| - 1]) + (s[|s| - 1] % 2) * Pow2(|s| - 1)
  {
  }

  /** The last element of a non-empty array is its least significant bit. */
  lemma MsbValueUnfold(s: seq<int>)
    requires s != []
    ensures MsbValue(s) == MsbValue(s[..|s| - 1]) * 2 + s[|s| - 1] % 2
  {
  }

  /** `x mod 2^w` is `x mod 2^(w - 1)` plus bit `w - 1` in its place. */
  lemma TopBitStep(x: int, w: nat)
    requires w > 0
    ensures x % Pow2(w - 1) + Bit(x, w - 1) * Pow2(w - 1) == x % Pow2(w)
  {
    LowDigitStep(x, Pow2(w - 1), x % Pow2(w - 1), Bit(x, w - 1));
  }

  /** `x mod 2^w` is `(x / 2) mod 2^(w - 1)` moved up one place, plus the
      parity of `x`. */
  lemma BottomBitStep(x: int, w: nat)
    requires w > 0
    ensures ((x / 2) % Pow2(w - 1)) * 2 + x % 2 == x % Pow2(w)
  {
    HighDigitStep(x, Pow2(w - 1), (x / 2) % Pow2(w - 1), x % 2);
  }

  /** Zero bits read as `x mod 1`, which is 0. */
  lemma NoBits(x: int, msbFirst: bool)
    ensures LsbValue(BitList(x, 0, msbFirst)) == x % Pow2(0)
    ensures MsbValue(BitList(x, 0, msbFirst)) == x % Pow2(0)
  {
    assert BitList(x, 0, msbFirst) == [];
    ModOne(x);
  }

  /** Reading the LSB-first bits of `x` gives `x mod 2^w`. */
  lemma {:induction false} LsbRoundTrip(x: int, w: nat)
    ensures LsbValue(BitList(x, w, false)) == x % Pow2(w)
  {
    if w > 0 {
      LsbRoundTrip(x, w - 1);
      LsbBitListStep(x, w);
      TopBitStep(x, w);
    } else {
      NoBits(x, false);
    }
  }

  /** The LSB-first bits of width `w` are those of width `w - 1` plus bit
      `w - 1` on top. */
  lemma LsbBitListStep(x: int, w: nat)
    requires w > 0
    ensures LsbValue(BitList(x, w, false)) == LsbValue(BitList(x, w - 1, false)) + Bit(x, w - 1) * Pow2(w - 1)
  {
    var bits := BitList(x, w, false);
    var b := bits[w - 1];
    assert bits[..w - 1] == BitList(x, w - 1, false);
    assert b % 2 == Bit(x, w - 1);
    LsbValueUnfold(bits);
    assert LsbValue(bits) == LsbValue(bits[..w - 1]) + (b % 2) * Pow2(w - 1);
  }

  /** Bit 0 is the parity. */
  lemma BitZero(x: int)
    ensures Bit(x, 0) == x % 2
  {
    assert Pow2(0) == 1;
    DivModUnique(x, 1, x, 0);
  }

  /** Bit `i + 1` of `x` is bit `i` of `x / 2`. */
  lemma BitOfHalf(x: int, i: nat)
    ensures Bit(x, i + 1) == Bit(x / 2, i)
  {
    DivModSplit(x, 2, Pow2(i));
  }

  /** Reading the MSB-first bits of `x` gives `x mod 2^w`. */
  lemma {:induction false} MsbRoundTrip(x: int, w: nat)
    ensures MsbValue(BitList(x, w, true)) == x % Pow2(w)
    decreases w
  {
    if w > 0 {
      MsbRoundTrip(x / 2, w - 1);
      MsbBitListStep(x, w);
      BottomBitStep(x, w);
    } else {
      NoBits(x, true);
    }
  }

  /** The MSB-first bits of `x` of width `w` are those of `x / 2` of width
      `w - 1` followed by the parity of `x`. */
  lemma MsbBitListStep(x: int, w: nat)
    requires w > 0
    ensures MsbValue(BitList(x, w, true)) == MsbValue(BitList(x / 2, w - 1, true)) * 2 + x % 2
  {
    var bits := BitList(x, w, true);
    var upper := BitList(x / 2, w - 1, true);
    forall i | 0 <= i < w - 1
      ensures bits[i] == upper[i]
    {
      BitOfHalf(x, w - 2 - i);
    }
    assert bits[..w - 1] == upper;
    var b := bits[w - 1];
    assert b == x % 2 by {
      BitZero(x);
    }
    ModOfMod(x, 2);
    assert b % 2 == x % 2;
    MsbValueUnfold(bits);
  }

  /** `to_int(to_bit_array(x, w, m), w, m) == x mod 2^w` for both orders. */
  lemma BitArrayRoundTrip(x: int, w: nat, msbFirst: bool)
    ensures BitsValue(ToBitArray(x, w, msbFirst, 1), Some(w), msbFirst) == x % Pow2(w)
  {
    RepeatOnce(BitList(x, w, msbFirst));
    if msbFirst {
      MsbRoundTrip(x, w);
    } else {
      LsbRoundTrip(x, w);
    }
  }

  /** A `width` beyond the data length shifts even an LSB-first value left,
      so a short LSB-first array does not read as if zero-padded. */
  lemma ShortLsbArrayIsShifted()
    ensures BitsValue([1], Some(4), false) == 8
    ensures BitsValue([1, 0, 0, 0], Some(4), false) == 1
  {
    assert [1, 0, 0, 0][..3] == [1, 0, 0];
    assert [1, 0, 0][..2] == [1, 0];
    assert [1, 0][..1] == [1];
  }

  /** The chunks `to_ints` reads: consecutive slices of `chunkSize`
      elements, the last possibly shorter, each read by `to_int` with width
      `chunkSize`. */
  function Chunks(data: seq<int>, chunkSize: nat, msbFirst: bool): (chunks: seq<nat>)
    requires chunkSize > 0
    ensures |chunks| == (|data| + chunkSize - 1) / chunkSize
    ensures forall k :: 0 <= k < |chunks| ==> chunks[k] < Pow2(chunkSize)
    decreases |data|
  {
    if data == [] then
      []
    else
      var cut := if |data| < chunkSize then |data| else chunkSize;
      var first := BitsValue(data[..cut], Some(chunkSize), msbFirst);
      var rest := Chunks(data[cut..], chunkSize, msbFirst);
      CeilStep(|data|, chunkSize);
      [first] + rest
  }

  /** Taking one slice of at most `d` elements off `n > 0` elements leaves
      one chunk fewer, counting a short last slice as a chunk. */
  lemma CeilStep(n: nat, d: nat)
    requires n > 0 && d > 0
    ensures (n + d - 1) / d == 1 + ((n - (if n < d then n else d)) + d - 1) / d
  {
    if n < d {
      DivModUnique(n + d - 1, d, 1, n - 1);
      DivModUnique(d - 1, d, 0, d - 1);
    } else {
      DivModUnique(n + d - 1, d, (n - 1) / d + 1, (n - 1) % d);
      DivModUnique(n - 1, d, (n - 1) / d, (n - 1) % d);
    }
  }

  /** The chunks from `i` on are the slice up to `end` followed by the
      chunks from `end` on. */
  lemma ChunksStep(data: seq<int>, chunkSize: nat, msbFirst: bool, i: nat, end: nat)
    requires chunkSize > 0 && i < |data| && end == if |data| < i + chunkSize then |data| else i + chunkSize
    ensures Chunks(data[i..], chunkSize, msbFirst) ==
      [BitsValue(data[i..end], Some(chunkSize), msbFirst)] + Chunks(data[end..], chunkSize, msbFirst)
  {
    var tail := data[i..];
    assert tail[..end - i] == data[i..end];
    assert tail[end - i..] == data[end..];
  }

  /** The loop of `to_ints` keeps the chunks found so far followed by the
      chunks of the rest equal to all chunks. */
  lemma ChunksLoopStep(data: seq<int>, chunkSize: nat, msbFirst: bool, i: nat, end: nat, chunks: seq<nat>)
    requires chunkSize > 0 && i < |data| && end == if |data| < i + chunkSize then |data| else i + chunkSize
    requires chunks + Chunks(data[i..], chunkSize, msbFirst) == Chunks(data, chunkSize, msbFirst)
    ensures (chunks + [BitsValue(data[i..end], Some(chunkSize), msbFirst)]) + Chunks(data[end..], chunkSize, msbFirst) ==
      Chunks(data, chunkSize, msbFirst)
  {
    ChunksStep(data, chunkSize, msbFirst, i, end);
  }

  /** `to_ints(data, chunk_size, msb_first)`: `to_int` of each consecutive
      slice; a step of zero makes `range` raise, and a negative step leaves
      it empty. */
  method ToInts(data: seq<int>, chunkSize: int, msbFirst: bool) returns (r: Result<seq<nat>, CodecError>)
    ensures chunkSize == 0 <==> r == Failure(ZeroChunkSize)
    ensures chunkSize < 0 ==> r == Success([])
    ensures chunkSize > 0 ==> r == Success(Chunks(data, chunkSize, msbFirst))
  {
    if chunkSize == 0 {
      return Failure(ZeroChunkSize);
    }
    if chunkSize < 0 {
      return Success([]);
    }
    var chunks: seq<nat> := [];
    var i := 0;
    while i < |data|
      invariant 0 <= i <= |data|
      invariant chunks + Chunks(data[i..], chunkSize, msbFirst) == Chunks(data, chunkSize, msbFirst)
      decreases |data| - i
    {
      var end := if |data| < i + chunkSize then |data| else i + chunkSize;
      var v := ToInt(data[i..end], Some(chunkSize), msbFirst);
      ChunksLoopStep(data, chunkSize, msbFirst, i, end, chunks);
      chunks := chunks + [v];
      i := end;
    }
    assert data[i..] == [];
    assert chunks == Chunks(data, chunkSize, msbFirst);
    return Success(chunks);
  }

  /** The chunks `split` computes: chunk `i` is bits `i * chunkSize` up to
      `(i + 1) * chunkSize` of `data`, least significant chunk first. */
  function SplitChunks(data: int, chunkSize: nat, chunkCount: nat): (chunks: seq<int>)
    ensures |chunks| == chunkCount
    ensures forall i :: 0 <= i < chunkCount ==> 0 <= chunks[i] < Pow2(chunkSize)
  {
    seq(chunkCount, i requires 0 <= i < chunkCount => (data / Pow2(i * chunkSize)) % Pow2(chunkSize))
  }

  /** Shifting right by `a + b` bits is shifting by `a`, then by `b`. */
  lemma ShiftTwice(x: int, a: nat, b: nat)
    ensures x / Pow2(a + b) == (x / Pow2(a)) / Pow2(b)
  {
    Pow2Add(a, b);
    DivModSplit(x, Pow2(a), Pow2(b));
  }

  /** The LSB-first bits of `x` past the first `a` are the bits of `x >> a`,
      and the first `a` are the bits of width `a`. */
  lemma BitListShifted(x: int, a: nat, w: nat)
    ensures BitList(x, a + w, false)[a..] == BitList(x / Pow2(a), w, false)
    ensures BitList(x, a + w, false)[..a] == BitList(x, a, false)
  {
    var bits, high := BitList(x, a + w, false), BitList(x / Pow2(a), w, false);
    forall j | 0 <= j < w
      ensures bits[a + j] == high[j]
    {
      ShiftTwice(x, a, j);
    }
    assert bits[a..] == high;
  }

  /** `split` takes the lowest chunk first, then splits what is above it. */
  lemma SplitChunksLowest(x: int, cs: nat, n: nat)
    requires n > 0
    ensures SplitChunks(x, cs, n) == [x % Pow2(cs)] + SplitChunks(x / Pow2(cs), cs, n - 1)
  {
    var s, t := SplitChunks(x, cs, n), SplitChunks(x / Pow2(cs), cs, n - 1);
    assert s[0] == x % Pow2(cs) by {
      assert 0 * cs == 0 && x / Pow2(0) == x;
    }
    forall i | 0 <= i < n - 1
      ensures s[i + 1] == t[i]
    {
      assert (i + 1) * cs == cs + i * cs;
      ShiftTwice(x, cs, i * cs);
    }
    assert s == [s[0]] + t;
  }

  /** A bit array of at least `cs` bits is read as the LSB-first value of
      its first `cs` bits, then chunk by chunk after them. */
  lemma FirstChunk(bits: seq<int>, cs: nat)
    requires 0 < cs <= |bits|
    ensures Chunks(bits, cs, false) == [LsbValue(bits[..cs])] + Chunks(bits[cs..], cs, false)
  {
    assert Padding(cs, Some(cs)) == 0;
  }

  /** `to_ints` reads back what `split` cuts: the LSB-first bit array of
      `n * cs` bits of `x`, read in chunks of `cs` bits, is the `n` chunks
      of `split(x, cs, n)`. */
  lemma ChunksOfBitArray(x: int, cs: nat, n: nat)
    requires cs > 0
    ensures Chunks(ToBitArray(x, n * cs, false, 1), cs, false) == SplitChunks(x, cs, n)
  {
    ChunksOfBitList(x, cs, n);
    ChunkBitsProduct(n, cs);
  }

  /** `n` chunks of `cs` bits, counted chunk by chunk. */
  function ChunkBits(n: nat, cs: nat): nat
  {
    if n == 0 then 0 else cs + ChunkBits(n - 1, cs)
  }

  /** Counting chunk by chunk is multiplying. */
  lemma {:induction false} ChunkBitsProduct(n: nat, cs: nat)
    ensures ChunkBits(n, cs) == n * cs
  {
    if n > 0 {
      ChunkBitsProduct(n - 1, cs);
      MulPred(n, cs);
    }
  }

  /** One chunk fewer is `cs` bits fewer. */
  lemma MulPred(n: nat, cs: nat)
    requires n > 0
    ensures n * cs == cs + (n - 1) * cs
  {
  }

  /** `ChunksOfBitArray` on the bit list itself. */
  lemma {:induction false} ChunksOfBitList(x: int, cs: nat, n: nat)
    requires cs > 0
    ensures Chunks(BitList(x, ChunkBits(n, cs), false), cs, false) == SplitChunks(x, cs, n)
    decreases n
  {
    if n == 0 {
      assert BitList(x, 0, false) == [] && SplitChunks(x, cs, 0) == [];
    } else {
      ChunksOfBitList(x / Pow2(cs), cs, n - 1);
      var m := ChunkBits(n - 1, cs);
      assert ChunkBits(n, cs) == cs + m;
      ChunksPeel(x, cs, n, m);
    }
  }

  /** The inductive step of `ChunksOfBitList`: the lowest chunk, then the
      chunks of the bits above it. */
  lemma ChunksPeel(x: int, cs: nat, n: nat, m: nat)
    requires cs > 0 && n > 0
    requires Chunks(BitList(x / Pow2(cs), m, false), cs, false) == SplitChunks(x / Pow2(cs), cs, n - 1)
    ensures Chunks(BitList(x, cs + m, false), cs, false) == SplitChunks(x, cs, n)
  {
    var bits := BitList(x, cs + m, false);
    FirstChunk(bits, cs);
    BitListShifted(x, cs, m);
    LsbRoundTrip(x, cs);
    SplitChunksLowest(x, cs, n);
  }

  /** `split(data, chunk_size, chunk_count, msb_first)` as written: a
      negative chunk count runs no pass; a negative chunk size raises in the
      first pass; otherwise, with `msb_first`, it returns what
      `list.reverse()` returns, `None`. */
  method Split(data: int, chunkSize: int, chunkCount: int, msbFirst: bool) returns (r: Result<Option<seq<int>>, CodecError>)
    ensures r.Failure? <==> chunkSize < 0 && chunkCount > 0
    ensures r.Failure? ==> r.error == NegativeChunkSize
    ensures r.Success? ==> (r.value.None? <==> msbFirst)
    ensures r.Success? && r.value.Some? && chunkCount <= 0 ==> r.value.value == []
    ensures r.Success? && r.value.Some? && chunkCount > 0 ==> chunkSize >= 0 && r.value.value == SplitChunks(data, chunkSize, chunkCount)
  {
    var count: nat := if chunkCount < 0 then 0 else chunkCount;
    if chunkSize < 0 && count > 0 {
      return Failure(NegativeChunkSize);
    }
    var size: nat := if chunkSize < 0 then 0 else chunkSize;
    var chunks: seq<int> := [];
    for i := 0 to count
      invariant chunks == SplitChunks(data, size, count)[..i]
    {
      chunks := chunks + [(data / Pow2(i * size)) % Pow2(size)];
    }
    if msbFirst {
      return Success(None);
    }
    return Success(Some(chunks));
  }

  /** What `concat_ints` sums: each value masked to `chunkSize` bits and
      shifted left by `i * chunkSize`. */
  function ConcatValue(values: seq<int>, chunkSize: nat): (v: nat)
    ensures v < Pow2(|values| * chunkSize)
  {
    if values == [] then 0
    else
      var n := |values| - 1;
      var low := ConcatValue(values[..n], chunkSize);
      var top := values[n] % Pow2(chunkSize);
      Pow2Step(n, chunkSize);
      DigitBound(Pow2(n * chunkSize), Pow2(chunkSize), low, top);
      low + top * Pow2(n * chunkSize)
  }

  /** The last value is the most significant chunk. */
  lemma ConcatValueUnfold(values: seq<int>, chunkSize: nat)
    requires values != []
    ensures var n := |values| - 1;
      ConcatValue(values, chunkSize) ==
        ConcatValue(values[..n], chunkSize) + (values[n] % Pow2(chunkSize)) * Pow2(n * chunkSize)
  {
  }

  /** `concat_ints(values, chunk_size, msb_first)` as written: with
      `msb_first` the `len` of a `reversed` iterator raises; a negative
      chunk size raises at the first value, and with no values the result
      is 0. */
  method ConcatInts(values: seq<int>, chunkSize: int, msbFirst: bool) returns (r: Result<nat, CodecError>)
    ensures r.Failure? <==> msbFirst || (chunkSize < 0 && values != [])
    ensures msbFirst ==> r == Failure(NoLengthOfReversed)
    ensures !msbFirst && chunkSize < 0 && values != [] ==> r == Failure(NegativeChunkSize)
    ensures !msbFirst && values == [] ==> r == Success(0)
    ensures r.Success? && chunkSize >= 0 ==> r.value == ConcatValue(values, chunkSize)
  {
    if msbFirst {
      return Failure(NoLengthOfReversed);
    }
    if values == [] {
      return Success(0);
    }
    if chunkSize < 0 {
      return Failure(NegativeChunkSize);
    }
    var output := 0;
    for i := 0 to |values|
      invariant output == ConcatValue(values[..i], chunkSize)
    {
      assert values[..i + 1][..i] == values[..i];
      output := output + (values[i] % Pow2(chunkSize)) * Pow2(i * chunkSize);
    }
    assert values[..|values|] == values;
    return Success(output);
  }

  /** `concat_ints(split(x, cs, cc), cs) == x mod 2^(cs * cc)`. */
  lemma {:induction false} SplitConcatRoundTrip(x: int, chunkSize: nat, chunkCount: nat)
    ensures ConcatValue(SplitChunks(x, chunkSize, chunkCount), chunkSize) == x % Pow2(chunkCount * chunkSize)
  {
    if chunkCount == 0 {
      ModOne(x);
    } else {
      var n := chunkCount - 1;
      MulLeq(0, n, chunkSize);
      var e: nat := n * chunkSize;
      SplitConcatRoundTrip(x, chunkSize, n);
      SplitChunksStep(x, chunkSize, chunkCount);
      Pow2Step(n, chunkSize);
      DigitStep(x, Pow2(e), Pow2(chunkSize), x % Pow2(e), (x / Pow2(e)) % Pow2(chunkSize));
    }
  }

  /** Concatenating `chunkCount` chunks is concatenating the first
      `chunkCount - 1` and putting the last one on top. */
  lemma SplitChunksStep(x: int, chunkSize: nat, chunkCount: nat)
    requires chunkCount > 0
    ensures var n := chunkCount - 1;
      ConcatValue(SplitChunks(x, chunkSize, chunkCount), chunkSize) ==
        ConcatValue(SplitChunks(x, chunkSize, n), chunkSize) +
        ((x / Pow2(n * chunkSize)) % Pow2(chunkSize)) * Pow2(n * chunkSize)
  {
    var n := chunkCount - 1;
    MulLeq(0, n, chunkSize);
    var e: nat := n * chunkSize;
    var chunks := SplitChunks(x, chunkSize, chunkCount);
    assert chunks[..n] == SplitChunks(x, chunkSize, n);
    ConcatValueUnfold(chunks, chunkSize);
    ModOfMod(x / Pow2(e), Pow2(chunkSize));
  }

  /** `split` as evidently intended: with `msb_first` the most significant
      chunk comes first. */
  function SplitIntended(data: int, chunkSize: nat, chunkCount: nat, msbFirst: bool): (chunks: seq<int>)
    ensures |chunks| == chunkCount
    ensures forall i :: 0 <= i < chunkCount ==> 0 <= chunks[i] < Pow2(chunkSize)
  {
    var chunks := SplitChunks(data, chunkSize, chunkCount);
    if msbFirst then Reversed(chunks) else chunks
  }

  /** `concat_ints` as evidently intended: with `msb_first` index 0 holds the
      most significant chunk. */
  function ConcatIntended(values: seq<int>, chunkSize: nat, msbFirst: bool): (v: nat)
    ensures v < Pow2(|values| * chunkSize)
  {
    ConcatValue(if msbFirst then Reversed(values) else values, chunkSize)
  }

  /** The intended pair round-trips in both orders. */
  lemma IntendedRoundTrip(x: int, chunkSize: nat, chunkCount: nat, msbFirst: bool)
    ensures ConcatIntended(SplitIntended(x, chunkSize, chunkCount, msbFirst), chunkSize, msbFirst) ==
      x % Pow2(chunkCount * chunkSize)
  {
    var chunks := SplitChunks(x, chunkSize, chunkCount);
    SplitConcatRoundTrip(x, chunkSize, chunkCount);
    if msbFirst {
      var given := Reversed(chunks);
      assert SplitIntended(x, chunkSize, chunkCount, true) == given;
      ReversedTwice(chunks);
      var back := Reversed(given);
      assert back == chunks;
      assert ConcatIntended(given, chunkSize, true) == ConcatValue(back, chunkSize);
    } else {
      assert SplitIntended(x, chunkSize, chunkCount, false) == chunks;
      assert ConcatIntended(chunks, chunkSize, false) == ConcatValue(chunks, chunkSize);
    }
  }

  /** Reversing twice gives the original order back. */
  lemma ReversedTwice<T>(s: seq<T>)
    ensures Reversed(Reversed(s)) == s
  {
  }

  /** The written `split` and `concat_ints` lose the MSB-first case that the
      intended ones handle: splitting 0x1234 into two bytes. */
  method MsbFirstExample() returns (split: Result<Option<seq<int>>, CodecError>, concat: Result<nat, CodecError>, intended: seq<int>)
    ensures split == Success(None) && concat == Failure(NoLengthOfReversed)
    ensures intended == [0x12, 0x34] && ConcatIntended(intended, 8, true) == 0x1234
  {
    split := Split(0x1234, 8, 2, true);
    concat := ConcatInts([0x12, 0x34], 8, true);
    intended := SplitIntended(0x1234, 8, 2, true);
    assert Pow2(8) == 256 && Pow2(16) == 65536;
    var chunks := SplitChunks(0x1234, 8, 2);
    assert chunks[0] == 0x34 && chunks[1] == 0x12;
    assert intended == [0x12, 0x34];
    IntendedRoundTrip(0x1234, 8, 2, true);
  }
}
