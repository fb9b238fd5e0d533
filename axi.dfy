/** The arithmetic of `cocotb_wrapper/axi.py`: how many bytes a bus width
    takes, the random payloads the three payload generators build, and the
    encodings of the AXI burst, response, lock, cache and protection
    fields. The bus wrappers around the external AXI library are not part
    of this model. */
module Axi {
  import opened Results
  import opened Arith

  type byte = x: int | 0 <= x < 256

  /** `bits_to_bytes(b)`: `(b + 7) // 8`, the fewest bytes that hold `b`
      bits. */
  function BitsToBytes(b: int): (n: int)
    ensures 8 * n >= b && 8 * (n - 1) < b
    ensures b >= 0 ==> n >= 0
  {
    (b + 7) / 8
  }

  /** A whole number of bytes needs no padding. */
  lemma BitsToBytesWhole(k: int)
    ensures BitsToBytes(8 * k) == k
  {
    DivModUnique(8 * k + 7, 8, k, 7);
  }

  /** The value of big-endian bytes. */
  function FromBigEndian(bs: seq<byte>): (v: nat)
    ensures v < Pow2(8 * |bs|)
  {
    if bs == [] then 0
    else
      var init := bs[..|bs| - 1];
      Pow2Step(|init|, 8);
      Pow2Byte();
      FromBigEndian(init) * 256 + bs[|bs| - 1]
  }

  /** `int.to_bytes(length, byteorder="big")` of a non-negative integer:
      `None` where Python raises `OverflowError`, because the value does
      not fit in `length` bytes. */
  function ToBigEndian(value: nat, length: nat): (r: Option<seq<byte>>)
    ensures r.Some? <==> value < Pow2(8 * length)
    ensures r.Some? ==> |r.value| == length && FromBigEndian(r.value) == value
  {
    if length == 0 then
      if value == 0 then Some([]) else None
    else
      Pow2Step(length - 1, 8);
      ShiftBound(value, Pow2(8 * (length - 1)));
      match ToBigEndian(value / 256, length - 1)
      case None => None
      case Some(high) =>
        var bs := high + [value % 256];
        assert bs[..|bs| - 1] == high;
        Some(bs)
  }

  /** The powers of two of a byte. */
  lemma Pow2Byte()
    ensures Pow2(7) == 128 && Pow2(8) == 256
  {
    assert Pow2(1) == 2;
    assert Pow2(2) == 4;
    assert Pow2(3) == 8;
    assert Pow2(4) == 16;
    assert Pow2(5) == 32;
    assert Pow2(6) == 64;
  }

  /** `value < 256 p` exactly when the bytes above the lowest are below `p`. */
  lemma ShiftBound(value: nat, p: nat)
    ensures value < p * 256 <==> value / 256 < p
    ensures Pow2(8) == 256
  {
    Pow2Byte();
    assert value == (value / 256) * 256 + value % 256;
    if value / 256 < p {
      MulLeq(value / 256 + 1, p, 256);
    } else {
      MulLeq(p, value / 256, 256);
    }
  }

  /** A value drawn with `getrandbits(w)` fits in `bits_to_bytes(w)` bytes. */
  lemma DrawFits(widthBits: nat, draw: nat)
    requires draw < Pow2(widthBits)
    ensures draw < Pow2(8 * BitsToBytes(widthBits))
  {
    Pow2Monotone(widthBits, 8 * BitsToBytes(widthBits));
  }

  /** `getrandbits` raises `ValueError` for a negative width. */
  datatype PayloadError = NegativeWidth

  /** `get_payload` of `RandomAxiPayloadGenerator` and of
      `RandomAxiLitePayloadGenerator`: the drawn `getrandbits(w)` value as
      `bits_to_bytes(w)` big-endian bytes. `draw` is the random value. */
  function RandomWord(widthBits: int, draw: nat): (r: Result<seq<byte>, PayloadError>)
    requires widthBits >= 0 ==> draw < Pow2(widthBits)
    ensures r.Success? <==> widthBits >= 0
    ensures r.Success? ==> |r.value| == BitsToBytes(widthBits) && FromBigEndian(r.value) == draw
  {
    if widthBits < 0 then Failure(NegativeWidth)
    else
      DrawFits(widthBits, draw);
      Success(ToBigEndian(draw, BitsToBytes(widthBits)).value)
  }

  /** The bytes of `RandomWord` hold a value below `2^w`. */
  lemma RandomWordBelowWidth(widthBits: nat, draw: nat)
    requires draw < Pow2(widthBits)
    ensures FromBigEndian(RandomWord(widthBits, draw).value) < Pow2(widthBits)
  {
  }

  /** The words of a stream frame, one after the other. */
  function Words(widthBits: nat, draws: seq<nat>): (bs: seq<byte>)
    requires forall k :: 0 <= k < |draws| ==> draws[k] < Pow2(widthBits)
    ensures |bs| == |draws| * BitsToBytes(widthBits)
  {
    if draws == [] then []
    else
      var rest := Words(widthBits, draws[1..]);
      MulSucc(|draws| - 1, BitsToBytes(widthBits));
      RandomWord(widthBits, draws[0]).value + rest
  }

  /** Word `k` of a frame sits at bytes `[k B, (k + 1) B)`, `B` the word
      size. */
  lemma {:induction false} WordsAt(widthBits: nat, draws: seq<nat>, k: nat)
    requires forall j :: 0 <= j < |draws| ==> draws[j] < Pow2(widthBits)
    requires k < |draws|
    ensures var b := BitsToBytes(widthBits);
      0 <= k * b && (k + 1) * b <= |Words(widthBits, draws)| &&
      Words(widthBits, draws)[k * b..(k + 1) * b] == RandomWord(widthBits, draws[k]).value
  {
    var b := BitsToBytes(widthBits);
    MulLeq(0, k, b);
    var first := RandomWord(widthBits, draws[0]).value;
    var rest := Words(widthBits, draws[1..]);
    var lo, hi := k * b, (k + 1) * b;
    MulSucc(k, b);
    MulLeq(k + 1, |draws|, b);
    if k == 0 {
      assert lo == 0 && hi == b;
      assert (first + rest)[lo..hi] == first;
    } else {
      WordsAt(widthBits, draws[1..], k - 1);
      MulSucc(k - 1, b);
      MulSucc(|draws| - 1, b);
      MulLeq(0, k - 1, b);
      assert |first| == b && |rest| == (|draws| - 1) * b;
      assert b <= lo && hi <= |draws| * b;
      assert Words(widthBits, draws) == first + rest;
      SliceOfConcat(first, rest, lo, hi);
    }
  }

  /** `(k + 1) b == k b + b`. */
  lemma MulSucc(k: int, b: int)
    ensures (k + 1) * b == k * b + b
  {
  }

  /** A slice that lies after the first part of a concatenation. */
  lemma SliceOfConcat<T>(first: seq<T>, rest: seq<T>, lo: int, hi: int)
    requires |first| <= lo <= hi <= |first| + |rest|
    ensures (first + rest)[lo..hi] == rest[lo - |first|..hi - |first|]
  {
  }

  /** `RandomAxiStreamPayloadGenerator.get_payload`: `frame_length` random
      words joined. `draws` are the random values, one per word; a frame
      of length 0 or less draws nothing and so cannot fail. */
  function StreamPayload(frameLength: int, widthBits: int, draws: seq<nat>): (r: Result<seq<byte>, PayloadError>)
    requires |draws| == if frameLength > 0 then frameLength else 0
    requires widthBits >= 0 ==> forall k :: 0 <= k < |draws| ==> draws[k] < Pow2(widthBits)
    ensures r.Success? <==> widthBits >= 0 || frameLength <= 0
    ensures r.Success? && frameLength <= 0 ==> r.value == []
    ensures r.Success? && widthBits >= 0 ==> |r.value| == |draws| * BitsToBytes(widthBits)
  {
    if frameLength <= 0 then Success([])
    else if widthBits < 0 then Failure(NegativeWidth)
    else Success(Words(widthBits, draws))
  }

  /** Every word of a stream payload decodes to its draw. */
  lemma StreamPayloadWords(frameLength: int, widthBits: nat, draws: seq<nat>, k: nat)
    requires |draws| == if frameLength > 0 then frameLength else 0
    requires forall j :: 0 <= j < |draws| ==> draws[j] < Pow2(widthBits)
    requires k < |draws|
    ensures var r := StreamPayload(frameLength, widthBits, draws);
      var b := BitsToBytes(widthBits);
      r.Success? && 0 <= k * b && (k + 1) * b <= |r.value| && FromBigEndian(r.value[k * b..(k + 1) * b]) == draws[k]
  {
    WordsAt(widthBits, draws, k);
  }

  // ---------------------------------------------------------------------
  // Encodings
  // ---------------------------------------------------------------------

  /** `AxiBurstType`. */
  datatype AxiBurstType = Fixed | Incr | Wrap

  function BurstTypeCode(t: AxiBurstType): (c: nat)
    ensures c < 3
  {
    match t
    case Fixed => 0
    case Incr => 1
    case Wrap => 2
  }

  /** `AxiBurstType(c)`: `None` where the enum raises `ValueError`. */
  function BurstTypeOf(c: int): (t: Option<AxiBurstType>)
    ensures t.Some? <==> 0 <= c < 3
    ensures t.Some? ==> BurstTypeCode(t.value) == c
  {
    if c == 0 then Some(Fixed) else if c == 1 then Some(Incr) else if c == 2 then Some(Wrap) else None
  }

  /** Each burst type has its own code. */
  lemma BurstTypeRoundTrip(t: AxiBurstType)
    ensures BurstTypeOf(BurstTypeCode(t)) == Some(t)
  {
  }

  /** `AxiBurstSize`: the codes 0 to 7. */
  type BurstSizeCode = c: int | 0 <= c < 8

  /** The number of bytes per transfer that code `c` stands for. */
  function BurstBytes(c: BurstSizeCode): (n: nat)
    ensures 1 <= n <= 128
    ensures n == Pow2(c)
  {
    Pow2Monotone(c, 7);
    Pow2Byte();
    Pow2(c)
  }

  /** The code for a transfer of `bytes` bytes, if it is a power of two no
      larger than 128. */
  function BurstSizeOf(bytes: int): (c: Option<BurstSizeCode>)
    ensures c.Some? ==> BurstBytes(c.value) == bytes
    decreases if bytes > 0 then bytes else 0
  {
    if bytes == 1 then Some(0)
    else if bytes <= 1 || bytes % 2 == 1 then None
    else
      match BurstSizeOf(bytes / 2)
      case Some(k) => if k < 7 then Some(k + 1) else None
      case None => None
  }

  /** `BurstSizeOf` inverts `BurstBytes`, and finds nothing for a size no
      code stands for. */
  lemma {:induction false} BurstSizeOfIsInverse(bytes: int, c: BurstSizeCode)
    ensures BurstSizeOf(bytes) == Some(c) <==> BurstBytes(c) == bytes
    decreases c
  {
    if c > 0 {
      BurstSizeOfIsInverse(bytes / 2, c - 1);
      var p := Pow2(c - 1);
      assert BurstBytes(c) == 2 * p;
      assert BurstBytes(c - 1) == p;
      if bytes == 2 * p {
        assert bytes / 2 == p && bytes % 2 == 0;
      }
    } else if bytes != 1 && BurstSizeOf(bytes).Some? {
      var k := BurstSizeOf(bytes / 2).value;
      assert BurstSizeOf(bytes) == Some(k + 1);
    }
  }

  /** `AxiResp`. */
  datatype AxiResp = Okay | ExOkay | SlvErr | DecErr

  function RespCode(r: AxiResp): (c: nat)
    ensures c < 4
  {
    match r
    case Okay => 0
    case ExOkay => 1
    case SlvErr => 2
    case DecErr => 3
  }

  /** `AxiResp(c)`: `None` where the enum raises `ValueError`. */
  function RespOf(c: int): (r: Option<AxiResp>)
    ensures r.Some? <==> 0 <= c < 4
    ensures r.Some? ==> RespCode(r.value) == c
  {
    if c == 0 then Some(Okay) else if c == 1 then Some(ExOkay)
    else if c == 2 then Some(SlvErr) else if c == 3 then Some(DecErr) else None
  }

  /** Each response has its own code. */
  lemma RespRoundTrip(r: AxiResp)
    ensures RespOf(RespCode(r)) == Some(r)
  {
  }

  /** `AxiLockType`. */
  datatype AxiLockType = Normal | Exclusive

  function LockCode(l: AxiLockType): (c: nat)
    ensures c < 2
    ensures c == 1 <==> l == Exclusive
  {
    if l == Exclusive then 1 else 0
  }

  /** The `AxiCacheBit` flags set in an `AxCACHE` value: bufferable (1),
      modifiable (2), read-allocate (4) and write-allocate (8). */
  datatype CacheFlags = CacheFlags(b: bool, m: bool, ra: bool, wa: bool)

  function FlagBit(set_: bool, weight: nat): nat
  {
    if set_ then weight else 0
  }

  /** The integer value of the OR of the set flags. */
  function CacheValue(f: CacheFlags): (v: nat)
    ensures v < 16
  {
    FlagBit(f.b, 1) + FlagBit(f.m, 2) + FlagBit(f.ra, 4) + FlagBit(f.wa, 8)
  }

  /** The flags of a 4-bit `AxCACHE` value; each bit is one flag. */
  function CacheFlagsOf(v: int): (f: Option<CacheFlags>)
    ensures f.Some? <==> 0 <= v < 16
    ensures f.Some? ==> CacheValue(f.value) == v
  {
    if 0 <= v < 16 then Some(CacheFlags(v % 2 == 1, (v / 2) % 2 == 1, (v / 4) % 2 == 1, v / 8 == 1)) else None
  }

  /** Distinct flag sets have distinct values. */
  lemma CacheFlagsRoundTrip(f: CacheFlags)
    ensures CacheFlagsOf(CacheValue(f)) == Some(f)
  {
  }

  /** The `AxiProt` flags set in an `AxPROT` value: privileged (1),
      non-secure (2) and instruction (4). */
  datatype ProtFlags = ProtFlags(privileged: bool, nonSecure: bool, instruction: bool)

  function ProtValue(f: ProtFlags): (v: nat)
    ensures v < 8
  {
    FlagBit(f.privileged, 1) + FlagBit(f.nonSecure, 2) + FlagBit(f.instruction, 4)
  }

  /** The flags of a 3-bit `AxPROT` value. */
  function ProtFlagsOf(v: int): (f: Option<ProtFlags>)
    ensures f.Some? <==> 0 <= v < 8
    ensures f.Some? ==> ProtValue(f.value) == v
  {
    if 0 <= v < 8 then Some(ProtFlags(v % 2 == 1, (v / 2) % 2 == 1, v / 4 == 1)) else None
  }

  /** Distinct flag sets have distinct values. */
  lemma ProtFlagsRoundTrip(f: ProtFlags)
    ensures ProtFlagsOf(ProtValue(f)) == Some(f)
  {
  }
}
