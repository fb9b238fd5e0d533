/** `cocotb_wrapper/check.py`: soft comparisons that log a mismatch and
    report it as a boolean instead of raising, and the bit-stream
    comparison with its list of mismatching indexes. */
module Check {
  import opened Results

  /** What `_get_val` extracts from a handle: an integer, or the text of a
      value with undefined (X/Z) bits that cannot be read as an integer. */
  datatype SimValue = Resolved(n: int) | Unresolved(text: string)

  /** The message `soft_assert` logs as an error on a mismatch. */
  datatype Mismatch = Mismatch(name: string, actual: string, expected: string)

  /** The outcome of a soft comparison: the returned boolean and the error
      logged, if any. */
  datatype Checked = Checked(ok: bool, logged: Option<Mismatch>)

  /** `soft_assert(name, predicate, actual, expected)`: returns the predicate
      and logs an error exactly when it is false. */
  function SoftAssert(name: string, holds: bool, actual: string, expected: string): (r: Checked)
    ensures r.ok == holds
    ensures r.logged.Some? <==> !holds
    ensures r.logged.Some? ==> r.logged.value == Mismatch(name, actual, expected)
  {
    if holds then Checked(true, None) else Checked(false, Some(Mismatch(name, actual, expected)))
  }

  /** The three built-in formats the `compare*` family logs with. */
  datatype Radix = Decimal | Hexadecimal | Binary

  function DigitChar(d: nat): (c: char)
    requires d < 16
  {
    "0123456789abcdef"[d]
  }

  /** The digits of `n` in `base`, most significant first, no leading zeros. */
  function Digits(n: nat, base: nat): (s: string)
    requires 2 <= base <= 16
    ensures |s| >= 1
    ensures n < base <==> |s| == 1
    decreases n
  {
    if n < base then [DigitChar(n)] else Digits(n / base, base) + [DigitChar(n % base)]
  }

  /** Python's `str`, `hex` and `bin` of an integer: sign, prefix, digits. */
  function Format(radix: Radix, n: int): (s: string)
    ensures |s| >= 1
    ensures radix == Hexadecimal && n >= 0 ==> |s| >= 3 && s[..2] == "0x"
    ensures radix == Binary && n >= 0 ==> |s| >= 3 && s[..2] == "0b"
    ensures n < 0 ==> s[0] == '-'
  {
    var sign := if n < 0 then "-" else "";
    var m := if n < 0 then -n else n;
    match radix
    case Decimal => sign + Digits(m, 10)
    case Hexadecimal => sign + "0x" + Digits(m, 16)
    case Binary => sign + "0b" + Digits(m, 2)
  }

  /** How a value is shown in the log: formatted when it is an integer; the
      formatter raises on the text of an unresolved value, which is then
      shown as it is (`str(actual)`). */
  function Shown(actual: SimValue, radix: Radix): (s: string)
    ensures actual.Resolved? ==> s == Format(radix, actual.n)
    ensures actual.Unresolved? ==> s == actual.text
  {
    match actual
    case Resolved(n) => Format(radix, n)
    case Unresolved(t) => t
  }

  /** `_compare_format(name, actual, expected, format)`: the result is
      `actual == expected` whether or not formatting the actual value
      succeeds; only the logged text differs. */
  function CompareFormat(name: string, actual: SimValue, expected: int, radix: Radix): (r: Checked)
    ensures r.ok <==> actual == Resolved(expected)
    ensures r.logged.Some? <==> !r.ok
    ensures r.logged.Some? ==> r.logged.value.expected == Format(radix, expected)
    ensures r.logged.Some? && actual.Unresolved? ==> r.logged.value.actual == actual.text
  {
    SoftAssert(name, actual == Resolved(expected), Shown(actual, radix), Format(radix, expected))
  }

  /** `compare`: decimal log format. */
  function Compare(name: string, actual: SimValue, expected: int): (r: Checked)
    ensures r.ok <==> actual == Resolved(expected)
  {
    CompareFormat(name, actual, expected, Decimal)
  }

  /** `compare_hex`: hexadecimal log format. */
  function CompareHex(name: string, actual: SimValue, expected: int): (r: Checked)
    ensures r.ok <==> actual == Resolved(expected)
  {
    CompareFormat(name, actual, expected, Hexadecimal)
  }

  /** `compare_bin`: binary log format. */
  function CompareBin(name: string, actual: SimValue, expected: int): (r: Checked)
    ensures r.ok <==> actual == Resolved(expected)
  {
    CompareFormat(name, actual, expected, Binary)
  }

  /** The four comparisons return the same boolean and log on the same
      inputs; they differ only in how the values are written. A corollary of
      the definitions: each of them is `CompareFormat` with a fixed radix, so
      this records the shared decision of the Python functions and adds no
      assurance beyond them. */
  lemma CompareVariantsAgree(name: string, actual: SimValue, expected: int, radix: Radix)
    ensures Compare(name, actual, expected).ok == CompareHex(name, actual, expected).ok
    ensures CompareHex(name, actual, expected).ok == CompareBin(name, actual, expected).ok
    ensures CompareBin(name, actual, expected).ok == CompareFormat(name, actual, expected, radix).ok
    ensures Compare(name, actual, expected).logged.Some? == CompareFormat(name, actual, expected, radix).logged.Some?
  {
  }

  /** An enum as `compare_enum` uses it: its class name and its members,
      value to name. */
  datatype EnumType = EnumType(name: string, members: map<int, string>)

  /** `enum(value)` raises `ValueError` for a value that is no member. */
  datatype EnumError = NotAMember(value: SimValue)

  /** `compare_enum(enum, actual, expected)`: the raw values are compared;
      the member names are looked up for the message, before `soft_assert`
      runs, so a value that is no member raises. */
  function CompareEnum(e: EnumType, actual: SimValue, expected: int): (r: Result<Checked, EnumError>)
    ensures r.Success? <==> actual.Resolved? && actual.n in e.members && expected in e.members
    ensures r.Success? ==> (r.value.ok <==> actual.n == expected)
    ensures r.Success? && !r.value.ok ==>
      r.value.logged == Some(Mismatch(e.name, e.members[actual.n], e.members[expected]))
    ensures r.Failure? && !(actual.Resolved? && actual.n in e.members) ==> r.error == NotAMember(actual)
  {
    if !(actual.Resolved? && actual.n in e.members) then Failure(NotAMember(actual))
    else if expected !in e.members then Failure(NotAMember(Resolved(expected)))
    else Success(SoftAssert(e.name, actual.n == expected, e.members[actual.n], e.members[expected]))
  }

  /** The positions below `n` at which `act` and `exp` differ, in increasing
      order: the indexes `compare_bit_stream` collects. */
  function Mismatches<T(==)>(act: seq<T>, exp: seq<T>, n: nat): (idx: seq<nat>)
    requires n <= |act| && n <= |exp|
    ensures |idx| <= n
    ensures forall k :: 0 <= k < |idx| ==> idx[k] < n
  {
    if n == 0 then []
    else
      var before := Mismatches(act, exp, n - 1);
      if act[n - 1] != exp[n - 1] then before + [n - 1] else before
  }

  /** An index is collected exactly when the streams differ there. */
  lemma {:induction false} MismatchesExact<T>(act: seq<T>, exp: seq<T>, n: nat, i: nat)
    requires n <= |act| && n <= |exp|
    ensures i in Mismatches(act, exp, n) <==> i < n && act[i] != exp[i]
  {
    if n > 0 {
      MismatchesExact(act, exp, n - 1, i);
    }
  }

  predicate StrictlyIncreasing(s: seq<nat>)
  {
    forall j, k :: 0 <= j < k < |s| ==> s[j] < s[k]
  }

  /** The indexes are strictly increasing, so each appears once. */
  lemma {:induction false} MismatchesIncreasing<T>(act: seq<T>, exp: seq<T>, n: nat)
    requires n <= |act| && n <= |exp|
    ensures StrictlyIncreasing(Mismatches(act, exp, n))
  {
    if n > 0 {
      MismatchesIncreasing(act, exp, n - 1);
      var before := Mismatches(act, exp, n - 1);
      if act[n - 1] != exp[n - 1] {
        var idx := before + [n - 1];
        assert Mismatches(act, exp, n) == idx;
        forall j, k | 0 <= j < k < |idx|
          ensures idx[j] < idx[k]
        {
          assert idx[j] == before[j];
          if k == |before| {
            assert before[j] < n - 1;
          } else {
            assert idx[k] == before[k];
          }
        }
      }
    }
  }

  /** Equal streams have no mismatch. */
  lemma {:induction false} MismatchesOfEqual<T>(s: seq<T>, n: nat)
    requires n <= |s|
    ensures Mismatches(s, s, n) == []
  {
    if n > 0 {
      MismatchesOfEqual(s, n - 1);
    }
  }

  /** Mismatches below `n` depend only on the first `n` actual values. */
  lemma {:induction false} MismatchesPrefixOnly<T>(a: seq<T>, b: seq<T>, exp: seq<T>, n: nat)
    requires n <= |a| && n <= |b| && n <= |exp|
    requires forall k :: 0 <= k < n ==> a[k] == b[k]
    ensures Mismatches(a, exp, n) == Mismatches(b, exp, n)
  {
    if n > 0 {
      MismatchesPrefixOnly(a, b, exp, n - 1);
    }
  }

  /** Comparing one more element adds its index exactly when it differs. */
  lemma MismatchesSnoc<T>(act: seq<T>, exp: seq<T>, x: T)
    requires |act| < |exp|
    ensures Mismatches(act + [x], exp, |act| + 1) ==
      Mismatches(act, exp, |act|) + (if x != exp[|act|] then [|act|] else [])
  {
    MismatchesPrefixOnly(act, act + [x], exp, |act|);
  }

  datatype LogLevel = Quiet | Warning | Error

  /** What `compare_bit_stream` returns, and the level its mismatch report
      is logged at (`Quiet` when nothing is logged). */
  datatype BitStreamReport = BitStreamReport(valid: bool, count: nat, indexes: seq<nat>, level: LogLevel)

  /** `compare_bit_stream(name, act, exp, max_bit_error_count)`: walks the
      expected stream; reading past the end of a shorter actual stream
      raises, which is caught, logged and makes the result invalid. The
      maximum error count only chooses between error and warning. */
  method CompareBitStream<T(==)>(act: seq<T>, exp: seq<T>, maxBitErrorCount: int) returns (r: BitStreamReport)
    ensures r.valid <==> |act| >= |exp|
    ensures r.indexes == Mismatches(act, exp, if |act| < |exp| then |act| else |exp|)
    ensures r.count == |r.indexes|
    ensures r.level == (if r.valid && r.count == 0 then Quiet
                        else if !r.valid || r.count > maxBitErrorCount then Error
                        else Warning)
  {
    var valid := true;
    var indexes: seq<nat> := [];
    var i := 0;
    while i < |exp|
      invariant 0 <= i <= |exp| && i <= |act|
      invariant indexes == Mismatches(act, exp, i)
      decreases |exp| - i
    {
      if i >= |act| {
        valid := false;
        break;
      }
      if act[i] != exp[i] {
        indexes := indexes + [i];
      }
      i := i + 1;
    }
    var level := Quiet;
    if !valid || |indexes| > 0 {
      level := if |indexes| > maxBitErrorCount || !valid then Error else Warning;
    }
    r := BitStreamReport(valid, |indexes|, indexes, level);
  }

  /** No index is collected exactly when the streams agree below `n`. */
  lemma MismatchesEmptyIff<T>(act: seq<T>, exp: seq<T>, n: nat)
    requires n <= |act| && n <= |exp|
    ensures Mismatches(act, exp, n) == [] <==> forall i :: 0 <= i < n ==> act[i] == exp[i]
  {
    if forall i :: 0 <= i < n ==> act[i] == exp[i] {
      MismatchesOfPrefix(act, exp, n);
    } else {
      var i :| 0 <= i < n && act[i] != exp[i];
      MismatchesExact(act, exp, n, i);
    }
  }

  /** Streams that agree below `n` have no mismatch below `n`. */
  lemma {:induction false} MismatchesOfPrefix<T>(act: seq<T>, exp: seq<T>, n: nat)
    requires n <= |act| && n <= |exp|
    requires forall i :: 0 <= i < n ==> act[i] == exp[i]
    ensures Mismatches(act, exp, n) == []
  {
    if n > 0 {
      MismatchesOfPrefix(act, exp, n - 1);
    }
  }
}
