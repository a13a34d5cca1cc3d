/**
 * The timing arithmetic of the benchmarks: calculate_elapsed_time, which is
 * the same in bench/bench_view_tag.c, bench/bench_shuffle.c and
 * bench/bench.c, and the per-run totals they accumulate over the trials.
 * The clock readings themselves are inputs.
 */
module Timing {

  const TwoTo128: int := 0x1_0000_0000_0000_0000_0000_0000_0000_0000

  /** __uint128_t */
  type U128 = x: int | 0 <= x < TwoTo128

  /** time_t and long on the 64-bit targets the benchmarks run on. */
  type I64 = x: int | -0x8000_0000_0000_0000 <= x < 0x8000_0000_0000_0000

  /** struct timespec */
  datatype Timespec = Timespec(sec: I64, nsec: I64)

  const NsPerSec := 1000000000

  /** Conversion of an integer to __uint128_t, and the wrap-around of its arithmetic. */
  function Wrap(x: int): U128 {
    x % TwoTo128
  }

  /** The instant a timespec denotes, in nanoseconds, without any wrap-around. */
  function Nanos(t: Timespec): int {
    t.sec * NsPerSec + t.nsec
  }

  /** A reading CLOCK_REALTIME gives: not before 1970, nanoseconds below one second. */
  predicate Normalized(t: Timespec) {
    0 <= t.sec && 0 <= t.nsec < NsPerSec
  }

  /** (__uint128_t)t.tv_sec * 1000000000 + t.tv_nsec, every step in 128-bit arithmetic. */
  function NanosU128(t: Timespec): U128 {
    Wrap(Wrap(Wrap(t.sec) * NsPerSec) + Wrap(t.nsec))
  }

  /** Wrapping the left operand of a sum first does not change the wrapped sum. */
  lemma WrapAdd(x: int, y: int)
    ensures Wrap(Wrap(x) + y) == Wrap(x + y)
  {
    var q := x / TwoTo128;
    assert x + y == (Wrap(x) + y) + q * TwoTo128;
    ShiftInvariant(Wrap(x) + y, q);
  }

  /** Wrapping the right operand of a sum first does not change the wrapped sum. */
  lemma WrapAddRight(x: int, y: int)
    ensures Wrap(x + Wrap(y)) == Wrap(x + y)
  {
    var p := y / TwoTo128;
    assert x + y == (x + Wrap(y)) + p * TwoTo128;
    ShiftInvariant(x + Wrap(y), p);
  }

  /** Wrapping the subtrahend first does not change the wrapped difference. */
  lemma WrapSub(x: int, y: int)
    ensures Wrap(x - Wrap(y)) == Wrap(x - y)
  {
    var p := y / TwoTo128;
    assert x - Wrap(y) == (x - y) + p * TwoTo128;
    ShiftInvariant(x - y, p);
  }

  /** Wrapping the seconds first does not change the wrapped count of nanoseconds. */
  lemma WrapMul(x: int)
    ensures Wrap(Wrap(x) * NsPerSec) == Wrap(x * NsPerSec)
  {
    var q := x / TwoTo128;
    assert x * NsPerSec == Wrap(x) * NsPerSec + (q * NsPerSec) * TwoTo128;
    ShiftInvariant(Wrap(x) * NsPerSec, q * NsPerSec);
  }

  /** Adding a multiple of 2^128 does not change the wrapped value. */
  lemma ShiftInvariant(z: int, q: int)
    ensures Wrap(z + q * TwoTo128) == Wrap(z)
  {
  }

  /**
   * calculate_elapsed_time: the difference of the two instants modulo 2^128,
   * and the exact number of nanoseconds between them when both are
   * realistic readings and `end` is not earlier than `start`.
   */
  function ElapsedTime(start: Timespec, end: Timespec): (r: U128)
    ensures r == Wrap(Nanos(end) - Nanos(start))
    ensures Normalized(start) && Normalized(end) && Nanos(start) <= Nanos(end) ==>
      r == Nanos(end) - Nanos(start)
  {
    ElapsedTimeWraps(start, end);
    Wrap(NanosU128(end) - NanosU128(start))
  }

  lemma ElapsedTimeWraps(start: Timespec, end: Timespec)
    ensures Wrap(NanosU128(end) - NanosU128(start)) == Wrap(Nanos(end) - Nanos(start))
    ensures Normalized(start) && Normalized(end) && Nanos(start) <= Nanos(end) ==>
      Wrap(NanosU128(end) - NanosU128(start)) == Nanos(end) - Nanos(start)
  {
    var a, b := Nanos(end), Nanos(start);
    NanosU128Exact(start);
    NanosU128Exact(end);
    var wb: int := Wrap(b);
    WrapAdd(a, -wb);
    WrapSub(a, b);
  }

  /** The 128-bit computation of an instant is the instant modulo 2^128, and exact for a realistic reading. */
  lemma NanosU128Exact(t: Timespec)
    ensures NanosU128(t) == Wrap(Nanos(t))
    ensures Normalized(t) ==> NanosU128(t) == Nanos(t)
  {
    var x := Wrap(Wrap(t.sec) * NsPerSec);
    WrapAddRight(x, t.nsec);
    WrapMul(t.sec);
    WrapAdd(t.sec * NsPerSec, t.nsec);
    if Normalized(t) {
      assert 0 <= Nanos(t) < TwoTo128;
    }
  }

  /** The exact sum of the per-trial times. */
  function Sum(elapsed: seq<U128>): int {
    if |elapsed| == 0 then 0 else Sum(elapsed[..|elapsed| - 1]) + elapsed[|elapsed| - 1]
  }

  /**
   * The `total_ns += elapsed_ns` accumulation over the trials of one run:
   * the sum of the per-trial times modulo 2^128, and exactly that sum when
   * it fits in 128 bits.
   */
  method TotalTime(elapsed: seq<U128>) returns (total: U128)
    ensures total == Wrap(Sum(elapsed))
    ensures Sum(elapsed) < TwoTo128 ==> total == Sum(elapsed)
  {
    total := 0;
    for trial := 0 to |elapsed|
      invariant total == Wrap(Sum(elapsed[..trial]))
    {
      assert elapsed[..trial + 1][..trial] == elapsed[..trial];
      WrapAdd(Sum(elapsed[..trial]), elapsed[trial]);
      total := Wrap(total + elapsed[trial]);
    }
    assert elapsed[..|elapsed|] == elapsed;
    SumNonNegative(elapsed);
  }

  lemma {:induction false} SumNonNegative(elapsed: seq<U128>)
    ensures Sum(elapsed) >= 0
  {
    if |elapsed| > 0 {
      SumNonNegative(elapsed[..|elapsed| - 1]);
    }
  }
}
