/** How long the samplers sleep: C's mixed signed and unsigned arithmetic, and what it adds up to. */
module Pacing {
  import opened Words

  const MS: nat := 1_000_000

  // ---- xstat ----

  /** `tosleep` of xstat's `kthread_function` after `elapsed` nanoseconds of work: an int that takes the low 32 bits of
      the milliseconds, an unsigned difference stored back into it, and a comparison that is unsigned again. The period
      is read without a lock for the difference, for the comparison, and for the cut. */
  function SleepFor(elapsed: uint64, p1: uint32, p2: uint32, p3: uint32): int {
    var t0 := AsInt((elapsed / MS) % TWO32);
    var t1 := AsInt(Sub32(Sub32(p1, AsUnsigned(t0)), 1));
    var t2 := if t1 <= 0 then 0 else t1;
    if AsUnsigned(t2) > p2 then AsInt(p3) else t2
  }

  /** The sleep while the period stays as it is. */
  function XstatSleep(elapsed: uint64, period: uint32): int { SleepFor(elapsed, period, period, period) }

  /** In closed form, by the milliseconds seen through 32 bits. */
  lemma XstatSleepIs(elapsed: uint64, period: uint32)
    requires 0 < period < 10000
    ensures var w := elapsed / 1_000_000 % 0x1_0000_0000;
            XstatSleep(elapsed, period) ==
              if w < period then period - 1 - w
              else if w < 0x8000_0000 + period then 0
              else period
  {
    var w := (elapsed / MS) % TWO32;
    var t0 := AsInt(w);
    assert AsUnsigned(t0) == w by { RoundTrip(w); }
    Sub32Is(period, w);
    Sub32Is(Sub32(period, w), 1);
  }

  lemma RoundTrip(w: uint32)
    ensures AsUnsigned(AsInt(w)) == w
  {
  }

  lemma Sub32Is(a: uint32, b: uint32)
    ensures Sub32(a, b) == if b <= a then a - b else a - b + TWO32
  {
  }

  /** The sleep is never negative and never longer than a period that was read, for every elapsed time, even if the
      period is written between the reads. */
  lemma XstatSleepIsBounded(elapsed: uint64, p1: uint32, p2: uint32, p3: uint32)
    requires p3 < 10000
    ensures 0 <= SleepFor(elapsed, p1, p2, p3) <= Max(p2, p3)
  {
  }

  /** It is what the code is after, the rest of the period, less one, exactly as long as the milliseconds, seen through
      32 bits, tell the same as the milliseconds. */
  lemma XstatSleepIsRest(elapsed: uint64, period: uint32)
    requires 0 < period < 10000
    ensures var m := elapsed / 1_000_000; var w, rest := m % 0x1_0000_0000, if m < period then period - 1 - m else 0;
            XstatSleep(elapsed, period) == rest <==> m < period || period - 1 <= w < 0x8000_0000 + period
  {
    XstatSleepIs(elapsed, period);
  }

  /** Work and requested sleep of n samples, in nanoseconds. */
  function Spent(works: seq<uint64>, period: uint32, n: nat): int
    requires n <= |works|
  {
    if n == 0 then 0 else Spent(works, period, n - 1) + works[n - 1] + XstatSleep(works[n - 1], period) * MS
  }

  lemma OneSample(work: uint64, period: uint32)
    requires 0 < period < 10000 && work < period * MS
    ensures (period - 1) * MS <= work + XstatSleep(work, period) * MS < period * MS
  {
    XstatSleepIs(work, period);
    assert work / MS < period;
  }

  lemma OneMore(n: nat, x: int)
    requires n > 0
    ensures n * x == (n - 1) * x + x
  {
  }

  /** n samples that each work for less than a period take at least n * (period - 1) and less than n * period
      milliseconds. */
  lemma {:induction false} SamplesKeepPace(works: seq<uint64>, period: uint32, n: nat)
    requires 0 < n <= |works| && 0 < period < 10000
    requires forall k :: 0 <= k < n ==> works[k] < period * MS
    ensures n * ((period - 1) * 1_000_000) <= Spent(works, period, n) < n * (period * 1_000_000)
  {
    OneSample(works[n - 1], period);
    OneMore(n, (period - 1) * MS);
    OneMore(n, period * MS);
    if n > 1 {
      SamplesKeepPace(works, period, n - 1);
    } else {
      assert Spent(works, period, 0) == 0;
    }
  }

  // ---- haswellstat and sbstat ----

  /** `oh` and `tosleep` of their `kthread_function`: everything is unsigned 32-bit. */
  function Overhead(elapsed: uint64): uint32 { (elapsed / MS) % TWO32 }

  function CappedSleep(oh: uint32, period: uint32): uint32 {
    if period < Mul32(oh, 5) then Mul32(oh, 4) else Sub32(period, oh)
  }

  /** While 5 * oh fits 32 bits, overhead and sleep fill the longer of the period and five times the overhead. */
  lemma CycleIs(oh: uint32, period: uint32)
    requires 5 * oh < TWO32
    ensures oh + CappedSleep(oh, period) == Max(period, 5 * oh)
  {
    assert Mul32(oh, 5) == 5 * oh;
    assert Mul32(oh, 4) == 4 * oh;
    Sub32Is(period, oh);
  }

  lemma CapOnReading(oh: uint32, period: uint32)
    requires 100 < period < 10000
    ensures 5 * oh <= oh + CappedSleep(oh, period) <==> oh < 0x4000_0000
    ensures CappedSleep(oh, period) < TWO32
  {
  }

  /** The cap that the code is after, a fifth of the cycle at most, holds exactly while the work takes less than 2^30
      milliseconds, twelve days. */
  lemma CapHolds(elapsed: uint64, period: uint32)
    requires 100 < period < 10000
    ensures var m := elapsed / 1_000_000; 5 * m <= m + CappedSleep(Overhead(elapsed), period) <==> m < 0x4000_0000
  {
    CapOnReading(Overhead(elapsed), period);
  }

  /** Overhead and cycle times of n samples, in milliseconds. */
  function TotalOverhead(works: seq<uint64>, n: nat): nat
    requires n <= |works|
  {
    if n == 0 then 0 else TotalOverhead(works, n - 1) + works[n - 1] / MS
  }

  function TotalCycles(works: seq<uint64>, periods: seq<uint32>, n: nat): nat
    requires n <= |works| == |periods|
  {
    if n == 0 then 0 else
      TotalCycles(works, periods, n - 1) + works[n - 1] / MS + CappedSleep(Overhead(works[n - 1]), periods[n - 1])
  }

  /** Over any run, with the period free to change between samples, at most a fifth of the time is overhead. */
  lemma {:induction false} OverheadIsCapped(works: seq<uint64>, periods: seq<uint32>, n: nat)
    requires n <= |works| == |periods|
    requires forall k :: 0 <= k < n ==> 100 < periods[k] < 10000 && works[k] / MS < 0x4000_0000
    ensures 5 * TotalOverhead(works, n) <= TotalCycles(works, periods, n)
  {
    if n > 0 {
      OverheadIsCapped(works, periods, n - 1);
      CapHolds(works[n - 1], periods[n - 1]);
    }
  }
}
