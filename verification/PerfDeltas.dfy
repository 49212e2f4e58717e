/** What a perf counter returns for a pass, from the readings of its CPUs, in exact arithmetic. */
module PerfDeltas {
  import opened Words

  const THRESHOLD: nat := 2_000_000_000_000

  /** One read of one event: the count, and how long it was enabled and actually running. */
  datatype Reading = Reading(total: uint64, enabled: uint64, running: uint64)

  const ZERO: Reading := Reading(0, 0, 0)

  /** A reading whose count or clock went back, or during which the event never ran, is not used. */
  predicate Advances(was: Reading, now: Reading) {
    was.total <= now.total && was.enabled <= now.enabled && was.running < now.running
  }

  /** floor(a/d + 1/2). */
  function Rounded(a: nat, d: nat): nat
    requires d > 0
  {
    (2 * a + d) / (2 * d)
  }

  function Product(a: nat, b: nat): nat { a * b }

  /** The count scaled by enabled over running time, rounded half up. */
  function Scaled(was: Reading, now: Reading): nat
    requires Advances(was, now)
  {
    Rounded(Product(now.total - was.total, now.enabled - was.enabled), now.running - was.running)
  }

  predicate Accepted(was: Reading, now: Reading) { Advances(was, now) && Scaled(was, now) <= THRESHOLD }

  function Delta(was: Reading, now: Reading): nat { if Accepted(was, now) then Scaled(was, now) else 0 }

  /** Whether neither the count nor the enabled time went back and the event ran. */
  ghost predicate Forward(was: Reading, now: Reading) {
    was.total <= now.total && was.enabled <= now.enabled && was.running < now.running
  }

  /** The count scaled by enabled over running time. */
  ghost function Quotient(was: Reading, now: Reading): real
    requires was.running < now.running
  {
    ((now.total - was.total) * (now.enabled - was.enabled)) as real / (now.running - was.running) as real
  }

  /** What the code is after, without rounding. */
  ghost function Exact(was: Reading, now: Reading): real {
    if Forward(was, now) && Quotient(was, now) + 0.5 < 2_000_000_000_001.0 then Quotient(was, now) else 0.0
  }

  lemma PositiveProduct(x: real, y: real)
    requires x > 0.0 && y > 0.0
    ensures x * y > 0.0
  {
  }

  /** Comparing quotients by comparing products. */
  lemma Cancel(x: real, y: real, d: real)
    requires d > 0.0 && x * d <= y * d
    ensures x <= y
  {
    if x > y {
      PositiveProduct(x - y, d);
    }
  }

  lemma Rounding(a: nat, d: nat)
    requires d > 0
    ensures 2 * (Rounded(a, d) * d) <= 2 * a + d && 2 * a <= 2 * (Rounded(a, d) * d) + d
  {
    var m, q := 2 * d, Rounded(a, d);
    assert 2 * a + d == m * q + (2 * a + d) % m;
    assert m * q == 2 * (q * d);
  }

  lemma ProductAsReal(a: nat, b: nat)
    ensures (a * b) as real == a as real * b as real
  {
  }

  lemma QuotientTimes(x: real, d: real)
    requires d > 0.0
    ensures x / d * d == x
  {
  }

  /** From an inequality of products to one of quotients. */
  lemma AtMostHalfMore(q: real, x: real, d: real, a: real)
    requires d > 0.0 && x * d == a && 2.0 * (q * d) <= 2.0 * a + d
    ensures q <= x + 0.5
  {
    var h := x + 0.5;
    assert h * d == x * d + 0.5 * d;
    assert h * d == a + 0.5 * d;
    assert q * d <= a + 0.5 * d;
    Cancel(q, h, d);
  }

  lemma AtMostHalfLess(q: real, x: real, d: real, a: real)
    requires d > 0.0 && x * d == a && 2.0 * a <= 2.0 * (q * d) + d
    ensures x - 0.5 <= q
  {
    var h := x - 0.5;
    assert h * d == x * d - 0.5 * d;
    assert h * d == a - 0.5 * d;
    assert a - 0.5 * d <= q * d;
    Cancel(h, q, d);
  }

  /** Rounding half up stays within one half of the quotient. */
  lemma RoundingIsClose(a: nat, d: nat)
    requires d > 0
    ensures var x := a as real / d as real; x - 0.5 <= Rounded(a, d) as real <= x + 0.5
  {
    var q := Rounded(a, d);
    Rounding(a, d);
    ProductAsReal(q, d);
    QuotientTimes(a as real, d as real);
    AtMostHalfMore(q as real, a as real / d as real, d as real, a as real);
    AtMostHalfLess(q as real, a as real / d as real, d as real, a as real);
  }

  lemma CancelStrict(x: real, y: real, d: real)
    requires d > 0.0 && x * d < y * d
    ensures x < y
  {
    if x >= y {
      Cancel(y, x, d);
      NotLess(x, y, d);
    }
  }

  lemma NotLess(x: real, y: real, d: real)
    requires d > 0.0 && x >= y
    ensures x * d >= y * d
  {
    if x > y {
      PositiveProduct(x - y, d);
    }
  }

  lemma BelowNext(q: real, x: real, d: real, a: real)
    requires d > 0.0 && x * d == a && 2.0 * a + d < 2.0 * (q * d) + 2.0 * d
    ensures x + 0.5 < q + 1.0
  {
    var h, k := x + 0.5, q + 1.0;
    assert h * d == x * d + 0.5 * d;
    assert k * d == q * d + d;
    CancelStrict(h, k, d);
  }

  lemma RoundingBelow(a: nat, d: nat)
    requires d > 0
    ensures 2 * a + d < 2 * (Rounded(a, d) * d) + 2 * d
  {
    var m, q := 2 * d, Rounded(a, d);
    assert 2 * a + d == m * q + (2 * a + d) % m;
    assert m * q == 2 * (q * d);
  }

  /** Rounding half up is the floor of the quotient plus one half. */
  lemma RoundingIsFloor(a: nat, d: nat)
    requires d > 0
    ensures var x, q := a as real / d as real, Rounded(a, d) as real; q <= x + 0.5 < q + 1.0
  {
    var q := Rounded(a, d);
    RoundingIsClose(a, d);
    RoundingBelow(a, d);
    ProductAsReal(q, d);
    QuotientTimes(a as real, d as real);
    BelowNext(q as real, a as real / d as real, d as real, a as real);
  }

  /** The delta on the raw fields. If neither the count nor the enabled time went back, the event ran, and the scaled
      count rounds to at most 2*10^12, it is the scaled count rounded half up; in every other case it is 0. */
  lemma DeltaMeaning(was: Reading, now: Reading)
    ensures var d := Delta(was, now) as real;
            if was.total <= now.total && was.enabled <= now.enabled && was.running < now.running then
              var q := ((now.total - was.total) * (now.enabled - was.enabled)) as real /
                       (now.running - was.running) as real;
              if q + 0.5 < 2_000_000_000_001.0 then d <= q + 0.5 < d + 1.0 else d == 0.0
            else d == 0.0
  {
    if Advances(was, now) {
      RoundingIsFloor(Product(now.total - was.total, now.enabled - was.enabled), now.running - was.running);
    }
  }

  /** Each delta is within one half of the exact one. */
  lemma DeltaIsClose(was: Reading, now: Reading)
    ensures -0.5 <= Delta(was, now) as real - Exact(was, now) <= 0.5
  {
    DeltaMeaning(was, now);
  }

  /** The count, which did not grow by more than 2*10^12, and the event was running whenever it was enabled. */
  ghost predicate Plainly(was: Reading, now: Reading) {
    was.total <= now.total <= was.total + 2_000_000_000_000 && was.running < now.running &&
    now.enabled + was.running == was.enabled + now.running
  }

  /** Without multiplexing the delta is the difference of the counts. */
  lemma DeltaIsDifference(was: Reading, now: Reading)
    requires was.total <= now.total <= was.total + 2_000_000_000_000 && was.running < now.running
    requires now.enabled + was.running == was.enabled + now.running
    ensures was.total + Delta(was, now) == now.total
  {
    var c: nat, d: nat := now.total - was.total, now.running - was.running;
    assert now.enabled - was.enabled == d;
    RoundedProduct(c, d);
  }

  lemma MultipleIsFar(k: int, d: nat)
    requires k != 0 && d > 0
    ensures k * d >= d || k * d <= -(d as int)
  {
    if k > 0 {
      assert (k - 1) * d >= 0;
    } else {
      assert (-k - 1) * d >= 0;
    }
  }

  lemma RoundedProduct(c: nat, d: nat)
    requires d > 0
    ensures Rounded(Product(c, d), d) == c
  {
    var q := Rounded(Product(c, d), d);
    Rounding(Product(c, d), d);
    assert q * d - c * d == (q - c) * d;
    if q != c {
      MultipleIsFar(q - c, d);
    }
  }

  // ---- one pass over the first n CPUs; a CPU whose event was not created is skipped ----

  function DeltaSum(has: seq<bool>, was: seq<Reading>, now: seq<Reading>, n: nat): nat
    requires n <= |has| == |was| == |now|
  {
    if n == 0 then 0 else DeltaSum(has, was, now, n - 1) + if has[n - 1] then Delta(was[n - 1], now[n - 1]) else 0
  }

  ghost function ExactSum(has: seq<bool>, was: seq<Reading>, now: seq<Reading>, n: nat): real
    requires n <= |has| == |was| == |now|
  {
    if n == 0 then 0.0 else ExactSum(has, was, now, n - 1) + if has[n - 1] then Exact(was[n - 1], now[n - 1]) else 0.0
  }

  /** The counts the kept readings stand at. */
  function CountSum(has: seq<bool>, was: seq<Reading>, n: nat): nat
    requires n <= |has| == |was|
  {
    if n == 0 then 0 else CountSum(has, was, n - 1) + if has[n - 1] then was[n - 1].total else 0
  }

  /** What is kept for the next pass: every reading taken, used or not. */
  function Kept(has: seq<bool>, was: seq<Reading>, now: seq<Reading>): (r: seq<Reading>)
    requires |has| == |was| == |now|
    ensures |r| == |has|
  {
    seq(|has|, i requires 0 <= i < |has| => if has[i] then now[i] else was[i])
  }

  lemma {:induction false} PassIsBounded(has: seq<bool>, was: seq<Reading>, now: seq<Reading>, n: nat)
    requires n <= |has| == |was| == |now|
    ensures DeltaSum(has, was, now, n) <= n * THRESHOLD
  {
    if n > 0 {
      PassIsBounded(has, was, now, n - 1);
    }
  }

  lemma {:induction false} PassIsClose(has: seq<bool>, was: seq<Reading>, now: seq<Reading>, n: nat)
    requires n <= |has| == |was| == |now|
    ensures var e := DeltaSum(has, was, now, n) as real - ExactSum(has, was, now, n);
            -0.5 * n as real <= e <= 0.5 * n as real
  {
    if n > 0 {
      PassIsClose(has, was, now, n - 1);
      DeltaIsClose(was[n - 1], now[n - 1]);
    }
  }

  /** On every CPU the count did not go back nor grow by more than 2*10^12, and the event was running whenever it was
      enabled. */
  ghost predicate Unmultiplexed(has: seq<bool>, was: seq<Reading>, now: seq<Reading>)
    requires |has| == |was| == |now|
  {
    forall i :: 0 <= i < |has| && has[i] ==> Plainly(was[i], now[i])
  }

  lemma {:induction false} PassIsDifference(has: seq<bool>, was: seq<Reading>, now: seq<Reading>, n: nat)
    requires n <= |has| == |was| == |now| && Unmultiplexed(has, was, now)
    ensures CountSum(has, was, n) + DeltaSum(has, was, now, n) == CountSum(has, Kept(has, was, now), n)
  {
    if n > 0 {
      PassIsDifference(has, was, now, n - 1);
      if has[n - 1] {
        DeltaIsDifference(was[n - 1], now[n - 1]);
      }
    }
  }

  // ---- whole runs ----

  predicate ForCpus(run: seq<seq<Reading>>, cpus: nat) { forall k :: 0 <= k < |run| ==> |run[k]| == cpus }

  /** The readings kept after the first m passes. */
  function KeptAfter(has: seq<bool>, was: seq<Reading>, run: seq<seq<Reading>>, m: nat): (r: seq<Reading>)
    requires |has| == |was| && ForCpus(run, |has|) && m <= |run|
    ensures |r| == |has|
  {
    if m == 0 then was else Kept(has, KeptAfter(has, was, run, m - 1), run[m - 1])
  }

  /** What pass number k returns. */
  function PassTotal(has: seq<bool>, was: seq<Reading>, run: seq<seq<Reading>>, k: nat): nat
    requires |has| == |was| && ForCpus(run, |has|) && k < |run|
  {
    DeltaSum(has, KeptAfter(has, was, run, k), run[k], |has|)
  }

  function RunTotal(has: seq<bool>, was: seq<Reading>, run: seq<seq<Reading>>, m: nat): nat
    requires |has| == |was| && ForCpus(run, |has|) && m <= |run|
  {
    if m == 0 then 0 else RunTotal(has, was, run, m - 1) + PassTotal(has, was, run, m - 1)
  }

  ghost function RunExact(has: seq<bool>, was: seq<Reading>, run: seq<seq<Reading>>, m: nat): real
    requires |has| == |was| && ForCpus(run, |has|) && m <= |run|
  {
    if m == 0 then 0.0 else
      RunExact(has, was, run, m - 1) + ExactSum(has, KeptAfter(has, was, run, m - 1), run[m - 1], |has|)
  }

  /** Over any run the totals stay within one half per CPU and pass of the exact scaled sum over accepted readings. */
  lemma {:induction false} RunIsClose(has: seq<bool>, was: seq<Reading>, run: seq<seq<Reading>>, m: nat)
    requires |has| == |was| && ForCpus(run, |has|) && m <= |run|
    ensures var e := RunTotal(has, was, run, m) as real - RunExact(has, was, run, m);
            -0.5 * (m * |has|) as real <= e <= 0.5 * (m * |has|) as real
  {
    if m > 0 {
      RunIsClose(has, was, run, m - 1);
      PassIsClose(has, KeptAfter(has, was, run, m - 1), run[m - 1], |has|);
      assert m * |has| == (m - 1) * |has| + |has|;
    }
  }

  /** No pass returns more than 2*10^12 per CPU. */
  lemma PassTotalIsBounded(has: seq<bool>, was: seq<Reading>, run: seq<seq<Reading>>, k: nat)
    requires |has| == |was| && ForCpus(run, |has|) && k < |run|
    ensures PassTotal(has, was, run, k) <= |has| * 2_000_000_000_000
  {
    PassIsBounded(has, KeptAfter(has, was, run, k), run[k], |has|);
  }

  /** The baseline of CPU i in pass k: what was read in the pass before, used or not. */
  function Before(was: seq<Reading>, run: seq<seq<Reading>>, k: nat, i: nat): Reading
    requires ForCpus(run, |was|) && k <= |run| && i < |was|
  {
    if k == 0 then was[i] else run[k - 1][i]
  }

  /** Every reading taken is the next baseline. */
  lemma KeptIsLast(has: seq<bool>, was: seq<Reading>, run: seq<seq<Reading>>, m: nat, i: nat)
    requires |has| == |was| && ForCpus(run, |has|) && m <= |run| && i < |has|
    ensures has[i] ==> KeptAfter(has, was, run, m)[i] == Before(was, run, m, i)
  {
  }

  lemma {:induction false} SameCounts(has: seq<bool>, a: seq<Reading>, b: seq<Reading>, n: nat)
    requires n <= |has| == |a| == |b| && forall i :: 0 <= i < |has| && has[i] ==> a[i] == b[i]
    ensures CountSum(has, a, n) == CountSum(has, b, n)
  {
    if n > 0 {
      SameCounts(has, a, b, n - 1);
    }
  }

  lemma {:induction false} RunAddsUp(has: seq<bool>, was: seq<Reading>, run: seq<seq<Reading>>, m: nat)
    requires |has| == |was| && ForCpus(run, |has|) && m <= |run|
    requires forall k :: 0 <= k < m ==> Unmultiplexed(has, KeptAfter(has, was, run, k), run[k])
    ensures CountSum(has, was, |has|) + RunTotal(has, was, run, m) == CountSum(has, KeptAfter(has, was, run, m), |has|)
  {
    if m > 0 {
      RunAddsUp(has, was, run, m - 1);
      PassIsDifference(has, KeptAfter(has, was, run, m - 1), run[m - 1], |has|);
    }
  }

  /** If in every pass, on every CPU with an event, the count did not go back nor grow by more than 2*10^12, and the
      event ran whenever it was enabled, the totals add up to the difference of the raw counts. */
  lemma RunIsDifference(has: seq<bool>, was: seq<Reading>, run: seq<seq<Reading>>, m: nat)
    requires |has| == |was| && ForCpus(run, |has|) && m <= |run|
    requires forall k: nat, i: nat {:trigger Before(was, run, k, i)} :: k < m && i < |has| && has[i] ==>
               var a, b := Before(was, run, k, i), run[k][i];
               a.total <= b.total <= a.total + 2_000_000_000_000 && a.running < b.running &&
               b.enabled + a.running == a.enabled + b.running
    ensures CountSum(has, was, |has|) + RunTotal(has, was, run, m) ==
            CountSum(has, if m == 0 then was else run[m - 1], |has|)
  {
    forall k | 0 <= k < m
      ensures Unmultiplexed(has, KeptAfter(has, was, run, k), run[k])
    {
      forall i | 0 <= i < |has| && has[i]
        ensures Plainly(KeptAfter(has, was, run, k)[i], run[k][i])
      {
        KeptIsLast(has, was, run, k, i);
        assert KeptAfter(has, was, run, k)[i] == Before(was, run, k, i);
      }
    }
    RunAddsUp(has, was, run, m);
    forall i | 0 <= i < |has| && has[i]
      ensures KeptAfter(has, was, run, m)[i] == (if m == 0 then was else run[m - 1])[i]
    {
      KeptIsLast(has, was, run, m, i);
    }
    SameCounts(has, KeptAfter(has, was, run, m), if m == 0 then was else run[m - 1], |has|);
  }

  lemma {:induction false} KeptIsForgotten(has: seq<bool>, was: seq<Reading>, run: seq<seq<Reading>>,
      other: seq<Reading>, k: nat, m: nat)
    requires |has| == |was| == |other| && ForCpus(run, |has|) && k < |run| && m <= |run|
    ensures ForCpus(run[k := other], |has|)
    ensures m <= k || m >= k + 2 ==> KeptAfter(has, was, run[k := other], m) == KeptAfter(has, was, run, m)
    decreases m
  {
    if m > 0 {
      KeptIsForgotten(has, was, run, other, k, m - 1);
      if m == k + 2 {
        KeptIsForgotten(has, was, run, other, k, k);
        SkippedStaysPut(has, was, run, other, k);
      }
    }
  }

  /** The pass after k replaces all that pass k kept. */
  lemma SkippedStaysPut(has: seq<bool>, was: seq<Reading>, run: seq<seq<Reading>>, other: seq<Reading>, k: nat)
    requires |has| == |was| == |other| && ForCpus(run, |has|) && k + 1 < |run|
    requires ForCpus(run[k := other], |has|) && KeptAfter(has, was, run[k := other], k) == KeptAfter(has, was, run, k)
    ensures KeptAfter(has, was, run[k := other], k + 2) == KeptAfter(has, was, run, k + 2)
  {
    var run' := run[k := other];
    assert KeptAfter(has, was, run', k + 1) == Kept(has, KeptAfter(has, was, run, k), other);
    assert KeptAfter(has, was, run, k + 1) == Kept(has, KeptAfter(has, was, run, k), run[k]);
  }

  /** Whatever was read in pass k, rejected or not, it touches the totals of passes k and k + 1 only. */
  lemma ReadingIsForgotten(has: seq<bool>, was: seq<Reading>, run: seq<seq<Reading>>, other: seq<Reading>, k: nat,
      j: nat)
    requires |has| == |was| == |other| && ForCpus(run, |has|) && k < |run| && j < |run| && j != k && j != k + 1
    ensures ForCpus(run[k := other], |has|) && PassTotal(has, was, run[k := other], j) == PassTotal(has, was, run, j)
  {
    KeptIsForgotten(has, was, run, other, k, j);
  }
}
