/** What the published intervals and energies add up to, over any number of passes, stops and starts. */
module CounterSums {
  import opened Words
  import opened Printer
  import opened NodeCounters
  import opened Pass
  import opened NodeCountersKept

  // ---- intervals ----

  /** The intervals of the records after number i, up to and including number j. */
  function IntervalSum(p: seq<Record>, i: nat, j: nat): nat
    requires i <= j < |p| && Records(p)
    decreases j
  {
    if i == j then 0 else IntervalSum(p, i, j - 1) + p[j][INTV]
  }

  /** How often the clock went back between records i and j. */
  function Setbacks(p: seq<Record>, i: nat, j: nat): nat
    requires i <= j < |p| && Records(p)
    decreases j
  {
    if i == j then 0 else Setbacks(p, i, j - 1) + if p[j][TS] < p[j - 1][TS] then 1 else 0
  }

  lemma Sub64Is(a: uint64, b: uint64)
    ensures Sub64(a, b) == if b <= a then a - b else a - b + TWO64
  {
  }

  /** Neighbouring records: the later one's interval is the distance of their timestamps. */
  ghost predicate Chained(p: seq<Record>)
    requires Records(p)
  {
    forall k :: 0 < k < |p| ==> p[k][INTV] == Sub64(p[k][TS], p[k - 1][TS])
  }

  /** Intervals telescope: their sum is the distance of the two timestamps, plus 2^64 for each setback of the clock. */
  lemma {:induction false} IntervalsTelescope(p: seq<Record>, i: nat, j: nat)
    requires i <= j < |p| && Records(p) && Chained(p)
    ensures p[i][TS] + IntervalSum(p, i, j) == p[j][TS] + TWO64 * Setbacks(p, i, j)
    decreases j
  {
    if i < j {
      IntervalsTelescope(p, i, j - 1);
      Sub64Is(p[j][TS], p[j - 1][TS]);
    }
  }

  /** They add up exactly if and only if the clock never went back. */
  lemma {:induction false} NoSetbacks(p: seq<Record>, i: nat, j: nat)
    requires i <= j < |p| && Records(p)
    ensures Setbacks(p, i, j) == 0 <==> forall k :: i < k <= j ==> p[k - 1][TS] <= p[k][TS]
    decreases j
  {
    if i < j {
      NoSetbacks(p, i, j - 1);
    }
  }

  lemma ExactIntervals(p: seq<Record>, i: nat, j: nat)
    requires i <= j < |p| && Records(p) && Chained(p)
    ensures p[i][TS] + IntervalSum(p, i, j) == p[j][TS] <==> forall k :: i < k <= j ==> p[k - 1][TS] <= p[k][TS]
  {
    IntervalsTelescope(p, i, j);
    NoSetbacks(p, i, j);
  }

  // ---- energy ----

  /** The masked difference is the distance modulo 2^32, as long as the kept reading, which is not masked, is not too
      large; it always is small enough when its upper 32 bits read zero. */
  lemma EnergyDeltaMeaning(last: uint64, raw: uint64)
    ensures EnergyDelta(last, raw) == (raw - last) % TWO32 <==> last <= raw % TWO32 + TWO32
  {
    var e := raw % TWO32;
    var q := raw / TWO32;
    assert raw - last == TWO32 * q + (e - last);
    if e >= last {
      assert (raw - last) % TWO32 == e - last;
    } else if last <= e + TWO32 {
      assert raw - last == TWO32 * (q - 1) + (e + TWO32 - last);
      assert (raw - last) % TWO32 == e + TWO32 - last;
    }
  }

  lemma ModDifference(before: nat, now: nat)
    ensures (now % TWO32 - before % TWO32) % TWO32 == (now - before) % TWO32
  {
    var a, b := now / TWO32, before / TWO32;
    assert now % TWO32 - before % TWO32 == (now - before) + TWO32 * (b - a);
  }

  /** For a counter that reads modulo 2^32, the difference is the growth if and only if that is below 2^32. */
  lemma EnergyDeltaIsGrowth(before: nat, now: nat)
    requires before <= now
    ensures EnergyDelta(before % TWO32, now % TWO32) == now - before <==> now - before < TWO32
  {
    EnergyDeltaMeaning(before % TWO32, now % TWO32);
    ModDifference(before, now);
  }

  function EnergySum(p: seq<Record>, m: nat): nat
    requires m <= |p| && Records(p)
  {
    if m == 0 then 0 else EnergySum(p, m - 1) + p[m - 1][ENERGY]
  }

  /** `raws` are readings modulo 2^32 of a counter that stood at grown[0], grown[1], ... and never grew by 2^32 or more
      between two of them. */
  ghost predicate ReadsCounter(raws: seq<uint64>, grown: seq<nat>, m: nat) {
    m <= |raws| && m <= |grown| && (forall i :: 0 <= i < m ==> raws[i] == grown[i] % TWO32) &&
    forall i :: 0 < i < m ==> grown[i - 1] <= grown[i] < grown[i - 1] + TWO32
  }

  /** The published energies add up to the first raw reading plus everything the counter grew by since. */
  lemma {:induction false} EnergiesAddUp(p: seq<Record>, raws: seq<uint64>, grown: seq<nat>, m: nat)
    requires Records(p) && 0 < m <= |p| <= |raws| && EnergiesPublished(p, raws) && ReadsCounter(raws, grown, m)
    ensures grown[0] + EnergySum(p, m) == raws[0] + grown[m - 1]
  {
    if m == 1 {
      assert EnergyBefore(raws, 0) == 0;
      assert EnergySum(p, 1) == p[0][ENERGY];
    } else {
      EnergiesAddUp(p, raws, grown, m - 1);
      assert EnergyBefore(raws, m - 1) == grown[m - 2] % TWO32;
      EnergyDeltaIsGrowth(grown[m - 2], grown[m - 1]);
    }
  }
}
