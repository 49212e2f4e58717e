/**
 One pass of a node's sampler over its counters. Raw readings (the clock, the energy register, and what the
 other counters' `restart` returns) come from outside; the words the counters keep in `ctxs` do not.
 */
module Pass {
  import opened Words
  import opened Printer
  import opened NodeCounters

  /** What a sampler keeps between passes: the context words and the working record. */
  datatype Sampler = Sampler(ctxs: seq<nat>, working: Record)

  predicate WellFormed(p: Sampler) { |p.ctxs| == XSTAT_NCNT == |p.working| }

  /** `energy_restart`: the previous raw reading is kept unmasked, the new one is masked to 32 bits. */
  function EnergyDelta(last: nat, raw: uint64): uint64 {
    var e := raw % TWO32;
    Sub64(if e < last then e + TWO32 else e, last)
  }

  /** The restart of counter i. The timestamp writes the two adjacent slots that the interval then reads. */
  function RestartOne(p: Sampler, i: nat, raw: uint64): (p': Sampler)
    requires WellFormed(p) && i < XSTAT_NCNT
    ensures WellFormed(p')
  {
    if i == TS then Sampler(p.ctxs[TS := p.working[TS]][TS + 1 := raw], p.working[TS := raw])
    else if i == INTV then p.(working := p.working[INTV := Sub64(p.ctxs[INTV], p.ctxs[INTV - 1])])
    else if i == ENERGY then Sampler(p.ctxs[ENERGY := raw], p.working[ENERGY := EnergyDelta(p.ctxs[ENERGY], raw)])
    else p.(working := p.working[i := raw])
  }

  /** The first n restarts of a pass. */
  function Restarted(p: Sampler, raws: Record, n: nat): (p': Sampler)
    requires WellFormed(p) && n <= XSTAT_NCNT == |raws|
    ensures WellFormed(p')
  {
    if n == 0 then p else RestartOne(Restarted(p, raws, n - 1), n - 1, raws[n - 1])
  }

  /** A pass in closed form: the interval is the distance of two timestamps, the energy the distance of two raw
      readings, everything else is what was read, and only the three kept words change. */
  function Passed(p: Sampler, raws: Record): (p': Sampler)
    requires WellFormed(p) && |raws| == XSTAT_NCNT
    ensures WellFormed(p')
  {
    Sampler(p.ctxs[TS := p.working[TS]][INTV := raws[TS]][ENERGY := raws[ENERGY]],
            raws[INTV := Sub64(raws[TS], p.working[TS])][ENERGY := EnergyDelta(p.ctxs[ENERGY], raws[ENERGY])])
  }

  lemma {:induction false} RestartedMeaning(p: Sampler, raws: Record, n: nat)
    requires WellFormed(p) && n <= XSTAT_NCNT == |raws|
    ensures var q, c := Restarted(p, raws, n), Passed(p, raws);
            q.working == c.working[..n] + p.working[n..] &&
            (n > TS ==> q.ctxs[TS] == p.working[TS] && q.ctxs[INTV] == raws[TS]) &&
            (forall i :: 0 <= i < XSTAT_NCNT && (n > ENERGY || i != ENERGY) && i > INTV ==> q.ctxs[i] == c.ctxs[i]) &&
            (n <= ENERGY ==> q.ctxs[ENERGY] == p.ctxs[ENERGY])
  {
    if n > 0 {
      RestartedMeaning(p, raws, n - 1);
    }
  }

  lemma PassMeaning(p: Sampler, raws: Record)
    requires WellFormed(p) && |raws| == XSTAT_NCNT
    ensures Restarted(p, raws, XSTAT_NCNT) == Passed(p, raws)
  {
    RestartedMeaning(p, raws, XSTAT_NCNT);
  }

  /** What a pass leaves, word by word. The record: interval and energy are distances, everything else is what was read.
      The kept words: the timestamp before and after, and the energy reading, unmasked. */
  predicate PassLeaves(p: Sampler, raws: Record, q: Sampler)
    requires WellFormed(p) && WellFormed(q) && |raws| == 16
  {
    var e: int, last: int := raws[10] % 0x1_0000_0000, p.ctxs[10];
    var now: int, was: int := raws[0], p.working[0];
    (forall i :: 0 <= i < 16 && i != 1 && i != 10 ==> q.working[i] == raws[i]) &&
    q.working[1] == (now - was) % 0x1_0000_0000_0000_0000 &&
    q.working[10] == (e - last + (if e < last then 0x1_0000_0000 else 0)) % 0x1_0000_0000_0000_0000 &&
    q.ctxs[0] == p.working[0] && q.ctxs[1] == raws[0] && q.ctxs[10] == raws[10] &&
    forall i :: 0 <= i < 16 && i != 0 && i != 1 && i != 10 ==> q.ctxs[i] == p.ctxs[i]
  }

  lemma PassedWords(p: Sampler, raws: Record)
    requires WellFormed(p) && |raws| == XSTAT_NCNT
    ensures PassLeaves(p, raws, Passed(p, raws))
  {
  }
}
