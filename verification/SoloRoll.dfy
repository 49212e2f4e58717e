/**
 The two models of a roll agree: a sampler thread that is left alone takes its node, in 34 small steps, exactly where
 `RollBuffer` of the node's class takes it in one call.
 */
module SoloRoll {
  import opened Words
  import opened Printer
  import opened NodeCounters
  import opened RingBuffer
  import opened Pass
  import opened NodeMachine
  import opened NodeSafety

  const ROLL_STEPS: nat := 2 * XSTAT_NCNT + 2

  /** The node after j steps of thread t alone, whose restarts read `raws`. */
  function Alone(n: NodeState, t: nat, raws: Record, j: nat): (n': NodeState)
    requires Shape(n) && t < |n.threads|
    ensures Shape(n') && |n'.threads| == |n.threads|
  {
    if j == 0 then n else
      var m := Alone(n, t, raws, j - 1);
      RunOnThreads(m, t, if j <= |raws| then raws[j - 1] else 0, []);
      RunThread(m, t, if j <= |raws| then raws[j - 1] else 0, [])
  }

  /** Counter k was restarted and nothing else happened. */
  predicate RestartedOne(m: NodeState, m': NodeState, t: nat, k: nat, raw: uint64)
    requires WellFormed(m.kept) && k < XSTAT_NCNT && t < |m'.threads|
  {
    m'.kept == RestartOne(m.kept, k, raw) && m'.threads[t].pc == Restart(k + 1) && m'.ring == m.ring &&
    m'.holder == m.holder
  }

  lemma OneRestart(n: NodeState, t: nat, k: nat, raw: uint64)
    requires Shape(n) && t < |n.threads| && n.threads[t].pc == Restart(k) && k < XSTAT_NCNT
    ensures |RunThread(n, t, raw, []).threads| == |n.threads| && RestartedOne(n, RunThread(n, t, raw, []), t, k, raw)
  {
  }

  /** The first j counters were restarted. */
  predicate RestartedSome(n: NodeState, m: NodeState, t: nat, raws: Record, j: nat)
    requires WellFormed(n.kept) && |raws| == XSTAT_NCNT && j <= XSTAT_NCNT && t < |m.threads|
  {
    m.kept == Restarted(n.kept, raws, j) && m.threads[t].pc == Restart(j) && m.ring == n.ring && m.holder == n.holder
  }

  lemma RestartedMore(n: NodeState, m: NodeState, m': NodeState, t: nat, raws: Record, j: nat)
    requires WellFormed(n.kept) && WellFormed(m.kept) && |raws| == XSTAT_NCNT && j < XSTAT_NCNT
    requires t < |m.threads| && t < |m'.threads| && RestartedSome(n, m, t, raws, j)
    requires RestartedOne(m, m', t, j, raws[j])
    ensures RestartedSome(n, m', t, raws, j + 1)
  {
    assert Restarted(n.kept, raws, j + 1) == RestartOne(Restarted(n.kept, raws, j), j, raws[j]);
  }

  lemma AloneNext(n: NodeState, t: nat, raws: Record, j: nat)
    requires Shape(n) && t < |n.threads|
    ensures Alone(n, t, raws, j + 1) == RunThread(Alone(n, t, raws, j), t, if j < |raws| then raws[j] else 0, [])
  {
  }

  lemma {:induction false} Restarts(n: NodeState, t: nat, raws: Record, j: nat) returns (m: NodeState)
    requires Shape(n) && t < |n.threads| && n.threads[t].pc == Restart(0) && j <= XSTAT_NCNT == |raws|
    ensures m == Alone(n, t, raws, j) && RestartedSome(n, m, t, raws, j)
  {
    if j == 0 {
      return n;
    }
    var before := Restarts(n, t, raws, j - 1);
    m := Restart1(n, before, t, raws, j - 1);
    AloneNext(n, t, raws, j - 1);
  }

  lemma Restart1(n: NodeState, m: NodeState, t: nat, raws: Record, j: nat) returns (m': NodeState)
    requires Shape(n) && Shape(m) && t < |m.threads| && |raws| == XSTAT_NCNT && j < XSTAT_NCNT
    requires RestartedSome(n, m, t, raws, j)
    ensures m' == RunThread(m, t, raws[j], []) && |m'.threads| == |m.threads| && RestartedSome(n, m', t, raws, j + 1)
  {
    OneRestart(m, t, j, raws[j]);
    m' := RunThread(m, t, raws[j], []);
    RestartedMore(n, m, m', t, raws, j);
  }

  lemma {:induction false} Copies(n: NodeState, t: nat, raws: Record, k: nat)
    requires Shape(n) && t < |n.threads| && n.threads[t].pc == Restart(0) && n.holder.Nobody? && |raws| == XSTAT_NCNT
    requires k <= XSTAT_NCNT
    ensures var m := Alone(n, t, raws, XSTAT_NCNT + 1 + k);
            m.kept == Passed(n.kept, raws) && m.threads[t].pc == Copy(k) &&
            m.ring == Ring(m.ring.slots, n.ring.base, n.ring.next, n.ring.size) &&
            (forall i :: 0 <= i < XSTAT_NBUF && i != n.ring.next ==> m.ring.slots[i] == n.ring.slots[i]) &&
            forall j :: 0 <= j < k ==> m.ring.slots[n.ring.next][j] == m.kept.working[j]
  {
    if k == 0 {
      var m := Restarts(n, t, raws, XSTAT_NCNT);
      PassMeaning(n.kept, raws);
    } else {
      Copies(n, t, raws, k - 1);
    }
  }

  lemma RollAlone(n: NodeState, t: nat, raws: Record)
    requires Shape(n) && t < |n.threads| && n.threads[t].pc == Restart(0) && n.holder.Nobody? && |raws| == XSTAT_NCNT
    ensures var n' := Alone(n, t, raws, ROLL_STEPS); var rec := Passed(n.kept, raws).working;
            n'.kept == Passed(n.kept, raws) && n'.ring == RollDropOldest(n.ring, rec) &&
            n'.threads[t].pc == Check && n'.holder.Nobody? && n'.h.published[|n'.h.published| - 1..] == [rec]
  {
    Copies(n, t, raws, XSTAT_NCNT);
    var m := Alone(n, t, raws, ROLL_STEPS - 1);
    var rec := m.kept.working;
    assert m.ring.slots[n.ring.next] == rec;
    assert m.ring.slots == n.ring.slots[n.ring.next := rec];
  }
}
