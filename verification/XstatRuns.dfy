/** What holds in every state of every run of the xstat module: safety of records, samplers and contexts. */
module XstatRuns {
  import opened Words
  import opened Printer
  import opened NodeCounters
  import opened RingBuffer
  import opened Pass
  import opened NodeMachine
  import opened NodeSafety
  import opened NodeCountersKept
  import opened CounterSums
  import opened XstatSystem

  /** Node i after a run from module load. */
  function NodeAfter(count: nat, es: seq<Event>, i: nat): (n: NodeState)
    requires i < count
    ensures Shape(n)
  {
    After(Loaded(count), es).nodes[i]
  }

  lemma NodeIsGood(count: nat, es: seq<Event>, i: nat)
    requires i < count
    ensures GoodNode(After(Loaded(count), es), i)
  {
    RunsAreGood(count, es);
  }

  // ---- records ----

  /** No delivered record is torn: it is what one pass over the counters returned; deliveries are in publication order,
      so no record is delivered twice. */
  lemma DeliveredRecords(count: nat, es: seq<Event>, i: nat)
    requires i < count
    ensures var h := NodeAfter(count, es, i).h;
            (forall k :: 0 <= k < |h.delivered| ==>
               h.delivered[k].index < |h.published| == |h.passes| &&
               h.delivered[k].rec == h.published[h.delivered[k].index] == h.passes[h.delivered[k].index]) &&
            forall j, k :: 0 <= j < k < |h.delivered| ==> h.delivered[j].index < h.delivered[k].index
  {
    NodeIsGood(count, es, i);
  }

  /** Unless the sampler is writing, the stored records are the published ones that are still in the ring, in order. */
  lemma StoredRecords(count: nat, es: seq<Event>, i: nat)
    requires i < count
    ensures var n := NodeAfter(count, es, i); var h := n.h;
            h.gone <= |h.published| == |h.fates| &&
            (forall k :: 0 <= k < |h.fates| ==> (h.fates[k].InRing? <==> h.gone <= k)) &&
            (!n.holder.SamplerHolds? ==> Stored(n.ring) == h.published[h.gone..])
  {
    NodeIsGood(count, es, i);
  }

  /** How many of the first m records were delivered, overwritten, reset away. */
  function Delivereds(fates: seq<Fate>, m: nat): nat
    requires m <= |fates|
  {
    if m == 0 then 0 else Delivereds(fates, m - 1) + if fates[m - 1].Delivered? then 1 else 0
  }

  function Overwrittens(fates: seq<Fate>, m: nat): nat
    requires m <= |fates|
  {
    if m == 0 then 0 else Overwrittens(fates, m - 1) + if fates[m - 1].Overwritten? then 1 else 0
  }

  function Cleareds(fates: seq<Fate>, m: nat): nat
    requires m <= |fates|
  {
    if m == 0 then 0 else Cleareds(fates, m - 1) + if fates[m - 1].Cleared? then 1 else 0
  }

  /** c deliveries are of the first m records, the others of later ones. */
  ghost predicate SplitAt(h: History, c: nat, m: nat) {
    c <= |h.delivered| && (c > 0 ==> h.delivered[c - 1].index < m) && (c < |h.delivered| ==> h.delivered[c].index >= m)
  }

  lemma NextSplit(h: History, c: nat, m: nat)
    requires FatesKept(h) && m < |h.fates| && SplitAt(h, c, m)
    ensures SplitAt(h, if h.fates[m].Delivered? then c + 1 else c, m + 1)
  {
    if h.fates[m].Delivered? {
      var pos := h.fates[m].pos;
      assert c <= pos && h.delivered[c].index <= h.delivered[pos].index == m;
    }
  }

  ghost predicate SplitsOn(h: History, c: nat, m: nat) {
    m < |h.fates| && SplitAt(h, c, m) ==> SplitAt(h, if h.fates[m].Delivered? then c + 1 else c, m + 1)
  }

  lemma {:induction false} SplitsAdd(h: History, m: nat)
    requires m <= |h.fates| && forall c: nat, k: nat :: SplitsOn(h, c, k)
    requires SplitAt(h, 0, 0)
    ensures SplitAt(h, Delivereds(h.fates, m), m)
  {
    if m > 0 {
      SplitsAdd(h, m - 1);
      assert SplitsOn(h, Delivereds(h.fates, m - 1), m - 1);
    }
  }

  /** The delivered among the first m records are the first deliveries. */
  lemma DeliveredsAmong(h: History, m: nat)
    requires FatesKept(h) && m <= |h.fates|
    ensures SplitAt(h, Delivereds(h.fates, m), m)
  {
    forall c: nat, k: nat
      ensures SplitsOn(h, c, k)
    {
      if k < |h.fates| && SplitAt(h, c, k) {
        NextSplit(h, c, k);
      }
    }
    SplitsAdd(h, m);
  }

  lemma {:induction false} FatesAmong(h: History, m: nat)
    requires FatesKept(h) && m <= |h.fates|
    ensures var f := h.fates;
            m == Delivereds(f, m) + Overwrittens(f, m) + Cleareds(f, m) + (if m < h.gone then 0 else m - h.gone)
  {
    if m > 0 {
      FatesAmong(h, m - 1);
    }
  }

  /** Every published record is counted once: delivered, overwritten, reset away, or still stored. */
  lemma RecordsAreConserved(count: nat, es: seq<Event>, i: nat)
    requires i < count
    ensures var n := NodeAfter(count, es, i); var h := n.h;
            |h.published| == |h.fates| ==
              |h.delivered| + Overwrittens(h.fates, |h.fates|) + Cleareds(h.fates, |h.fates|) + n.ring.size
  {
    NodeIsGood(count, es, i);
    var n := NodeAfter(count, es, i);
    DeliveredsAmong(n.h, |n.h.fates|);
    FatesAmong(n.h, |n.h.fates|);
  }

  /** A read of `last` shows the most recently published record, whatever was drained or reset before. */
  lemma LastShowsTheNewest(count: nat, es: seq<Event>, i: nat, k: nat)
    requires i < count
    ensures var h := NodeAfter(count, es, i).h;
            k < |h.shown| ==> h.shown[k].at <= |h.published| &&
                              (h.shown[k].at > 0 ==> h.shown[k].rec == h.published[h.shown[k].at - 1])
  {
    NodeIsGood(count, es, i);
  }

  // ---- samplers and contexts ----

  /** At most one sampler of a node is ever alive, and it is the newest thread. */
  lemma OneSamplerAlive(count: nat, es: seq<Event>, i: nat, t: nat)
    requires i < count
    ensures var n := NodeAfter(count, es, i);
            t < |n.threads| && !n.threads[t].pc.Done? ==> t == |n.threads| - 1 && n.task == TaskIs(t)
  {
    NodeIsGood(count, es, i);
    assert Status(After(Loaded(count), es), i);
  }

  /** No context is freed twice, no event released twice, and neither is touched afterwards; a context that is not freed
      belongs to the sampler that is alive, in its counter's word, and exactly such contexts' events are live. */
  lemma ContextsAreOwned(count: nat, es: seq<Event>, i: nat, c: nat)
    requires i < count
    ensures var n := NodeAfter(count, es, i);
            !n.fault && EventsKept(n) &&
            (c < |n.cells| ==>
               n.cells[c].freed == 1 ||
               (n.cells[c].freed == 0 && !CurrentPc(n).Done? && IsPerf(n.cells[c].slot) &&
                 n.kept.ctxs[n.cells[c].slot] == c))
  {
    NodeIsGood(count, es, i);
  }

  /** Whatever a node's sampler is about to read through is there: at the restart of a perf counter its word is a
      context of that counter that was not freed, all of whose events are live, at the restart of an IPMI group its
      static context; and at the exit of a perf counter such a context is there to be freed. */
  ghost predicate FindsIts(n: NodeState, k: nat)
    requires Shape(n) && k < XSTAT_NCNT
  {
    var id := n.kept.ctxs[k];
    if 2 <= k <= 8 then Intact(n, id) && n.cells[id].slot == k else k >= 13 ==> id == GroupAddress(k)
  }

  lemma HeldIsFound(n: NodeState, k: nat)
    requires Shape(n) && ContextsKept(n) && k < XSTAT_NCNT && Owned(CurrentPc(n), k)
    ensures FindsIts(n, k)
  {
    if IsPerf(k) {
      HeldIsAlive(n, n.kept.ctxs[k]);
      AliveIsIntact(n, n.kept.ctxs[k]);
    }
  }

  lemma CurrentFinds(n: NodeState, k: nat)
    requires Shape(n) && ContextsKept(n) && k < XSTAT_NCNT
    ensures CurrentPc(n) == Restart(k) || CurrentPc(n) == Exit(k) ==> FindsIts(n, k)
  {
    if CurrentPc(n) == Restart(k) || CurrentPc(n) == Exit(k) {
      HeldIsFound(n, k);
    }
  }

  lemma ToldIsThere(s: System, i: nat)
    requires i < |s.nodes| && Status(s, i) && s.ctrl == Stopping(i, false)
    ensures var n := s.nodes[i]; n.task.TaskIs? && n.task.t < |n.threads| && !n.threads[n.task.t].pc.Done?
  {
  }

  /** In every run every restart and exit finds what it follows, and whenever stop is about to set a node's flag there
      is a thread to tell that is not over. */
  lemma UsesFindTheirs(count: nat, es: seq<Event>, i: nat, k: nat)
    requires i < count && k < XSTAT_NCNT
    ensures var s, n := After(Loaded(count), es), NodeAfter(count, es, i);
            (CurrentPc(n) == Restart(k) || CurrentPc(n) == Exit(k) ==> FindsIts(n, k)) &&
            (s.ctrl == Stopping(i, false) ==>
               n.task.TaskIs? && n.task.t < |n.threads| && !n.threads[n.task.t].pc.Done?)
  {
    NodeIsGood(count, es, i);
    var s := After(Loaded(count), es);
    CurrentFinds(s.nodes[i], k);
    if s.ctrl == Stopping(i, false) {
      ToldIsThere(s, i);
    }
  }

  lemma NothingHeld(n: NodeState)
    requires EventsKept(n) && forall c :: 0 <= c < |n.cells| ==> n.cells[c].freed == 1
    ensures n.live == {}
  {
    forall e: CpuEvent
      ensures e !in n.live
    {
    }
  }

  /** When the module is off and `ctrl_lock` is free, no sampler is alive, every context was freed exactly once, and the
      kernel holds none of the events that were ever created for the node. */
  lemma OffMeansQuiet(count: nat, es: seq<Event>, i: nat)
    requires i < count
    ensures var s, n := After(Loaded(count), es), NodeAfter(count, es, i);
            !s.on && s.ctrl.Free? ==>
              n.task.NoTask? && !n.holder.SamplerHolds? &&
                (forall t :: 0 <= t < |n.threads| ==> n.threads[t].pc.Done?) &&
              n.live == {} && forall c :: 0 <= c < |n.cells| ==> n.cells[c].freed == 1
  {
    NodeIsGood(count, es, i);
    var s := After(Loaded(count), es);
    if !s.on && s.ctrl.Free? {
      assert Status(s, i);
      forall c: nat | c < |s.nodes[i].cells|
        ensures s.nodes[i].cells[c].freed == 1
      {
        ContextsAreOwned(count, es, i, c);
      }
      NothingHeld(s.nodes[i]);
    }
  }

  lemma SamplingNow(s: System, i: nat)
    requires i < |s.nodes| && Status(s, i) && s.on && s.ctrl.Free?
    ensures Sampling(s.nodes[i])
  {
  }

  /** And when it is on with `ctrl_lock` free, exactly the newest thread of every node samples. */
  lemma OnMeansSampling(count: nat, es: seq<Event>, i: nat)
    requires i < count
    ensures var s, n := After(Loaded(count), es), NodeAfter(count, es, i);
            s.on && s.ctrl.Free? ==>
              n.threads != [] && n.task == TaskIs(|n.threads| - 1) && !n.threads[|n.threads| - 1].stop &&
              !CurrentPc(n).Done? && !CurrentPc(n).Exit?
  {
    NodeIsGood(count, es, i);
    var s := After(Loaded(count), es);
    if s.on && s.ctrl.Free? {
      SamplingNow(s, i);
    }
  }

  // ---- timestamps and energy ----

  lemma SuffixChained(p: seq<Record>, gone: nat)
    requires Records(p) && IntervalsPublished(p) && gone < |p|
    ensures Records(p[gone..]) && Chained(p[gone..])
  {
    var s := p[gone..];
    forall k | 0 < k < |s|
      ensures s[k][INTV] == Sub64(s[k][TS], s[k - 1][TS])
    {
      assert TsBefore(p, gone + k) == p[gone + k - 1][TS];
    }
  }

  /** Neighbouring records differ by the later one's interval, across wraps, drains, resets, stops and starts. */
  lemma PublishedIntervals(count: nat, es: seq<Event>, i: nat, k: nat)
    requires i < count
    ensures var p := NodeAfter(count, es, i).h.published;
            Records(p) && IntervalsPublished(p) && (0 < k < |p| ==> p[k][INTV] == Sub64(p[k][TS], p[k - 1][TS]))
  {
    NodeIsGood(count, es, i);
    var p := NodeAfter(count, es, i).h.published;
    if 0 < k < |p| {
      assert TsBefore(p, k) == p[k - 1][TS];
    }
  }

  /** In every ring the intervals after the first record add up to the distance between the first and last timestamp,
      if and only if the clock did not go back between them. */
  lemma StoredIntervals(count: nat, es: seq<Event>, i: nat)
    requires i < count
    ensures var n := NodeAfter(count, es, i); var s := Stored(n.ring);
            !n.holder.SamplerHolds? && s != [] ==>
              Records(s) && Chained(s) &&
              (s[0][TS] + IntervalSum(s, 0, |s| - 1) == s[|s| - 1][TS] <==>
                forall k :: 0 < k < |s| ==> s[k - 1][TS] <= s[k][TS])
  {
    StoredRecords(count, es, i);
    PublishedIntervals(count, es, i, 0);
    var n := NodeAfter(count, es, i);
    var s := Stored(n.ring);
    if !n.holder.SamplerHolds? && s != [] {
      SuffixChained(n.h.published, n.h.gone);
      ExactIntervals(s, 0, |s| - 1);
    }
  }

  /** Over a whole run the published energies add up to the first raw reading plus the growth of the counter. */
  lemma PublishedEnergy(count: nat, es: seq<Event>, i: nat, grown: seq<nat>)
    requires i < count
    ensures var h := NodeAfter(count, es, i).h;
            Records(h.published) && |h.published| <= |h.energy| &&
            (h.published != [] && ReadsCounter(h.energy, grown, |h.published|) ==>
               grown[0] + EnergySum(h.published, |h.published|) == h.energy[0] + grown[|h.published| - 1])
  {
    NodeIsGood(count, es, i);
    var h := NodeAfter(count, es, i).h;
    if h.published != [] && ReadsCounter(h.energy, grown, |h.published|) {
      EnergiesAddUp(h.published, h.energy, grown, |h.published|);
    }
  }
}
