/** What every step of a node keeps, whoever moves. */
module NodeSafety {
  import opened Words
  import opened Printer
  import opened NodeCounters
  import opened RingBuffer
  import opened Pass
  import opened NodeMachine

  /** Where the current sampler is; threads before the last one are over. */
  function CurrentPc(n: NodeState): Pc { if n.threads == [] then Done else n.threads[|n.threads| - 1].pc }

  // ---- at most one sampler, and it holds the lock exactly while it copies ----

  ghost predicate OneSampler(n: NodeState) {
    (forall t :: 0 <= t < |n.threads| - 1 ==> n.threads[t].pc.Done?) &&
    (n.holder.SamplerHolds? <==> CurrentPc(n).Copy?) &&
    (n.holder.SamplerHolds? ==> n.holder.t == |n.threads| - 1)
  }

  lemma RunOnOthers(n: NodeState, t: nat, raw: uint64, events: seq<bool>)
    requires Shape(n) && t < |n.threads|
    ensures var n' := RunThread(n, t, raw, events);
            |n'.threads| == |n.threads| &&
            (forall i :: 0 <= i < |n.threads| && i != t ==> n'.threads[i] == n.threads[i]) &&
            (n.threads[t].pc.Done? ==> n' == n)
  {
    match n.threads[t].pc {
      case Init(k) =>
      case Restart(k) =>
      case Copy(k) =>
      case Exit(k) =>
      case _ =>
    }
  }

  lemma RunOnLock(n: NodeState, t: nat, raw: uint64, events: seq<bool>)
    requires Shape(n) && t < |n.threads|
    ensures |RunThread(n, t, raw, events).threads| == |n.threads|
    ensures var n' := RunThread(n, t, raw, events); var pc, pc' := n.threads[t].pc, n'.threads[t].pc;
            (!pc.Copy? && pc'.Copy? ==> n.holder.Nobody? && n'.holder == SamplerHolds(t)) &&
            (pc.Copy? && !pc'.Copy? ==> n'.holder.Nobody?) &&
            (pc.Copy? == pc'.Copy? ==> n'.holder == n.holder)
  {
    match n.threads[t].pc {
      case Init(k) =>
      case Restart(k) =>
      case Copy(k) =>
      case Exit(k) =>
      case _ =>
    }
  }

  /** A step of thread t is invisible to the other threads; it takes the lock only into Copy and gives it back only out
      of it. */
  lemma RunOnThreads(n: NodeState, t: nat, raw: uint64, events: seq<bool>)
    requires Shape(n) && t < |n.threads|
    ensures var n' := RunThread(n, t, raw, events);
            |n'.threads| == |n.threads| &&
            (forall i :: 0 <= i < |n.threads| && i != t ==> n'.threads[i] == n.threads[i]) &&
            (n.threads[t].pc.Done? ==> n' == n)
    ensures var n' := RunThread(n, t, raw, events); var pc, pc' := n.threads[t].pc, n'.threads[t].pc;
            (!pc.Copy? && pc'.Copy? ==> n.holder.Nobody? && n'.holder == SamplerHolds(t)) &&
            (pc.Copy? && !pc'.Copy? ==> n'.holder.Nobody?) &&
            (pc.Copy? == pc'.Copy? ==> n'.holder == n.holder)
  {
    RunOnOthers(n, t, raw, events);
    RunOnLock(n, t, raw, events);
  }

  lemma OneSamplerStep(n: NodeState, a: Step)
    requires Shape(n) && OneSampler(n)
    ensures OneSampler(Next(n, a)) && |Next(n, a).threads| == |n.threads|
  {
    if a.Run? && a.t < |n.threads| {
      RunOnThreads(n, a.t, a.raw, a.events);
    }
  }

  // ---- the working record is what the current pass returned ----

  ghost predicate PassKept(n: NodeState)
    requires Shape(n)
  {
    n.threads != [] ==>
      var th := n.threads[|n.threads| - 1];
      (th.pc.Restart? ==> |th.pass| == th.pc.k && forall i :: 0 <= i < th.pc.k ==> th.pass[i] == n.kept.working[i]) &&
      (th.pc.Copy? ==> th.pass == n.kept.working)
  }

  lemma RunOnWorking(n: NodeState, t: nat, raw: uint64, events: seq<bool>)
    requires Shape(n) && t < |n.threads|
    requires n.threads[t].pc.Restart? ==> n.threads[t].pc.k == XSTAT_NCNT
    ensures RunThread(n, t, raw, events).kept.working == n.kept.working
  {
    match n.threads[t].pc {
      case Init(k) =>
      case Restart(k) =>
      case Copy(k) =>
      case Exit(k) =>
      case _ =>
    }
  }

  lemma RunBeginsPass(n: NodeState, t: nat, raw: uint64, events: seq<bool>)
    requires Shape(n) && t < |n.threads|
    requires n.threads[t].pc.Restart? ==> n.threads[t].pc.k == XSTAT_NCNT
    ensures |RunThread(n, t, raw, events).threads| == |n.threads|
    ensures var th, th' := n.threads[t], RunThread(n, t, raw, events).threads[t];
            th'.pc.Restart? ==> th' == th || (th'.pc.k == 0 && th'.pass == [])
  {
    match n.threads[t].pc {
      case Init(k) =>
      case Restart(k) =>
      case Copy(k) =>
      case Exit(k) =>
      case _ =>
    }
  }

  lemma RunEndsPass(n: NodeState, t: nat, raw: uint64, events: seq<bool>)
    requires Shape(n) && t < |n.threads|
    requires n.threads[t].pc.Restart? ==> n.threads[t].pc.k == XSTAT_NCNT
    ensures |RunThread(n, t, raw, events).threads| == |n.threads|
    ensures var th, th' := n.threads[t], RunThread(n, t, raw, events).threads[t];
            th'.pc.Copy? ==> (th.pc.Copy? || th.pc.Restart?) && th'.pass == th.pass
  {
    match n.threads[t].pc {
      case Init(k) =>
      case Restart(k) =>
      case Copy(k) =>
      case Exit(k) =>
      case _ =>
    }
  }

  lemma PassKeptStep(n: NodeState, a: Step)
    requires Shape(n) && OneSampler(n) && PassKept(n)
    ensures PassKept(Next(n, a))
  {
    if a.Run? && a.t == |n.threads| - 1 {
      var pc := n.threads[a.t].pc;
      if pc.Restart? && pc.k < XSTAT_NCNT {
        RestartStepKeepsPass(n, a.t, pc.k, a.raw);
      } else {
        RunOnThreads(n, a.t, a.raw, a.events);
        RunOnWorking(n, a.t, a.raw, a.events);
        RunBeginsPass(n, a.t, a.raw, a.events);
        RunEndsPass(n, a.t, a.raw, a.events);
      }
    }
  }

  lemma RestartStepKeepsPass(n: NodeState, t: nat, k: nat, raw: uint64)
    requires Shape(n) && PassKept(n) && t == |n.threads| - 1 && n.threads[t].pc == Restart(k) && k < XSTAT_NCNT
    ensures PassKept(RestartStep(n, t, k, raw))
  {
  }

  // ---- the ring under concurrent use ----

  /** A sampler that holds the lock has overwritten the first k fields of the slot at `next` and nothing else. */
  ghost predicate Copying(n: NodeState, k: nat)
    requires Shape(n)
  {
    var s := n.h.settled;
    |s.slots| == XSTAT_NBUF && n.ring == Ring(n.ring.slots, s.base, s.next, s.size) && k <= XSTAT_NCNT &&
    (forall i :: 0 <= i < XSTAT_NBUF && i != s.next ==> n.ring.slots[i] == s.slots[i]) &&
    (forall j :: 0 <= j < k ==> n.ring.slots[s.next][j] == n.kept.working[j])
  }

  /** The settled ring holds the newest published records; the ring differs from it only under the sampler's lock. */
  ghost predicate RingKept(n: NodeState)
    requires Shape(n)
  {
    |n.h.settled.slots| == XSTAT_NBUF && Tracks(n.h.settled, n.h.published, n.h.gone) &&
    if CurrentPc(n).Copy? then Copying(n, CurrentPc(n).k) else n.ring == n.h.settled
  }

  lemma CommitSettles(n: NodeState)
    requires Shape(n) && Copying(n, XSTAT_NCNT)
    ensures n.ring.slots[n.ring.next] == n.kept.working
    ensures Indices(n.ring) == RollDropOldest(n.h.settled, n.kept.working)
  {
    var s := n.h.settled;
    forall i | 0 <= i < XSTAT_NBUF
      ensures n.ring.slots[i] == s.slots[s.next := n.kept.working][i]
    {
    }
  }

  lemma CommittedRing(n: NodeState, n': NodeState, rec: Record)
    requires Shape(n) && Shape(n') && RingKept(n) && !CurrentPc(n').Copy?
    requires n'.ring == n'.h.settled == RollDropOldest(n.h.settled, rec)
    requires n'.h.published == n.h.published + [rec]
    requires n'.h.gone == if n.h.settled.size < XSTAT_NBUF then n.h.gone else n.h.gone + 1
    ensures RingKept(n')
  {
    RollTracks(n.h.settled, n.h.published, n.h.gone, rec);
  }

  lemma CommitKeepsRing(n: NodeState, t: nat)
    requires Shape(n) && RingKept(n) && t == |n.threads| - 1 && n.threads[t].pc == Copy(XSTAT_NCNT)
    ensures RingKept(Commit(n, t))
  {
    CommitSettles(n);
    CommittedRing(n, Commit(n, t), n.kept.working);
  }

  lemma CopyFieldKeepsRing(n: NodeState, t: nat, k: nat)
    requires Shape(n) && RingKept(n) && t == |n.threads| - 1 && n.threads[t].pc == Copy(k) && k < XSTAT_NCNT
    ensures RingKept(Goto(CopyField(n, k), t, Copy(k + 1)))
  {
  }

  /** Steps that leave the ring alone may at most begin a copy. */
  lemma RingKeptFrame(n: NodeState, n': NodeState)
    requires Shape(n) && Shape(n') && RingKept(n) && !CurrentPc(n).Copy?
    requires n'.ring == n.ring && n'.h.settled == n.h.settled && n'.h.published == n.h.published &&
             n'.h.gone == n.h.gone
    requires CurrentPc(n').Copy? ==> CurrentPc(n').k == 0
    ensures RingKept(n')
  {
  }

  lemma RunLeavesSlots(n: NodeState, t: nat, raw: uint64, events: seq<bool>)
    requires Shape(n) && t < |n.threads| && !n.threads[t].pc.Copy?
    ensures var n' := RunThread(n, t, raw, events);
            n'.ring == n.ring && n'.h.settled == n.h.settled && n'.h.published == n.h.published && n'.h.gone == n.h.gone
  {
    match n.threads[t].pc {
      case Init(k) =>
      case Restart(k) =>
      case Copy(k) =>
      case Exit(k) =>
      case _ =>
    }
  }

  lemma RunEntersCopyAtZero(n: NodeState, t: nat, raw: uint64, events: seq<bool>)
    requires Shape(n) && t < |n.threads| && !n.threads[t].pc.Copy?
    ensures |RunThread(n, t, raw, events).threads| == |n.threads|
    ensures var pc' := RunThread(n, t, raw, events).threads[t].pc; pc'.Copy? ==> pc'.k == 0
  {
    match n.threads[t].pc {
      case Init(k) =>
      case Restart(k) =>
      case Copy(k) =>
      case Exit(k) =>
      case _ =>
    }
  }

  lemma RunLeavesRing(n: NodeState, t: nat, raw: uint64, events: seq<bool>)
    requires Shape(n) && t < |n.threads| && !n.threads[t].pc.Copy?
    ensures var n' := RunThread(n, t, raw, events);
            n'.ring == n.ring && n'.h.settled == n.h.settled && n'.h.published == n.h.published &&
              n'.h.gone == n.h.gone &&
            |n'.threads| == |n.threads| && (n'.threads[t].pc.Copy? ==> n'.threads[t].pc.k == 0) &&
            (forall i :: 0 <= i < |n.threads| && i != t ==> n'.threads[i] == n.threads[i])
  {
    RunOnOthers(n, t, raw, events);
    RunLeavesSlots(n, t, raw, events);
    RunEntersCopyAtZero(n, t, raw, events);
  }

  lemma RunKeepsRing(n: NodeState, t: nat, raw: uint64, events: seq<bool>)
    requires Shape(n) && OneSampler(n) && RingKept(n) && t < |n.threads|
    ensures RingKept(Next(n, Run(t, raw, events)))
  {
    match n.threads[t].pc {
      case Copy(k) =>
        if k < XSTAT_NCNT {
          CopyFieldKeepsRing(n, t, k);
        } else {
          CommitKeepsRing(n, t);
        }
      case Done =>
      case _ =>
        RunLeavesRing(n, t, raw, events);
        RingKeptFrame(n, Next(n, Run(t, raw, events)));
    }
  }

  lemma PoppedRing(n: NodeState, n': NodeState)
    requires Shape(n) && Shape(n') && RingKept(n) && !CurrentPc(n).Copy? && n'.threads == n.threads
    requires n.ring.size > 0 && n'.ring == n'.h.settled == Pop(n.ring)
    requires n'.h.published == n.h.published && n'.h.gone == n.h.gone + 1
    ensures RingKept(n')
  {
    PopTracks(n.ring, n.h.published, n.h.gone);
  }

  lemma ResetRing(n: NodeState, n': NodeState)
    requires Shape(n) && Shape(n') && RingKept(n) && !CurrentPc(n).Copy? && n'.threads == n.threads
    requires n'.ring == n'.h.settled == ResetToNext(n.ring)
    requires n'.h.published == n.h.published && n'.h.gone == |n.h.published|
    ensures RingKept(n')
  {
    ResetTracks(n.ring, n.h.published, n.h.gone);
  }

  lemma RingKeptStep(n: NodeState, a: Step)
    requires Shape(n) && OneSampler(n) && RingKept(n)
    ensures RingKept(Next(n, a))
  {
    if a.Run? {
      if a.t < |n.threads| {
        RunKeepsRing(n, a.t, a.raw, a.events);
      }
    } else if !n.holder.SamplerHolds? {
      var n' := Next(n, a);
      if n'.ring == n.ring && n'.h.settled == n.h.settled && n'.h.gone == n.h.gone {
        RingKeptFrame(n, n');
      } else if a.Reset? {
        ResetRing(n, n');
      } else {
        PoppedRing(n, n');
      }
    }
  }

  // ---- what is published, and what becomes of it ----

  /** Every published record is, field by field, what the restarts of one pass of one thread returned. */
  ghost predicate WholePasses(n: NodeState) { n.h.published == n.h.passes }

  /** Only the end of a critical section of the sampler publishes. */
  lemma RunOnHistory(n: NodeState, t: nat, raw: uint64, events: seq<bool>)
    requires Shape(n) && t < |n.threads| && n.threads[t].pc != Copy(XSTAT_NCNT)
    ensures RunThread(n, t, raw, events).h.(energy := n.h.energy) == n.h
  {
    match n.threads[t].pc {
      case Init(k) =>
      case Restart(k) =>
      case Copy(k) =>
      case Exit(k) =>
      case _ =>
    }
  }

  lemma WholePassesStep(n: NodeState, a: Step)
    requires Shape(n) && OneSampler(n) && PassKept(n) && RingKept(n) && WholePasses(n)
    ensures WholePasses(Next(n, a))
  {
    if a.Run? && a.t < |n.threads| {
      if n.threads[a.t].pc == Copy(XSTAT_NCNT) {
        CommitSettles(n);
      } else {
        RunOnHistory(n, a.t, a.raw, a.events);
      }
    }
  }

  /** Every published record has exactly one fate. It is InRing while it is stored; Delivered names its one place among
      the deliveries, which are in publication order and unaltered. */
  ghost predicate FatesKept(h: History) {
    h.gone <= |h.published| == |h.fates| &&
    (forall i :: 0 <= i < |h.fates| ==> (h.fates[i].InRing? <==> h.gone <= i)) &&
    (forall i :: 0 <= i < |h.fates| && h.fates[i].Delivered? ==>
       h.fates[i].pos < |h.delivered| && h.delivered[h.fates[i].pos].index == i) &&
    (forall k :: 0 <= k < |h.delivered| ==>
       h.delivered[k].index < h.gone && h.fates[h.delivered[k].index] == Delivered(k) &&
       h.delivered[k].rec == h.published[h.delivered[k].index]) &&
    (forall j, k :: 0 <= j < k < |h.delivered| ==> h.delivered[j].index < h.delivered[k].index)
  }

  lemma PublishKeepsFates(h: History, h': History, rec: Record, full: bool)
    requires FatesKept(h) && (full ==> h.gone < |h.published|)
    requires h'.published == h.published + [rec] && h'.delivered == h.delivered
    requires h'.gone == (if full then h.gone + 1 else h.gone)
    requires h'.fates == (if full then Mark(h.fates, h.gone, Overwritten) else h.fates) + [InRing]
    ensures FatesKept(h')
  {
  }

  lemma DeliverKeepsFates(h: History, h': History, r: nat)
    requires FatesKept(h) && h.gone < |h.published| && h'.published == h.published && h'.gone == h.gone + 1
    requires h'.fates == Mark(h.fates, h.gone, Delivered(|h.delivered|))
    requires h'.delivered == h.delivered + [Delivery(r, h.gone, h.published[h.gone])]
    ensures FatesKept(h')
  {
  }

  lemma ResetKeepsFates(h: History, h': History)
    requires FatesKept(h) && h'.published == h.published && h'.gone == |h.published|
    requires h'.fates == ClearStored(h.fates) && h'.delivered == h.delivered
    ensures FatesKept(h')
  {
  }

  /** A fate other than InRing is final. */
  lemma FatesAreFinal(n: NodeState, a: Step, i: nat)
    requires Shape(n) && OneSampler(n) && RingKept(n) && FatesKept(n.h) && i < |n.h.fates| && !n.h.fates[i].InRing?
    ensures i < |Next(n, a).h.fates| && Next(n, a).h.fates[i] == n.h.fates[i]
  {
    if a.Run? && a.t < |n.threads| && n.threads[a.t].pc != Copy(XSTAT_NCNT) {
      RunOnHistory(n, a.t, a.raw, a.events);
    }
  }

  // ---- the readers ----

  /** A reader's fields so far are those of one stored record; nothing moves under its lock. */
  ghost predicate ReaderKept(n: NodeState)
    requires Shape(n)
  {
    n.holder.ReaderHolds? ==>
      (forall j :: 0 <= j < |n.holder.got| ==> n.holder.got[j] == ReadSlot(n, n.holder.last)[j]) &&
      (!n.holder.last && n.holder.got != [] ==> n.ring.size > 0)
  }

  lemma ReaderKeptStep(n: NodeState, a: Step)
    requires Shape(n) && OneSampler(n) && ReaderKept(n)
    ensures ReaderKept(Next(n, a))
  {
    if a.Run? && a.t < |n.threads| {
      RunOnThreads(n, a.t, a.raw, a.events);
      if !n.threads[a.t].pc.Copy? && !n.threads[a.t].pc.Done? {
        RunLeavesRing(n, a.t, a.raw, a.events);
      }
    }
  }

  /** A whole record read for `stat` is the oldest stored one; one read for `last` is the last published one. */
  lemma WholeRecordRead(n: NodeState)
    requires Shape(n) && OneSampler(n) && RingKept(n) && ReaderKept(n)
    requires n.holder.ReaderHolds? && |n.holder.got| == XSTAT_NCNT
    ensures !n.holder.last ==> n.h.gone < |n.h.published| && n.holder.got == n.h.published[n.h.gone]
    ensures n.holder.last && n.h.published != [] ==> n.holder.got == n.h.published[|n.h.published| - 1]
  {
    assert n.holder.got == ReadSlot(n, n.holder.last);
    if !n.holder.last {
      PopRefines(n.ring);
      PopTracks(n.ring, n.h.published, n.h.gone);
    }
  }

  lemma RunKeepsFates(n: NodeState, t: nat, raw: uint64, events: seq<bool>)
    requires Shape(n) && OneSampler(n) && RingKept(n) && FatesKept(n.h) && t < |n.threads|
    ensures FatesKept(RunThread(n, t, raw, events).h)
  {
    if n.threads[t].pc == Copy(XSTAT_NCNT) {
      var h' := RunThread(n, t, raw, events).h;
      PublishKeepsFates(n.h, h', n.ring.slots[n.ring.next], n.ring.size == XSTAT_NBUF);
    } else {
      RunOnHistory(n, t, raw, events);
    }
  }

  lemma ReadersKeepFates(n: NodeState, a: Step)
    requires Shape(n) && OneSampler(n) && RingKept(n) && ReaderKept(n) && FatesKept(n.h) && !a.Run?
    ensures FatesKept(Next(n, a).h)
  {
    var h' := Next(n, a).h;
    if a.Reset? && h' != n.h {
      ResetKeepsFates(n.h, h');
    } else if a.Deliver? && h' != n.h {
      WholeRecordRead(n);
      DeliverKeepsFates(n.h, h', n.holder.r);
    }
  }

  lemma FatesStep(n: NodeState, a: Step)
    requires Shape(n) && OneSampler(n) && RingKept(n) && ReaderKept(n) && FatesKept(n.h)
    ensures FatesKept(Next(n, a).h)
  {
    if !a.Run? {
      ReadersKeepFates(n, a);
    } else if a.t < |n.threads| {
      RunKeepsFates(n, a.t, a.raw, a.events);
    }
  }

  /** `last` always shows the most recently published record, drained and reset away or not. */
  ghost predicate ShownKept(h: History) {
    forall s :: 0 <= s < |h.shown| ==>
      h.shown[s].at <= |h.published| && (h.shown[s].at > 0 ==> h.shown[s].rec == h.published[h.shown[s].at - 1])
  }

  lemma ShownStep(n: NodeState, a: Step)
    requires Shape(n) && OneSampler(n) && RingKept(n) && ReaderKept(n) && ShownKept(n.h)
    ensures ShownKept(Next(n, a).h)
  {
    if a.Run? && a.t < |n.threads| && n.threads[a.t].pc != Copy(XSTAT_NCNT) {
      RunOnHistory(n, a.t, a.raw, a.events);
    } else if a.Unlock? && n.holder.ReaderHolds? && |n.holder.got| == XSTAT_NCNT {
      WholeRecordRead(n);
    }
  }
}
