/** What every step of a node keeps of its perf contexts, its timestamps and its energy readings. */
module NodeCountersKept {
  import opened Words
  import opened Printer
  import opened NodeCounters
  import opened RingBuffer
  import opened Pass
  import opened NodeMachine
  import opened NodeSafety

  // ---- perf contexts ----

  /** Whether the sampler at pc has initialised counter k and not yet let go of it. */
  predicate Owned(pc: Pc, k: nat) {
    match pc
    case Init(j) => k < j
    case Restart(_) => true
    case Copy(_) => true
    case Check => true
    case Sleep => true
    case Recheck => true
    case Exit(j) => j <= k
    case _ => false
  }

  /** The kernel's events of the node are those of the contexts that were not freed. */
  ghost predicate EventsKept(n: NodeState) {
    forall e: CpuEvent {:trigger e in n.live} :: e in n.live <==>
      Held(n, e.cell) && e.cpu < |n.cells[e.cell].events| && n.cells[e.cell].events[e.cpu]
  }

  /** A context that is there, was not freed, and whose every event is live. */
  ghost predicate Intact(n: NodeState, id: nat) {
    id < |n.cells| && n.cells[id].freed == 0 &&
    forall cpu: nat :: cpu < |n.cells[id].events| && n.cells[id].events[cpu] ==> CpuEvent(id, cpu) in n.live
  }

  lemma AliveIsIntact(n: NodeState, id: nat)
    ensures Alive(n, id) <==> Intact(n, id)
  {
    if Held(n, id) && Intact(n, id) {
      forall e | e in EventsOf(id, n.cells[id].events)
        ensures e in n.live
      {
      }
    }
    if Alive(n, id) {
      forall cpu: nat | cpu < |n.cells[id].events| && n.cells[id].events[cpu]
        ensures CpuEvent(id, cpu) in n.live
      {
        assert CpuEvent(id, cpu) in EventsOf(id, n.cells[id].events);
      }
    }
  }

  /** A restart or exit that does not find what it follows is a fault, and nothing else is. */
  lemma MissingIsFault(n: NodeState, t: nat, k: nat, raw: uint64)
    requires Shape(n) && k < 16 && t < |n.threads| && !n.fault
    ensures RestartStep(n, t, k, raw).fault <==>
            (2 <= k <= 8 && !Intact(n, n.kept.ctxs[k])) || (k >= 13 && n.kept.ctxs[k] != GroupAddress(k))
    ensures ExitOne(n, k).fault <==> 2 <= k <= 8 && !Intact(n, n.kept.ctxs[k])
  {
    AliveIsIntact(n, n.kept.ctxs[k]);
  }

  lemma HeldIsAlive(n: NodeState, id: nat)
    requires EventsKept(n) && Held(n, id)
    ensures Alive(n, id)
  {
    forall e | e in EventsOf(id, n.cells[id].events)
      ensures e in n.live
    {
    }
  }

  /** The live contexts are exactly those the current sampler owns, each in its counter's word; none was ever
      released twice and none is touched after its release. */
  ghost predicate ContextsKept(n: NodeState)
    requires Shape(n)
  {
    var pc := CurrentPc(n);
    !n.fault && EventsKept(n) &&
    (forall c :: 0 <= c < |n.cells| ==> n.cells[c].freed <= 1) &&
    (forall c :: 0 <= c < |n.cells| && n.cells[c].freed == 0 ==>
       IsPerf(n.cells[c].slot) && Owned(pc, n.cells[c].slot) && n.kept.ctxs[n.cells[c].slot] == c) &&
    (forall k: nat {:trigger n.kept.ctxs[k]} :: IsPerf(k) && Owned(pc, k) ==>
       Held(n, n.kept.ctxs[k]) && n.cells[n.kept.ctxs[k]].slot == k) &&
    GroupsKept(n, pc)
  }

  /** The word of an IPMI group that was initialised is the address of its static context. */
  ghost predicate GroupsKept(n: NodeState, pc: Pc)
    requires Shape(n)
  {
    forall k: nat {:trigger n.kept.ctxs[k]} :: FIRST_IPMI <= k < XSTAT_NCNT && Owned(pc, k) ==>
      n.kept.ctxs[k] == GroupAddress(k)
  }

  lemma InitKeepsEvents(n: NodeState, k: nat, events: seq<bool>)
    requires Shape(n) && EventsKept(n) && k < XSTAT_NCNT
    ensures EventsKept(InitOne(n, k, events))
  {
    var n' := InitOne(n, k, events);
    forall e: CpuEvent
      ensures e in n'.live <==> Held(n', e.cell) && e.cpu < |n'.cells[e.cell].events| && n'.cells[e.cell].events[e.cpu]
    {
      if IsPerf(k) {
        assert e in EventsOf(|n.cells|, events) <==> e.cell == |n.cells| && e.cpu < |events| && events[e.cpu];
        assert e in n.live ==> e.cell < |n.cells|;
      }
    }
  }

  lemma ExitKeepsEvents(n: NodeState, k: nat)
    requires Shape(n) && EventsKept(n) && k < XSTAT_NCNT && (IsPerf(k) ==> Held(n, n.kept.ctxs[k]))
    ensures EventsKept(ExitOne(n, k))
    ensures ExitOne(n, k).fault == n.fault
  {
    if IsPerf(k) {
      var id, n' := n.kept.ctxs[k], ExitOne(n, k);
      HeldIsAlive(n, id);
      forall e: CpuEvent
        ensures e in n'.live <==>
                Held(n', e.cell) && e.cpu < |n'.cells[e.cell].events| && n'.cells[e.cell].events[e.cpu]
      {
        assert e in EventsOf(id, n.cells[id].events) <==>
               e.cell == id && e.cpu < |n.cells[id].events| && n.cells[id].events[e.cpu];
      }
    }
  }

  lemma InitKeepsContexts(n: NodeState, t: nat, k: nat, events: seq<bool>)
    requires Shape(n) && ContextsKept(n) && t == |n.threads| - 1 && n.threads[t].pc == Init(k) && k < XSTAT_NCNT
    ensures ContextsKept(Goto(InitOne(n, k, events), t, Init(k + 1)))
  {
    InitKeepsEvents(n, k, events);
  }

  lemma ExitKeepsContexts(n: NodeState, t: nat, k: nat)
    requires Shape(n) && ContextsKept(n) && t == |n.threads| - 1 && n.threads[t].pc == Exit(k) && k < XSTAT_NCNT
    ensures ContextsKept(Goto(ExitOne(n, k), t, Exit(k + 1)))
  {
    ExitKeepsEvents(n, k);
  }

  lemma RestartKeepsContexts(n: NodeState, t: nat, k: nat, raw: uint64)
    requires Shape(n) && ContextsKept(n) && t == |n.threads| - 1 && n.threads[t].pc == Restart(k) && k < XSTAT_NCNT
    ensures ContextsKept(RestartStep(n, t, k, raw))
  {
    if IsPerf(k) {
      HeldIsAlive(n, n.kept.ctxs[k]);
    }
  }

  /** Every other step leaves the contexts and their words alone, and changes what is owned by nothing. */
  lemma RunLeavesContexts(n: NodeState, t: nat, raw: uint64, events: seq<bool>)
    requires Shape(n) && t < |n.threads|
    requires var pc := n.threads[t].pc;
             (pc.Init? || pc.Exit? || pc.Restart?) ==> pc.k == XSTAT_NCNT
    ensures var n' := RunThread(n, t, raw, events);
            n'.kept == n.kept && n'.cells == n.cells && n'.live == n.live && n'.fault == n.fault &&
            forall k: nat :: k < XSTAT_NCNT ==> Owned(n'.threads[t].pc, k) == Owned(n.threads[t].pc, k)
  {
    match n.threads[t].pc {
      case Init(k) =>
      case Restart(k) =>
      case Copy(k) =>
      case Exit(k) =>
      case _ =>
    }
  }

  lemma ContextsFrame(n: NodeState, n': NodeState)
    requires Shape(n) && Shape(n') && ContextsKept(n)
    requires n'.kept == n.kept && n'.cells == n.cells && n'.live == n.live && n'.fault == n.fault
    requires forall k: nat :: k < XSTAT_NCNT ==> Owned(CurrentPc(n'), k) == Owned(CurrentPc(n), k)
    ensures ContextsKept(n')
  {
  }

  lemma OtherStepsKeepContexts(n: NodeState, t: nat, raw: uint64, events: seq<bool>)
    requires Shape(n) && t == |n.threads| - 1 && ContextsKept(n)
    requires var pc := n.threads[t].pc;
             (pc.Init? || pc.Exit? || pc.Restart?) ==> pc.k == XSTAT_NCNT
    ensures ContextsKept(RunThread(n, t, raw, events))
  {
    RunOnThreads(n, t, raw, events);
    RunLeavesContexts(n, t, raw, events);
    ContextsFrame(n, RunThread(n, t, raw, events));
  }

  lemma RunInits(n: NodeState, t: nat, k: nat, raw: uint64, events: seq<bool>)
    requires Shape(n) && t == |n.threads| - 1 && ContextsKept(n) && n.threads[t].pc == Init(k) && k < XSTAT_NCNT
    ensures ContextsKept(RunThread(n, t, raw, events))
  {
    assert RunThread(n, t, raw, events) == Goto(InitOne(n, k, events), t, Init(k + 1));
    InitKeepsContexts(n, t, k, events);
  }

  lemma RunExits(n: NodeState, t: nat, k: nat, raw: uint64, events: seq<bool>)
    requires Shape(n) && t == |n.threads| - 1 && ContextsKept(n) && n.threads[t].pc == Exit(k) && k < XSTAT_NCNT
    ensures ContextsKept(RunThread(n, t, raw, events))
  {
    assert RunThread(n, t, raw, events) == Goto(ExitOne(n, k), t, Exit(k + 1));
    ExitKeepsContexts(n, t, k);
  }

  lemma RunRestarts(n: NodeState, t: nat, k: nat, raw: uint64, events: seq<bool>)
    requires Shape(n) && t == |n.threads| - 1 && ContextsKept(n) && n.threads[t].pc == Restart(k) && k < XSTAT_NCNT
    ensures ContextsKept(RunThread(n, t, raw, events))
  {
    assert RunThread(n, t, raw, events) == RestartStep(n, t, k, raw);
    RestartKeepsContexts(n, t, k, raw);
  }

  lemma RunKeepsContexts(n: NodeState, t: nat, raw: uint64, events: seq<bool>)
    requires Shape(n) && t == |n.threads| - 1 && ContextsKept(n)
    ensures ContextsKept(RunThread(n, t, raw, events))
  {
    var pc := n.threads[t].pc;
    if pc.Init? && pc.k < XSTAT_NCNT {
      RunInits(n, t, pc.k, raw, events);
    } else if pc.Exit? && pc.k < XSTAT_NCNT {
      RunExits(n, t, pc.k, raw, events);
    } else if pc.Restart? && pc.k < XSTAT_NCNT {
      RunRestarts(n, t, pc.k, raw, events);
    } else {
      OtherStepsKeepContexts(n, t, raw, events);
    }
  }

  lemma ContextsStep(n: NodeState, a: Step)
    requires Shape(n) && OneSampler(n) && ContextsKept(n)
    ensures ContextsKept(Next(n, a))
  {
    if a.Run? && a.t < |n.threads| {
      if a.t == |n.threads| - 1 {
        RunKeepsContexts(n, a.t, a.raw, a.events);
      } else {
        RunOnThreads(n, a.t, a.raw, a.events);
      }
    } else {
      ContextsFrame(n, Next(n, a));
    }
  }

  // ---- timestamps and intervals ----

  /** Whether the current pass has taken counter k's reading and not yet published it. */
  predicate Taken(pc: Pc, k: nat) {
    match pc
    case Restart(j) => k < j
    case Copy(_) => true
    case _ => false
  }

  predicate Records(p: seq<Record>) { forall i :: 0 <= i < |p| ==> |p[i]| == XSTAT_NCNT }

  /** The timestamp published before number i. */
  function TsBefore(p: seq<Record>, i: nat): nat
    requires i <= |p| && Records(p)
  {
    if i == 0 then 0 else p[i - 1][TS]
  }

  /** Every published interval is the distance to the timestamp published before. */
  ghost predicate IntervalsPublished(p: seq<Record>)
    requires Records(p)
  {
    forall i: nat {:trigger TsBefore(p, i)} :: i < |p| ==> p[i][INTV] == Sub64(p[i][TS], TsBefore(p, i))
  }

  /** The two words that carry timestamps between passes are the timestamp's and the interval's own. */
  ghost predicate IntervalsKept(n: NodeState)
    requires Shape(n)
  {
    var pc, p := CurrentPc(n), n.h.published;
    Records(p) && IntervalsPublished(p) &&
    (if Taken(pc, TS) then n.kept.ctxs[TS] == TsBefore(p, |p|) && n.kept.ctxs[INTV] == n.kept.working[TS]
     else n.kept.working[TS] == TsBefore(p, |p|) && (p != [] ==> n.kept.ctxs[INTV] == n.kept.working[TS])) &&
    (Taken(pc, INTV) ==> n.kept.working[INTV] == Sub64(n.kept.working[TS], TsBefore(p, |p|)))
  }

  lemma PublishInterval(p: seq<Record>, rec: Record)
    requires Records(p) && IntervalsPublished(p) && |rec| == XSTAT_NCNT
    requires rec[INTV] == Sub64(rec[TS], TsBefore(p, |p|))
    ensures Records(p + [rec]) && IntervalsPublished(p + [rec]) && TsBefore(p + [rec], |p| + 1) == rec[TS]
  {
    var q := p + [rec];
    forall i: nat {:trigger TsBefore(q, i)} | i < |q|
      ensures q[i][INTV] == Sub64(q[i][TS], TsBefore(q, i))
    {
      assert TsBefore(q, i) == TsBefore(p, i);
    }
  }

  lemma CommitKeepsIntervals(n: NodeState, t: nat)
    requires Shape(n) && RingKept(n) && t == |n.threads| - 1 && n.threads[t].pc == Copy(XSTAT_NCNT) && IntervalsKept(n)
    ensures IntervalsKept(Commit(n, t))
  {
    CommitSettles(n);
    PublishInterval(n.h.published, n.kept.working);
  }

  lemma RestartKeepsIntervals(n: NodeState, t: nat, k: nat, raw: uint64)
    requires Shape(n) && t == |n.threads| - 1 && n.threads[t].pc == Restart(k) && k < XSTAT_NCNT && IntervalsKept(n)
    ensures IntervalsKept(RestartStep(n, t, k, raw))
  {
  }

  // ---- energy ----

  function EnergyBefore(raws: seq<uint64>, i: nat): nat
    requires i <= |raws|
  {
    if i == 0 then 0 else raws[i - 1]
  }

  /** Every published energy is the distance of two consecutive raw readings. */
  ghost predicate EnergiesPublished(p: seq<Record>, raws: seq<uint64>)
    requires Records(p) && |p| <= |raws|
  {
    forall i: nat {:trigger EnergyBefore(raws, i)} :: i < |p| ==>
      p[i][ENERGY] == EnergyDelta(EnergyBefore(raws, i), raws[i])
  }

  /** The energy counter's word is the last raw reading, across every stop and start. */
  ghost predicate EnergiesKept(n: NodeState)
    requires Shape(n)
  {
    var pc, p, raws := CurrentPc(n), n.h.published, n.h.energy;
    Records(p) && |raws| == |p| + (if Taken(pc, ENERGY) then 1 else 0) && EnergiesPublished(p, raws) &&
    n.kept.ctxs[ENERGY] == EnergyBefore(raws, |raws|) &&
    (Taken(pc, ENERGY) ==> n.kept.working[ENERGY] == EnergyDelta(EnergyBefore(raws, |p|), raws[|p|]))
  }

  lemma CommitKeepsEnergies(n: NodeState, t: nat)
    requires Shape(n) && RingKept(n) && t == |n.threads| - 1 && n.threads[t].pc == Copy(XSTAT_NCNT) && EnergiesKept(n)
    ensures EnergiesKept(Commit(n, t))
  {
    CommitSettles(n);
  }

  lemma ReadEnergy(p: seq<Record>, raws: seq<uint64>, raw: uint64)
    requires Records(p) && |p| <= |raws| && EnergiesPublished(p, raws)
    ensures EnergiesPublished(p, raws + [raw])
  {
    forall i: nat {:trigger EnergyBefore(raws + [raw], i)} | i < |p|
      ensures p[i][ENERGY] == EnergyDelta(EnergyBefore(raws + [raw], i), (raws + [raw])[i])
    {
      assert EnergyBefore(raws + [raw], i) == EnergyBefore(raws, i);
    }
  }

  lemma RestartKeepsEnergies(n: NodeState, t: nat, k: nat, raw: uint64)
    requires Shape(n) && t == |n.threads| - 1 && n.threads[t].pc == Restart(k) && k < XSTAT_NCNT && EnergiesKept(n)
    ensures EnergiesKept(RestartStep(n, t, k, raw))
  {
    if k == ENERGY {
      ReadEnergy(n.h.published, n.h.energy, raw);
      assert EnergyBefore(n.h.energy + [raw], |n.h.published|) == EnergyBefore(n.h.energy, |n.h.published|);
    }
  }

  // ---- both ----

  /** Init and exit write other counters' words only. */
  lemma RunLeavesWords(n: NodeState, t: nat, raw: uint64, events: seq<bool>)
    requires Shape(n) && t < |n.threads| && n.threads[t].pc != Copy(XSTAT_NCNT)
    requires n.threads[t].pc.Restart? ==> n.threads[t].pc.k == XSTAT_NCNT
    ensures var n' := RunThread(n, t, raw, events); var pc, pc' := n.threads[t].pc, n'.threads[t].pc;
            SameWords(n, n') &&
            Taken(pc', TS) == Taken(pc, TS) && Taken(pc', INTV) == Taken(pc, INTV) &&
              Taken(pc', ENERGY) == Taken(pc, ENERGY)
  {
    match n.threads[t].pc {
      case Init(k) =>
      case Restart(k) =>
      case Copy(k) =>
      case Exit(k) =>
      case _ =>
    }
  }

  predicate SameWords(n: NodeState, n': NodeState)
    requires Shape(n) && Shape(n')
  {
    n'.kept.working == n.kept.working && n'.h.published == n.h.published && n'.h.energy == n.h.energy &&
    n'.kept.ctxs[TS] == n.kept.ctxs[TS] && n'.kept.ctxs[INTV] == n.kept.ctxs[INTV] &&
    n'.kept.ctxs[ENERGY] == n.kept.ctxs[ENERGY]
  }

  lemma WordsFrame(n: NodeState, n': NodeState)
    requires Shape(n) && Shape(n') && SameWords(n, n') && IntervalsKept(n) && EnergiesKept(n)
    requires var pc, pc' := CurrentPc(n), CurrentPc(n');
             Taken(pc', TS) == Taken(pc, TS) && Taken(pc', INTV) == Taken(pc, INTV) &&
               Taken(pc', ENERGY) == Taken(pc, ENERGY)
    ensures IntervalsKept(n') && EnergiesKept(n')
  {
  }

  lemma RunKeepsWords(n: NodeState, t: nat, raw: uint64, events: seq<bool>)
    requires Shape(n) && t == |n.threads| - 1 && RingKept(n) && IntervalsKept(n) && EnergiesKept(n)
    ensures IntervalsKept(RunThread(n, t, raw, events)) && EnergiesKept(RunThread(n, t, raw, events))
  {
    var pc := n.threads[t].pc;
    if pc == Copy(XSTAT_NCNT) {
      CommitKeepsIntervals(n, t);
      CommitKeepsEnergies(n, t);
    } else if pc.Restart? && pc.k < XSTAT_NCNT {
      RestartKeepsIntervals(n, t, pc.k, raw);
      RestartKeepsEnergies(n, t, pc.k, raw);
    } else {
      OtherStepsKeepWords(n, t, raw, events);
    }
  }

  lemma OtherStepsKeepWords(n: NodeState, t: nat, raw: uint64, events: seq<bool>)
    requires Shape(n) && t == |n.threads| - 1 && IntervalsKept(n) && EnergiesKept(n) &&
             n.threads[t].pc != Copy(XSTAT_NCNT)
    requires n.threads[t].pc.Restart? ==> n.threads[t].pc.k == XSTAT_NCNT
    ensures IntervalsKept(RunThread(n, t, raw, events)) && EnergiesKept(RunThread(n, t, raw, events))
  {
    RunOnThreads(n, t, raw, events);
    RunLeavesWords(n, t, raw, events);
    WordsFrame(n, RunThread(n, t, raw, events));
  }

  lemma ReadersLeaveWords(n: NodeState, a: Step)
    requires Shape(n) && !a.Run?
    ensures SameWords(n, Next(n, a)) && Next(n, a).threads == n.threads
  {
  }

  lemma WordsStep(n: NodeState, a: Step)
    requires Shape(n) && OneSampler(n) && RingKept(n) && IntervalsKept(n) && EnergiesKept(n)
    ensures IntervalsKept(Next(n, a)) && EnergiesKept(Next(n, a))
  {
    if a.Run? && a.t < |n.threads| {
      if a.t == |n.threads| - 1 {
        RunKeepsWords(n, a.t, a.raw, a.events);
      } else {
        RunOnThreads(n, a.t, a.raw, a.events);
      }
    } else if !a.Run? {
      ReadersLeaveWords(n, a);
      WordsFrame(n, Next(n, a));
    }
  }
}
