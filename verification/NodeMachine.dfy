/**
 One node of the xstat module as a state machine: any number of sampler threads that were ever created for it,
 and any number of stat, last and reset callers. One step is one counter's init, restart or exit, one field copied
 under the node's lock, or one field read under it. Everything a step consumes from outside (a raw reading, which
 perf events could be created) is part of the step.
 */
module NodeMachine {
  import opened Words
  import opened Printer
  import opened NodeCounters
  import opened RingBuffer
  import opened Pass

  /** Where a sampler thread is; Fresh has been woken but not run, Copy holds the node's lock. */
  datatype Pc =
    | Fresh | Init(k: nat) | Restart(k: nat) | Copy(k: nat) | Check | Sleep | Recheck | Exit(k: nat) | Done

  /** A thread, its stop flag, and the values its restarts returned in the pass it is in. */
  datatype Thread = Thread(pc: Pc, stop: bool, pass: Record)

  /** A perf context allocated for counter `slot`: which CPUs got an event, and how often it was freed. */
  datatype Cell = Cell(slot: nat, events: seq<bool>, freed: nat)

  /** A perf event of the kernel: the one created for a context on a CPU. */
  datatype CpuEvent = CpuEvent(cell: nat, cpu: nat)

  datatype Holder = Nobody | SamplerHolds(t: nat) | ReaderHolds(r: nat, last: bool, got: Record)

  datatype Task = NoTask | TaskIs(t: nat)

  /** What became of a published record. */
  datatype Fate = InRing | Delivered(pos: nat) | Overwritten | Cleared

  datatype Delivery = Delivery(reader: nat, index: nat, rec: Record)

  /** What a read of `last` showed, and how many records had been published by then. */
  datatype Shown = Shown(reader: nat, at: nat, rec: Record)

  /** Everything that ever happened; no step looks at it. `settled` is the ring as the last holder of the lock left it,
      `gone` the number of published records that are no longer stored. */
  datatype History = History(settled: Ring<Record>, gone: nat, published: seq<Record>, passes: seq<Record>,
                             energy: seq<uint64>, fates: seq<Fate>, delivered: seq<Delivery>, shown: seq<Shown>)

  /** `live` are the node's events that the kernel holds; `fault` is set by a use of what is not there. */
  datatype NodeState = NodeState(threads: seq<Thread>, task: Task, kept: Sampler, ring: Ring<Record>, holder: Holder,
                                 cells: seq<Cell>, live: set<CpuEvent>, fault: bool, h: History)

  datatype Step =
    | Run(t: nat, raw: uint64, events: seq<bool>)
    | Lock(r: nat, last: bool)
    | ReadField
    | Deliver
    | Unlock
    | Reset(count: nat)

  predicate IsPerf(k: nat) { FIRST_PERF <= k <= LAST_PERF }

  predicate ShapePc(pc: Pc) {
    match pc
    case Init(k) => k <= XSTAT_NCNT
    case Restart(k) => k <= XSTAT_NCNT
    case Copy(k) => k <= XSTAT_NCNT
    case Exit(k) => k <= XSTAT_NCNT
    case _ => true
  }

  predicate ShapeRing(r: Ring<Record>) {
    |r.slots| == XSTAT_NBUF && r.base < XSTAT_NBUF && r.next < XSTAT_NBUF && r.size <= XSTAT_NBUF &&
    forall i :: 0 <= i < XSTAT_NBUF ==> |r.slots[i]| == XSTAT_NCNT
  }

  predicate Shape(n: NodeState) {
    WellFormed(n.kept) && ShapeRing(n.ring) && (forall t :: 0 <= t < |n.threads| ==> ShapePc(n.threads[t].pc)) &&
    (n.holder.ReaderHolds? ==> |n.holder.got| <= XSTAT_NCNT)
  }

  /** The state `kzalloc` and module load leave. */
  function Fresh0(): (n: NodeState)
    ensures Shape(n)
  {
    var zero := seq(XSTAT_NCNT, _ => 0);
    var ring := Ring(seq(XSTAT_NBUF, _ => zero), 0, 0, 0);
    NodeState([], NoTask, Sampler(zero, zero), ring, Nobody, [], {}, false, History(ring, 0, [], [], [], [], [], []))
  }

  // ---- the sampler ----

  function Goto(n: NodeState, t: nat, pc: Pc): (n': NodeState)
    requires Shape(n) && t < |n.threads| && ShapePc(pc)
    ensures Shape(n')
  {
    n.(threads := n.threads[t := n.threads[t].(pc := pc)])
  }

  /** The events of context id. */
  function EventsOf(id: nat, events: seq<bool>): set<CpuEvent> {
    set cpu: nat | cpu < |events| && events[cpu] :: CpuEvent(id, cpu)
  }

  predicate Held(n: NodeState, id: nat) { id < |n.cells| && n.cells[id].freed == 0 }

  /** A context that was not freed and whose events are all live. */
  predicate Alive(n: NodeState, id: nat) { Held(n, id) && EventsOf(id, n.cells[id].events) <= n.live }

  /** The address of the static context of IPMI group k, which no other word is taken for. */
  function GroupAddress(k: nat): nat { 1 + k }

  /** Whether counter k's word is what its restart follows. */
  predicate Usable(n: NodeState, k: nat)
    requires Shape(n) && k < XSTAT_NCNT
  {
    (IsPerf(k) ==> Alive(n, n.kept.ctxs[k])) && (k >= FIRST_IPMI ==> n.kept.ctxs[k] == GroupAddress(k))
  }

  /** `init_counters`, counter k: perf counters allocate a context, IPMI groups store their static one. */
  function InitOne(n: NodeState, k: nat, events: seq<bool>): (n': NodeState)
    requires Shape(n) && k < XSTAT_NCNT
    ensures Shape(n')
  {
    if IsPerf(k) then
      n.(kept := n.kept.(ctxs := n.kept.ctxs[k := |n.cells|]), cells := n.cells + [Cell(k, events, 0)],
         live := n.live + EventsOf(|n.cells|, events))
    else if k >= FIRST_IPMI then n.(kept := n.kept.(ctxs := n.kept.ctxs[k := GroupAddress(k)]))
    else n
  }

  /** Counter k's restart; perf counters and IPMI groups read through their contexts. */
  function RestartStep(n: NodeState, t: nat, k: nat, raw: uint64): (n': NodeState)
    requires Shape(n) && k < XSTAT_NCNT && t < |n.threads|
    ensures Shape(n')
  {
    var kept := RestartOne(n.kept, k, raw);
    n.(kept := kept,
       fault := n.fault || !Usable(n, k),
       threads := n.threads[t := Thread(Restart(k + 1), n.threads[t].stop, n.threads[t].pass + [kept.working[k]])],
       h := if k == ENERGY then n.h.(energy := n.h.energy + [raw]) else n.h)
  }

  /** `exit_counters`, counter k: `perf_exit` releases every event of the context and frees it; releasing an event that
      is not live is a fault. */
  function ExitOne(n: NodeState, k: nat): (n': NodeState)
    requires Shape(n) && k < XSTAT_NCNT
    ensures Shape(n')
  {
    if !IsPerf(k) then n else
      var id := n.kept.ctxs[k];
      if id < |n.cells| then
        n.(fault := n.fault || !Alive(n, id), cells := n.cells[id := n.cells[id].(freed := n.cells[id].freed + 1)],
           live := n.live - EventsOf(id, n.cells[id].events))
      else n.(fault := true)
  }

  /** Field k of the working record goes into the slot at `next`. */
  function CopyField(n: NodeState, k: nat): (n': NodeState)
    requires Shape(n) && k < XSTAT_NCNT
    ensures Shape(n')
  {
    n.(ring := n.ring.(slots := n.ring.slots[n.ring.next := n.ring.slots[n.ring.next][k := n.kept.working[k]]]))
  }

  function Mark(fates: seq<Fate>, i: nat, f: Fate): seq<Fate> { if i < |fates| then fates[i := f] else fates }

  /** Everything still stored is reset away. */
  function ClearStored(fates: seq<Fate>): (r: seq<Fate>)
    ensures |r| == |fates|
    ensures forall i :: 0 <= i < |fates| ==> r[i] == if fates[i].InRing? then Cleared else fates[i]
  {
    if fates == [] then [] else
      ClearStored(fates[..|fates| - 1]) + [if fates[|fates| - 1].InRing? then Cleared else fates[|fates| - 1]]
  }

  /** The indices after the copy, exactly those of RollDropOldest. */
  function Indices(r: Ring<Record>): Ring<Record>
    requires ShapeRing(r)
  {
    RollDropOldest(r, r.slots[r.next])
  }

  /** The end of the critical section: the indices move and the lock is released. */
  function Commit(n: NodeState, t: nat): (n': NodeState)
    requires Shape(n) && t < |n.threads|
    ensures Shape(n')
  {
    var ring := Indices(n.ring);
    var full := n.ring.size == XSTAT_NBUF;
    var fates := if full then Mark(n.h.fates, n.h.gone, Overwritten) else n.h.fates;
    n.(ring := ring, holder := Nobody,
       threads := n.threads[t := n.threads[t].(pc := Check)],
       h := n.h.(settled := ring, gone := if full then n.h.gone + 1 else n.h.gone,
                 published := n.h.published + [n.ring.slots[n.ring.next]],
                 passes := n.h.passes + [n.threads[t].pass], fates := fates + [InRing]))
  }

  /** One step of thread t. A thread that is stopped before it runs executes neither init nor exit. */
  function RunThread(n: NodeState, t: nat, raw: uint64, events: seq<bool>): (n': NodeState)
    requires Shape(n) && t < |n.threads|
    ensures Shape(n')
  {
    var th := n.threads[t];
    match th.pc
    case Fresh => Goto(n, t, if th.stop then Done else Init(0))
    case Init(k) =>
      if k < XSTAT_NCNT then Goto(InitOne(n, k, events), t, Init(k + 1))
      else n.(threads := n.threads[t := Thread(Restart(0), th.stop, [])])
    case Restart(k) =>
      if k < XSTAT_NCNT then RestartStep(n, t, k, raw)
      else if n.holder.Nobody? then Goto(n.(holder := SamplerHolds(t)), t, Copy(0))
      else n
    case Copy(k) => if k < XSTAT_NCNT then Goto(CopyField(n, k), t, Copy(k + 1)) else Commit(n, t)
    case Check => Goto(n, t, if th.stop then Exit(0) else Sleep)
    case Sleep => Goto(n, t, Recheck)
    case Recheck =>
      if th.stop then Goto(n, t, Exit(0))
      else n.(threads := n.threads[t := Thread(Restart(0), th.stop, [])])
    case Exit(k) => if k < XSTAT_NCNT then Goto(ExitOne(n, k), t, Exit(k + 1)) else Goto(n, t, Done)
    case Done => n
  }

  // ---- the readers ----

  /** The slot a reader looks at: the oldest record for `stat`, the one before `next` for `last`. */
  function ReadSlot(n: NodeState, last: bool): Record
    requires Shape(n)
  {
    if last then LastSlot(n.ring) else n.ring.slots[n.ring.base]
  }

  /** A reader that holds the lock reads the next field; a `stat` reader only while something is stored. */
  function FieldStep(n: NodeState): (n': NodeState)
    requires Shape(n)
    ensures Shape(n')
  {
    match n.holder
    case ReaderHolds(r, last, got) =>
      if |got| < XSTAT_NCNT && (last || n.ring.size > 0) then
        n.(holder := ReaderHolds(r, last, got + [ReadSlot(n, last)[|got|]]))
      else n
    case _ => n
  }

  /** A `stat` reader that has a whole record counts it as delivered and takes it out. */
  function DeliverStep(n: NodeState): (n': NodeState)
    requires Shape(n)
    ensures Shape(n')
  {
    match n.holder
    case ReaderHolds(r, last, got) =>
      if !last && |got| == XSTAT_NCNT && n.ring.size > 0 then
        var ring := Pop(n.ring);
        n.(ring := ring, holder := ReaderHolds(r, false, []),
           h := n.h.(settled := ring, gone := n.h.gone + 1,
                     fates := Mark(n.h.fates, n.h.gone, Delivered(|n.h.delivered|)),
                     delivered := n.h.delivered + [Delivery(r, n.h.gone, got)]))
      else n
    case _ => n
  }

  /** A `stat` reader may stop after any record, a `last` reader once it has its record. */
  function UnlockStep(n: NodeState): (n': NodeState)
    requires Shape(n)
    ensures Shape(n')
  {
    match n.holder
    case ReaderHolds(r, last, got) =>
      if !last && got == [] then n.(holder := Nobody)
      else if last && |got| == XSTAT_NCNT then
        n.(holder := Nobody, h := n.h.(shown := n.h.shown + [Shown(r, |n.h.published|, got)]))
      else n
    case _ => n
  }

  /** A write to `reset`, its critical section in one step. */
  function ResetStep(n: NodeState, count: nat): (n': NodeState)
    requires Shape(n)
    ensures Shape(n')
  {
    if n.holder.Nobody? && count > 0 then
      var ring := ResetToNext(n.ring);
      n.(ring := ring, h := n.h.(settled := ring, gone := |n.h.published|, fates := ClearStored(n.h.fates)))
    else n
  }

  /** Every step is total: what cannot happen now leaves the state alone, so every sequence of steps is a run. */
  function Next(n: NodeState, a: Step): (n': NodeState)
    requires Shape(n)
    ensures Shape(n')
  {
    match a
    case Run(t, raw, events) => if t < |n.threads| then RunThread(n, t, raw, events) else n
    case Lock(r, last) => if n.holder.Nobody? then n.(holder := ReaderHolds(r, last, [])) else n
    case ReadField => FieldStep(n)
    case Deliver => DeliverStep(n)
    case Unlock => UnlockStep(n)
    case Reset(count) => ResetStep(n, count)
  }
}
