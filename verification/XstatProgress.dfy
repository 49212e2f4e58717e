/**
 The xstat module does what it is switched on for. A write of "on" starts a sampler on every node, a sampler left alone
 publishes one record every 37 of its steps, and in every fair run a module that stays on publishes more records than
 any number; a write of "off" ends all that.
 */
module XstatProgress {
  import opened Words
  import opened Printer
  import opened NodeCounters
  import opened RingBuffer
  import opened Pass
  import opened NodeMachine
  import opened NodeSafety
  import opened NodeCountersKept
  import opened XstatSystem
  import opened StopFinishes

  // ---- switching on ----

  /** A write of "on" and then m turns of whoever holds `ctrl_lock`. */
  function SwitchOn(m: nat): (es: seq<Event>)
    ensures es != []
  {
    if m == 0 then [WriteOn] else SwitchOn(m - 1) + [Proceed]
  }

  /** The first m nodes were given one more thread, the others and everything else are as before. */
  ghost predicate StartedSome(s: System, s': System, m: nat) {
    |s'.nodes| == |s.nodes| && s'.on && s'.period == s.period &&
    forall i: nat :: i < |s.nodes| ==>
      s'.nodes[i] == if i < m then WithThread(s.nodes[i], Thread(Fresh, false, [])) else s.nodes[i]
  }

  /** The node with one more thread, which is the one to stop. */
  function WithThread(n: NodeState, th: Thread): NodeState {
    n.(threads := n.threads + [th], task := TaskIs(|n.threads|))
  }

  lemma StartsNext(s: System, m: System, i: nat)
    requires Shaped(s) && Shaped(m) && i < |s.nodes| && m.ctrl == Starting(i) && StartedSome(s, m, i)
    ensures Exec(m, Proceed).ctrl == Starting(i + 1) && StartedSome(s, Exec(m, Proceed), i + 1)
  {
  }

  lemma SwitchOnNext(s: System, m: nat)
    requires Shaped(s) && m > 0
    ensures After(s, SwitchOn(m)) == Exec(After(s, SwitchOn(m - 1)), Proceed)
  {
    var es := SwitchOn(m);
    assert es[..|es| - 1] == SwitchOn(m - 1);
  }

  lemma {:induction false} SwitchingOn(s: System, m: nat)
    requires Shaped(s) && !s.on && s.ctrl.Free? && m <= |s.nodes|
    ensures After(s, SwitchOn(m)).ctrl == Starting(m) && StartedSome(s, After(s, SwitchOn(m)), m)
  {
    if m == 0 {
      assert SwitchOn(0)[..0] == [];
    } else {
      SwitchingOn(s, m - 1);
      StartsNext(s, After(s, SwitchOn(m - 1)), m - 1);
      SwitchOnNext(s, m);
    }
  }

  /** From off, one turn for every node and one more: the module is on, `ctrl_lock` is free, and every node has one more
      thread, which has not run yet and was not told to stop. */
  lemma SwitchedOn(s: System)
    requires Shaped(s) && !s.on && s.ctrl.Free?
    ensures var s' := After(s, SwitchOn(|s.nodes| + 1)); s'.ctrl.Free? && StartedSome(s, s', |s.nodes|)
  {
    SwitchingOn(s, |s.nodes|);
    SwitchOnNext(s, |s.nodes| + 1);
  }

  // ---- a sampler alone ----

  /** What a step of a sampler finds outside: a raw reading, and which perf events can be created. */
  datatype Input = Input(raw: uint64, events: seq<bool>)

  /** The node after j steps of thread t alone. */
  function Turned(n: NodeState, t: nat, ins: nat -> Input, j: nat): (n': NodeState)
    requires Shape(n) && t < |n.threads|
    ensures Shape(n') && |n'.threads| == |n.threads|
  {
    if j == 0 then n else
      var m := Turned(n, t, ins, j - 1);
      RunOnThreads(m, t, ins(j - 1).raw, ins(j - 1).events);
      RunThread(m, t, ins(j - 1).raw, ins(j - 1).events)
  }

  /** Where a sampler is after j steps: one step to wake up, seventeen for the counters' init, then again and again
      sixteen restarts, the lock, sixteen fields, the commit, the two looks at the stop flag and the sleep between. */
  function Where(j: nat): Pc {
    if j == 0 then Fresh
    else if j < 18 then Init(j - 1)
    else
      var k := (j - 18) % 37;
      if k < 17 then Restart(k) else if k < 34 then Copy(k - 17) else
        if k == 34 then Check else if k == 35 then Sleep else Recheck
  }

  /** And how many records it has published by then. */
  function RecordsBy(j: nat): nat { if j < 15 then 0 else (j - 15) / 37 }

  /** The sampler t is at pc, nobody else has the lock, and `most` records were published. */
  predicate Stands(n: NodeState, t: nat, pc: Pc, most: nat) {
    t < |n.threads| && n.threads[t].pc == pc && !n.threads[t].stop && |n.h.published| == most &&
    n.holder == if pc.Copy? then SamplerHolds(t) else Nobody
  }

  /** The place after pc, and whether getting there publishes. */
  function Onward(pc: Pc): Pc {
    match pc
    case Fresh => Init(0)
    case Init(k) => if k < 16 then Init(k + 1) else Restart(0)
    case Restart(k) => if k < 16 then Restart(k + 1) else Copy(0)
    case Copy(k) => if k < 16 then Copy(k + 1) else Check
    case Check => Sleep
    case Sleep => Recheck
    case Recheck => Restart(0)
    case Exit(k) => Done
    case Done => Done
  }

  lemma GoesOnward(n: NodeState, t: nat, pc: Pc, most: nat, raw: uint64, events: seq<bool>)
    requires Shape(n) && Stands(n, t, pc, most) && !pc.Exit? && !pc.Done?
    ensures Stands(RunThread(n, t, raw, events), t, Onward(pc), if pc == Copy(16) then most + 1 else most)
  {
    match pc {
      case Init(k) =>
      case Restart(k) =>
      case Copy(k) =>
      case _ =>
    }
  }

  lemma NextPlace(j: nat)
    ensures Where(j + 1) == Onward(Where(j)) && !Where(j).Exit? && !Where(j).Done?
    ensures RecordsBy(j + 1) == RecordsBy(j) + if Where(j) == Copy(16) then 1 else 0
  {
    if j >= 18 {
      var q, k := (j - 18) / 37, (j - 18) % 37;
      assert j == 37 * q + k + 18;
    }
  }

  lemma {:induction false} SamplerAlone(n: NodeState, t: nat, ins: nat -> Input, j: nat)
    requires Shape(n) && Stands(n, t, Fresh, |n.h.published|)
    ensures Stands(Turned(n, t, ins, j), t, Where(j), |n.h.published| + RecordsBy(j))
  {
    if j > 0 {
      SamplerAlone(n, t, ins, j - 1);
      NextPlace(j - 1);
      GoesOnward(Turned(n, t, ins, j - 1), t, Where(j - 1), |n.h.published| + RecordsBy(j - 1), ins(j - 1).raw,
                 ins(j - 1).events);
    }
  }

  lemma CyclePlace(k: nat)
    ensures Where(18 + 37 * k) == Restart(0) && RecordsBy(18 + 37 * k) == k
  {
  }

  lemma FirstSampler(count: nat, i: nat)
    requires i < count
    ensures var s := After(Loaded(count), SwitchOn(count + 1));
            s.on && s.ctrl.Free? && s.period == 1000 && |s.nodes| == count && |s.nodes[i].threads| == 1 &&
            Stands(s.nodes[i], 0, Fresh, 0) && s.nodes[i].cells == [] && s.nodes[i].live == {}
  {
    SwitchedOn(Loaded(count));
    var s := After(Loaded(count), SwitchOn(count + 1));
    assert s.nodes[i] == WithThread(Fresh0(), Thread(Fresh, false, []));
  }

  /** From module load: write "on", let start finish, and let one node's sampler run alone. After 18 + 37 k steps it has
      published exactly k records and is about to take the next one. */
  lemma PublishesOnePerCycle(count: nat, i: nat, ins: nat -> Input, k: nat)
    requires i < count
    ensures var s := After(Loaded(count), SwitchOn(count + 1));
            s.on && s.ctrl.Free? && s.period == 1000 && |s.nodes| == count && |s.nodes[i].threads| == 1 &&
            var n := Turned(s.nodes[i], 0, ins, 18 + 37 * k);
            n.threads[0].pc == Restart(0) && n.holder.Nobody? && |n.h.published| == k
  {
    FirstSampler(count, i);
    SamplerAlone(After(Loaded(count), SwitchOn(count + 1)).nodes[i], 0, ins, 18 + 37 * k);
    CyclePlace(k);
  }

  // ---- what its init creates ----

  /** How many of the first k counters are perf counters. */
  function Perfs(k: nat): nat { if k < 2 then 0 else if k < 9 then k - 2 else 7 }

  /** The first k counters of a fresh node are initialised: each perf counter has its context, with an event for just
      the CPUs that the kernel could create one for, and these are the events that are live. */
  ghost predicate Created(n: NodeState, ins: nat -> Input, k: nat) {
    |n.cells| == Perfs(k) && (forall c: nat :: c < Perfs(k) ==> n.cells[c] == Cell(c + 2, ins(c + 3).events, 0)) &&
    forall e: CpuEvent {:trigger e in n.live} :: e in n.live <==>
      e.cell < Perfs(k) && e.cpu < |ins(e.cell + 3).events| && ins(e.cell + 3).events[e.cpu]
  }

  lemma InitCreatesOne(n: NodeState, ins: nat -> Input, k: nat)
    requires Shape(n) && k < 16 && Created(n, ins, k)
    ensures Created(InitOne(n, k, ins(k + 1).events), ins, k + 1)
  {
    var n', events := InitOne(n, k, ins(k + 1).events), ins(k + 1).events;
    if 2 <= k <= 8 {
      forall e: CpuEvent
        ensures e in n'.live <==>
                e.cell < k - 1 && e.cpu < |ins(e.cell + 3).events| && ins(e.cell + 3).events[e.cpu]
      {
        assert e in EventsOf(k - 2, events) <==> e.cell == k - 2 && e.cpu < |events| && events[e.cpu];
        assert e.cell == k - 2 ==> e !in n.live;
      }
    }
  }

  lemma {:induction false} InitCreates(n: NodeState, t: nat, ins: nat -> Input, k: nat) returns (n': NodeState)
    requires Shape(n) && Stands(n, t, Fresh, |n.h.published|) && n.cells == [] && n.live == {} && k <= 16
    ensures n' == Turned(n, t, ins, 1 + k) && Shape(n') && t < |n'.threads| && n'.threads[t].pc == Init(k) &&
            Created(n', ins, k)
  {
    SamplerAlone(n, t, ins, 1 + k);
    n' := Turned(n, t, ins, 1 + k);
    if k == 0 {
      Wakes(n, t, ins);
    } else {
      var m := InitCreates(n, t, ins, k - 1);
      InitCreatesOne(m, ins, k - 1);
      TurnedNext(n, t, ins, k);
      Initialises(m, t, k - 1, ins(k).raw, ins(k).events);
    }
  }

  lemma Wakes(n: NodeState, t: nat, ins: nat -> Input)
    requires Shape(n) && Stands(n, t, Fresh, |n.h.published|) && n.cells == [] && n.live == {}
    ensures Created(Turned(n, t, ins, 1), ins, 0)
  {
    TurnedNext(n, t, ins, 0);
  }

  lemma TurnedNext(n: NodeState, t: nat, ins: nat -> Input, j: nat)
    requires Shape(n) && t < |n.threads|
    ensures Turned(n, t, ins, j + 1) == RunThread(Turned(n, t, ins, j), t, ins(j).raw, ins(j).events)
  {
  }

  lemma Initialises(n: NodeState, t: nat, k: nat, raw: uint64, events: seq<bool>)
    requires Shape(n) && t < |n.threads| && n.threads[t].pc == Init(k) && k < 16
    ensures RunThread(n, t, raw, events).cells == InitOne(n, k, events).cells
    ensures RunThread(n, t, raw, events).live == InitOne(n, k, events).live
  {
  }

  /** From module load: the first sampler of a node, 17 steps after it was switched on, has a context for each of the
      seven perf counters, and of all events exactly those are live that could be created for them. */
  lemma FirstInitCreatesAll(count: nat, i: nat, ins: nat -> Input)
    requires i < count
    ensures var s := After(Loaded(count), SwitchOn(count + 1));
            |s.nodes| == count && |s.nodes[i].threads| == 1 && Created(Turned(s.nodes[i], 0, ins, 17), ins, 16)
  {
    FirstSampler(count, i);
    var n := InitCreates(After(Loaded(count), SwitchOn(count + 1)).nodes[i], 0, ins, 16);
  }

  // ---- samplers among others ----

  /** Steps of its own that a sampler takes until it publishes. */
  function ToPublish(pc: Pc): nat
    requires ShapePc(pc)
  {
    match pc
    case Fresh => 52
    case Init(k) => 51 - k
    case Restart(k) => 34 - k
    case Copy(k) => 17 - k
    case Check => 37
    case Sleep => 36
    case Recheck => 35
    case _ => 0
  }

  function Published(n: NodeState): nat { |n.h.published| }

  /** The node published something, or its sampler is no further from doing so, and nearer if it `moved`. */
  predicate Ahead(n: NodeState, n': NodeState, moved: bool)
    requires Shape(n) && Shape(n')
  {
    Published(n') > Published(n) ||
    (Published(n') == Published(n) &&
     ToPublish(CurrentPc(n')) <= ToPublish(CurrentPc(n)) - if moved then 1 else 0)
  }

  lemma OwnStepIsAhead(n: NodeState, t: nat, raw: uint64, events: seq<bool>)
    requires Shape(n) && t == |n.threads| - 1 && !n.threads[t].stop && !n.threads[t].pc.Exit? && !n.threads[t].pc.Done?
    ensures Ahead(n, RunThread(n, t, raw, events), !Blocked(n, t))
  {
    match n.threads[t].pc {
      case Init(k) =>
      case Restart(k) =>
      case Copy(k) =>
      case _ =>
    }
  }

  lemma NodeStepIsAhead(n: NodeState, a: Step)
    requires Shape(n) && OneSampler(n) && Sampling(n)
    ensures Ahead(n, Next(n, a), a.Run? && a.t == |n.threads| - 1 && !Blocked(n, a.t))
  {
    if a.Run? && a.t < |n.threads| {
      if a.t == |n.threads| - 1 {
        OwnStepIsAhead(n, a.t, a.raw, a.events);
      } else {
        RunOnOthers(n, a.t, a.raw, a.events);
      }
    }
  }

  /** The module is on and nobody holds `ctrl_lock` at time k. */
  ghost predicate IsOn(s: System, sched: nat -> Event, k: nat)
    requires Shaped(s)
  {
    StateAt(s, sched, k).on && StateAt(s, sched, k).ctrl.Free?
  }

  lemma EventIsAhead(s: System, e: Event, i: nat)
    requires Good(s) && i < |s.nodes| && s.on && s.ctrl.Free?
    ensures s.nodes[i].threads != [] && !CurrentPc(s.nodes[i]).Done?
    ensures var n := s.nodes[i];
            Ahead(n, Exec(s, e).nodes[i], e.At? && e.i == i && e.step.Run? && e.step.t == |n.threads| - 1 &&
                                          !Blocked(n, |n.threads| - 1))
  {
    assert GoodNode(s, i);
    if e.At? && e.i == i {
      NodeStepIsAhead(s.nodes[i], e.step);
    }
  }

  lemma TimeIsAhead(s: System, sched: nat -> Event, i: nat, k: nat)
    requires Good(s) && i < |s.nodes| && IsOn(s, sched, k)
    ensures Ahead(NodeAt(s, sched, i, k), NodeAt(s, sched, i, k + 1), SamplerMoves(s, sched, i, k))
    ensures !Over(s, sched, i, k) && NodeAt(s, sched, i, k).threads != []
  {
    StaysGood(s, sched, k);
    EventIsAhead(StateAt(s, sched, k), sched(k), i);
  }

  lemma AheadTwice(n: NodeState, m: NodeState, n': NodeState, moved: bool)
    requires Shape(n) && Shape(m) && Shape(n') && Ahead(n, m, false) && Ahead(m, n', moved)
    ensures Ahead(n, n', moved)
  {
  }

  lemma {:induction false} StaysAhead(s: System, sched: nat -> Event, i: nat, k: nat, j: nat)
    requires Good(s) && i < |s.nodes| && k <= j && forall m: nat :: k <= m < j ==> IsOn(s, sched, m)
    ensures Ahead(NodeAt(s, sched, i, k), NodeAt(s, sched, i, j), false)
    decreases j
  {
    if k < j {
      StaysAhead(s, sched, i, k, j - 1);
      OneMoreAhead(s, sched, i, k, j - 1);
    }
  }

  lemma OneMoreAhead(s: System, sched: nat -> Event, i: nat, k: nat, j: nat)
    requires Good(s) && i < |s.nodes| && IsOn(s, sched, j)
    requires Ahead(NodeAt(s, sched, i, k), NodeAt(s, sched, i, j), false)
    ensures Ahead(NodeAt(s, sched, i, k), NodeAt(s, sched, i, j + 1), SamplerMoves(s, sched, i, j))
  {
    TimeIsAhead(s, sched, i, j);
    AheadTwice(NodeAt(s, sched, i, k), NodeAt(s, sched, i, j), NodeAt(s, sched, i, j + 1),
      SamplerMoves(s, sched, i, j));
  }

  /** A sampler that is on is ready again: the lock it could wait for comes free. */
  lemma ReadyAgain(s: System, sched: nat -> Event, i: nat, k: nat) returns (j: nat)
    requires Good(s) && i < |s.nodes| && FairReader(s, sched, i) && IsOn(s, sched, k)
    ensures j >= k && (!IsOn(s, sched, j) || SamplerReady(s, sched, i, j))
  {
    j := LockComesFree(s, sched, i, k);
    if IsOn(s, sched, j) {
      TimeIsAhead(s, sched, i, j);
      StaysGood(s, sched, j);
      OnlyReadersBlock(StateAt(s, sched, j), i);
    }
  }

  /** Its next turn, unless the module was switched off. */
  lemma NextTurn(s: System, sched: nat -> Event, i: nat, k: nat) returns (j: nat)
    requires Good(s) && i < |s.nodes| && FairReader(s, sched, i) && FairSampler(s, sched, i)
    ensures j >= k && (!IsOn(s, sched, j) || SamplerMoves(s, sched, i, j))
  {
    j := SamplerTurn(s, sched, i, k);
    if !SamplerMoves(s, sched, i, j) && IsOn(s, sched, j) {
      j := ReadyAgain(s, sched, i, j);
    }
  }

  /** One turn publishes or brings the sampler nearer to it. */
  lemma TurnIsAhead(s: System, sched: nat -> Event, i: nat, k: nat) returns (j: nat)
    requires Good(s) && i < |s.nodes| && FairReader(s, sched, i) && FairSampler(s, sched, i)
    ensures j >= k && (!IsOn(s, sched, j) || Ahead(NodeAt(s, sched, i, k), NodeAt(s, sched, i, j), true))
  {
    j := NextTurn(s, sched, i, k);
    if m: nat :| k <= m <= j && !IsOn(s, sched, m) {
      j := m;
    } else {
      StaysAhead(s, sched, i, k, j);
      OneMoreAhead(s, sched, i, k, j);
      j := j + 1;
    }
  }

  /** In every fair run a sampler that is on publishes a record, or the module is switched off. */
  lemma {:induction false} PublishesNext(s: System, sched: nat -> Event, i: nat, k: nat) returns (j: nat)
    requires Good(s) && i < |s.nodes| && FairReader(s, sched, i) && FairSampler(s, sched, i)
    ensures j >= k
    ensures !IsOn(s, sched, j) || Published(NodeAt(s, sched, i, j)) > Published(NodeAt(s, sched, i, k))
    decreases ToPublish(CurrentPc(NodeAt(s, sched, i, k)))
  {
    j := TurnIsAhead(s, sched, i, k);
    if IsOn(s, sched, j) && Published(NodeAt(s, sched, i, j)) == Published(NodeAt(s, sched, i, k)) {
      j := PublishesNext(s, sched, i, j);
    }
  }

  /** In every fair run, from any moment on and for every number: the node publishes that many more records, or the
      module is switched off. */
  lemma {:induction false} PublishesWithoutEnd(s: System, sched: nat -> Event, i: nat, k: nat, more: nat)
      returns (j: nat)
    requires Good(s) && i < |s.nodes| && FairReader(s, sched, i) && FairSampler(s, sched, i)
    ensures j >= k
    ensures !IsOn(s, sched, j) || Published(NodeAt(s, sched, i, j)) >= Published(NodeAt(s, sched, i, k)) + more
  {
    j := k;
    if more > 0 {
      j := PublishesWithoutEnd(s, sched, i, k, more - 1);
      if IsOn(s, sched, j) {
        j := PublishesNext(s, sched, i, j);
      }
    }
  }

  // ---- what writes of `ctrl` and `period` come to ----

  /** In every fair run a write of "on" that finds the module off ends with it on, `ctrl_lock` free and a sampler on
      every node that was not told to stop. */
  lemma OnTakesEffect(s: System, sched: nat -> Event, k: nat) returns (j: nat)
    requires Good(s) && Fair(s, sched) && sched(k).WriteOn?
    requires StateAt(s, sched, k).ctrl.Free? && !StateAt(s, sched, k).on
    ensures j > k && IsOn(s, sched, j) && forall i: nat :: i < |s.nodes| ==> Sampling(NodeAt(s, sched, i, j))
  {
    j := ControlFinishes(s, sched, k + 1);
    j := FirstRelease(s, sched, k + 1, j);
    StaysGood(s, sched, j);
    forall i: nat | i < |s.nodes|
      ensures Sampling(NodeAt(s, sched, i, j))
    {
      assert GoodNode(StateAt(s, sched, j), i);
    }
  }

  /** And a write of "off" that finds it on ends with it off, `ctrl_lock` free and every sampler over. */
  lemma OffTakesEffect(s: System, sched: nat -> Event, k: nat) returns (j: nat)
    requires Good(s) && Fair(s, sched) && sched(k).WriteOff? && IsOn(s, sched, k)
    ensures j > k && StateAt(s, sched, j).ctrl.Free? && !StateAt(s, sched, j).on
    ensures forall i: nat :: i < |s.nodes| ==> Stopped(NodeAt(s, sched, i, j))
  {
    j := StopReturns(s, sched, k + 1);
  }

  /** The last value from 1 to 9999 that was written to `period` when `ctrl_lock` was free; 1000 before the first. */
  function LastPeriod(count: nat, es: seq<Event>): nat {
    if es == [] then 1000 else
      var e := es[|es| - 1];
      if e.WritePeriod? && 1 <= e.tmp <= 9999 && After(Loaded(count), es[..|es| - 1]).ctrl.Free? then e.tmp
      else LastPeriod(count, es[..|es| - 1])
  }

  lemma {:induction false} PeriodIsLastWritten(count: nat, es: seq<Event>)
    ensures After(Loaded(count), es).period == LastPeriod(count, es)
  {
    if es != [] {
      PeriodIsLastWritten(count, es[..|es| - 1]);
      OnlyWritesChangePeriod(After(Loaded(count), es[..|es| - 1]), es[|es| - 1]);
    }
  }

  lemma OnlyWritesChangePeriod(s: System, e: Event)
    requires Shaped(s)
    ensures Exec(s, e).period == if e.WritePeriod? && 1 <= e.tmp <= 9999 && s.ctrl.Free? then e.tmp else s.period
  {
  }
}
