/**
 The whole xstat module as a state machine: all nodes, `ctrl_on`, the period, and whoever holds `ctrl_lock` in
 `start_stat` or `stop_stat`. One step is one node taken through the loop of start, one stop flag set, one join,
 one write of the period, or one step of one node.
 */
module XstatSystem {
  import opened Words
  import opened Printer
  import opened NodeCounters
  import opened RingBuffer
  import opened Pass
  import opened NodeMachine
  import opened NodeSafety
  import opened NodeCountersKept

  /** Who holds `ctrl_lock`, and which node comes next; `signalled` once that node's stop flag is set. */
  datatype Ctrl = Free | Starting(i: nat) | Stopping(i: nat, signalled: bool)

  datatype System = System(on: bool, period: nat, ctrl: Ctrl, nodes: seq<NodeState>)

  datatype Event = WriteOn | WriteOff | WritePeriod(tmp: nat) | Proceed | At(i: nat, step: Step)

  predicate Shaped(s: System) { forall i :: 0 <= i < |s.nodes| ==> Shape(s.nodes[i]) }

  /** Module load, with `count` nodes online. */
  function Loaded(count: nat): (s: System)
    ensures Shaped(s) && |s.nodes| == count
  {
    System(false, 1000, Free, seq(count, _ => Fresh0()))
  }

  /** `kthread_create_on_node` and `wake_up_process`. */
  function StartThread(n: NodeState): (n': NodeState)
    requires Shape(n)
    ensures Shape(n')
  {
    n.(threads := n.threads + [Thread(Fresh, false, [])], task := TaskIs(|n.threads|))
  }

  /** The first half of `kthread_stop`: the flag. Stopping no thread at all would be a fault. */
  function Signal(n: NodeState): (n': NodeState)
    requires Shape(n)
    ensures Shape(n')
  {
    match n.task
    case TaskIs(t) =>
      if t < |n.threads| then n.(threads := n.threads[t := n.threads[t].(stop := true)]) else n.(fault := true)
    case NoTask => n.(fault := true)
  }

  predicate Joinable(n: NodeState) { n.task.TaskIs? && n.task.t < |n.threads| && n.threads[n.task.t].pc.Done? }

  function WithNode(s: System, i: nat, n: NodeState): (s': System)
    requires Shaped(s) && i < |s.nodes| && Shape(n)
    ensures Shaped(s') && |s'.nodes| == |s.nodes|
  {
    s.(nodes := s.nodes[i := n])
  }

  /** The holder of `ctrl_lock` moves on; a join waits for the thread's end. */
  function ProceedStep(s: System): (s': System)
    requires Shaped(s)
    ensures Shaped(s') && |s'.nodes| == |s.nodes|
  {
    match s.ctrl
    case Free => s
    case Starting(i) =>
      if i < |s.nodes| then WithNode(s.(ctrl := Starting(i + 1)), i, StartThread(s.nodes[i])) else s.(ctrl := Free)
    case Stopping(i, signalled) =>
      if i >= |s.nodes| then s.(ctrl := Free)
      else if !signalled then WithNode(s.(ctrl := Stopping(i, true)), i, Signal(s.nodes[i]))
      else if Joinable(s.nodes[i]) then WithNode(s.(ctrl := Stopping(i + 1, false)), i, s.nodes[i].(task := NoTask))
      else s
  }

  /** Every event is total, so every sequence of events is a run. */
  function Exec(s: System, e: Event): (s': System)
    requires Shaped(s)
    ensures Shaped(s') && |s'.nodes| == |s.nodes|
  {
    match e
    case WriteOn => if s.ctrl.Free? && !s.on then s.(on := true, ctrl := Starting(0)) else s
    case WriteOff => if s.ctrl.Free? && s.on then s.(on := false, ctrl := Stopping(0, false)) else s
    case WritePeriod(tmp) => if s.ctrl.Free? && 0 < tmp < 10000 then s.(period := tmp) else s
    case Proceed => ProceedStep(s)
    case At(i, step) => if i < |s.nodes| then WithNode(s, i, Next(s.nodes[i], step)) else s
  }

  function After(s: System, es: seq<Event>): (s': System)
    requires Shaped(s)
    ensures Shaped(s') && |s'.nodes| == |s.nodes|
  {
    if es == [] then s else Exec(After(s, es[..|es| - 1]), es[|es| - 1])
  }

  // ---- what every step of a node keeps, together ----

  /** The ring, the lock and the readers. */
  ghost predicate RecordsGood(n: NodeState)
    requires Shape(n)
  {
    OneSampler(n) && PassKept(n) && RingKept(n) && WholePasses(n) && FatesKept(n.h) && ReaderKept(n) && ShownKept(n.h)
  }

  /** The words and contexts of the counters. */
  ghost predicate CountersGood(n: NodeState)
    requires Shape(n)
  {
    ContextsKept(n) && IntervalsKept(n) && EnergiesKept(n)
  }

  lemma RecordsGoodStep(n: NodeState, a: Step)
    requires Shape(n) && RecordsGood(n)
    ensures RecordsGood(Next(n, a))
  {
    OneSamplerStep(n, a);
    PassKeptStep(n, a);
    RingKeptStep(n, a);
    WholePassesStep(n, a);
    FatesStep(n, a);
    ReaderKeptStep(n, a);
    ShownStep(n, a);
  }

  lemma CountersGoodStep(n: NodeState, a: Step)
    requires Shape(n) && RecordsGood(n) && CountersGood(n)
    ensures CountersGood(Next(n, a))
  {
    ContextsStep(n, a);
    WordsStep(n, a);
  }

  // ---- what the controller does to a node ----

  /** Everything but the threads, the task and the fault flag. */
  predicate SameData(n: NodeState, n': NodeState) {
    n'.kept == n.kept && n'.ring == n.ring && n'.holder == n.holder && n'.cells == n.cells &&
    n'.live == n.live && n'.h == n.h
  }

  /** A change of threads that moves the current sampler at most from Done to Fresh keeps everything. */
  lemma ThreadsChange(n: NodeState, n': NodeState)
    requires Shape(n) && Shape(n') && SameData(n, n') && n'.fault == n.fault && OneSampler(n')
    requires CurrentPc(n') == CurrentPc(n) || (CurrentPc(n').Fresh? && CurrentPc(n).Done?)
    requires n'.threads != [] && CurrentPc(n') == CurrentPc(n) ==>
               n.threads != [] && n'.threads[|n'.threads| - 1].pass == n.threads[|n.threads| - 1].pass
    requires RecordsGood(n) && CountersGood(n)
    ensures RecordsGood(n') && CountersGood(n')
  {
    ContextsFrame(n, n');
    WordsFrame(n, n');
  }

  /** No thread of the node runs and none is remembered. */
  ghost predicate Stopped(n: NodeState) { n.task.NoTask? && CurrentPc(n).Done? }

  /** The newest thread is the one remembered. */
  ghost predicate Remembered(n: NodeState) { n.threads != [] && n.task == TaskIs(|n.threads| - 1) }

  /** The remembered thread was never told to stop, so it is not on its way out. */
  ghost predicate Sampling(n: NodeState) {
    Remembered(n) && !n.threads[|n.threads| - 1].stop && !CurrentPc(n).Exit? && !CurrentPc(n).Done?
  }

  ghost predicate Told(n: NodeState) { Remembered(n) && n.threads[|n.threads| - 1].stop }

  lemma StartKeeps(n: NodeState)
    requires Shape(n) && RecordsGood(n) && CountersGood(n) && Stopped(n)
    ensures RecordsGood(StartThread(n)) && CountersGood(StartThread(n)) && Sampling(StartThread(n))
  {
    ThreadsChange(n, StartThread(n));
  }

  lemma SignalKeeps(n: NodeState)
    requires Shape(n) && RecordsGood(n) && CountersGood(n) && Sampling(n)
    ensures RecordsGood(Signal(n)) && CountersGood(Signal(n)) && Told(Signal(n))
  {
    ThreadsChange(n, Signal(n));
  }

  lemma JoinKeeps(n: NodeState)
    requires Shape(n) && RecordsGood(n) && CountersGood(n) && Told(n) && Joinable(n)
    ensures var n' := n.(task := NoTask); RecordsGood(n') && CountersGood(n') && Stopped(n')
  {
    ThreadsChange(n, n.(task := NoTask));
  }

  /** A thread's own step never touches its stop flag, nor the task. */
  lemma RunOnStop(n: NodeState, t: nat, raw: uint64, events: seq<bool>)
    requires Shape(n) && t < |n.threads|
    ensures var n' := RunThread(n, t, raw, events); n'.task == n.task && n'.threads[t].stop == n.threads[t].stop
  {
    match n.threads[t].pc {
      case Init(k) =>
      case Restart(k) =>
      case Copy(k) =>
      case Exit(k) =>
      case _ =>
    }
  }

  /** Only a set flag leads out. */
  lemma RunStaysIn(n: NodeState, t: nat, raw: uint64, events: seq<bool>)
    requires Shape(n) && t < |n.threads| && !n.threads[t].stop
    requires !n.threads[t].pc.Exit? && !n.threads[t].pc.Done?
    ensures var pc' := RunThread(n, t, raw, events).threads[t].pc; !pc'.Exit? && !pc'.Done?
  {
    match n.threads[t].pc {
      case Init(k) =>
      case Restart(k) =>
      case Copy(k) =>
      case Exit(k) =>
      case _ =>
    }
  }

  lemma StatusStep(n: NodeState, a: Step)
    requires Shape(n) && OneSampler(n)
    ensures Stopped(n) ==> Stopped(Next(n, a))
    ensures Sampling(n) ==> Sampling(Next(n, a))
    ensures Told(n) ==> Told(Next(n, a))
  {
    if a.Run? && a.t < |n.threads| {
      RunOnThreads(n, a.t, a.raw, a.events);
      RunOnStop(n, a.t, a.raw, a.events);
      if Sampling(n) && a.t == |n.threads| - 1 {
        RunStaysIn(n, a.t, a.raw, a.events);
      }
    }
  }

  // ---- the invariant of the module ----

  /** How far start or stop has come with node i. */
  ghost predicate Status(s: System, i: nat)
    requires i < |s.nodes|
  {
    var n := s.nodes[i];
    match s.ctrl
    case Free => if s.on then Sampling(n) else Stopped(n)
    case Starting(j) => if i < j then Sampling(n) else Stopped(n)
    case Stopping(j, signalled) => if i < j then Stopped(n) else if i == j && signalled then Told(n) else Sampling(n)
  }

  ghost predicate GoodNode(s: System, i: nat)
    requires Shaped(s) && i < |s.nodes|
  {
    RecordsGood(s.nodes[i]) && CountersGood(s.nodes[i]) && Status(s, i)
  }

  ghost predicate Good(s: System) {
    Shaped(s) && 0 < s.period < 10000 && (s.ctrl.Starting? ==> s.on) && (s.ctrl.Stopping? ==> !s.on) &&
    forall i: nat :: i < |s.nodes| ==> GoodNode(s, i)
  }

  lemma FreshIsGood()
    ensures RecordsGood(Fresh0()) && CountersGood(Fresh0()) && Stopped(Fresh0())
  {
  }

  lemma LoadedIsGood(count: nat)
    ensures Good(Loaded(count))
  {
    FreshIsGood();
  }

  lemma StatusAfter(s: System, i: nat, a: Step)
    requires Shaped(s) && i < |s.nodes| && Status(s, i) && OneSampler(s.nodes[i])
    ensures Status(Exec(s, At(i, a)), i)
  {
    StatusStep(s.nodes[i], a);
  }

  lemma NodeAfterStep(s: System, i: nat, a: Step)
    requires Shaped(s) && i < |s.nodes| && GoodNode(s, i)
    ensures GoodNode(Exec(s, At(i, a)), i)
  {
    RecordsGoodStep(s.nodes[i], a);
    CountersGoodStep(s.nodes[i], a);
    StatusAfter(s, i, a);
  }

  lemma NodeStepKeeps(s: System, i: nat, a: Step)
    requires Good(s) && i < |s.nodes|
    ensures Good(Exec(s, At(i, a)))
  {
    assert GoodNode(s, i);
    NodeAfterStep(s, i, a);
    OthersKeep(s, Exec(s, At(i, a)), i);
  }

  /** A node that an event leaves alone stays good if its status does. */
  lemma OthersKeep(s: System, s': System, i: nat)
    requires Good(s) && Shaped(s') && |s'.nodes| == |s.nodes| && 0 < s'.period < 10000
    requires (s'.ctrl.Starting? ==> s'.on) && (s'.ctrl.Stopping? ==> !s'.on)
    requires forall k: nat :: k < |s.nodes| && k != i ==> s'.nodes[k] == s.nodes[k] && (Status(s, k) ==> Status(s', k))
    requires i < |s.nodes| ==> GoodNode(s', i)
    ensures Good(s')
  {
    forall k: nat | k < |s.nodes| && k != i
      ensures GoodNode(s', k)
    {
      assert GoodNode(s, k);
    }
  }

  lemma ProceedKeeps(s: System)
    requires Good(s)
    ensures Good(ProceedStep(s))
  {
    if !s.ctrl.Free? {
      var i := s.ctrl.i;
      if i < |s.nodes| {
        assert GoodNode(s, i);
        if s.ctrl.Starting? {
          StartKeeps(s.nodes[i]);
        } else if !s.ctrl.signalled {
          SignalKeeps(s.nodes[i]);
        } else if Joinable(s.nodes[i]) {
          JoinKeeps(s.nodes[i]);
        }
      }
      OthersKeep(s, ProceedStep(s), i);
    }
  }

  lemma ExecKeeps(s: System, e: Event)
    requires Good(s)
    ensures Good(Exec(s, e))
  {
    match e {
      case Proceed => ProceedKeeps(s);
      case At(i, a) =>
        if i < |s.nodes| {
          NodeStepKeeps(s, i, a);
        }
      case _ => OthersKeep(s, Exec(s, e), |s.nodes|);
    }
  }

  /** Every state of every run of the module is good. */
  lemma {:induction false} RunsAreGood(count: nat, es: seq<Event>)
    ensures Good(After(Loaded(count), es))
  {
    if es == [] {
      LoadedIsGood(count);
    } else {
      RunsAreGood(count, es[..|es| - 1]);
      ExecKeeps(After(Loaded(count), es[..|es| - 1]), es[|es| - 1]);
      assert After(Loaded(count), es) == Exec(After(Loaded(count), es[..|es| - 1]), es[|es| - 1]);
    }
  }
}
