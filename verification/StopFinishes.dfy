/**
 Stopping always finishes. `stop_stat` joins while it holds `ctrl_lock`, but no sampler takes that lock: a sampler that
 was told to stop comes nearer its end with every step of its own, nobody else moves it away, and the only lock it
 waits for is given back by whoever holds it.
 */
module StopFinishes {
  import opened Words
  import opened Printer
  import opened NodeCounters
  import opened RingBuffer
  import opened Pass
  import opened NodeMachine
  import opened NodeSafety
  import opened NodeCountersKept
  import opened XstatSystem

  // ---- one node ----

  /** Steps of its own that a thread with its stop flag set still takes. */
  function Rank(pc: Pc): nat
    requires ShapePc(pc)
  {
    match pc
    case Fresh => 1
    case Init(k) => 53 + (XSTAT_NCNT - k)
    case Restart(k) => 36 + (XSTAT_NCNT - k)
    case Copy(k) => 19 + (XSTAT_NCNT - k)
    case Check => 18
    case Sleep => 19
    case Recheck => 18
    case Exit(k) => 1 + (XSTAT_NCNT - k)
    case Done => 0
  }

  /** A thread waits only for the node's lock. */
  predicate Blocked(n: NodeState, t: nat)
    requires t < |n.threads|
  {
    n.threads[t].pc == Restart(XSTAT_NCNT) && !n.holder.Nobody?
  }

  /** Every step of a thread that was told to stop and is not waiting counts down. */
  lemma StepCountsDown(n: NodeState, t: nat, raw: uint64, events: seq<bool>)
    requires Shape(n) && t < |n.threads| && n.threads[t].stop && !n.threads[t].pc.Done? && !Blocked(n, t)
    ensures Rank(RunThread(n, t, raw, events).threads[t].pc) == Rank(n.threads[t].pc) - 1
  {
    match n.threads[t].pc {
      case Init(k) =>
      case Restart(k) =>
      case Copy(k) =>
      case Exit(k) =>
      case _ =>
    }
  }

  lemma WaitingStays(n: NodeState, t: nat, raw: uint64, events: seq<bool>)
    requires Shape(n) && t < |n.threads| && (n.threads[t].pc.Done? || Blocked(n, t))
    ensures RunThread(n, t, raw, events) == n
  {
  }

  /** No step of the node turns the count back. */
  lemma RankFalls(n: NodeState, a: Step, t: nat)
    requires Shape(n) && t < |n.threads| && n.threads[t].stop
    ensures |Next(n, a).threads| == |n.threads| && Rank(Next(n, a).threads[t].pc) <= Rank(n.threads[t].pc)
    ensures a.Run? && a.t == t && !n.threads[t].pc.Done? && !Blocked(n, t) ==>
              Rank(Next(n, a).threads[t].pc) < Rank(n.threads[t].pc)
  {
    if a.Run? && a.t < |n.threads| {
      RunOnThreads(n, a.t, a.raw, a.events);
      if a.t == t {
        if n.threads[t].pc.Done? || Blocked(n, t) {
          WaitingStays(n, t, a.raw, a.events);
        } else {
          StepCountsDown(n, t, a.raw, a.events);
        }
      }
    }
  }

  /** Whether a thread at pc will publish before it next looks at its stop flag. */
  function Pending(pc: Pc): nat { if pc.Init? || pc.Restart? || pc.Copy? then 1 else 0 }

  lemma PendingFalls(n: NodeState, a: Step)
    requires Shape(n) && OneSampler(n) && n.threads != [] && n.threads[|n.threads| - 1].stop
    ensures var n' := Next(n, a);
            |n'.threads| == |n.threads| && n'.threads[|n.threads| - 1].stop &&
            |n'.h.published| + Pending(CurrentPc(n')) <= |n.h.published| + Pending(CurrentPc(n))
  {
    if a.Run? && a.t < |n.threads| {
      RunOnThreads(n, a.t, a.raw, a.events);
      RunOnStop(n, a.t, a.raw, a.events);
      if n.threads[a.t].pc != Copy(XSTAT_NCNT) {
        RunOnHistory(n, a.t, a.raw, a.events);
        if a.t == |n.threads| - 1 {
          NothingNewPending(n, a.t, a.raw, a.events);
        }
      }
    }
  }

  lemma NothingNewPending(n: NodeState, t: nat, raw: uint64, events: seq<bool>)
    requires Shape(n) && t < |n.threads| && n.threads[t].stop && n.threads[t].pc != Copy(XSTAT_NCNT)
    ensures Pending(RunThread(n, t, raw, events).threads[t].pc) <= Pending(n.threads[t].pc)
  {
    match n.threads[t].pc {
      case Init(k) =>
      case Restart(k) =>
      case Copy(k) =>
      case Exit(k) =>
      case _ =>
    }
  }

  /** The node has no newer thread, the one it has is told to stop, and at most `most` records are or will be
      published. */
  ghost predicate Ending(n: NodeState, threads: nat, most: nat) {
    |n.threads| == threads > 0 && n.threads[threads - 1].stop && |n.h.published| + Pending(CurrentPc(n)) <= most
  }

  lemma EndingEvent(s: System, e: Event, i: nat, threads: nat, most: nat)
    requires Good(s) && i < |s.nodes| && Ending(s.nodes[i], threads, most)
    ensures |Exec(s, e).nodes[i].threads| > threads || Ending(Exec(s, e).nodes[i], threads, most)
  {
    assert GoodNode(s, i);
    if e.At? && e.i == i {
      PendingFalls(s.nodes[i], e.step);
    }
  }

  lemma MoreThreads(s: System, e: Event, i: nat)
    requires Good(s) && i < |s.nodes|
    ensures |Exec(s, e).nodes[i].threads| >= |s.nodes[i].threads|
  {
    assert GoodNode(s, i);
    if e.At? && e.i == i {
      OneSamplerStep(s.nodes[i], e.step);
    }
  }

  lemma {:induction false} EndingRun(s: System, es: seq<Event>, i: nat, threads: nat, most: nat)
    requires Good(s) && i < |s.nodes| && Ending(s.nodes[i], threads, most)
    ensures Good(After(s, es))
    ensures |After(s, es).nodes[i].threads| > threads || Ending(After(s, es).nodes[i], threads, most)
  {
    if es != [] {
      var es', e := es[..|es| - 1], es[|es| - 1];
      EndingRun(s, es', i, threads, most);
      ExecKeeps(After(s, es'), e);
      MoreThreads(After(s, es'), e, i);
      if |After(s, es').nodes[i].threads| == threads {
        EndingEvent(After(s, es'), e, i, threads, most);
      }
    }
  }

  /** Once its stop flag is set a sampler publishes at most one more record, whatever else happens before the next
      start; one that has not run yet publishes none. */
  lemma AtMostOneMore(s: System, es: seq<Event>, i: nat)
    requires Good(s) && i < |s.nodes| && s.nodes[i].threads != [] && s.nodes[i].threads[|s.nodes[i].threads| - 1].stop
    ensures var n, n' := s.nodes[i], After(s, es).nodes[i];
            |n'.threads| > |n.threads| ||
            |n'.h.published| <= |n.h.published| + if CurrentPc(n).Fresh? then 0 else 1
  {
    var n := s.nodes[i];
    EndingRun(s, es, i, |n.threads|, |n.h.published| + Pending(CurrentPc(n)));
  }

  /** A thread that is stopped before its first run executes neither init nor exit. */
  lemma StoppedBeforeItRan(n: NodeState, t: nat, raw: uint64, events: seq<bool>)
    requires Shape(n) && t < |n.threads| && n.threads[t].pc.Fresh? && n.threads[t].stop
    ensures var n' := RunThread(n, t, raw, events);
            n'.threads[t].pc.Done? && n'.cells == n.cells && n'.kept == n.kept && n'.h == n.h
  {
  }

  // ---- the lock ----

  /** Steps a reader that holds the lock can still take. */
  function ReaderLeft(n: NodeState): nat
    requires Shape(n)
  {
    match n.holder
    case ReaderHolds(r, last, got) =>
      if last then 1 + (XSTAT_NCNT - |got|) else 1 + (XSTAT_NCNT + 1) * n.ring.size + (XSTAT_NCNT - |got|)
    case _ => 0
  }

  predicate ReaderStep(a: Step) { a.ReadField? || a.Deliver? || a.Unlock? }

  /** The next move of a reader that holds the lock; a `stat` reader gives it back after any record. */
  function ReaderMove(n: NodeState): Step {
    if n.holder.ReaderHolds? && |n.holder.got| == XSTAT_NCNT then if n.holder.last then Unlock else Deliver
    else if n.holder.ReaderHolds? && n.holder.got == [] && !n.holder.last then Unlock
    else ReadField
  }

  /** A reader that holds the lock can always move. */
  lemma ReaderCanMove(n: NodeState)
    requires Shape(n) && ReaderKept(n) && n.holder.ReaderHolds?
    ensures ReaderStep(ReaderMove(n)) && Next(n, ReaderMove(n)) != n
  {
    if ReaderMove(n).ReadField? {
      assert |Next(n, ReadField).holder.got| == |n.holder.got| + 1;
    }
  }

  /** Each move of the reader counts down; nobody else changes what it has left. */
  lemma ReaderLeftFalls(n: NodeState, a: Step)
    requires Shape(n) && OneSampler(n) && n.holder.ReaderHolds?
    ensures var n' := Next(n, a);
            ReaderLeft(n') <= ReaderLeft(n) && (ReaderStep(a) && n' != n ==> ReaderLeft(n') < ReaderLeft(n))
  {
    if a.Run? && a.t < |n.threads| {
      RunOnThreads(n, a.t, a.raw, a.events);
      if !n.threads[a.t].pc.Done? {
        RunLeavesRing(n, a.t, a.raw, a.events);
      }
    }
  }

  // ---- infinite runs ----

  /** The state before event number k of an infinite run. */
  function StateAt(s: System, sched: nat -> Event, k: nat): (s': System)
    requires Shaped(s)
    ensures Shaped(s') && |s'.nodes| == |s.nodes|
  {
    if k == 0 then s else Exec(StateAt(s, sched, k - 1), sched(k - 1))
  }

  function NodeAt(s: System, sched: nat -> Event, i: nat, k: nat): (n: NodeState)
    requires Shaped(s) && i < |s.nodes|
    ensures Shape(n)
  {
    StateAt(s, sched, k).nodes[i]
  }

  lemma {:induction false} StaysGood(s: System, sched: nat -> Event, k: nat)
    requires Good(s)
    ensures Good(StateAt(s, sched, k))
  {
    if k > 0 {
      StaysGood(s, sched, k - 1);
      ExecKeeps(StateAt(s, sched, k - 1), sched(k - 1));
    }
  }

  ghost predicate ReaderIn(s: System, sched: nat -> Event, i: nat, k: nat)
    requires Shaped(s) && i < |s.nodes|
  {
    NodeAt(s, sched, i, k).holder.ReaderHolds?
  }

  /** Event k is a step of node i's reader that gets it somewhere. */
  ghost predicate ReaderMoves(s: System, sched: nat -> Event, i: nat, k: nat)
    requires Shaped(s) && i < |s.nodes|
  {
    var e, n := sched(k), NodeAt(s, sched, i, k);
    e.At? && e.i == i && ReaderStep(e.step) && Next(n, e.step) != n
  }

  /** The newest thread of node i could take a step. */
  ghost predicate SamplerReady(s: System, sched: nat -> Event, i: nat, k: nat)
    requires Shaped(s) && i < |s.nodes|
  {
    var n := NodeAt(s, sched, i, k);
    n.threads != [] && !CurrentPc(n).Done? && !Blocked(n, |n.threads| - 1)
  }

  ghost predicate SamplerMoves(s: System, sched: nat -> Event, i: nat, k: nat)
    requires Shaped(s) && i < |s.nodes|
  {
    var e, n := sched(k), NodeAt(s, sched, i, k);
    SamplerReady(s, sched, i, k) && e.At? && e.i == i && e.step.Run? && e.step.t == |n.threads| - 1
  }

  ghost predicate NeverReadyAfter(s: System, sched: nat -> Event, i: nat, k: nat)
    requires Shaped(s) && i < |s.nodes|
  {
    forall m: nat :: m >= k ==> !SamplerReady(s, sched, i, m)
  }

  /** From time k on the reader of node i moves or there is none. */
  ghost predicate ReaderComes(s: System, sched: nat -> Event, i: nat, k: nat)
    requires Shaped(s) && i < |s.nodes|
  {
    exists j: nat :: j >= k && (ReaderMoves(s, sched, i, j) || !ReaderIn(s, sched, i, j))
  }

  /** From time k on the sampler of node i moves or is never ready again. */
  ghost predicate SamplerComes(s: System, sched: nat -> Event, i: nat, k: nat)
    requires Shaped(s) && i < |s.nodes|
  {
    (exists j: nat :: j >= k && SamplerMoves(s, sched, i, j)) ||
    (exists j: nat :: j >= k && NeverReadyAfter(s, sched, i, j))
  }

  /** From time k on the holder of `ctrl_lock` moves or there is none. */
  ghost predicate ControlComes(s: System, sched: nat -> Event, k: nat)
    requires Shaped(s)
  {
    exists j: nat :: j >= k && (sched(j).Proceed? || StateAt(s, sched, j).ctrl.Free?)
  }

  /** A reader that holds the node's lock is scheduled again and again. */
  ghost predicate FairReader(s: System, sched: nat -> Event, i: nat)
    requires Shaped(s) && i < |s.nodes|
  {
    forall k: nat :: ReaderComes(s, sched, i, k)
  }

  /** A sampler that is ready again and again is scheduled again and again. */
  ghost predicate FairSampler(s: System, sched: nat -> Event, i: nat)
    requires Shaped(s) && i < |s.nodes|
  {
    forall k: nat :: SamplerComes(s, sched, i, k)
  }

  /** So is the holder of `ctrl_lock`. */
  ghost predicate FairControl(s: System, sched: nat -> Event)
    requires Shaped(s)
  {
    forall k: nat :: ControlComes(s, sched, k)
  }

  ghost predicate Fair(s: System, sched: nat -> Event)
    requires Shaped(s)
  {
    FairControl(s, sched) && forall i: nat :: i < |s.nodes| ==> FairReader(s, sched, i) && FairSampler(s, sched, i)
  }

  // ---- the node's lock comes free ----

  lemma ReaderEvent(s: System, e: Event, i: nat)
    requires Good(s) && i < |s.nodes| && s.nodes[i].holder.ReaderHolds?
    ensures var n, n' := s.nodes[i], Exec(s, e).nodes[i];
            ReaderLeft(n') <= ReaderLeft(n) &&
            (e.At? && e.i == i && ReaderStep(e.step) && n' != n ==> ReaderLeft(n') < ReaderLeft(n))
  {
    assert GoodNode(s, i);
    if e.At? && e.i == i {
      ReaderLeftFalls(s.nodes[i], e.step);
    }
  }

  lemma {:induction false} ReaderLeftStays(s: System, sched: nat -> Event, i: nat, k: nat, j: nat)
    requires Good(s) && i < |s.nodes| && k <= j
    requires forall m: nat :: k <= m < j ==> ReaderIn(s, sched, i, m)
    ensures ReaderLeft(NodeAt(s, sched, i, j)) <= ReaderLeft(NodeAt(s, sched, i, k))
    decreases j
  {
    if k < j {
      ReaderLeftStays(s, sched, i, k, j - 1);
      StaysGood(s, sched, j - 1);
      assert ReaderIn(s, sched, i, j - 1);
      ReaderEvent(StateAt(s, sched, j - 1), sched(j - 1), i);
    }
  }

  lemma ReaderLeftFell(s: System, sched: nat -> Event, i: nat, k: nat, j: nat)
    requires Good(s) && i < |s.nodes| && k <= j && ReaderMoves(s, sched, i, j)
    requires forall m: nat :: k <= m <= j ==> ReaderIn(s, sched, i, m)
    ensures ReaderLeft(NodeAt(s, sched, i, j + 1)) < ReaderLeft(NodeAt(s, sched, i, k))
  {
    ReaderLeftStays(s, sched, i, k, j);
    StaysGood(s, sched, j);
    assert ReaderIn(s, sched, i, j);
    ReaderEvent(StateAt(s, sched, j), sched(j), i);
  }

  lemma ReaderTurn(s: System, sched: nat -> Event, i: nat, k: nat) returns (j: nat)
    requires Good(s) && i < |s.nodes| && FairReader(s, sched, i)
    ensures j >= k && (ReaderMoves(s, sched, i, j) || !ReaderIn(s, sched, i, j))
  {
    assert ReaderComes(s, sched, i, k);
    j :| j >= k && (ReaderMoves(s, sched, i, j) || !ReaderIn(s, sched, i, j));
  }

  /** Whoever reads under the node's lock gives it back. */
  lemma {:induction false} LockComesFree(s: System, sched: nat -> Event, i: nat, k: nat) returns (j: nat)
    requires Good(s) && i < |s.nodes| && FairReader(s, sched, i)
    ensures j >= k && !ReaderIn(s, sched, i, j)
    decreases ReaderLeft(NodeAt(s, sched, i, k))
  {
    if !ReaderIn(s, sched, i, k) {
      return k;
    }
    j := ReaderTurn(s, sched, i, k);
    if m: nat :| k <= m <= j && !ReaderIn(s, sched, i, m) {
      return m;
    }
    ReaderLeftFell(s, sched, i, k, j);
    j := LockComesFree(s, sched, i, j + 1);
  }

  // ---- a sampler that was told to stop ends ----

  ghost predicate Stopping1(s: System, i: nat)
    requires i < |s.nodes|
  {
    s.ctrl == Stopping(i, true) && Told(s.nodes[i])
  }

  /** Stop is waiting for node i at time k. */
  ghost predicate Joining(s: System, sched: nat -> Event, i: nat, k: nat)
    requires Shaped(s) && i < |s.nodes|
  {
    Stopping1(StateAt(s, sched, k), i)
  }

  ghost predicate Over(s: System, sched: nat -> Event, i: nat, k: nat)
    requires Shaped(s) && i < |s.nodes|
  {
    CurrentPc(NodeAt(s, sched, i, k)).Done?
  }

  function RankAt(s: System, sched: nat -> Event, i: nat, k: nat): nat
    requires Shaped(s) && i < |s.nodes|
  {
    Rank(CurrentPc(NodeAt(s, sched, i, k)))
  }

  /** No step of the node turns back a sampler that was told to stop, and one of its own brings it nearer to its end. */
  lemma ToldStep(n: NodeState, a: Step)
    requires Shape(n) && OneSampler(n) && Told(n)
    ensures var n' := Next(n, a);
            Told(n') && |n'.threads| == |n.threads| && Rank(CurrentPc(n')) <= Rank(CurrentPc(n)) &&
            (a.Run? && a.t == |n.threads| - 1 && !CurrentPc(n).Done? && !Blocked(n, |n.threads| - 1) ==>
               Rank(CurrentPc(n')) < Rank(CurrentPc(n)))
  {
    RankFalls(n, a, |n.threads| - 1);
    StatusStep(n, a);
  }

  /** While stop waits for node i, every event leaves it waiting or joins, and leaves the sampler no further from its
      end. */
  lemma WaitingEvent(s: System, e: Event, i: nat)
    requires Good(s) && i < |s.nodes| && Stopping1(s, i) && !CurrentPc(s.nodes[i]).Done?
    ensures var s' := Exec(s, e); var n, n' := s.nodes[i], s'.nodes[i];
            Stopping1(s', i) && |n'.threads| == |n.threads| && Rank(CurrentPc(n')) <= Rank(CurrentPc(n)) &&
            (e.At? && e.i == i && e.step.Run? && e.step.t == |n.threads| - 1 && !Blocked(n, |n.threads| - 1) ==>
               Rank(CurrentPc(n')) < Rank(CurrentPc(n)))
  {
    assert GoodNode(s, i);
    if e.At? && e.i == i {
      ToldStep(s.nodes[i], e.step);
    }
  }

  lemma WaitingOnce(s: System, sched: nat -> Event, i: nat, j: nat)
    requires Good(s) && i < |s.nodes| && Joining(s, sched, i, j) && !Over(s, sched, i, j)
    ensures Joining(s, sched, i, j + 1) && RankAt(s, sched, i, j + 1) <= RankAt(s, sched, i, j)
    ensures SamplerMoves(s, sched, i, j) ==> RankAt(s, sched, i, j + 1) < RankAt(s, sched, i, j)
  {
    StaysGood(s, sched, j);
    WaitingEvent(StateAt(s, sched, j), sched(j), i);
  }

  lemma {:induction false} WaitingStaysOn(s: System, sched: nat -> Event, i: nat, k: nat, j: nat)
    requires Good(s) && i < |s.nodes| && k <= j && Joining(s, sched, i, k)
    requires forall m: nat :: k <= m < j ==> !Over(s, sched, i, m)
    ensures Joining(s, sched, i, j) && RankAt(s, sched, i, j) <= RankAt(s, sched, i, k)
    decreases j
  {
    if k < j {
      WaitingStaysOn(s, sched, i, k, j - 1);
      WaitingOnce(s, sched, i, j - 1);
    }
  }

  lemma RankFell(s: System, sched: nat -> Event, i: nat, k: nat, j: nat)
    requires Good(s) && i < |s.nodes| && k <= j && Joining(s, sched, i, k) && SamplerMoves(s, sched, i, j)
    requires forall m: nat :: k <= m <= j ==> !Over(s, sched, i, m)
    ensures Joining(s, sched, i, j + 1) && RankAt(s, sched, i, j + 1) < RankAt(s, sched, i, k)
  {
    WaitingStaysOn(s, sched, i, k, j);
    WaitingOnce(s, sched, i, j);
  }

  lemma OnlyReadersBlock(s: System, i: nat)
    requires Good(s) && i < |s.nodes| && s.nodes[i].threads != [] && !s.nodes[i].holder.ReaderHolds?
    ensures !Blocked(s.nodes[i], |s.nodes[i].threads| - 1)
  {
    assert GoodNode(s, i);
  }

  /** A sampler that is never ready is over: the lock it could wait for comes free, and it is not holding it itself. */
  lemma NotReadyIsOver(s: System, sched: nat -> Event, i: nat, k: nat) returns (j: nat)
    requires Good(s) && i < |s.nodes| && FairReader(s, sched, i) && NeverReadyAfter(s, sched, i, k)
    requires forall m: nat :: m >= k ==> NodeAt(s, sched, i, m).threads != []
    ensures j >= k && Over(s, sched, i, j)
  {
    j := LockComesFree(s, sched, i, k);
    StaysGood(s, sched, j);
    OnlyReadersBlock(StateAt(s, sched, j), i);
    assert !SamplerReady(s, sched, i, j);
  }

  lemma {:induction false} FirstOver(s: System, sched: nat -> Event, i: nat, k: nat, m: nat) returns (j: nat)
    requires Shaped(s) && i < |s.nodes| && k <= m && Over(s, sched, i, m)
    ensures k <= j <= m && Over(s, sched, i, j) && forall l: nat :: k <= l < j ==> !Over(s, sched, i, l)
    decreases m - k
  {
    if Over(s, sched, i, k) {
      return k;
    }
    j := FirstOver(s, sched, i, k + 1, m);
  }

  lemma ThreadsEvent(s: System, e: Event, i: nat)
    requires Shaped(s) && i < |s.nodes| && s.nodes[i].threads != []
    ensures Exec(s, e).nodes[i].threads != []
  {
    if e.At? && e.step.Run? && e.i == i && e.step.t < |s.nodes[i].threads| {
      RunOnThreads(s.nodes[i], e.step.t, e.step.raw, e.step.events);
    }
  }

  lemma {:induction false} ThreadsStay(s: System, sched: nat -> Event, i: nat, k: nat, m: nat)
    requires Shaped(s) && i < |s.nodes| && k <= m && NodeAt(s, sched, i, k).threads != []
    ensures NodeAt(s, sched, i, m).threads != []
    decreases m
  {
    if k < m {
      ThreadsStay(s, sched, i, k, m - 1);
      ThreadsEvent(StateAt(s, sched, m - 1), sched(m - 1), i);
    }
  }

  lemma NeverReadyEnds(s: System, sched: nat -> Event, i: nat, k: nat, l: nat) returns (j: nat)
    requires Good(s) && i < |s.nodes| && FairReader(s, sched, i) && Joining(s, sched, i, k)
    requires l >= k && NeverReadyAfter(s, sched, i, l)
    ensures j >= k && Over(s, sched, i, j)
  {
    forall m: nat | m >= l
      ensures NodeAt(s, sched, i, m).threads != []
    {
      ThreadsStay(s, sched, i, k, m);
    }
    j := NotReadyIsOver(s, sched, i, l);
  }

  lemma SamplerTurn(s: System, sched: nat -> Event, i: nat, k: nat) returns (l: nat)
    requires Shaped(s) && i < |s.nodes| && FairSampler(s, sched, i)
    ensures l >= k && (SamplerMoves(s, sched, i, l) || NeverReadyAfter(s, sched, i, l))
  {
    assert SamplerComes(s, sched, i, k);
    if l': nat :| l' >= k && NeverReadyAfter(s, sched, i, l') {
      l := l';
    } else {
      l :| l >= k && SamplerMoves(s, sched, i, l);
    }
  }

  /** One turn brings the sampler to its end or nearer to it. */
  lemma SamplerNears(s: System, sched: nat -> Event, i: nat, k: nat, l: nat) returns (j: nat)
    requires Good(s) && i < |s.nodes| && Joining(s, sched, i, k) && l >= k && SamplerMoves(s, sched, i, l)
    ensures j >= k
    ensures Over(s, sched, i, j) || (Joining(s, sched, i, j) && RankAt(s, sched, i, j) < RankAt(s, sched, i, k))
  {
    if m: nat :| k <= m <= l && Over(s, sched, i, m) {
      j := m;
    } else {
      RankFell(s, sched, i, k, l);
      j := l + 1;
    }
  }

  /** A sampler that stop waits for ends. */
  lemma {:induction false} SamplerEnds(s: System, sched: nat -> Event, i: nat, k: nat) returns (j: nat)
    requires Good(s) && i < |s.nodes| && FairReader(s, sched, i) && FairSampler(s, sched, i) && Joining(s, sched, i, k)
    ensures j >= k && Over(s, sched, i, j)
    decreases RankAt(s, sched, i, k)
  {
    j := SamplerTurn(s, sched, i, k);
    if NeverReadyAfter(s, sched, i, j) {
      j := NeverReadyEnds(s, sched, i, k, j);
    } else {
      j := SamplerNears(s, sched, i, k, j);
      if !Over(s, sched, i, j) {
        j := SamplerEnds(s, sched, i, j);
      }
    }
  }

  // ---- stop ends ----

  /** What the holder of `ctrl_lock` still has to do. */
  function ControlLeft(s: System): nat {
    match s.ctrl
    case Free => 0
    case Starting(i) => 1 + (if i < |s.nodes| then |s.nodes| - i else 0)
    case Stopping(i, signalled) => 2 * (1 + (if i < |s.nodes| then |s.nodes| - i else 0)) - (if signalled then 1 else 0)
  }

  ghost predicate Held(s: System, sched: nat -> Event, k: nat)
    requires Shaped(s)
  {
    !StateAt(s, sched, k).ctrl.Free?
  }

  /** While `ctrl_lock` is held, only its holder changes what is left to do, and nobody switches on or off. */
  lemma HeldEvent(s: System, e: Event)
    requires Good(s) && !s.ctrl.Free?
    ensures Exec(s, e).on == s.on
    ensures !e.Proceed? ==> Exec(s, e).ctrl == s.ctrl
  {
  }

  lemma ProceedCounts(s: System)
    requires Good(s) && !s.ctrl.Free?
    requires s.ctrl.Stopping? && s.ctrl.signalled && s.ctrl.i < |s.nodes| ==> Joinable(s.nodes[s.ctrl.i])
    ensures ControlLeft(Exec(s, Proceed)) < ControlLeft(s)
  {
  }

  lemma {:induction false} FirstProceed(s: System, sched: nat -> Event, k: nat, m: nat) returns (j: nat)
    requires Good(s) && k <= m && Held(s, sched, k) && (sched(m).Proceed? || !Held(s, sched, m))
    ensures k <= j && sched(j).Proceed? && StateAt(s, sched, j).ctrl == StateAt(s, sched, k).ctrl
    ensures forall l: nat :: k <= l < j ==> !sched(l).Proceed?
    decreases m - k
  {
    if sched(k).Proceed? {
      return k;
    }
    StaysGood(s, sched, k);
    HeldEvent(StateAt(s, sched, k), sched(k));
    j := FirstProceed(s, sched, k + 1, m);
  }

  /** A sampler that is over stays over until it is joined. */
  lemma {:induction false} OverStays(s: System, sched: nat -> Event, i: nat, k: nat, j: nat)
    requires Good(s) && i < |s.nodes| && k <= j && Joining(s, sched, i, k) && Over(s, sched, i, k)
    requires forall l: nat :: k <= l < j ==> !sched(l).Proceed?
    ensures Joining(s, sched, i, j) && Over(s, sched, i, j)
    decreases j
  {
    if k < j {
      OverStays(s, sched, i, k, j - 1);
      StaysGood(s, sched, j - 1);
      OverEvent(StateAt(s, sched, j - 1), sched(j - 1), i);
    }
  }

  lemma OverEvent(s: System, e: Event, i: nat)
    requires Good(s) && i < |s.nodes| && Stopping1(s, i) && CurrentPc(s.nodes[i]).Done? && !e.Proceed?
    ensures Stopping1(Exec(s, e), i) && CurrentPc(Exec(s, e).nodes[i]).Done?
  {
    assert GoodNode(s, i);
    HeldEvent(s, e);
    if e.At? && e.i == i {
      ToldStep(s.nodes[i], e.step);
    }
  }

  lemma NextProceed(s: System, sched: nat -> Event, k: nat) returns (j: nat)
    requires Good(s) && FairControl(s, sched) && Held(s, sched, k)
    ensures k <= j && sched(j).Proceed? && StateAt(s, sched, j).ctrl == StateAt(s, sched, k).ctrl
    ensures forall l: nat :: k <= l < j ==> !sched(l).Proceed?
  {
    assert ControlComes(s, sched, k);
    var m: nat :| m >= k && (sched(m).Proceed? || StateAt(s, sched, m).ctrl.Free?);
    j := FirstProceed(s, sched, k, m);
  }

  lemma JoinNow(s: System, i: nat)
    requires Good(s) && i < |s.nodes| && Stopping1(s, i) && CurrentPc(s.nodes[i]).Done?
    ensures ControlLeft(Exec(s, Proceed)) < ControlLeft(s)
  {
    ProceedCounts(s);
  }

  lemma JoinAt(s: System, sched: nat -> Event, i: nat, j: nat)
    requires Good(s) && i < |s.nodes| && Joining(s, sched, i, j) && Over(s, sched, i, j) && sched(j).Proceed?
    ensures ControlLeft(StateAt(s, sched, j + 1)) < ControlLeft(StateAt(s, sched, j))
  {
    StaysGood(s, sched, j);
    JoinNow(StateAt(s, sched, j), i);
  }

  lemma OverIsJoined(s: System, sched: nat -> Event, i: nat, k: nat, m: nat) returns (j: nat)
    requires Good(s) && i < |s.nodes| && FairControl(s, sched) && k <= m && Over(s, sched, i, m) &&
             Joining(s, sched, i, m)
    ensures j > k && ControlLeft(StateAt(s, sched, j)) < ControlLeft(StateAt(s, sched, m))
  {
    j := NextProceed(s, sched, m);
    OverStays(s, sched, i, m, j);
    JoinAt(s, sched, i, j);
    SameLeft(StateAt(s, sched, j), StateAt(s, sched, m));
    j := j + 1;
  }

  lemma SameLeft(x: System, y: System)
    requires x.ctrl == y.ctrl && |x.nodes| == |y.nodes|
    ensures ControlLeft(x) == ControlLeft(y)
  {
  }

  lemma JoinHappens(s: System, sched: nat -> Event, i: nat, k: nat) returns (j: nat)
    requires Good(s) && i < |s.nodes| && FairControl(s, sched) && FairReader(s, sched, i) && FairSampler(s, sched, i)
    requires Joining(s, sched, i, k)
    ensures j > k && ControlLeft(StateAt(s, sched, j)) < ControlLeft(StateAt(s, sched, k))
  {
    var m := SamplerEnds(s, sched, i, k);
    m := FirstOver(s, sched, i, k, m);
    WaitingStaysOn(s, sched, i, k, m);
    j := OverIsJoined(s, sched, i, k, m);
  }

  lemma Advances(s: System, sched: nat -> Event, k: nat) returns (j: nat)
    requires Good(s) && Fair(s, sched) && Held(s, sched, k)
    ensures j > k && ControlLeft(StateAt(s, sched, j)) < ControlLeft(StateAt(s, sched, k))
  {
    var now := StateAt(s, sched, k);
    if now.ctrl.Stopping? && now.ctrl.signalled && now.ctrl.i < |s.nodes| {
      StaysGood(s, sched, k);
      assert GoodNode(now, now.ctrl.i);
      assert FairReader(s, sched, now.ctrl.i);
      j := JoinHappens(s, sched, now.ctrl.i, k);
    } else {
      j := NextProceed(s, sched, k);
      StaysGood(s, sched, j);
      ProceedCounts(StateAt(s, sched, j));
      j := j + 1;
    }
  }

  /** In every fair run whoever holds `ctrl_lock` gives it back. */
  lemma {:induction false} ControlFinishes(s: System, sched: nat -> Event, k: nat) returns (j: nat)
    requires Good(s) && Fair(s, sched)
    ensures j >= k && !Held(s, sched, j)
    decreases ControlLeft(StateAt(s, sched, k))
  {
    j := k;
    if Held(s, sched, k) {
      j := Advances(s, sched, k);
      j := ControlFinishes(s, sched, j);
    }
  }

  lemma OnStays(s: System, sched: nat -> Event, k: nat)
    requires Good(s) && Held(s, sched, k)
    ensures StateAt(s, sched, k + 1).on == StateAt(s, sched, k).on
  {
    StaysGood(s, sched, k);
    HeldEvent(StateAt(s, sched, k), sched(k));
  }

  lemma {:induction false} FirstRelease(s: System, sched: nat -> Event, k: nat, m: nat) returns (j: nat)
    requires Good(s) && k <= m && !Held(s, sched, m)
    ensures k <= j <= m && !Held(s, sched, j) && StateAt(s, sched, j).on == StateAt(s, sched, k).on
    decreases m - k
  {
    if !Held(s, sched, k) {
      return k;
    }
    OnStays(s, sched, k);
    j := FirstRelease(s, sched, k + 1, m);
  }

  /** Stop returns in every fair run, and when it does every sampler is over and none is remembered. */
  lemma StopReturns(s: System, sched: nat -> Event, k: nat) returns (j: nat)
    requires Good(s) && Fair(s, sched) && StateAt(s, sched, k).ctrl.Stopping?
    ensures j > k && StateAt(s, sched, j).ctrl.Free? && !StateAt(s, sched, j).on
    ensures forall i: nat :: i < |s.nodes| ==> Stopped(NodeAt(s, sched, i, j))
  {
    StaysGood(s, sched, k);
    j := ControlFinishes(s, sched, k);
    j := FirstRelease(s, sched, k, j);
    StaysGood(s, sched, j);
    forall i: nat | i < |s.nodes|
      ensures Stopped(NodeAt(s, sched, i, j))
    {
      assert GoodNode(StateAt(s, sched, j), i);
    }
  }

  // ---- and without any assumption of fairness: no state of the module is a deadlock ----

  /** The node that stop waits for, if it waits for one. */
  predicate Waits(s: System) { s.ctrl.Stopping? && s.ctrl.signalled && s.ctrl.i < |s.nodes| }

  function SamplerLeft(s: System): nat
    requires Shaped(s)
  {
    if Waits(s) then Rank(CurrentPc(s.nodes[s.ctrl.i])) else 0
  }

  function LockLeft(s: System): nat
    requires Shaped(s)
  {
    if Waits(s) then ReaderLeft(s.nodes[s.ctrl.i]) else 0
  }

  ghost predicate Nearer(s: System, s': System)
    requires Shaped(s) && Shaped(s')
  {
    ControlLeft(s') < ControlLeft(s) ||
    (ControlLeft(s') == ControlLeft(s) &&
     (SamplerLeft(s') < SamplerLeft(s) || (SamplerLeft(s') == SamplerLeft(s) && LockLeft(s') < LockLeft(s))))
  }

  /** While `ctrl_lock` is held, some event brings its release nearer. */
  lemma NearerEvent(s: System) returns (e: Event)
    requires Good(s) && !s.ctrl.Free?
    ensures Nearer(s, Exec(s, e))
  {
    e := Proceed;
    if Waits(s) && !Joinable(s.nodes[s.ctrl.i]) {
      e := WaitedEvent(s);
    } else {
      ProceedCounts(s);
    }
  }

  lemma WaitedEvent(s: System) returns (e: Event)
    requires Good(s) && Waits(s) && !Joinable(s.nodes[s.ctrl.i])
    ensures Nearer(s, Exec(s, e))
  {
    var i, n := s.ctrl.i, s.nodes[s.ctrl.i];
    assert GoodNode(s, i);
    if n.holder.ReaderHolds? {
      ReaderCanMove(n);
      e := At(i, ReaderMove(n));
      WaitingEvent(s, e, i);
      ReaderEvent(s, e, i);
    } else {
      e := At(i, Run(|n.threads| - 1, 0, []));
      OnlyReadersBlock(s, i);
      WaitingEvent(s, e, i);
    }
  }

  lemma AfterSnoc(s: System, es: seq<Event>, e: Event, more: seq<Event>)
    requires Shaped(s) && more == es + [e]
    ensures After(s, more) == Exec(After(s, es), e)
  {
    assert more[..|es|] == es;
  }

  lemma {:induction false} AfterCons(s: System, e: Event, s1: System, es: seq<Event>) returns (x: System)
    requires Shaped(s) && s1 == Exec(s, e)
    ensures Shaped(x) && x == After(s, [e] + es) && x == After(s1, es)
  {
    if es == [] {
      AfterSnoc(s, [], e, [e] + es);
      return s1;
    }
    var before, last := es[..|es| - 1], es[|es| - 1];
    var y := AfterCons(s, e, s1, before);
    AfterSnoc(s, [e] + before, last, [e] + es);
    AfterSnoc(s1, before, last, es);
    x := After(s1, es);
  }

  /** From every state of every run there is a way on to one where `ctrl_lock` is free. */
  lemma {:induction false} NoDeadlock(s: System) returns (es: seq<Event>)
    requires Good(s)
    ensures After(s, es).ctrl.Free?
    decreases ControlLeft(s), SamplerLeft(s), LockLeft(s)
  {
    es := [];
    if !s.ctrl.Free? {
      var e := NearerEvent(s);
      ExecKeeps(s, e);
      es := NoDeadlock(Exec(s, e));
      var last := AfterCons(s, e, Exec(s, e), es);
      es := [e] + es;
    }
  }
}
