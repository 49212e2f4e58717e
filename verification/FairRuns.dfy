/**
 Fair runs exist, from every good state: all samplers, all readers and the holder of `ctrl_lock` take turns. So what is
 proved of every fair run is never proved of nothing.
 */
module FairRuns {
  import opened Words
  import opened Printer
  import opened NodeCounters
  import opened RingBuffer
  import opened Pass
  import opened NodeMachine
  import opened NodeSafety
  import opened XstatSystem
  import opened StopFinishes

  /** Whose turn it is at time k, of m. */
  function Turn(k: nat, m: nat): (t: nat)
    requires m > 0
    ensures t < m
  {
    if k == 0 || Turn(k - 1, m) + 1 == m then 0 else Turn(k - 1, m) + 1
  }

  lemma {:induction false} TurnComes(k: nat, m: nat, t: nat) returns (j: nat)
    requires t < m
    ensures j >= k && Turn(j, m) == t
    decreases if Turn(k, m) <= t then t - Turn(k, m) else m + t - Turn(k, m)
  {
    j := k;
    if Turn(k, m) != t {
      j := TurnComes(k + 1, m, t);
    }
  }

  /** How many take turns: a sampler and a reader for each node, and the holder of `ctrl_lock`. */
  function Turns(s: System): (m: nat)
    ensures m > 0
  {
    2 * |s.nodes| + 1
  }

  function NewestThread(n: NodeState): nat { if n.threads == [] then 0 else |n.threads| - 1 }

  /** What the one whose turn it is does. */
  function TurnOf(s: System, t: nat): Event {
    if t < |s.nodes| then At(t, Run(NewestThread(s.nodes[t]), 0, []))
    else if t < 2 * |s.nodes| then At(t - |s.nodes|, ReaderMove(s.nodes[t - |s.nodes|]))
    else Proceed
  }

  /** The state when everyone has taken turns for k events. */
  function TurnsTaken(s: System, k: nat): (s': System)
    requires Shaped(s)
    ensures Shaped(s') && |s'.nodes| == |s.nodes|
  {
    if k == 0 then s else
      var m := TurnsTaken(s, k - 1);
      Exec(m, TurnOf(m, Turn(k - 1, Turns(s))))
  }

  /** At time k the run does what the one whose turn it is does. */
  ghost predicate TakesTurn(s: System, sched: nat -> Event, k: nat)
    requires Shaped(s)
  {
    sched(k) == TurnOf(TurnsTaken(s, k), Turn(k, Turns(s)))
  }

  ghost predicate TakingTurns(s: System, sched: nat -> Event)
    requires Shaped(s)
  {
    forall k: nat :: TakesTurn(s, sched, k)
  }

  lemma NextState(s: System, sched: nat -> Event, k: nat, x: System, e: Event)
    requires Shaped(s) && x == StateAt(s, sched, k) && e == sched(k)
    ensures Shaped(x) && StateAt(s, sched, k + 1) == Exec(x, e)
  {
  }

  lemma NextTaken(s: System, k: nat, x: System, e: Event)
    requires Shaped(s) && x == TurnsTaken(s, k) && e == TurnOf(x, Turn(k, Turns(s)))
    ensures Shaped(x) && TurnsTaken(s, k + 1) == Exec(x, e)
  {
  }

  lemma {:induction false} SameStates(s: System, sched: nat -> Event, k: nat) returns (x: System)
    requires Shaped(s) && TakingTurns(s, sched)
    ensures x == StateAt(s, sched, k) && x == TurnsTaken(s, k)
  {
    if k == 0 {
      return s;
    }
    var before := SameStates(s, sched, k - 1);
    x := SameNext(s, sched, k - 1, before);
  }

  lemma SameNext(s: System, sched: nat -> Event, k: nat, x: System) returns (x': System)
    requires Shaped(s) && TakingTurns(s, sched) && x == StateAt(s, sched, k) && x == TurnsTaken(s, k)
    ensures x' == StateAt(s, sched, k + 1) && x' == TurnsTaken(s, k + 1)
  {
    var e := sched(k);
    assert TakesTurn(s, sched, k);
    NextState(s, sched, k, x, e);
    NextTaken(s, k, x, e);
    x' := Exec(x, e);
  }

  lemma EventIs(s: System, sched: nat -> Event, k: nat)
    requires Shaped(s) && TakingTurns(s, sched)
    ensures sched(k) == TurnOf(StateAt(s, sched, k), Turn(k, Turns(s)))
  {
    var x := SameStates(s, sched, k);
    assert TakesTurn(s, sched, k);
  }

  lemma ControlIsFair(s: System, sched: nat -> Event)
    requires Shaped(s) && TakingTurns(s, sched)
    ensures FairControl(s, sched)
  {
    forall k: nat
      ensures ControlComes(s, sched, k)
    {
      var j := TurnComes(k, Turns(s), 2 * |s.nodes|);
      EventIs(s, sched, j);
    }
  }

  lemma ReaderTakesTurn(s: System, sched: nat -> Event, i: nat, j: nat)
    requires Good(s) && TakingTurns(s, sched) && i < |s.nodes|
    requires Turn(j, Turns(s)) == |s.nodes| + i && ReaderIn(s, sched, i, j)
    ensures ReaderMoves(s, sched, i, j)
  {
    EventIs(s, sched, j);
    StaysGood(s, sched, j);
    assert GoodNode(StateAt(s, sched, j), i);
    ReaderCanMove(NodeAt(s, sched, i, j));
  }

  lemma ReaderIsFair(s: System, sched: nat -> Event, i: nat)
    requires Good(s) && TakingTurns(s, sched) && i < |s.nodes|
    ensures FairReader(s, sched, i)
  {
    forall k: nat
      ensures ReaderComes(s, sched, i, k)
    {
      var j := TurnComes(k, Turns(s), |s.nodes| + i);
      if ReaderIn(s, sched, i, j) {
        ReaderTakesTurn(s, sched, i, j);
      }
    }
  }

  // ---- samplers: once the readers have left, one that is ready stays ready until its turn ----

  /** A turn that is not node i's sampler's. */
  predicate OtherTurn(s: System, e: Event, i: nat)
    requires i < |s.nodes|
  {
    e.Proceed? || (e.At? && e.i != i) || (e.At? && e.i == i && ReaderStep(e.step))
  }

  lemma TurnIs(s: System, t: nat, i: nat)
    requires t < Turns(s) && i < |s.nodes|
    ensures t != i ==> OtherTurn(s, TurnOf(s, t), i)
    ensures t == i ==> TurnOf(s, t) == At(i, Run(NewestThread(s.nodes[i]), 0, []))
  {
  }

  /** The newest thread could take a step. */
  predicate Ready(n: NodeState) {
    n.threads != [] && !CurrentPc(n).Done? && !Blocked(n, |n.threads| - 1)
  }

  lemma OtherTurnsLeaveReady(s: System, e: Event, i: nat)
    requires Good(s) && i < |s.nodes| && !s.nodes[i].holder.ReaderHolds? && OtherTurn(s, e, i)
    ensures !Exec(s, e).nodes[i].holder.ReaderHolds? && (Ready(s.nodes[i]) ==> Ready(Exec(s, e).nodes[i]))
  {
    assert GoodNode(s, i);
  }

  lemma OwnTurnTakesNoReader(s: System, i: nat, t: nat)
    requires Shaped(s) && i < |s.nodes| && !s.nodes[i].holder.ReaderHolds?
    ensures !Exec(s, At(i, Run(t, 0, []))).nodes[i].holder.ReaderHolds?
  {
    if t < |s.nodes[i].threads| {
      RunOnLock(s.nodes[i], t, 0, []);
    }
  }

  /** One turn: no reader comes, and a sampler that is ready moves or stays ready. */
  lemma OneTurn(s: System, sched: nat -> Event, i: nat, k: nat)
    requires Good(s) && TakingTurns(s, sched) && i < |s.nodes| && !ReaderIn(s, sched, i, k)
    ensures !ReaderIn(s, sched, i, k + 1)
    ensures SamplerReady(s, sched, i, k) ==>
              if Turn(k, Turns(s)) == i then SamplerMoves(s, sched, i, k)
              else SamplerReady(s, sched, i, k + 1)
  {
    var now, t := StateAt(s, sched, k), Turn(k, Turns(s));
    EventIs(s, sched, k);
    StaysGood(s, sched, k);
    TurnIs(now, t, i);
    if t == i {
      OwnTurnTakesNoReader(now, i, NewestThread(now.nodes[i]));
    } else {
      OtherTurnsLeaveReady(now, sched(k), i);
    }
  }

  lemma {:induction false} NoReaderComes(s: System, sched: nat -> Event, i: nat, k: nat, j: nat)
    requires Good(s) && TakingTurns(s, sched) && i < |s.nodes| && !ReaderIn(s, sched, i, k) && k <= j
    ensures !ReaderIn(s, sched, i, j)
    decreases j - k
  {
    if k < j {
      OneTurn(s, sched, i, k);
      NoReaderComes(s, sched, i, k + 1, j);
    }
  }

  lemma {:induction false} ReadyMoves(s: System, sched: nat -> Event, i: nat, k: nat) returns (j: nat)
    requires Good(s) && TakingTurns(s, sched) && i < |s.nodes|
    requires !ReaderIn(s, sched, i, k) && SamplerReady(s, sched, i, k)
    ensures j >= k && SamplerMoves(s, sched, i, j)
    decreases var t := Turn(k, Turns(s)); if t <= i then i - t else Turns(s) + i - t
  {
    OneTurn(s, sched, i, k);
    j := k;
    if Turn(k, Turns(s)) != i {
      j := ReadyMoves(s, sched, i, k + 1);
    }
  }

  lemma SamplerIsFair(s: System, sched: nat -> Event, i: nat)
    requires Good(s) && TakingTurns(s, sched) && i < |s.nodes|
    ensures FairSampler(s, sched, i)
  {
    ReaderIsFair(s, sched, i);
    forall k: nat
      ensures SamplerComes(s, sched, i, k)
    {
      var l := LockComesFree(s, sched, i, k);
      if m: nat :| m >= l && SamplerReady(s, sched, i, m) {
        NoReaderComes(s, sched, i, l, m);
        var j := ReadyMoves(s, sched, i, m);
      } else {
        assert NeverReadyAfter(s, sched, i, l);
      }
    }
  }

  /** From every good state there is a fair run. */
  lemma FairRunExists(s: System) returns (sched: nat -> Event)
    requires Good(s)
    ensures Fair(s, sched)
  {
    sched := (k: nat) => TurnOf(TurnsTaken(s, k), Turn(k, Turns(s)));
    forall k: nat
      ensures TakesTurn(s, sched, k)
    {
    }
    ControlIsFair(s, sched);
    forall i: nat | i < |s.nodes|
      ensures FairReader(s, sched, i) && FairSampler(s, sched, i)
    {
      ReaderIsFair(s, sched, i);
      SamplerIsFair(s, sched, i);
    }
  }
}
