/**
 The control side of haswellstat and sbstat: the sampler tests `on` and rolls while it holds `ctrl_lock`; `set_off`
 clears `on` under the lock and joins after releasing it. Writers of `ctrl` come one after the other.
 */
module OldControl {

  /** The sampler: before its first run, before `spin_lock`, at the loop test, before the roll, before the unlock after
      it, asleep, before `kthread_should_stop`, before the unlock that ends it, and over. Test to Release and Leaving
      hold `ctrl_lock`. */
  datatype OldPc = Fresh | Want | Test | Rolling | Release | Asleep | Awake | Leaving | Done

  datatype OldThread = OldThread(pc: OldPc, stop: bool)

  /** The one writer: idle; in `set_on` or `set_off` before the lock and inside it; before `timer_start`; before the
      flag of `kthread_stop`; waiting for the thread to end. */
  datatype Writer = Idle | OnWant | OnLocked | Starting | OffWant | OffLocked | Stopping | Joining

  datatype Lock = Open | SamplerHas(t: nat) | WriterHas

  /** `rolled` counts the rolls; `readers` is whether a reader holds `buffer_lock`. */
  datatype System = System(on: bool, lock: Lock, threads: seq<OldThread>, writer: Writer, reading: bool, rolled: nat)

  datatype Event = WriteOn | WriteOff | Proceed | Run(t: nat) | ReaderLock | ReaderUnlock

  function Loaded(): System { System(false, Open, [], Idle, false, 0) }

  /** The thread that `kthread_task` points to. */
  function Task(s: System): nat
    requires s.threads != []
  {
    |s.threads| - 1
  }

  function Goto(s: System, t: nat, pc: OldPc): (s': System)
    requires t < |s.threads|
    ensures |s'.threads| == |s.threads|
  {
    s.(threads := s.threads[t := s.threads[t].(pc := pc)])
  }

  function RunThread(s: System, t: nat): (s': System)
    requires t < |s.threads|
    ensures |s'.threads| == |s.threads|
  {
    var th := s.threads[t];
    match th.pc
    case Fresh => Goto(s, t, if th.stop then Done else Want)
    case Want => if s.lock.Open? then Goto(s.(lock := SamplerHas(t)), t, Test) else s
    case Test => Goto(s, t, if s.on then Rolling else Leaving)
    case Rolling => if s.reading then s else Goto(s.(rolled := s.rolled + 1), t, Release)
    case Release => Goto(s.(lock := Open), t, Asleep)
    case Asleep => Goto(s, t, Awake)
    case Awake => Goto(s, t, if th.stop then Done else Want)
    case Leaving => Goto(s.(lock := Open), t, Done)
    case Done => s
  }

  /** The writer's next step; `lon`, the value of `on` found under the lock, decides what follows the unlock. */
  function ProceedStep(s: System): System {
    match s.writer
    case Idle => s
    case OnWant => if s.lock.Open? then s.(lock := WriterHas, writer := OnLocked) else s
    case OnLocked => s.(on := true, lock := Open, writer := if s.on then Idle else Starting)
    case Starting => s.(threads := s.threads + [OldThread(Fresh, false)], writer := Idle)
    case OffWant => if s.lock.Open? then s.(lock := WriterHas, writer := OffLocked) else s
    case OffLocked => s.(on := false, lock := Open, writer := if s.on then Stopping else Idle)
    case Stopping =>
      if s.threads == [] then s
      else s.(threads := s.threads[Task(s) := s.threads[Task(s)].(stop := true)], writer := Joining)
    case Joining => if s.threads != [] && s.threads[Task(s)].pc.Done? then s.(writer := Idle) else s
  }

  /** Every event is total, so every sequence of events is a run. */
  function Exec(s: System, e: Event): System {
    match e
    case WriteOn => if s.writer.Idle? then s.(writer := OnWant) else s
    case WriteOff => if s.writer.Idle? then s.(writer := OffWant) else s
    case Proceed => ProceedStep(s)
    case Run(t) => if t < |s.threads| then RunThread(s, t) else s
    case ReaderLock => s.(reading := true)
    case ReaderUnlock => s.(reading := false)
  }

  function After(s: System, es: seq<Event>): System {
    if es == [] then s else Exec(After(s, es[..|es| - 1]), es[|es| - 1])
  }

  // ---- the invariant ----

  predicate InLock(pc: OldPc) { pc.Test? || pc.Rolling? || pc.Release? || pc.Leaving? }

  /** Only the newest thread can be alive. */
  ghost predicate OneSampler(s: System) { forall t :: 0 <= t < |s.threads| - 1 ==> s.threads[t].pc.Done? }

  function CurrentPc(s: System): OldPc { if s.threads == [] then Done else s.threads[Task(s)].pc }

  function Told(s: System): bool { s.threads != [] && s.threads[Task(s)].stop }

  /** Who holds `ctrl_lock`, and that a roll happens only while `on`. */
  ghost predicate LockKept(s: System) {
    (s.lock.WriterHas? <==> s.writer.OnLocked? || s.writer.OffLocked?) &&
    (s.lock.SamplerHas? <==> InLock(CurrentPc(s))) && (s.lock.SamplerHas? ==> s.lock.t == |s.threads| - 1) &&
    (CurrentPc(s).Rolling? ==> s.on)
  }

  /** A sampler ends only after `on` was cleared; while the writer starts, stops or joins it knows what `on` is. */
  ghost predicate WriterKept(s: System) {
    match s.writer
    case Starting => s.on && CurrentPc(s).Done?
    case Stopping => !s.on && s.threads != [] && !Told(s)
    case Joining => !s.on && Told(s)
    case _ =>
      if s.on then s.threads != [] && !Told(s) && !CurrentPc(s).Done? && !CurrentPc(s).Leaving? else CurrentPc(s).Done?
  }

  ghost predicate Good(s: System) { OneSampler(s) && LockKept(s) && WriterKept(s) }

  lemma RunKeeps(s: System, t: nat)
    requires Good(s) && t < |s.threads|
    ensures Good(RunThread(s, t))
  {
    match s.threads[t].pc {
      case Want =>
      case Test =>
      case Rolling =>
      case Release =>
      case Leaving =>
      case _ =>
    }
  }

  lemma ProceedKeeps(s: System)
    requires Good(s)
    ensures Good(ProceedStep(s))
  {
  }

  lemma ExecKeeps(s: System, e: Event)
    requires Good(s)
    ensures Good(Exec(s, e))
  {
    match e {
      case Run(t) =>
        if t < |s.threads| {
          RunKeeps(s, t);
        }
      case Proceed => ProceedKeeps(s);
      case _ =>
    }
  }

  lemma {:induction false} RunsAreGood(es: seq<Event>)
    ensures Good(After(Loaded(), es))
  {
    if es != [] {
      RunsAreGood(es[..|es| - 1]);
      ExecKeeps(After(Loaded(), es[..|es| - 1]), es[|es| - 1]);
    }
  }

  // ---- what follows in every run ----

  /** At most one sampler is alive, and none once `set_off` has returned. */
  lemma OneSamplerAlive(es: seq<Event>, t: nat)
    ensures var s := After(Loaded(), es);
            t < |s.threads| && !s.threads[t].pc.Done? ==> t == |s.threads| - 1 && (s.writer.Idle? ==> s.on)
  {
    RunsAreGood(es);
  }

  lemma OneSamplerWhenOn(es: seq<Event>)
    ensures var s := After(Loaded(), es); s.on && s.writer.Idle? ==> s.threads != [] && !CurrentPc(s).Done? && !Told(s)
  {
    RunsAreGood(es);
  }

  /** The run goes on from s with `on` never set again. */
  ghost predicate StaysOff(s: System, es: seq<Event>) { forall k :: 0 <= k <= |es| ==> !After(s, es[..k]).on }

  /** A roll happens only while `on`, and under `ctrl_lock`. */
  lemma RollsWhileOn(s: System, e: Event)
    requires Good(s)
    ensures Exec(s, e).rolled == s.rolled || (Exec(s, e).rolled == s.rolled + 1 && s.on && s.lock.SamplerHas?)
  {
  }

  /** Nothing is published between the critical section of `set_off` and that of the next `set_on`. */
  lemma {:induction false} NothingRolledWhileOff(es: seq<Event>, more: seq<Event>)
    requires StaysOff(After(Loaded(), es), more)
    ensures Good(After(After(Loaded(), es), more))
    ensures After(After(Loaded(), es), more).rolled == After(Loaded(), es).rolled
  {
    var s := After(Loaded(), es);
    if more == [] {
      RunsAreGood(es);
    } else {
      var some := more[..|more| - 1];
      forall k | 0 <= k <= |some|
        ensures !After(s, some[..k]).on
      {
        assert some[..k] == more[..k];
      }
      NothingRolledWhileOff(es, some);
      assert some == more[..|some|] && !After(s, some).on;
      RollsWhileOn(After(s, some), more[|more| - 1]);
      ExecKeeps(After(s, some), more[|more| - 1]);
    }
  }

  /** Steps a sampler that is joined still takes. */
  function Rank(pc: OldPc): nat {
    match pc
    case Fresh => 1
    case Want => 3
    case Test => 2
    case Leaving => 1
    case Release => 3
    case Asleep => 2
    case Awake => 1
    case Rolling => 4
    case Done => 0
  }

  /** The join cannot deadlock: nobody but the sampler itself can hold the lock it may want, and each of its steps
      brings it nearer to its end. */
  lemma JoinedSamplerMoves(s: System)
    requires Good(s) && s.writer.Joining? && !CurrentPc(s).Done?
    ensures |Exec(s, Run(Task(s))).threads| == |s.threads| &&
            Rank(CurrentPc(Exec(s, Run(Task(s))))) == Rank(CurrentPc(s)) - 1
    ensures Rank(CurrentPc(s)) <= 3
  {
  }

  /** Other events leave it where it is. */
  lemma OthersLeaveIt(s: System, e: Event)
    requires Good(s) && s.writer.Joining? && e != Run(Task(s))
    ensures var s' := Exec(s, e);
            |s'.threads| == |s.threads| && CurrentPc(s') == CurrentPc(s) && (s'.writer.Joining? || CurrentPc(s).Done?)
  {
  }

  /** How often thread t is scheduled. */
  function Turns(es: seq<Event>, t: nat): nat {
    if es == [] then 0 else Turns(es[..|es| - 1], t) + if es[|es| - 1] == Run(t) then 1 else 0
  }

  ghost predicate Nearing(s: System, t: nat, turns: nat) {
    t < |s.threads| && (s.threads[t].pc.Done? || (s.writer.Joining? && t == Task(s) && Rank(CurrentPc(s)) + turns <= 3))
  }

  lemma NearingEvent(s: System, e: Event, t: nat, turns: nat)
    requires Good(s) && Nearing(s, t, turns)
    ensures Nearing(Exec(s, e), t, if e == Run(t) then turns + 1 else turns)
  {
    if s.threads[t].pc.Done? {
      DoneStaysDone(s, e, t);
    } else if e == Run(t) {
      JoinedSamplerMoves(s);
    } else {
      OthersLeaveIt(s, e);
    }
  }

  lemma DoneStaysDone(s: System, e: Event, t: nat)
    requires t < |s.threads| && s.threads[t].pc.Done?
    ensures t < |Exec(s, e).threads| && Exec(s, e).threads[t].pc.Done?
  {
  }

  /** Whatever else happens, three turns of its own end a sampler that is being joined. */
  lemma {:induction false} JoinEnds(s: System, es: seq<Event>)
    requires Good(s) && s.writer.Joining?
    ensures Good(After(s, es)) && Nearing(After(s, es), Task(s), Turns(es, Task(s)))
    ensures Turns(es, Task(s)) >= 3 ==> After(s, es).threads[Task(s)].pc.Done?
  {
    if es == [] {
      if !CurrentPc(s).Done? {
        JoinedSamplerMoves(s);
      }
    } else {
      JoinEnds(s, es[..|es| - 1]);
      ExecKeeps(After(s, es[..|es| - 1]), es[|es| - 1]);
      NearingEvent(After(s, es[..|es| - 1]), es[|es| - 1], Task(s), Turns(es[..|es| - 1], Task(s)));
    }
  }

  // ---- what switching on and off comes to ----

  /** The same event k times. */
  function Times(s: System, e: Event, k: nat): System { if k == 0 then s else Exec(Times(s, e, k - 1), e) }

  /** The newest sampler is at pc and not told to stop, `on` is set, and nobody has a lock. */
  predicate Stands(s: System, pc: OldPc) {
    s.threads != [] && s.threads[|s.threads| - 1] == OldThread(pc, false) && s.on && !s.reading && s.lock.Open?
  }

  lemma {:induction false} TimesAdd(s: System, e: Event, j: nat, k: nat)
    ensures Times(s, e, j + k) == Times(Times(s, e, j), e, k)
  {
    if k > 0 {
      TimesAdd(s, e, j, k - 1);
    }
  }

  lemma Twice(s: System, e: Event)
    ensures Times(s, e, 2) == Exec(Exec(s, e), e)
  {
    assert Times(s, e, 1) == Exec(s, e);
  }

  lemma TakesLock(s: System, t: nat)
    requires Stands(s, Want) && t == |s.threads| - 1
    ensures Times(s, Run(t), 2) == s.(lock := SamplerHas(t), threads := s.threads[t := OldThread(Rolling, false)])
  {
    Twice(s, Run(t));
  }

  lemma RollsThere(s: System, t: nat)
    requires t < |s.threads| && s.threads[t] == OldThread(Rolling, false) && !s.reading
    ensures Times(s, Run(t), 2) ==
            s.(lock := Open, threads := s.threads[t := OldThread(Asleep, false)], rolled := s.rolled + 1)
  {
    Twice(s, Run(t));
  }

  lemma WakesUp(s: System, t: nat)
    requires t < |s.threads| && s.threads[t] == OldThread(Asleep, false)
    ensures Times(s, Run(t), 2) == s.(threads := s.threads[t := OldThread(Want, false)])
  {
    Twice(s, Run(t));
  }

  lemma TimesThen(s: System, m: System, x: System, e: Event, j: nat, k: nat)
    requires m == Times(s, e, j) && x == Times(m, e, k)
    ensures Times(s, e, j + k) == x
  {
    TimesAdd(s, e, j, k);
  }

  lemma ThreeTimes(s: System, a: System, b: System, c: System, e: Event, k: nat)
    requires a == Times(s, e, k) && b == Times(a, e, k) && c == Times(b, e, k)
    ensures Times(s, e, k + k + k) == c
  {
    TimesThen(s, a, b, e, k, k);
    TimesThen(s, b, c, e, k + k, k);
  }

  /** What is left of one turn of the loop. */
  predicate RolledBy(s: System, s': System, k: nat) { s' == s.(rolled := s.rolled + k) }

  lemma OneTurn(s: System, a: System, b: System, s': System, t: nat)
    requires Stands(s, Want) && t == |s.threads| - 1
    requires a == s.(lock := SamplerHas(t), threads := s.threads[t := OldThread(Rolling, false)])
    requires b == a.(lock := Open, threads := a.threads[t := OldThread(Asleep, false)], rolled := a.rolled + 1)
    requires s' == b.(threads := b.threads[t := OldThread(Want, false)])
    ensures RolledBy(s, s', 1)
  {
    assert s'.threads == s.threads;
  }

  /** One turn of the loop, the lock, the test of `on`, the roll, the unlock, the sleep and the look at the stop flag,
      rolls once and leaves everything else as it was. */
  lemma TurnRolls(s: System, t: nat)
    requires Stands(s, Want) && t == |s.threads| - 1
    ensures RolledBy(s, Times(s, Run(t), 6), 1)
  {
    TakesLock(s, t);
    var a := Times(s, Run(t), 2);
    RollsThere(a, t);
    var b := Times(a, Run(t), 2);
    WakesUp(b, t);
    var c := Times(b, Run(t), 2);
    OneTurn(s, a, b, c, t);
    ThreeTimes(s, a, b, c, Run(t), 2);
  }

  /** Six times event e is one turn of the loop, from s when it has rolled j more times. */
  predicate IsTurn(s: System, j: nat, e: Event) {
    var m := s.(rolled := s.rolled + j);
    RolledBy(m, Times(m, e, 6), 1)
  }

  lemma MoreTurns(s: System, m: System, e: Event, j: nat, rolled: nat)
    requires m == Times(s, e, j) && RolledBy(s, m, rolled) && IsTurn(s, rolled, e)
    ensures RolledBy(s, Times(s, e, j + 6), rolled + 1)
  {
    TimesAdd(s, e, j, 6);
  }

  lemma {:induction false} TurnsAddUp(s: System, e: Event, k: nat) returns (m: System)
    requires forall j: nat :: IsTurn(s, j, e)
    ensures m == Times(s, e, 6 * k) && RolledBy(s, m, k)
  {
    if k == 0 {
      return s;
    }
    var before := TurnsAddUp(s, e, k - 1);
    assert IsTurn(s, k - 1, e);
    MoreTurns(s, before, e, 6 * (k - 1), k - 1);
    m := Times(s, e, 6 * (k - 1) + 6);
  }

  /** So k turns roll k times. */
  lemma TurnsRoll(s: System, t: nat, k: nat)
    requires Stands(s, Want) && t == |s.threads| - 1
    ensures RolledBy(s, Times(s, Run(t), 6 * k), k)
  {
    forall j: nat
      ensures IsTurn(s, j, Run(t))
    {
      TurnRolls(s.(rolled := s.rolled + j), t);
    }
    var m := TurnsAddUp(s, Run(t), k);
  }

  /** `set_on` from rest: a write and three steps of the writer set `on` and make a sampler, whose first step takes it
      into the loop. */
  lemma SetOnStarts(s: System)
    requires Good(s) && s.writer.Idle? && !s.on && s.lock.Open? && !s.reading
    ensures var s' := Times(Exec(s, WriteOn), Proceed, 3);
            Good(s') && s'.writer.Idle? && |s'.threads| == |s.threads| + 1 && s'.rolled == s.rolled &&
            Stands(s', Fresh) &&
            Stands(Exec(s', Run(|s.threads|)), Want)
  {
    var starting := s.(on := true, writer := Starting);
    Twice(Exec(s, WriteOn), Proceed);
    assert Times(Exec(s, WriteOn), Proceed, 2) == starting;
    assert Times(Exec(s, WriteOn), Proceed, 3) == Exec(starting, Proceed);
  }

  lemma FreshRolls(s: System, t: nat, k: nat)
    requires Stands(s, Fresh) && t == |s.threads| - 1
    ensures Times(s, Run(t), 1 + 6 * k).rolled == s.rolled + k
  {
    var m := Exec(s, Run(t));
    assert m == Times(s, Run(t), 1);
    TurnsRoll(m, t, k);
    TimesThen(s, m, Times(m, Run(t), 6 * k), Run(t), 1, 6 * k);
  }

  /** From module load: switched on, a sampler left alone rolls once every six of its steps. */
  lemma LoadedRolls(k: nat)
    ensures var s := Times(Exec(Loaded(), WriteOn), Proceed, 3); Times(s, Run(0), 1 + 6 * k).rolled == k
  {
    SetOnStarts(Loaded());
    FreshRolls(Times(Exec(Loaded(), WriteOn), Proceed, 3), 0, k);
  }

  /** `set_off` while the sampler holds no lock: a write and three steps of the writer clear `on` and tell the sampler;
      three steps of its own end it without another roll, and one more of the writer's ends the join. */
  lemma SetOffEnds(s: System)
    requires Good(s) && s.writer.Idle? && s.on && s.lock.Open?
    ensures s.threads != []
    ensures var told := Times(Exec(s, WriteOff), Proceed, 3); var t := |s.threads| - 1;
            told.writer.Joining? && !told.on && |told.threads| == |s.threads| && told.threads[t].stop &&
            var s' := Exec(Times(told, Run(t), 3), Proceed);
            s'.writer.Idle? && !s'.on && s'.lock.Open? && |s'.threads| == |s.threads| && s'.threads[t].pc.Done? &&
            s'.rolled == s.rolled
  {
    var t := |s.threads| - 1;
    var told := s.(on := false, writer := Joining, threads := s.threads[t := s.threads[t].(stop := true)]);
    Twice(Exec(s, WriteOff), Proceed);
    assert Times(Exec(s, WriteOff), Proceed, 2) == s.(on := false, writer := Stopping);
    assert Times(Exec(s, WriteOff), Proceed, 3) == told;
    ToldEnds(told, t);
  }

  lemma ToldEnds(told: System, t: nat)
    requires |told.threads| == t + 1 && told.threads[t].stop && !told.on && told.lock.Open? && told.writer.Joining?
    requires var pc := told.threads[t].pc; pc.Fresh? || pc.Want? || pc.Asleep? || pc.Awake?
    ensures var s' := Times(told, Run(t), 3);
            s' == told.(threads := told.threads[t := OldThread(Done, true)]) && s'.lock.Open?
  {
    Twice(told, Run(t));
    assert Times(told, Run(t), 3) == Exec(Times(told, Run(t), 2), Run(t));
  }
}
