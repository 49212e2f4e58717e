/** Module load of haswellstat: the perf events of all counters, and what happens when one cannot be created. */
module Rollback {
  import opened PerfDeltas
  import opened PerfContext

  const NR_CPUS_MIC: nat := 32

  /** A counter without `init` and `exit`, or a perf counter with its static arrays of events and kept readings. */
  datatype OldCounter = NoEvents | Perf(events: array<Handle>, values: array<Reading>)

  /** The ids held by the first n counters. */
  ghost function HeldBy(cs: seq<OldCounter>, n: nat): set<nat>
    requires n <= |cs|
    reads set k | 0 <= k < n && cs[k].Perf? :: cs[k].events
  {
    if n == 0 then {} else HeldBy(cs, n - 1) + if cs[n - 1].Perf? then Ids(cs[n - 1].events[..]) else {}
  }

  ghost predicate Table(cs: seq<OldCounter>) {
    (forall k :: 0 <= k < |cs| && cs[k].Perf? ==> cs[k].events.Length == cs[k].values.Length == NR_CPUS_MIC) &&
    forall j, k :: 0 <= j < k < |cs| && cs[j].Perf? && cs[k].Perf? ==>
      cs[j].events != cs[k].events && cs[j].values != cs[k].values
  }

  ghost predicate Within(ids: set<nat>, low: nat, high: nat) { forall id :: id in ids ==> low <= id < high }

  /** Every CPU up to k gets its event. */
  predicate CreatedUpTo(created: seq<bool>, k: nat) { forall j :: 0 <= j <= k && j < |created| ==> created[j] }

  /** `perf_init`: clears slots and baselines, then creates one event per CPU and stops at the first that fails. */
  method PerfInit(kernel: Kernel, events: array<Handle>, values: array<Reading>, created: seq<bool>) returns (err: int)
    requires kernel.Valid() && events.Length == values.Length == |created|
    modifies kernel, events, values
    ensures kernel.Valid() && kernel.next >= old(kernel.next)
    ensures err == 0 <==> forall k :: 0 <= k < |created| ==> created[k]
    ensures forall k: nat :: k < |created| ==> (events[k].Event? <==> CreatedUpTo(created, k))
    ensures forall k :: 0 <= k < |created| ==> values[k] == ZERO
    ensures Distinct(events[..]) && Within(Ids(events[..]), old(kernel.next), kernel.next)
    ensures kernel.live == old(kernel.live) + Ids(events[..])
  {
    for i := 0 to events.Length
      modifies events, values
      invariant forall k :: 0 <= k < i ==> events[k].Null? && values[k] == ZERO
    {
      events[i] := Null;
      values[i] := ZERO;
    }
    IdsOfEmpty(events[..]);
    for i := 0 to events.Length
      invariant kernel.Valid() && kernel.next >= old(kernel.next) && Distinct(events[..])
      invariant forall k :: 0 <= k < i ==> created[k]
      invariant forall k :: 0 <= k < events.Length ==> events[k].Event? == (k < i) && values[k] == ZERO
      invariant forall k :: 0 <= k < i ==> old(kernel.next) <= events[k].id < kernel.next
      invariant kernel.live == old(kernel.live) + Ids(events[..])
    {
      ghost var was := events[..];
      var event := kernel.Create(created[i]);
      if event.Null? {
        return -1;
      }
      IdsUpdate(was, i, event);
      events[i] := event;
      assert events[..] == was[i := event];
    }
    err := 0;
  }

  /** `perf_exit`: releases what the slots hold and empties them. */
  method PerfExit(kernel: Kernel, events: array<Handle>)
    requires kernel.Valid() && Distinct(events[..]) && Ids(events[..]) <= kernel.live
    modifies kernel`live, events
    ensures kernel.Valid() && kernel.live == old(kernel.live) - old(Ids(events[..]))
    ensures forall k :: 0 <= k < events.Length ==> events[k].Null?
  {
    ghost var s := events[..];
    assert s[0..] == s;
    for i := 0 to events.Length
      invariant kernel.Valid() && Ids(s[i..]) <= kernel.live
      invariant kernel.live - Ids(s[i..]) == old(kernel.live) - Ids(s)
      invariant forall k :: 0 <= k < events.Length ==> events[k] == if k < i then Null else s[k]
    {
      IdsFrom(s, i);
      if events[i].Event? {
        kernel.Release(events[i].id);
        events[i] := Null;
      }
    }
  }

  /** The first n counters hold events with ids between their marks. */
  ghost predicate Laid(cs: seq<OldCounter>, n: nat, marks: seq<nat>)
    requires n <= |cs|
    reads set k | 0 <= k < n && cs[k].Perf? :: cs[k].events
  {
    |marks| > n && forall k :: 0 <= k < n ==> LaidOne(cs[k], marks[k], marks[k + 1])
  }

  ghost predicate LaidOne(c: OldCounter, low: nat, high: nat)
    reads if c.Perf? then {c.events} else {}
  {
    low <= high && (c.Perf? ==> Distinct(c.events[..]) && Within(Ids(c.events[..]), low, high))
  }

  lemma {:induction false} HeldWithin(cs: seq<OldCounter>, n: nat, marks: seq<nat>)
    requires n <= |cs| && Laid(cs, n, marks)
    ensures marks[0] <= marks[n] && Within(HeldBy(cs, n), marks[0], marks[n])
  {
    if n > 0 {
      HeldWithin(cs, n - 1, marks);
      assert LaidOne(cs[n - 1], marks[n - 1], marks[n]);
    }
  }

  /** The slots of the counters from n on are empty. */
  ghost predicate EmptyFrom(cs: seq<OldCounter>, n: nat)
    reads set k | n <= k < |cs| && cs[k].Perf? :: cs[k].events
  {
    forall k :: n <= k < |cs| && cs[k].Perf? ==> forall i :: 0 <= i < cs[k].events.Length ==> cs[k].events[i].Null?
  }

  function Arrays(cs: seq<OldCounter>): set<array<Handle>> { set k | 0 <= k < |cs| && cs[k].Perf? :: cs[k].events }

  function Baselines(cs: seq<OldCounter>): set<array<Reading>> { set k | 0 <= k < |cs| && cs[k].Perf? :: cs[k].values }

  /** One turn of the rollback loop. */
  method UndoCounter(kernel: Kernel, cs: seq<OldCounter>, i: nat, ghost marks: seq<nat>, ghost before: set<nat>)
    requires kernel.Valid() && Table(cs) && i < |cs| && Laid(cs, i + 1, marks) && EmptyFrom(cs, i + 1)
    requires kernel.live == before + HeldBy(cs, i + 1) && forall id :: id in before ==> id < marks[0]
    modifies kernel`live, Arrays(cs)
    ensures kernel.Valid() && Laid(cs, i, marks) && EmptyFrom(cs, i) && kernel.live == before + HeldBy(cs, i)
  {
    HeldWithin(cs, i, marks);
    assert LaidOne(cs[i], marks[i], marks[i + 1]);
    if cs[i].Perf? {
      ghost var held := HeldBy(cs, i);
      PerfExit(kernel, cs[i].events);
      assert HeldBy(cs, i) == held;
    }
  }

  /** The rollback loop, from counter n - 1 down to the first. */
  method Undo(kernel: Kernel, cs: seq<OldCounter>, n: nat, ghost marks: seq<nat>, ghost before: set<nat>)
    requires kernel.Valid() && Table(cs) && n <= |cs| && Laid(cs, n, marks) && EmptyFrom(cs, n)
    requires kernel.live == before + HeldBy(cs, n) && forall id :: id in before ==> id < marks[0]
    modifies kernel`live, Arrays(cs)
    ensures kernel.Valid() && kernel.live == before && EmptyFrom(cs, 0)
  {
    var i := n;
    while i > 0
      invariant 0 <= i <= n && kernel.Valid() && Laid(cs, i, marks) && EmptyFrom(cs, i)
      invariant kernel.live == before + HeldBy(cs, i)
    {
      i := i - 1;
      UndoCounter(kernel, cs, i, marks, before);
    }
  }

  /** Every perf counter gets all its events. */
  ghost predicate AllCreated(cs: seq<OldCounter>, created: seq<seq<bool>>, n: nat)
    requires n <= |cs| == |created|
  {
    forall k, i :: 0 <= k < n && cs[k].Perf? && 0 <= i < |created[k]| ==> created[k][i]
  }

  /** In the first n counters every slot holds an event and every baseline is zero. */
  ghost predicate Full(cs: seq<OldCounter>, n: nat)
    requires n <= |cs| && Table(cs)
    reads set k | 0 <= k < n && cs[k].Perf? :: cs[k].events
    reads set k | 0 <= k < n && cs[k].Perf? :: cs[k].values
  {
    forall k, i :: 0 <= k < n && cs[k].Perf? && 0 <= i < NR_CPUS_MIC ==>
      cs[k].events[i].Event? && cs[k].values[i] == ZERO
  }

  function PerfCounters(cs: seq<OldCounter>, n: nat): nat
    requires n <= |cs|
  {
    if n == 0 then 0 else PerfCounters(cs, n - 1) + if cs[n - 1].Perf? then 1 else 0
  }

  lemma {:induction false} IdsCount(s: seq<Handle>)
    requires Distinct(s) && forall i :: 0 <= i < |s| ==> s[i].Event?
    ensures |Ids(s)| == |s|
  {
    if s == [] {
      IdsOfEmpty(s);
    } else {
      IdsFrom(s, 0);
      assert s[0..] == s;
      IdsCount(s[1..]);
    }
  }

  lemma DisjointCount(a: set<nat>, b: set<nat>, low: nat, mid: nat, high: nat)
    requires Within(a, low, mid) && Within(b, mid, high)
    ensures |a + b| == |a| + |b|
  {
    assert a * b == {};
  }

  /** As many events as there are slots. */
  lemma {:induction false} HeldCount(cs: seq<OldCounter>, n: nat, marks: seq<nat>)
    requires n <= |cs| && Table(cs) && Laid(cs, n, marks) && Full(cs, n)
    ensures |HeldBy(cs, n)| == NR_CPUS_MIC * PerfCounters(cs, n)
  {
    if n > 0 {
      HeldCount(cs, n - 1, marks);
      HeldWithin(cs, n - 1, marks);
      assert LaidOne(cs[n - 1], marks[n - 1], marks[n]);
      if cs[n - 1].Perf? {
        var s := cs[n - 1].events[..];
        IdsCount(s);
        DisjointCount(HeldBy(cs, n - 1), Ids(s), marks[0], marks[n - 1], marks[n]);
      }
    }
  }

  /** One turn of the init loop. */
  method InitCounter(kernel: Kernel, cs: seq<OldCounter>, i: nat, created: seq<bool>, ghost marks: seq<nat>,
      ghost before: set<nat>)
    returns (err: int)
    requires kernel.Valid() && Table(cs) && i < |cs| && |created| == NR_CPUS_MIC
    requires |marks| == i + 1 && Laid(cs, i, marks) && EmptyFrom(cs, i) && marks[i] == kernel.next
    requires kernel.live == before + HeldBy(cs, i) && Full(cs, i)
    modifies kernel, Arrays(cs), Baselines(cs)
    ensures kernel.Valid() && Laid(cs, i + 1, marks + [kernel.next]) && EmptyFrom(cs, i + 1)
    ensures err == 0 ==> Full(cs, i + 1)
    ensures kernel.live == before + HeldBy(cs, i + 1)
    ensures err == 0 <==> (cs[i].Perf? ==> forall k :: 0 <= k < NR_CPUS_MIC ==> created[k])
  {
    err := 0;
    ghost var held := HeldBy(cs, i);
    if cs[i].Perf? {
      err := PerfInit(kernel, cs[i].events, cs[i].values, created);
    }
    assert HeldBy(cs, i) == held;
    assert LaidOne(cs[i], marks[i], kernel.next);
  }

  lemma AllNew(before: set<nat>, held: set<nat>, low: nat, high: nat)
    requires Within(held, low, high) && forall id :: id in before ==> id < low
    ensures |before + held| == |before| + |held| && before !! held
  {
    assert before * held == {};
  }

  /** `micstat_init`. If every event can be created, every slot of every perf counter holds one, so many are new to the
      kernel, and all baselines are zero; a failing class registration undoes nothing of it. If any event cannot be
      created, every event created before it, by earlier counters and by the same counter on earlier CPUs, is released
      once and no slot holds one. */
  method MicstatInit(kernel: Kernel, cs: seq<OldCounter>, created: seq<seq<bool>>, registered: int) returns (err: int)
    requires kernel.Valid() && Table(cs) && EmptyFrom(cs, 0)
    requires |created| == |cs| && forall k :: 0 <= k < |cs| ==> |created[k]| == NR_CPUS_MIC
    modifies kernel, Arrays(cs), Baselines(cs)
    ensures kernel.Valid()
    ensures !AllCreated(cs, created, |cs|) ==> err != 0 && kernel.live == old(kernel.live)
    ensures !AllCreated(cs, created, |cs|) ==>
              forall k, i :: 0 <= k < |cs| && cs[k].Perf? && 0 <= i < 32 ==> cs[k].events[i].Null?
    ensures AllCreated(cs, created, |cs|) ==>
              err == registered && kernel.live == old(kernel.live) + HeldBy(cs, |cs|) &&
              old(kernel.live) !! HeldBy(cs, |cs|)
    ensures AllCreated(cs, created, |cs|) ==>
              |kernel.live| == |old(kernel.live)| + 32 * PerfCounters(cs, |cs|) &&
              forall k, i :: 0 <= k < |cs| && cs[k].Perf? && 0 <= i < 32 ==>
                cs[k].events[i].Event? && cs[k].values[i] == ZERO
  {
    ghost var marks := [kernel.next];
    for i := 0 to |cs|
      invariant kernel.Valid() && |marks| == i + 1 && Laid(cs, i, marks) && EmptyFrom(cs, i) && Full(cs, i)
      invariant marks[0] == old(kernel.next) && marks[i] == kernel.next && AllCreated(cs, created, i)
      invariant kernel.live == old(kernel.live) + HeldBy(cs, i)
    {
      err := InitCounter(kernel, cs, i, created[i], marks, old(kernel.live));
      marks := marks + [kernel.next];
      if err != 0 {
        Undo(kernel, cs, i + 1, marks, old(kernel.live));
        return;
      }
    }
    HeldWithin(cs, |cs|, marks);
    HeldCount(cs, |cs|, marks);
    AllNew(old(kernel.live), HeldBy(cs, |cs|), marks[0], marks[|cs|]);
    err := registered;
  }
}
