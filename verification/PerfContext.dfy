/**
 The perf events of a counter: xstat allocates them for every start of its sampler (`perf_init`, `perf_restart` and
 `perf_exit` of xstat/hpc_cnt.c). The kernel's side is the set of events that are live.
 */
module PerfContext {
  import opened Words
  import opened PerfDeltas

  /** A slot of an events array. */
  datatype Handle = Null | Event(id: nat)

  /** The kernel's perf events: a released event is gone, and no id is used twice. */
  class Kernel {
    var live: set<nat>
    var next: nat

    ghost predicate Valid()
      reads this
    {
      forall id :: id in live ==> id < next
    }

    method Create(ok: bool) returns (h: Handle)
      requires Valid()
      modifies this
      ensures Valid() && h == (if ok then Event(old(next)) else Null)
      ensures next == old(next) + (if ok then 1 else 0)
      ensures live == old(live) + (if ok then {old(next)} else {})
    {
      if ok {
        h := Event(next);
        live, next := live + {next}, next + 1;
      } else {
        h := Null;
      }
    }

    method Release(id: nat)
      requires Valid() && id in live
      modifies this`live
      ensures Valid() && live == old(live) - {id}
    {
      live := live - {id};
    }
  }

  /** The events in the slots. */
  ghost function Ids(s: seq<Handle>): set<nat> { set i | 0 <= i < |s| && s[i].Event? :: s[i].id }

  ghost predicate Distinct(s: seq<Handle>) {
    forall i, j :: 0 <= i < j < |s| && s[i].Event? && s[j].Event? ==> s[i].id != s[j].id
  }

  lemma IdsOfEmpty(s: seq<Handle>)
    requires forall i :: 0 <= i < |s| ==> s[i].Null?
    ensures Ids(s) == {} && Distinct(s)
  {
  }

  /** The ids in the slots from i on; clearing or keeping slot i, releasing it removes its id from these. */
  lemma IdsFrom(s: seq<Handle>, i: nat)
    requires i < |s| && Distinct(s)
    ensures Ids(s[i..]) == Ids(s[i + 1..]) + (if s[i].Event? then {s[i].id} else {})
    ensures s[i].Event? ==> s[i].id !in Ids(s[i + 1..])
    ensures Distinct(s[i + 1..])
  {
    var t, u := s[i..], s[i + 1..];
    forall id | id in Ids(t)
      ensures id in Ids(u) + (if s[i].Event? then {s[i].id} else {})
    {
      var k :| 0 <= k < |t| && t[k].Event? && t[k].id == id;
      assert k > 0 ==> u[k - 1] == t[k];
    }
    forall id | id in Ids(u)
      ensures id in Ids(t)
    {
      var k :| 0 <= k < |u| && u[k].Event? && u[k].id == id;
      assert t[k + 1] == u[k];
    }
    assert s[i].Event? ==> t[0].id in Ids(t);
  }

  lemma IdsAbove(s: seq<Handle>, low: nat)
    requires forall k :: 0 <= k < |s| && s[k].Event? ==> low <= s[k].id
    ensures forall id :: id in Ids(s) ==> low <= id
  {
  }

  /** Storing a new event in an empty slot. */
  lemma IdsUpdate(s: seq<Handle>, i: nat, h: Handle)
    requires i < |s| && s[i].Null?
    ensures Ids(s[i := h]) == Ids(s) + (if h.Event? then {h.id} else {})
  {
    var t := s[i := h];
    forall id | id in Ids(s) + (if h.Event? then {h.id} else {})
      ensures id in Ids(t)
    {
      if id in Ids(s) {
        var k :| 0 <= k < |s| && s[k].Event? && s[k].id == id;
        assert t[k] == s[k];
      } else {
        assert t[i].id == id;
      }
    }
  }

  class Context {
    const events: array<Handle>
    const values: array<Reading>

    ghost predicate Valid()
      reads this, events
    {
      events.Length == values.Length && Distinct(events[..])
    }

    /** Which CPUs got an event. */
    ghost function Has(): (r: seq<bool>)
      reads events
      ensures |r| == events.Length
    {
      seq(events.Length, i requires 0 <= i < events.Length reads events => events[i].Event?)
    }

    /** `perf_init`: one event per CPU, as far as the kernel creates them, and all kept readings zero. */
    constructor (kernel: Kernel, created: seq<bool>)
      requires kernel.Valid()
      modifies kernel
      ensures kernel.Valid() && Valid() && fresh(events) && fresh(values)
      ensures Has() == created && values[..] == seq(|created|, _ => ZERO)
      ensures kernel.live == old(kernel.live) + Ids(events[..])
      ensures forall id :: id in Ids(events[..]) ==> id !in old(kernel.live)
    {
      events := new Handle[|created|](_ => Null);
      values := new Reading[|created|](_ => ZERO);
      new;
      IdsOfEmpty(events[..]);
      for i := 0 to |created|
        invariant kernel.Valid() && old(kernel.next) <= kernel.next && Distinct(events[..])
        invariant forall k :: 0 <= k < |created| ==> events[k].Event? == (k < i && created[k])
        invariant forall k :: 0 <= k < i && created[k] ==> old(kernel.next) <= events[k].id < kernel.next
        invariant kernel.live == old(kernel.live) + Ids(events[..])
        invariant values[..] == seq(|created|, _ => ZERO)
      {
        ghost var was := events[..];
        var h := kernel.Create(created[i]);
        IdsUpdate(was, i, h);
        events[i] := h;
        assert events[..] == was[i := h];
      }
      IdsAbove(events[..], old(kernel.next));
    }

    /** `perf_restart`: the sum of the deltas, and every reading taken becomes the next baseline. */
    method Restart(kernel: Kernel, now: seq<Reading>) returns (total: uint64)
      requires Valid() && |now| == events.Length && Ids(events[..]) <= kernel.live
      modifies values
      ensures total == DeltaSum(Has(), old(values[..]), now, |now|) % TWO64
      ensures values[..] == Kept(Has(), old(values[..]), now)
    {
      ghost var was, sum := values[..], 0;
      total := 0;
      for i := 0 to events.Length
        invariant sum == DeltaSum(Has(), was, now, i) && total == sum % TWO64
        invariant forall k :: 0 <= k < events.Length ==>
                    values[k] == if k < i && events[k].Event? then now[k] else was[k]
      {
        if events[i].Event? {
          assert events[i].id in kernel.live by { assert events[..][i].id in Ids(events[..]); }
          var last := values[i];
          if now[i].total < last.total || now[i].enabled < last.enabled || now[i].running <= last.running {
          } else {
            var tmp := Scaled(last, now[i]);
            if tmp <= THRESHOLD {
              AddWraps(sum, tmp);
              total := (total + tmp) % TWO64;
            }
          }
          sum := sum + Delta(last, now[i]);
          values[i] := now[i];
        }
      }
      assert values[..] == Kept(Has(), was, now);
    }

    /** `perf_exit`: each event the context holds is released, once, and nothing else. */
    method Exit(kernel: Kernel)
      requires Valid() && kernel.Valid() && Ids(events[..]) <= kernel.live
      modifies kernel`live
      ensures kernel.Valid() && kernel.live == old(kernel.live) - Ids(events[..])
    {
      ghost var s := events[..];
      assert s[0..] == s;
      for i := 0 to events.Length
        invariant kernel.Valid() && Ids(s[i..]) <= kernel.live
        invariant kernel.live - Ids(s[i..]) == old(kernel.live) - Ids(s)
      {
        IdsFrom(s, i);
        if events[i].Event? {
          kernel.Release(events[i].id);
        }
      }
    }
  }

  lemma AddWraps(sum: nat, tmp: nat)
    ensures (sum % TWO64 + tmp) % TWO64 == (sum + tmp) % TWO64
  {
    var q := sum / TWO64;
    assert sum + tmp == TWO64 * q + (sum % TWO64 + tmp);
  }

  /** With fewer than nine million CPUs no pass wraps around, so what the counter returns is the sum of the deltas. */
  lemma TotalsDoNotWrap(has: seq<bool>, was: seq<Reading>, now: seq<Reading>)
    requires |has| == |was| == |now| <= 9_000_000
    ensures DeltaSum(has, was, now, |has|) % TWO64 == DeltaSum(has, was, now, |has|)
  {
    PassIsBounded(has, was, now, |has|);
    assert 9_000_000 * THRESHOLD < TWO64;
  }

  /** A sampler's whole life with one counter: whatever is created is released, and nothing else is; the totals are
      those of the run. */
  method Lifetime(kernel: Kernel, created: seq<bool>, run: seq<seq<Reading>>) returns (totals: seq<nat>)
    requires kernel.Valid() && ForCpus(run, |created|) && |created| <= 9_000_000
    modifies kernel
    ensures kernel.Valid() && kernel.live == old(kernel.live)
    ensures |totals| == |run|
    ensures forall k :: 0 <= k < |run| ==> totals[k] == PassTotal(created, seq(|created|, _ => ZERO), run, k)
  {
    var ctx := new Context(kernel, created);
    ghost var zero := seq(|created|, _ => ZERO);
    totals := [];
    for k := 0 to |run|
      invariant ctx.Valid() && ctx.Has() == created && ctx.values[..] == KeptAfter(created, zero, run, k)
      invariant kernel.Valid() && kernel.live == old(kernel.live) + Ids(ctx.events[..])
      invariant forall id :: id in Ids(ctx.events[..]) ==> id !in old(kernel.live)
      invariant |totals| == k && forall j :: 0 <= j < k ==> totals[j] == PassTotal(created, zero, run, j)
    {
      TotalsDoNotWrap(created, ctx.values[..], run[k]);
      var total := ctx.Restart(kernel, run[k]);
      totals := totals + [total];
    }
    ctx.Exit(kernel);
  }
}
