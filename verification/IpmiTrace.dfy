/**
 What the bytes of an IPMI group are, told from the run alone: a sensor's reading is what the last long enough reply to
 a request for it said, and every byte that a pass returns is that, at the moment the pass came to the sensor.
 */
module IpmiTrace {
  import opened Words
  import opened Printer
  import opened IpmiPacking
  import opened IpmiRouting

  /** Byte 1 of the last among the first n replies that is longer than two bytes and answers a request for sensor i; 0
      if there is none. */
  function LastReply(sent: seq<Request>, replies: seq<Reply>, i: nat, n: nat): byte
    requires n <= |replies|
  {
    if n == 0 then 0 else
      var x := replies[n - 1];
      if x.request < |sent| && sent[x.request].sensor == i && |x.data| > 2 then ByteOf1(x.data)
      else LastReply(sent, replies, i, n - 1)
  }

  function ByteOf1(data: seq<byte>): byte
    requires |data| > 2
  {
    data[1]
  }

  function LastHeard(g: Group, i: nat): byte { LastReply(g.sent, g.replies, i, |g.replies|) }

  /** Every reading is what was heard last. */
  ghost predicate HeardLast(g: Group)
    requires Shape(g)
  {
    (forall r: nat :: r < |g.replies| ==> g.replies[r].request < |g.sent|) &&
    forall i: nat {:trigger LastHeard(g, i)} :: i < |g.sensors| ==> g.readings[i] == LastHeard(g, i)
  }

  lemma {:induction false} MoreRequests(sent: seq<Request>, more: seq<Request>, replies: seq<Reply>, i: nat, n: nat)
    requires n <= |replies| && sent <= more && forall r: nat :: r < |replies| ==> replies[r].request < |sent|
    ensures LastReply(more, replies, i, n) == LastReply(sent, replies, i, n)
  {
    if n > 0 {
      MoreRequests(sent, more, replies, i, n - 1);
    }
  }

  lemma {:induction false} MoreReplies(sent: seq<Request>, replies: seq<Reply>, more: seq<Reply>, i: nat, n: nat)
    requires n <= |replies| && replies <= more
    ensures LastReply(sent, more, i, n) == LastReply(sent, replies, i, n)
  {
    if n > 0 {
      MoreReplies(sent, replies, more, i, n - 1);
    }
  }

  lemma CallKeepsHeard(g: Group, c: nat)
    requires Shape(g) && Numbered(g) && HeardLast(g) && c < |g.callers|
    ensures HeardLast(CallStep(g, c))
  {
    var g' := CallStep(g, c);
    CallMoves(g, c);
    forall i: nat {:trigger LastHeard(g', i)} | i < |g.sensors|
      ensures g'.readings[i] == LastHeard(g', i)
    {
      MoreRequests(g.sent, g'.sent, g.replies, i, |g.replies|);
      assert g.readings[i] == LastHeard(g, i);
    }
  }

  lemma HandleKeepsHeard(g: Group, request: nat, data: seq<byte>)
    requires Shape(g) && HeardLast(g)
    ensures HeardLast(HandleStep(g, request, data))
  {
    var g' := HandleStep(g, request, data);
    forall i: nat {:trigger LastHeard(g', i)} | i < |g.sensors|
      ensures g'.readings[i] == LastHeard(g', i)
    {
      MoreReplies(g.sent, g.replies, g'.replies, i, |g.replies|);
      assert g.readings[i] == LastHeard(g, i);
    }
  }

  lemma {:induction false} ReadingsAreLast(g0: Group, run: seq<Step>)
    requires Shape(g0) && Kept(g0) && HeardLast(g0)
    ensures Kept(After(g0, run)) && HeardLast(After(g0, run)) && After(g0, run).sensors == g0.sensors
  {
    if run != [] {
      var before, a := run[..|run| - 1], run[|run| - 1];
      ReadingsAreLast(g0, before);
      KeptStep(After(g0, before), a);
      if a.Handle? {
        HandleKeepsHeard(After(g0, before), a.request, a.data);
      } else if a.c < |After(g0, before).callers| {
        CallKeepsHeard(After(g0, before), a.c);
        CallMoves(After(g0, before), a.c);
      }
    }
  }

  // ---- the bytes of a pass ----

  /** Whether the last step of the run is caller c coming to sensor i. */
  predicate ComesTo(g0: Group, run: seq<Step>, c: nat, i: nat)
    requires Shape(g0)
  {
    run != [] && run[|run| - 1] == Call(c) &&
    var g := After(g0, run[..|run| - 1]); c < |g.callers| && g.callers[c].pc == Reading(i)
  }

  /** What had been heard of sensor i when caller c last came to it. */
  function HeardAt(g0: Group, run: seq<Step>, c: nat, i: nat): byte
    requires Shape(g0)
  {
    if run == [] then 0
    else if ComesTo(g0, run, c, i) then LastHeard(After(g0, run[..|run| - 1]), i)
    else HeardAt(g0, run[..|run| - 1], c, i)
  }

  /** The bytes for sensors first, first + 1, ... */
  function BytesAt(g0: Group, run: seq<Step>, c: nat, first: nat, k: nat): (bytes: seq<byte>)
    requires Shape(g0)
    ensures |bytes| == k && forall j :: 0 <= j < k ==> bytes[j] == HeardAt(g0, run, c, first + j)
  {
    if k == 0 then [] else BytesAt(g0, run, c, first, k - 1) + [HeardAt(g0, run, c, first + k - 1)]
  }

  /** The passes that were completed: one whenever a caller comes to its last sensor, number 0. */
  function Passes(g0: Group, run: seq<Step>): seq<seq<byte>>
    requires Shape(g0)
  {
    if run == [] then []
    else if run[|run| - 1].Call? && ComesTo(g0, run, run[|run| - 1].c, 0) then
      Passes(g0, run[..|run| - 1]) + [BytesAt(g0, run, run[|run| - 1].c, 0, |g0.sensors|)]
    else Passes(g0, run[..|run| - 1])
  }

  /** x, what caller c holds, is what it heard. */
  ghost predicate Tells(g0: Group, run: seq<Step>, c: nat, x: Caller)
    requires Shape(g0)
  {
    !x.pc.Idle? ==> forall k :: 0 <= k < |x.bytes| ==> x.bytes[k] == HeardAt(g0, run, c, x.pc.i + 1 + k)
  }

  ghost predicate Told(g0: Group, run: seq<Step>, g: Group)
    requires Shape(g0)
  {
    g.sensors == g0.sensors && |g.callers| == |g0.callers| &&
    (forall c: nat :: c < |g.callers| ==> Tells(g0, run, c, g.callers[c])) && g.results == Passes(g0, run)
  }

  /** A caller that does not move has heard nothing new. */
  lemma HeardStays(g0: Group, run: seq<Step>, c: nat, x: Caller)
    requires Shape(g0) && run != [] && run[|run| - 1] != Call(c) && Tells(g0, run[..|run| - 1], c, x)
    ensures Tells(g0, run, c, x)
  {
    forall i: nat
      ensures HeardAt(g0, run, c, i) == HeardAt(g0, run[..|run| - 1], c, i)
    {
      assert !ComesTo(g0, run, c, i);
    }
  }

  lemma OthersTell(g0: Group, run: seq<Step>, g: Group, g': Group, c: nat)
    requires Shape(g0) && run != [] && Told(g0, run[..|run| - 1], g)
    requires |g'.callers| == |g.callers| && c < |g.callers| && run[|run| - 1] != Call(c) &&
             g'.callers[c] == g.callers[c]
    ensures Tells(g0, run, c, g'.callers[c])
  {
    assert Tells(g0, run[..|run| - 1], c, g.callers[c]);
    HeardStays(g0, run, c, g.callers[c]);
  }

  lemma NoPass(g0: Group, run: seq<Step>, c: nat)
    requires Shape(g0) && run != [] && (run[|run| - 1] == Call(c) ==> !ComesTo(g0, run, c, 0))
    requires run[|run| - 1].Call? ==> run[|run| - 1] == Call(c)
    ensures Passes(g0, run) == Passes(g0, run[..|run| - 1])
  {
  }

  lemma MoverTells(g0: Group, run: seq<Step>, c: nat, x: Caller)
    requires Shape(g0) && run != [] && Tells(g0, run[..|run| - 1], c, x)
    requires forall i: nat :: !ComesTo(g0, run, c, i)
    ensures Tells(g0, run, c, x)
  {
    forall i: nat
      ensures HeardAt(g0, run, c, i) == HeardAt(g0, run[..|run| - 1], c, i)
    {
      assert !ComesTo(g0, run, c, i);
    }
  }

  /** x' holds what x holds, or nothing. */
  predicate HoldsAtMost(x: Caller, x': Caller) {
    x' == x || (x'.bytes == x.bytes && !x.pc.Idle? && !x'.pc.Idle? && x'.pc.i == x.pc.i) || x'.bytes == []
  }

  lemma LessTells(g0: Group, run: seq<Step>, c: nat, x: Caller, x': Caller)
    requires Shape(g0) && Tells(g0, run, c, x) && HoldsAtMost(x, x')
    ensures Tells(g0, run, c, x')
  {
  }

  lemma NobodyComes(g0: Group, run: seq<Step>, g: Group, c: nat, k: nat)
    requires Shape(g0) && run != [] && g == After(g0, run[..|run| - 1])
    requires run[|run| - 1].Call? ==> run[|run| - 1] == Call(c)
    requires c < |g.callers| ==> !g.callers[c].pc.Reading?
    ensures forall i: nat :: !ComesTo(g0, run, k, i)
  {
  }

  /** A step that moves nobody, or a caller that is not at a sensor. */
  lemma MoveTold(g0: Group, run: seq<Step>, g: Group, g': Group, c: nat)
    requires Shape(g0) && run != [] && Told(g0, run[..|run| - 1], g) && g == After(g0, run[..|run| - 1])
    requires run[|run| - 1].Call? ==> run[|run| - 1] == Call(c)
    requires c < |g.callers| ==> !g.callers[c].pc.Reading?
    requires g'.sensors == g.sensors && |g'.callers| == |g.callers| && g'.results == g.results
    requires forall k: nat :: k < |g.callers| ==> HoldsAtMost(g.callers[k], g'.callers[k])
    ensures Told(g0, run, g')
  {
    NobodyComes(g0, run, g, c, c);
    NoPass(g0, run, c);
    forall k: nat | k < |g.callers|
      ensures Tells(g0, run, k, g'.callers[k])
    {
      assert Tells(g0, run[..|run| - 1], k, g.callers[k]);
      NobodyComes(g0, run, g, c, k);
      MoverTells(g0, run, k, g.callers[k]);
      LessTells(g0, run, k, g.callers[k], g'.callers[k]);
    }
  }

  lemma ComesOnlyTo(g0: Group, run: seq<Step>, c: nat, i: nat)
    requires Shape(g0) && ComesTo(g0, run, c, i)
    ensures HeardAt(g0, run, c, i) == LastHeard(After(g0, run[..|run| - 1]), i)
    ensures forall j: nat :: j != i ==> HeardAt(g0, run, c, j) == HeardAt(g0, run[..|run| - 1], c, j)
  {
  }

  lemma NewBytes(g0: Group, run: seq<Step>, g: Group, c: nat, i: nat, bytes: seq<byte>)
    requires Shape(g0) && Shape(g) && run != [] && g == After(g0, run[..|run| - 1]) && HeardLast(g)
    requires run[|run| - 1] == Call(c) && c < |g.callers| && g.callers[c].pc == Reading(i)
    requires Tells(g0, run[..|run| - 1], c, g.callers[c]) && bytes == [g.readings[i]] + g.callers[c].bytes
    ensures forall k :: 0 <= k < |bytes| ==> bytes[k] == HeardAt(g0, run, c, i + k)
  {
    ComesOnlyTo(g0, run, c, i);
    assert g.readings[i] == LastHeard(g, i);
    ShiftBytes(g0, run, c, i, g.callers[c], g.readings[i]);
  }

  lemma ShiftBytes(g0: Group, run: seq<Step>, c: nat, i: nat, x: Caller, b: byte)
    requires Shape(g0) && run != [] && Tells(g0, run[..|run| - 1], c, x) && x.pc == Reading(i)
    requires HeardAt(g0, run, c, i) == b
    requires forall j: nat :: j != i ==> HeardAt(g0, run, c, j) == HeardAt(g0, run[..|run| - 1], c, j)
    ensures forall k :: 0 <= k <= |x.bytes| ==> ([b] + x.bytes)[k] == HeardAt(g0, run, c, i + k)
  {
    forall k | 0 <= k <= |x.bytes|
      ensures ([b] + x.bytes)[k] == HeardAt(g0, run, c, i + k)
    {
      if k > 0 {
        assert x.bytes[k - 1] == HeardAt(g0, run[..|run| - 1], c, i + 1 + (k - 1));
      }
    }
  }

  lemma NewPass(g0: Group, run: seq<Step>, c: nat, bytes: seq<byte>)
    requires Shape(g0) && ComesTo(g0, run, c, 0) && |bytes| == |g0.sensors|
    requires forall k :: 0 <= k < |bytes| ==> bytes[k] == HeardAt(g0, run, c, k)
    ensures Passes(g0, run) == Passes(g0, run[..|run| - 1]) + [bytes]
  {
    assert bytes == BytesAt(g0, run, c, 0, |g0.sensors|);
  }

  /** The caller that came to sensor i, before and after. */
  predicate TookByte(g: Group, g': Group, c: nat, i: nat, bytes: seq<byte>)
    requires c < |g.callers| == |g'.callers|
  {
    var x' := g'.callers[c];
    if i == 0 then x'.pc.Idle? && g'.results == g.results + [bytes]
    else !x'.pc.Idle? && x'.pc.i == i - 1 && x'.bytes == bytes && g'.results == g.results
  }

  lemma TakerTells(g0: Group, run: seq<Step>, g: Group, g': Group, c: nat, i: nat, bytes: seq<byte>)
    requires Shape(g0) && c < |g.callers| == |g'.callers| && TookByte(g, g', c, i, bytes)
    requires forall k :: 0 <= k < |bytes| ==> bytes[k] == HeardAt(g0, run, c, i + k)
    ensures Tells(g0, run, c, g'.callers[c])
  {
  }

  lemma TakerPasses(g0: Group, run: seq<Step>, g: Group, g': Group, c: nat, i: nat, bytes: seq<byte>)
    requires Shape(g0) && run != [] && c < |g.callers| == |g'.callers| && TookByte(g, g', c, i, bytes)
    requires run[|run| - 1] == Call(c) && ComesTo(g0, run, c, i) && |bytes| == |g0.sensors| - i
    requires forall k :: 0 <= k < |bytes| ==> bytes[k] == HeardAt(g0, run, c, i + k)
    requires g.results == Passes(g0, run[..|run| - 1])
    ensures g'.results == Passes(g0, run)
  {
    if i == 0 {
      NewPass(g0, run, c, bytes);
    } else {
      NoPass(g0, run, c);
    }
  }

  /** A caller that is at sensor i puts in front what was heard of it. */
  lemma ReadTold(g0: Group, run: seq<Step>, g: Group, g': Group, c: nat, i: nat, bytes: seq<byte>)
    requires Shape(g0) && Shape(g) && run != [] && Told(g0, run[..|run| - 1], g) && g == After(g0, run[..|run| - 1])
    requires run[|run| - 1] == Call(c) && c < |g.callers| == |g'.callers| && g.callers[c].pc == Reading(i) &&
             HeardLast(g)
    requires g'.sensors == g.sensors && bytes == [g.readings[i]] + g.callers[c].bytes && TookByte(g, g', c, i, bytes)
    requires forall k: nat :: k < |g.callers| && k != c ==> g'.callers[k] == g.callers[k]
    ensures Told(g0, run, g')
  {
    assert Tells(g0, run[..|run| - 1], c, g.callers[c]);
    NewBytes(g0, run, g, c, i, bytes);
    TakerTells(g0, run, g, g', c, i, bytes);
    TakerPasses(g0, run, g, g', c, i, bytes);
    forall k: nat | k < |g.callers| && k != c
      ensures Tells(g0, run, k, g'.callers[k])
    {
      OthersTell(g0, run, g, g', k);
    }
  }

  lemma CallTold(g0: Group, run: seq<Step>, g: Group, c: nat)
    requires Shape(g0) && Shape(g) && run != [] && Told(g0, run[..|run| - 1], g) && g == After(g0, run[..|run| - 1])
    requires run[|run| - 1] == Call(c) && c < |g.callers| && Kept(g) && HeardLast(g)
    ensures Told(g0, run, CallStep(g, c))
  {
    CallMoves(g, c);
    var pc := g.callers[c].pc;
    if pc.Reading? {
      ReadTold(g0, run, g, CallStep(g, c), c, pc.i, [g.readings[pc.i]] + g.callers[c].bytes);
    } else {
      if !pc.Idle? {
        CallKeepsBytes(g, c);
      }
      MoveTold(g0, run, g, CallStep(g, c), c);
    }
  }

  lemma {:induction false} RunTold(g0: Group, run: seq<Step>)
    requires Shape(g0) && Kept(g0) && HeardLast(g0) && g0.results == []
    requires forall c :: 0 <= c < |g0.callers| ==> g0.callers[c].pc.Idle?
    ensures Told(g0, run, After(g0, run))
  {
    if run != [] {
      var before, a := run[..|run| - 1], run[|run| - 1];
      RunTold(g0, before);
      ReadingsAreLast(g0, before);
      var g := After(g0, before);
      if a.Call? && a.c < |g.callers| {
        CallTold(g0, run, g, a.c);
      } else {
        MoveTold(g0, run, g, After(g0, run), if a.Call? then a.c else |g.callers|);
      }
    }
  }

  lemma FreshTold(sensors: seq<Sensor>, user: bool, callers: nat, run: seq<Step>)
    ensures var g0 := Fresh(sensors, user, callers); var g := After(g0, run);
            Kept(g) && HeardLast(g) && g.sensors == sensors && g.results == Passes(g0, run)
  {
    var g0 := Fresh(sensors, user, callers);
    ReadingsAreLast(g0, run);
    RunTold(g0, run);
  }

  /** In every run a sensor's reading is byte 1 of the last reply longer than two bytes to a request for that sensor,
      and 0 if there was none. */
  lemma ReadingIsLastReply(sensors: seq<Sensor>, user: bool, callers: nat, run: seq<Step>, i: nat)
    requires i < |sensors|
    ensures var g := After(Fresh(sensors, user, callers), run);
            |g.readings| == |sensors| && g.readings[i] == LastReply(g.sent, g.replies, i, |g.replies|)
  {
    FreshTold(sensors, user, callers, run);
    var g := After(Fresh(sensors, user, callers), run);
    assert g.readings[i] == LastHeard(g, i);
  }

  /** What is printed for sensor i of result r stands for byte b. */
  ghost predicate ShowsByte(g: Group, r: nat, i: nat, b: byte)
    requires r < |g.results| && i < |g.sensors|
  {
    |g.results[r]| == |g.sensors| &&
    var x, f := g.sensors[i], Shown(g, r, i); f.name == x.name && f.value == (b + x.base) * x.mul
  }

  lemma ShownByte(g: Group, r: nat, i: nat)
    requires Shape(g) && ReadingsKept(g) && i < |g.sensors| <= 8 && r < |g.results|
    ensures |g.results[r]| == |g.sensors| && ShowsByte(g, r, i, g.results[r][i])
  {
    RoutedNow(g, i, r);
    ShownIs(g, r, i);
  }

  /** In every run the results are, pass by pass, what the sensors had said when the pass came to them; and what is
      printed of a group of at most eight sensors is (b + base) * mul for just that byte b. */
  lemma PrintedIsHeard(sensors: seq<Sensor>, user: bool, callers: nat, run: seq<Step>, r: nat, i: nat)
    requires i < |sensors| <= 8
    ensures var g0 := Fresh(sensors, user, callers); var g, passes := After(g0, run), Passes(g0, run);
            g.sensors == sensors && g.results == passes &&
            (r < |passes| ==> |passes[r]| == |sensors| && ShowsByte(g, r, i, passes[r][i]))
  {
    FreshTold(sensors, user, callers, run);
    var g := After(Fresh(sensors, user, callers), run);
    if r < |g.results| {
      ShownByte(g, r, i);
    }
  }
}
