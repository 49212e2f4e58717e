/**
 Requests and replies of one IPMI group. The group is shared by the samplers of all nodes: any number of callers are in
 `xstat_ipmi_restart` at once, and the message handler runs in between, with replies in any order.
 */
module IpmiRouting {
  import opened Words
  import opened Printer
  import opened IpmiPacking

  /** Where a caller is with sensor i: before the lock, inside it before and after reading `msgid`, after storing the
      next one, after the unlock, and after the request went out. */
  datatype CallerPc =
    | Idle | Want(i: nat) | Locked(i: nat) | Loaded(i: nat, id: int)
    | Stored(i: nat, id: int, ticket: nat) | Sending(i: nat, id: int, ticket: nat) | Reading(i: nat)

  /** A caller and the bytes it has read in this pass, for sensors i, i + 1, ... */
  datatype Caller = Caller(pc: CallerPc, bytes: seq<byte>)

  datatype Lock = Open | HeldBy(c: nat)

  /** Get Sensor Reading (section 35.14 of IPMI v2.0): the sensor's number goes out, the message comes back to the
      sensor. */
  datatype Request = Request(id: int, ticket: nat, sensor: nat, number: byte)

  datatype Reply = Reply(request: nat, data: seq<byte>)

  /** Who has the id drawn with a ticket: a caller, or the request it sent. */
  datatype Holder = Pending(c: nat) | Sent(k: nat)

  /** A group; `tickets`, `sent`, `replies` and `results` are its history. */
  datatype Group = Group(sensors: seq<Sensor>, user: bool, readings: seq<byte>, msgid: int, lock: Lock,
                         callers: seq<Caller>, tickets: seq<Holder>, sent: seq<Request>, replies: seq<Reply>,
                         results: seq<seq<byte>>)

  datatype Step = Call(c: nat) | Handle(request: nat, data: seq<byte>)

  /** `msgid++` on an int. */
  function NextId(id: int): int { if id == TWO31 - 1 then -(TWO31 as int) else id + 1 }

  /** The id drawn with ticket t. */
  function Id(t: nat): int { AsInt(t % TWO32) }

  lemma NextIdIs(t: nat)
    ensures NextId(Id(t)) == Id(t + 1)
  {
    var q, r := t / TWO32, t % TWO32;
    assert t == TWO32 * q + r;
    if r == TWO32 - 1 {
      assert t + 1 == TWO32 * (q + 1);
    } else {
      assert t + 1 == TWO32 * q + (r + 1);
    }
  }

  predicate ShapePc(pc: CallerPc, n: nat) { pc.Idle? || pc.i < n }

  predicate ShapeCaller(c: Caller, n: nat) {
    ShapePc(c.pc, n) && |c.bytes| == if c.pc.Idle? then 0 else n - 1 - c.pc.i
  }

  predicate Shape(g: Group) {
    |g.readings| == |g.sensors| && (forall c :: 0 <= c < |g.callers| ==> ShapeCaller(g.callers[c], |g.sensors|)) &&
    (forall k :: 0 <= k < |g.sent| ==> g.sent[k].sensor < |g.sensors|)
  }

  function Fresh(sensors: seq<Sensor>, user: bool, callers: nat): (g: Group)
    ensures Shape(g)
  {
    Group(sensors, user, seq(|sensors|, _ => 0), 0, Open, seq(callers, _ => Caller(Idle, [])), [], [], [], [])
  }

  function Goto(g: Group, c: nat, pc: CallerPc): (g': Group)
    requires Shape(g) && c < |g.callers| && !pc.Idle? && !g.callers[c].pc.Idle? && pc.i == g.callers[c].pc.i
    ensures Shape(g')
  {
    g.(callers := g.callers[c := g.callers[c].(pc := pc)])
  }

  /** From the last sensor down to the first; without a user nothing is sent. */
  function Begin(g: Group, c: nat, i: int, bytes: seq<byte>): (g': Group)
    requires Shape(g) && c < |g.callers| && -1 <= i < |g.sensors| && |bytes| == |g.sensors| - 1 - i
    ensures Shape(g')
  {
    if i < 0 then g.(callers := g.callers[c := Caller(Idle, [])], results := g.results + [bytes])
    else g.(callers := g.callers[c := Caller(if g.user then Want(i) else Reading(i), bytes)])
  }

  function CallStep(g: Group, c: nat): (g': Group)
    requires Shape(g) && c < |g.callers|
    ensures Shape(g')
  {
    var caller := g.callers[c];
    match caller.pc
    case Idle => if g.sensors == [] then g else Begin(g, c, |g.sensors| - 1, [])
    case Want(i) => if g.lock.Open? then Goto(g.(lock := HeldBy(c)), c, Locked(i)) else g
    case Locked(i) => Goto(g, c, Loaded(i, g.msgid))
    case Loaded(i, id) =>
      Goto(g.(msgid := NextId(id), tickets := g.tickets + [Pending(c)]), c, Stored(i, id, |g.tickets|))
    case Stored(i, id, ticket) => Goto(g.(lock := Open), c, Sending(i, id, ticket))
    case Sending(i, id, ticket) =>
      Goto(g.(sent := g.sent + [Request(id, ticket, i, g.sensors[i].number)],
              tickets := if ticket < |g.tickets| then g.tickets[ticket := Sent(|g.sent|)] else g.tickets),
           c, Reading(i))
    case Reading(i) => Begin(g, c, i - 1, [g.readings[i]] + caller.bytes)
  }

  /** `xstat_ipmi_msg_handler`: a reply to one of the group's requests, long enough to hold a reading. */
  function HandleStep(g: Group, request: nat, data: seq<byte>): (g': Group)
    requires Shape(g)
    ensures Shape(g')
  {
    if request < |g.sent| then
      g.(replies := g.replies + [Reply(request, data)],
         readings := if |data| > 2 then g.readings[g.sent[request].sensor := data[1]] else g.readings)
    else g
  }

  function Next(g: Group, a: Step): (g': Group)
    requires Shape(g)
    ensures Shape(g')
  {
    match a
    case Call(c) => if c < |g.callers| then CallStep(g, c) else g
    case Handle(request, data) => HandleStep(g, request, data)
  }

  function After(g: Group, run: seq<Step>): (g': Group)
    requires Shape(g)
    ensures Shape(g')
  {
    if run == [] then g else Next(After(g, run[..|run| - 1]), run[|run| - 1])
  }

  // ---- message ids ----

  predicate InLock(pc: CallerPc) { pc.Locked? || pc.Loaded? || pc.Stored? }

  predicate HasTicket(pc: CallerPc) { pc.Stored? || pc.Sending? }

  /** The spinlock has one holder, and only it knows a value of `msgid` that counts. */
  ghost predicate LockKept(g: Group) {
    g.msgid == Id(|g.tickets|) &&
    (g.lock.HeldBy? ==> g.lock.c < |g.callers|) &&
    forall c: nat :: c < |g.callers| ==>
      (InLock(g.callers[c].pc) <==> g.lock == HeldBy(c)) &&
      (g.callers[c].pc.Loaded? ==> g.callers[c].pc.id == g.msgid)
  }

  /** Every ticket was drawn once, and is with one caller or one request. */
  ghost predicate TicketsKept(g: Group) {
    (forall c: nat :: c < |g.callers| && HasTicket(g.callers[c].pc) ==>
       var pc := g.callers[c].pc;
       pc.ticket < |g.tickets| && g.tickets[pc.ticket] == Pending(c) && pc.id == Id(pc.ticket)) &&
    (forall k: nat :: k < |g.sent| ==>
       g.sent[k].ticket < |g.tickets| && g.tickets[g.sent[k].ticket] == Sent(k) && g.sent[k].id == Id(g.sent[k].ticket))
  }

  lemma StoreKeepsLock(g: Group, c: nat)
    requires Shape(g) && LockKept(g) && c < |g.callers| && g.callers[c].pc.Loaded?
    ensures LockKept(CallStep(g, c))
  {
    NextIdIs(|g.tickets|);
  }

  lemma MovesKeepLock(g: Group, c: nat)
    requires Shape(g) && LockKept(g) && c < |g.callers| && !g.callers[c].pc.Loaded?
    ensures LockKept(CallStep(g, c))
  {
    match g.callers[c].pc {
      case Want(i) =>
      case Stored(i, id, ticket) =>
      case Reading(i) =>
      case _ =>
    }
  }

  lemma LockKeptCall(g: Group, c: nat)
    requires Shape(g) && LockKept(g) && c < |g.callers|
    ensures LockKept(CallStep(g, c))
  {
    if g.callers[c].pc.Loaded? {
      StoreKeepsLock(g, c);
    } else {
      MovesKeepLock(g, c);
    }
  }

  predicate SameTicket(pc: CallerPc, pc': CallerPc) {
    HasTicket(pc') ==> HasTicket(pc) && pc'.ticket == pc.ticket && pc'.id == pc.id
  }

  lemma TicketsFrame(g: Group, g': Group)
    requires TicketsKept(g) && g'.tickets == g.tickets && g'.sent == g.sent && |g'.callers| == |g.callers|
    requires forall k: nat :: k < |g.callers| ==> SameTicket(g.callers[k].pc, g'.callers[k].pc)
    ensures TicketsKept(g')
  {
    forall k: nat | k < |g.callers| && HasTicket(g'.callers[k].pc)
      ensures var pc := g'.callers[k].pc;
              pc.ticket < |g.tickets| && g.tickets[pc.ticket] == Pending(k) && pc.id == Id(pc.ticket)
    {
      assert SameTicket(g.callers[k].pc, g'.callers[k].pc);
    }
  }

  /** Drawing the next ticket, whose id is the value of `msgid` found under the lock. */
  lemma DrawKeepsTickets(g: Group, c: nat)
    requires Shape(g) && LockKept(g) && TicketsKept(g) && c < |g.callers| && g.callers[c].pc.Loaded?
    ensures TicketsKept(CallStep(g, c))
  {
  }

  lemma SendKeepsTickets(g: Group, c: nat)
    requires Shape(g) && TicketsKept(g) && c < |g.callers| && g.callers[c].pc.Sending?
    ensures TicketsKept(CallStep(g, c))
  {
  }

  lemma TicketsKeptCall(g: Group, c: nat)
    requires Shape(g) && LockKept(g) && TicketsKept(g) && c < |g.callers|
    ensures TicketsKept(CallStep(g, c))
  {
    if g.callers[c].pc.Loaded? {
      DrawKeepsTickets(g, c);
    } else if g.callers[c].pc.Sending? {
      SendKeepsTickets(g, c);
    } else {
      TicketsFrame(g, CallStep(g, c));
    }
  }

  // ---- readings ----

  /** b is the byte 1 of some reply to a request for sensor i, or the initial 0. */
  ghost predicate Heard(g: Group, i: nat, b: byte) {
    b == 0 || exists r: nat :: r < |g.replies| && IsAnswer(g, r, i, b)
  }

  predicate IsAnswer(g: Group, r: nat, i: nat, b: byte)
    requires r < |g.replies|
  {
    var x := g.replies[r];
    x.request < |g.sent| && g.sent[x.request].sensor == i < |g.sensors| &&
      g.sent[x.request].number == g.sensors[i].number &&
    |x.data| > 2 && x.data[1] == b
  }

  ghost predicate AllHeard(g: Group, bytes: seq<byte>, first: int) {
    forall k :: 0 <= k < |bytes| && first + k >= 0 ==> Heard(g, first + k, bytes[k])
  }

  predicate Numbered(g: Group)
    requires Shape(g)
  {
    forall k: nat :: k < |g.sent| ==> g.sent[k].number == g.sensors[g.sent[k].sensor].number
  }

  ghost predicate CallerHeard(g: Group, c: nat)
    requires Shape(g) && c < |g.callers|
  {
    !g.callers[c].pc.Idle? ==> AllHeard(g, g.callers[c].bytes, g.callers[c].pc.i + 1)
  }

  ghost predicate ResultHeard(g: Group, r: nat)
    requires r < |g.results|
  {
    |g.results[r]| == |g.sensors| && AllHeard(g, g.results[r], 0)
  }

  ghost predicate ReadingsKept(g: Group)
    requires Shape(g)
  {
    Numbered(g) && AllHeard(g, g.readings, 0) && (forall c: nat :: c < |g.callers| ==> CallerHeard(g, c)) &&
    forall r: nat :: r < |g.results| ==> ResultHeard(g, r)
  }

  /** What was heard stays heard. */
  lemma HeardStays(g: Group, g': Group, i: nat, b: byte)
    requires Heard(g, i, b) && g'.sensors == g.sensors && g.sent <= g'.sent && g.replies <= g'.replies
    ensures Heard(g', i, b)
  {
    if b != 0 {
      var r: nat :| r < |g.replies| && IsAnswer(g, r, i, b);
      assert IsAnswer(g', r, i, b);
    }
  }

  lemma AllHeardStays(g: Group, g': Group, bytes: seq<byte>, first: int)
    requires AllHeard(g, bytes, first) && g'.sensors == g.sensors && g.sent <= g'.sent && g.replies <= g'.replies
    ensures AllHeard(g', bytes, first)
  {
    forall k | 0 <= k < |bytes| && first + k >= 0
      ensures Heard(g', first + k, bytes[k])
    {
      HeardStays(g, g', first + k, bytes[k]);
    }
  }

  /** A step that leaves the readings alone keeps what was heard by all but caller c. */
  lemma OthersHeard(g: Group, g': Group, c: nat)
    requires Shape(g) && Shape(g') && ReadingsKept(g) && g'.sensors == g.sensors && g'.readings == g.readings
    requires g.sent <= g'.sent && g.replies <= g'.replies && g.results <= g'.results && Numbered(g')
    requires |g'.callers| == |g.callers| && forall k: nat :: k < |g.callers| && k != c ==> g'.callers[k] == g.callers[k]
    requires c < |g.callers| ==> CallerHeard(g', c)
    requires forall r: nat :: |g.results| <= r < |g'.results| ==> ResultHeard(g', r)
    ensures ReadingsKept(g')
  {
    AllHeardStays(g, g', g.readings, 0);
    forall k: nat | k < |g.callers| && k != c
      ensures CallerHeard(g', k)
    {
      assert CallerHeard(g, k);
      if !g.callers[k].pc.Idle? {
        AllHeardStays(g, g', g.callers[k].bytes, g.callers[k].pc.i + 1);
      }
    }
    forall r: nat | r < |g.results|
      ensures ResultHeard(g', r)
    {
      assert ResultHeard(g, r);
      AllHeardStays(g, g', g.results[r], 0);
    }
  }

  lemma CallMoves(g: Group, c: nat)
    requires Shape(g) && Numbered(g) && c < |g.callers|
    ensures var g' := CallStep(g, c);
            g'.sensors == g.sensors && g'.readings == g.readings && g'.replies == g.replies && g.sent <= g'.sent &&
              Numbered(g') &&
            |g'.callers| == |g.callers| && forall k: nat :: k < |g.callers| && k != c ==> g'.callers[k] == g.callers[k]
  {
    match g.callers[c].pc {
      case Loaded(i, id) =>
      case Sending(i, id, ticket) =>
      case Reading(i) =>
      case _ =>
    }
  }

  lemma CallKeepsBytes(g: Group, c: nat)
    requires Shape(g) && c < |g.callers| && !g.callers[c].pc.Idle? && !g.callers[c].pc.Reading?
    ensures var g' := CallStep(g, c); var x, x' := g.callers[c], g'.callers[c];
            g'.results == g.results && x'.bytes == x.bytes && !x'.pc.Idle? && x'.pc.i == x.pc.i
  {
  }

  /** A caller's next byte is the reading it finds; nothing else is new. */
  lemma ReadingsKeptCall(g: Group, c: nat)
    requires Shape(g) && ReadingsKept(g) && c < |g.callers|
    ensures ReadingsKept(CallStep(g, c))
  {
    var g', x := CallStep(g, c), g.callers[c];
    CallMoves(g, c);
    if x.pc.Reading? {
      assert CallerHeard(g, c);
      AllHeardStays(g, g', x.bytes, x.pc.i + 1);
      assert Heard(g, 0 + x.pc.i, g.readings[x.pc.i]);
      HeardStays(g, g', x.pc.i, g.readings[x.pc.i]);
      AllHeardCons(g', g.readings[x.pc.i], x.bytes, x.pc.i);
    } else if !x.pc.Idle? {
      assert CallerHeard(g, c);
      CallKeepsBytes(g, c);
      AllHeardStays(g, g', x.bytes, x.pc.i + 1);
    }
    OthersHeard(g, g', c);
  }

  lemma AllHeardCons(g: Group, b: byte, bytes: seq<byte>, i: nat)
    requires Heard(g, i, b) && AllHeard(g, bytes, i + 1)
    ensures AllHeard(g, [b] + bytes, i)
  {
    forall k | 0 <= k < |bytes| + 1
      ensures Heard(g, i + k, ([b] + bytes)[k])
    {
      if k > 0 {
        assert Heard(g, i + 1 + (k - 1), bytes[k - 1]);
      }
    }
  }

  /** A reply changes the reading of the sensor that was asked for, to byte 1 and only if it is longer than two bytes;
      every other reading stays, and all were heard. */
  lemma ReadingsKeptHandle(g: Group, request: nat, data: seq<byte>)
    requires Shape(g) && ReadingsKept(g)
    ensures var g' := HandleStep(g, request, data);
            ReadingsKept(g') &&
            (request < |g.sent| && |data| > 2 ==> g'.readings[g.sent[request].sensor] == data[1]) &&
            forall j :: 0 <= j < |g.readings| && (request < |g.sent| && |data| > 2 ==> j != g.sent[request].sensor) ==>
              g'.readings[j] == g.readings[j]
  {
    if request < |g.sent| {
      var heard := g.(replies := g.replies + [Reply(request, data)]);
      assert forall c: nat :: c < |g.callers| ==> CallerHeard(g, c);
      OthersHeard(g, heard, |g.callers|);
      if |data| > 2 {
        assert IsAnswer(heard, |g.replies|, g.sent[request].sensor, data[1]);
        NewReading(heard, g.sent[request].sensor, data[1]);
      }
    }
  }

  lemma NewReading(g: Group, i: nat, b: byte)
    requires Shape(g) && ReadingsKept(g) && i < |g.sensors| && Heard(g, i, b)
    ensures ReadingsKept(g.(readings := g.readings[i := b]))
  {
    var g' := g.(readings := g.readings[i := b]);
    AllHeardStays(g, g', g.readings, 0);
    HeardStays(g, g', i, b);
    forall k: nat | k < |g.callers|
      ensures CallerHeard(g', k)
    {
      assert CallerHeard(g, k);
      if !g.callers[k].pc.Idle? {
        AllHeardStays(g, g', g.callers[k].bytes, g.callers[k].pc.i + 1);
      }
    }
    forall r: nat | r < |g.results|
      ensures ResultHeard(g', r)
    {
      assert ResultHeard(g, r);
      AllHeardStays(g, g', g.results[r], 0);
    }
    forall k | 0 <= k < |g'.readings|
      ensures Heard(g', 0 + k, g'.readings[k])
    {
      assert Heard(g', 0 + k, g.readings[k]);
    }
  }

  // ---- whole runs ----

  ghost predicate Kept(g: Group)
    requires Shape(g)
  {
    LockKept(g) && TicketsKept(g) && ReadingsKept(g)
  }

  lemma KeptStep(g: Group, a: Step)
    requires Shape(g) && Kept(g)
    ensures Kept(Next(g, a))
  {
    if a.Handle? {
      ReadingsKeptHandle(g, a.request, a.data);
      TicketsFrame(g, Next(g, a));
    } else if a.c < |g.callers| {
      LockKeptCall(g, a.c);
      TicketsKeptCall(g, a.c);
      ReadingsKeptCall(g, a.c);
    }
  }

  lemma {:induction false} RunsKeep(sensors: seq<Sensor>, user: bool, callers: nat, run: seq<Step>)
    ensures Kept(After(Fresh(sensors, user, callers), run)) &&
            After(Fresh(sensors, user, callers), run).sensors == sensors
  {
    if run != [] {
      RunsKeep(sensors, user, callers, run[..|run| - 1]);
      KeptStep(After(Fresh(sensors, user, callers), run[..|run| - 1]), run[|run| - 1]);
    }
  }

  lemma RoutedNow(g: Group, i: nat, r: nat)
    requires Shape(g) && ReadingsKept(g) && i < |g.sensors|
    ensures Heard(g, i, g.readings[i])
    ensures r < |g.results| ==> |g.results[r]| == |g.sensors| && Heard(g, i, g.results[r][i])
  {
    assert Heard(g, 0 + i, g.readings[i]);
    if r < |g.results| {
      assert ResultHeard(g, r);
      assert Heard(g, 0 + i, g.results[r][i]);
    }
  }

  /** Replies in any order: every stored reading, and every byte a pass returns, is 0 or byte 1 of a reply to a request
      for that very sensor. */
  lemma ReadingsAreRouted(sensors: seq<Sensor>, user: bool, callers: nat, run: seq<Step>, i: nat, r: nat)
    requires i < |sensors|
    ensures var g := After(Fresh(sensors, user, callers), run);
            |g.readings| == |sensors| && Heard(g, i, g.readings[i]) &&
            (r < |g.results| ==> |g.results[r]| == |sensors| && Heard(g, i, g.results[r][i]))
  {
    RunsKeep(sensors, user, callers, run);
    RoutedNow(After(Fresh(sensors, user, callers), run), i, r);
  }

  lemma IdsDiffer(s: nat, t: nat)
    ensures Id(s) == Id(t) <==> s % TWO32 == t % TWO32
    ensures s < TWO32 && t < TWO32 ==> (Id(s) == Id(t) <==> s == t)
  {
  }

  lemma TicketsDiffer(g: Group, j: nat, k: nat)
    requires TicketsKept(g) && j < k < |g.sent|
    ensures g.sent[j].ticket < |g.tickets| && g.sent[k].ticket < |g.tickets| && g.sent[j].ticket != g.sent[k].ticket
    ensures g.sent[j].id == Id(g.sent[j].ticket) && g.sent[k].id == Id(g.sent[k].ticket)
  {
  }

  /** Two requests of a group carry the same message id if and only if a multiple of 2^32 ids was drawn between them, so
      all ids differ while no more than 2^32 have been drawn. */
  lemma IdsAreDistinct(sensors: seq<Sensor>, user: bool, callers: nat, run: seq<Step>, j: nat, k: nat)
    requires j < k < |After(Fresh(sensors, user, callers), run).sent|
    ensures var g := After(Fresh(sensors, user, callers), run);
            g.sent[j].ticket != g.sent[k].ticket && g.sent[j].ticket < |g.tickets| && g.sent[k].ticket < |g.tickets| &&
            (g.sent[j].id == g.sent[k].id <==> g.sent[j].ticket % TWO32 == g.sent[k].ticket % TWO32) &&
            (|g.tickets| <= TWO32 ==> g.sent[j].id != g.sent[k].id)
  {
    RunsKeep(sensors, user, callers, run);
    var g := After(Fresh(sensors, user, callers), run);
    TicketsDiffer(g, j, k);
    IdsDiffer(g.sent[j].ticket, g.sent[k].ticket);
  }

  /** What is printed for sensor i of result r. */
  function Shown(g: Group, r: nat, i: nat): Field
    requires r < |g.results| && |g.results[r]| == |g.sensors| && i < |g.sensors|
  {
    SensorFields(g.sensors, PackedFrom(g.results[r], 0), |g.sensors|)[i]
  }

  lemma ShownIs(g: Group, r: nat, i: nat)
    requires r < |g.results| && |g.results[r]| == |g.sensors| <= 8 && i < |g.sensors|
    ensures Shown(g, r, i).name == g.sensors[i].name
    ensures Shown(g, r, i).value == (g.results[r][i] + g.sensors[i].base) * g.sensors[i].mul
  {
    PackThenPrint(g.sensors, g.results[r], i);
  }
}
