/**
 One pass of a caller over its IPMI group, with nobody else at work: it asks every sensor once, from the last to the
 first, each under the next message id and by the sensor's own number, and returns the readings as it finds them.
 */
module IpmiSweep {
  import opened Words
  import opened Printer
  import opened IpmiPacking
  import opened IpmiRouting

  lemma StepKeepsCallers(g: Group, c: nat)
    requires Shape(g) && c < |g.callers|
    ensures |CallStep(g, c).callers| == |g.callers|
  {
    match g.callers[c].pc {
      case Want(i) =>
      case Reading(i) =>
      case _ =>
    }
  }

  function Call1(g: Group, c: nat): (g': Group)
    requires Shape(g) && c < |g.callers|
    ensures Shape(g') && |g'.callers| == |g.callers|
  {
    StepKeepsCallers(g, c);
    CallStep(g, c)
  }

  function Call3(g: Group, c: nat): (g': Group)
    requires Shape(g) && c < |g.callers|
    ensures Shape(g') && |g'.callers| == |g.callers|
  {
    Call1(Call1(Call1(g, c), c), c)
  }

  /** The group after caller c alone took six more steps for each of k sensors. */
  function SixForEach(g: Group, c: nat, k: nat): (g': Group)
    requires Shape(g) && c < |g.callers|
    ensures Shape(g') && |g'.callers| == |g.callers|
    decreases k
  {
    if k == 0 then g else SixForEach(Call3(Call3(g, c), c), c, k - 1)
  }

  /** And after a whole pass: one step and six for each sensor. */
  function Sweep(g: Group, c: nat): (g': Group)
    requires Shape(g) && c < |g.callers|
    ensures Shape(g') && |g'.callers| == |g.callers|
  {
    SixForEach(Call1(g, c), c, |g.sensors|)
  }

  /** What a caller of group g at sensor i asks when t ids were drawn before. */
  function Question(g: Group, t: nat, i: nat): Request
    requires i < |g.sensors|
  {
    Request(Id(t), t, i, g.sensors[i].number)
  }

  /** The first k requests of a pass that begins in g. */
  function Questions(g: Group, k: nat): (qs: seq<Request>)
    requires k <= |g.sensors|
    ensures |qs| == k
    ensures forall j :: 0 <= j < k ==> qs[j] == Question(g, |g.tickets| + j, |g.sensors| - 1 - j)
  {
    if k == 0 then [] else Questions(g, k - 1) + [Question(g, |g.tickets| + k - 1, |g.sensors| - k)]
  }

  /** Nobody holds the lock, and the id in `msgid` is the next one. */
  predicate AtRest(g: Group) { g.lock.Open? && g.msgid == Id(|g.tickets|) }

  /** The id is drawn: the caller has the lock and has stored the next id. */
  lemma Draws(g: Group, c: nat, i: nat)
    requires Shape(g) && c < |g.callers| && AtRest(g) && g.callers[c].pc == Want(i)
    ensures var t := |g.tickets|;
            Call3(g, c) == g.(lock := HeldBy(c), msgid := Id(t + 1), tickets := g.tickets + [Pending(c)],
                                 callers := g.callers[c := Caller(Stored(i, Id(t), t), g.callers[c].bytes)])
  {
    NextIdIs(|g.tickets|);
  }

  /** The lock is given back, the request goes out, and the reading is taken. */
  lemma Asks(g: Group, c: nat, i: nat, id: int, t: nat)
    requires Shape(g) && c < |g.callers| && g.callers[c].pc == Stored(i, id, t) && t < |g.tickets|
    ensures Call3(g, c) ==
            Begin(g.(lock := Open, tickets := g.tickets[t := Sent(|g.sent|)],
                     sent := g.sent + [Request(id, t, i, g.sensors[i].number)]),
                  c, i - 1, [g.readings[i]] + g.callers[c].bytes)
  {
  }

  /** One sensor, from the wish to ask it to the next one. */
  lemma OneSensor(g: Group, c: nat, i: nat)
    requires Shape(g) && c < |g.callers| && AtRest(g) && g.callers[c].pc == Want(i)
    ensures Call3(Call3(g, c), c) == Asked(g, c, i)
  {
    var t, bytes := |g.tickets|, g.callers[c].bytes;
    Draws(g, c, i);
    var m := Call3(g, c);
    Asks(m, c, i, Id(t), t);
    assert m.tickets[t := Sent(|g.sent|)] == g.tickets + [Sent(|g.sent|)];
    assert m.callers[c := g.callers[c]] == g.callers;
  }

  /** The group when the request for sensor i went out and its reading was taken. */
  function Asked(g: Group, c: nat, i: nat): Group
    requires Shape(g) && c < |g.callers| && g.callers[c].pc == Want(i)
  {
    Begin(g.(msgid := Id(|g.tickets| + 1), tickets := g.tickets + [Sent(|g.sent|)],
             sent := g.sent + [Question(g, |g.tickets|, i)]),
          c, i - 1, [g.readings[i]] + g.callers[c].bytes)
  }

  // ---- a group with a user ----

  /** Where the caller is after k sensors, and what it holds. */
  predicate Standing(g0: Group, g: Group, c: nat, k: nat)
    requires Shape(g0) && c < |g.callers| && k <= |g0.sensors|
  {
    var n := |g0.sensors|;
    if k < n then
      g.callers[c] == Caller(if g0.user then Want(n - 1 - k) else Reading(n - 1 - k), g0.readings[n - k..]) &&
      g.results == g0.results
    else g.callers[c] == Caller(Idle, []) && g.results == g0.results + [g0.readings]
  }

  /** The sensors, their readings and the other callers are as they were, and nobody holds the lock. */
  predicate Undisturbed(g0: Group, g: Group, c: nat) {
    g.sensors == g0.sensors && g.user == g0.user && g.readings == g0.readings && g.replies == g0.replies &&
    |g.callers| == |g0.callers| && AtRest(g) &&
    forall k :: 0 <= k < |g0.callers| && k != c ==> g.callers[k] == g0.callers[k]
  }

  /** k sensors were asked, each once. */
  predicate Swept(g0: Group, g: Group, c: nat, k: nat)
    requires Shape(g0) && c < |g0.callers| && k <= |g0.sensors|
  {
    Undisturbed(g0, g, c) && Standing(g0, g, c, k) && |g.tickets| == |g0.tickets| + k &&
    g.sent == g0.sent + Questions(g0, k)
  }

  lemma TakenOn(g0: Group, k: nat)
    requires Shape(g0) && k < |g0.sensors|
    ensures var n := |g0.sensors|; [g0.readings[n - 1 - k]] + g0.readings[n - k..] == g0.readings[n - 1 - k..]
  {
  }

  lemma AskedMore(g0: Group, g: Group, g': Group, c: nat, k: nat)
    requires Shape(g0) && Shape(g) && c < |g0.callers| && k < |g0.sensors| && g0.user && Swept(g0, g, c, k)
    requires g' == Asked(g, c, |g0.sensors| - 1 - k)
    ensures Swept(g0, g', c, k + 1)
  {
    TakenOn(g0, k);
    assert g0.readings[0..] == g0.readings;
  }

  lemma SweepBegins(g: Group, c: nat)
    requires Shape(g) && c < |g.callers| && g.callers[c].pc.Idle? && AtRest(g) && g.user && g.sensors != []
    ensures Swept(g, Call1(g, c), c, 0)
  {
    assert g.readings[|g.sensors|..] == [];
  }

  lemma {:induction false} Sweeping(g0: Group, g: Group, c: nat, k: nat, left: nat) returns (g': Group)
    requires Shape(g0) && Shape(g) && c < |g0.callers| && g0.user && k + left == |g0.sensors| && Swept(g0, g, c, k)
    ensures g' == SixForEach(g, c, left) && Swept(g0, g', c, |g0.sensors|)
    decreases left
  {
    if left == 0 {
      return g;
    }
    OneSensor(g, c, left - 1);
    var next := Asked(g, c, left - 1);
    AskedMore(g0, g, next, c, k);
    g' := Sweeping(g0, next, c, k + 1, left - 1);
  }

  /** Request number |sensors| - 1 - i of the pass is for sensor i, by its number and with the id of its ticket. */
  predicate AskedFor(g: Group, g': Group, i: nat)
    requires i < |g.sensors|
  {
    var j := |g.sensors| - 1 - i;
    |g'.sent| == |g.sent| + |g.sensors| &&
    g'.sent[|g.sent| + j] == Request(Id(|g.tickets| + j), |g.tickets| + j, i, g.sensors[i].number)
  }

  lemma QuestionFor(g: Group, g': Group, i: nat)
    requires i < |g.sensors| && g'.sent == g.sent + Questions(g, |g.sensors|)
    ensures AskedFor(g, g', i)
  {
  }

  /** A caller alone, in a group with a user: one step and six for each sensor send exactly one request to each sensor,
      from the last to the first, by its own number and under the next message ids; the pass returns the readings as
      they are, and the lock is given back. */
  lemma SweepAsksEach(g: Group, c: nat, i: nat)
    requires Shape(g) && c < |g.callers| && g.callers[c].pc.Idle? && AtRest(g) && g.user && i < |g.sensors|
    ensures var g' := Sweep(g, c);
            AskedFor(g, g', i) && g.sent <= g'.sent && g'.results == g.results + [g.readings] && g'.lock.Open? &&
            g'.callers[c].pc.Idle? && g'.readings == g.readings
  {
    SweepBegins(g, c);
    var g' := Sweeping(g, Call1(g, c), c, 0, |g.sensors|);
    QuestionFor(g, g', i);
  }

  // ---- a group without one ----

  /** The group after k steps of caller c alone. */
  function Calls(g: Group, c: nat, k: nat): (g': Group)
    requires Shape(g) && c < |g.callers|
    ensures Shape(g') && |g'.callers| == |g.callers|
    decreases k
  {
    if k == 0 then g else Calls(Call1(g, c), c, k - 1)
  }

  predicate Quiet(g0: Group, g: Group, c: nat, k: nat)
    requires Shape(g0) && c < |g0.callers| && k <= |g0.sensors|
  {
    Undisturbed(g0, g, c) && Standing(g0, g, c, k) && g.tickets == g0.tickets && g.sent == g0.sent
  }

  lemma ReadOne(g0: Group, g: Group, c: nat, k: nat)
    requires Shape(g0) && Shape(g) && c < |g0.callers| && k < |g0.sensors| && !g0.user && Quiet(g0, g, c, k)
    ensures Quiet(g0, Call1(g, c), c, k + 1)
  {
    TakenOn(g0, k);
    assert g0.readings[0..] == g0.readings;
  }

  lemma QuietBegins(g: Group, c: nat)
    requires Shape(g) && c < |g.callers| && g.callers[c].pc.Idle? && AtRest(g) && !g.user && g.sensors != []
    ensures Quiet(g, Call1(g, c), c, 0)
  {
    assert g.readings[|g.sensors|..] == [];
  }

  lemma {:induction false} ReadingOn(g0: Group, g: Group, c: nat, k: nat, left: nat) returns (g': Group)
    requires Shape(g0) && Shape(g) && c < |g0.callers| && !g0.user && k + left == |g0.sensors| && Quiet(g0, g, c, k)
    ensures g' == Calls(g, c, left) && Quiet(g0, g', c, |g0.sensors|)
    decreases left
  {
    if left == 0 {
      return g;
    }
    ReadOne(g0, g, c, k);
    g' := ReadingOn(g0, Call1(g, c), c, k + 1, left - 1);
  }

  /** Without a user, one step and one for each sensor: nothing is sent and no id drawn, and the pass returns the
      readings as they are. */
  lemma SweepWithoutUser(g: Group, c: nat)
    requires Shape(g) && c < |g.callers| && g.callers[c].pc.Idle? && AtRest(g) && !g.user && g.sensors != []
    ensures var g' := Calls(Call1(g, c), c, |g.sensors|);
            g'.sent == g.sent && g'.tickets == g.tickets && g'.results == g.results + [g.readings] &&
            g'.callers[c].pc.Idle? && g'.lock.Open? && g'.readings == g.readings
  {
    QuietBegins(g, c);
    var g' := ReadingOn(g, Call1(g, c), c, 0, |g.sensors|);
  }
}
