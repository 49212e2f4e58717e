/**
 The rings of haswellstat (drop-oldest) and sbstat (drop-newest), over whole runs of rolls, `stat` reads and clears. How
 many records a read takes depends on the texts of the stored ones.
 */
module OldRuns {
  import opened Words
  import opened Printer
  import opened StatRead
  import opened Drain
  import opened RingBuffer
  import opened OldPrinter

  const MICSTAT_NBUF: nat := 128

  datatype Op = Roll(rec: Record) | Stat | Clear

  /** A ring and what happened to it. `rolled` are the records that went in; `delivered` the ones that were read and
      `taken` their indices in `rolled`; `lost` the indices of those overwritten since the last clear. The numbers are
      how many records had gone out, how many when one was last read or cleared, and how many at the last clear. */
  datatype Log = Log(ring: Ring<Record>, rolled: seq<Record>, delivered: seq<Record>, taken: seq<nat>, lost: seq<nat>,
                     gone: nat, seen: nat, cleared: nat)

  predicate Shape(l: Log) { |l.ring.slots| == MICSTAT_NBUF && l.ring.next < MICSTAT_NBUF && l.ring.base < MICSTAT_NBUF }

  function Empty(): (l: Log)
    ensures Shape(l)
  {
    Log(Ring(seq(MICSTAT_NBUF, _ => seq(MICSTAT_NCNT, _ => 0)), 0, 0, 0), [], [], [], [], 0, 0, 0)
  }

  /** Records one read takes. */
  ghost function Taken(r: Ring<Record>): (k: nat)
    requires r.base < |r.slots|
    ensures k <= r.size
  {
    if OldRecords(Stored(r)) then DrainCount(OldTexts(OLD_NAMES, Stored(r)), PAGE_SIZE) else 0
  }

  /** The indices from, from + 1, ..., k of them. */
  function Range(from: nat, k: nat): (r: seq<nat>)
    ensures |r| == k && forall j :: 0 <= j < k ==> r[j] == from + j
  {
    seq(k, j requires 0 <= j < k => from + j)
  }

  ghost function StatStep(l: Log): (l': Log)
    requires Shape(l)
  {
    var k := Taken(l.ring);
    l.(ring := PopMany(l.ring, k), delivered := l.delivered + Stored(l.ring)[..k], taken := l.taken + Range(l.gone, k),
       gone := l.gone + k, seen := if k > 0 then l.gone + k else l.seen)
  }

  /** haswellstat: the newest record always goes in. */
  ghost function Haswell(l: Log, op: Op): (l': Log)
    requires Shape(l)
  {
    match op
    case Roll(rec) =>
      var full := l.ring.size >= MICSTAT_NBUF;
      l.(ring := RollDropOldest(l.ring, rec), rolled := l.rolled + [rec],
         lost := if full then l.lost + [l.gone] else l.lost, gone := if full then l.gone + 1 else l.gone)
    case Stat => StatStep(l)
    case Clear =>
      l.(ring := ClearToBase(l.ring), gone := |l.rolled|, seen := |l.rolled|, cleared := |l.rolled|, lost := [])
  }

  /** sbstat: a full ring refuses the record; there is no clear. */
  ghost function SandyBridge(l: Log, op: Op): (l': Log)
    requires Shape(l)
  {
    match op
    case Roll(rec) =>
      if l.ring.size < MICSTAT_NBUF then l.(ring := RollDropNewest(l.ring, rec), rolled := l.rolled + [rec]) else l
    case Stat => StatStep(l)
    case Clear => l
  }

  ghost function HaswellAfter(ops: seq<Op>): (l: Log)
    ensures Shape(l)
  {
    if ops == [] then Empty() else Haswell(HaswellAfter(ops[..|ops| - 1]), ops[|ops| - 1])
  }

  ghost function SandyBridgeAfter(ops: seq<Op>): (l: Log)
    ensures Shape(l)
  {
    if ops == [] then Empty() else SandyBridge(SandyBridgeAfter(ops[..|ops| - 1]), ops[|ops| - 1])
  }

  // ---- simulation ----

  /** The run has no clear and never rolls when the ring is full. */
  ghost predicate Common(ops: seq<Op>) {
    ops == [] ||
    (Common(ops[..|ops| - 1]) && !ops[|ops| - 1].Clear? &&
     (ops[|ops| - 1].Roll? ==> HaswellAfter(ops[..|ops| - 1]).ring.size < MICSTAT_NBUF))
  }

  /** On such a run the two modules cannot be told apart. */
  lemma {:induction false} SameOnCommonRuns(ops: seq<Op>)
    requires Common(ops)
    ensures HaswellAfter(ops) == SandyBridgeAfter(ops)
  {
    if ops != [] {
      SameOnCommonRuns(ops[..|ops| - 1]);
    }
  }

  /** The first roll into a full ring tells them apart. */
  lemma FullRollDiffers(l: Log, rec: Record)
    requires Shape(l) && l.ring.size == MICSTAT_NBUF
    ensures Haswell(l, Roll(rec)).ring != SandyBridge(l, Roll(rec)).ring
  {
  }

  // ---- what each module keeps ----

  ghost predicate Kept(l: Log) { Shape(l) && ValidRing(l.ring) }

  /** The oldest stored record number is the first not yet read or cleared, unless more than 128 came since. */
  ghost predicate HaswellKept(l: Log) {
    Kept(l) && l.gone + l.ring.size == |l.rolled| && Stored(l.ring) == l.rolled[l.gone..] &&
    l.gone == if |l.rolled| <= l.seen + MICSTAT_NBUF then l.seen else |l.rolled| - MICSTAT_NBUF
  }

  lemma StatKeeps(l: Log)
    requires Kept(l)
    ensures Kept(StatStep(l)) && Stored(StatStep(l).ring) == Stored(l.ring)[Taken(l.ring)..]
  {
    PopManyRefines(l.ring, Taken(l.ring));
  }

  lemma DropPrefix<T>(s: seq<T>, i: nat, k: nat)
    requires i + k <= |s|
    ensures s[i..][k..] == s[i + k..]
  {
  }

  lemma RolledSuffix(l: Log, l': Log, rec: Record)
    requires HaswellKept(l) && Kept(l') && l'.rolled == l.rolled + [rec] && l'.seen == l.seen
    requires l'.gone == if l.ring.size < MICSTAT_NBUF then l.gone else l.gone + 1
    requires l'.ring.size == if l.ring.size < MICSTAT_NBUF then l.ring.size + 1 else l.ring.size
    requires Stored(l'.ring) == Newest(Stored(l.ring) + [rec], MICSTAT_NBUF)
    ensures HaswellKept(l')
  {
    NewestOfSuffix(l.rolled, l.gone, rec, MICSTAT_NBUF);
  }

  lemma HaswellRollKeeps(l: Log, rec: Record)
    requires HaswellKept(l)
    ensures HaswellKept(Haswell(l, Roll(rec)))
  {
    RollDropOldestRefines(l.ring, rec);
    RolledSuffix(l, Haswell(l, Roll(rec)), rec);
  }

  lemma HaswellStatKeeps(l: Log)
    requires HaswellKept(l)
    ensures HaswellKept(StatStep(l))
  {
    StatKeeps(l);
    DropPrefix(l.rolled, l.gone, Taken(l.ring));
  }

  lemma HaswellClearKeeps(l: Log)
    requires HaswellKept(l)
    ensures HaswellKept(Haswell(l, Clear))
  {
    ResetRefines(l.ring);
  }

  lemma HaswellStep(l: Log, op: Op)
    requires HaswellKept(l)
    ensures HaswellKept(Haswell(l, op))
  {
    match op {
      case Roll(rec) => HaswellRollKeeps(l, rec);
      case Stat => HaswellStatKeeps(l);
      case Clear => HaswellClearKeeps(l);
    }
  }

  lemma {:induction false} HaswellRuns(ops: seq<Op>)
    ensures HaswellKept(HaswellAfter(ops))
  {
    if ops != [] {
      HaswellRuns(ops[..|ops| - 1]);
      HaswellStep(HaswellAfter(ops[..|ops| - 1]), ops[|ops| - 1]);
    }
  }

  lemma NewestSinceSeen(l: Log)
    requires HaswellKept(l)
    ensures l.seen <= |l.rolled| && Stored(l.ring) == Newest(l.rolled[l.seen..], MICSTAT_NBUF)
  {
    if |l.rolled| > l.seen + MICSTAT_NBUF {
      DropPrefix(l.rolled, l.seen, |l.rolled| - MICSTAT_NBUF - l.seen);
    }
  }

  /** haswellstat stores the newest 128 of the records rolled since the last one that was read or cleared away. */
  lemma HaswellHoldsTheNewest(ops: seq<Op>)
    ensures var l := HaswellAfter(ops);
            l.seen <= |l.rolled| && Stored(l.ring) == Newest(l.rolled[l.seen..], 128)
  {
    HaswellRuns(ops);
    NewestSinceSeen(HaswellAfter(ops));
  }

  // ---- what became of each record ----

  predicate Increasing(s: seq<nat>) { forall j, k :: 0 <= j < k < |s| ==> s[j] < s[k] }

  predicate AllBelow(s: seq<nat>, n: nat) { forall k :: 0 <= k < |s| ==> s[k] < n }

  /** Record i was delivered, overwritten, or is still to be read: one of the three. */
  ghost predicate HasOneFate(l: Log, i: nat) {
    (i in l.taken ==> i !in l.lost && i < l.gone) && (i in l.lost ==> i !in l.taken && i < l.gone) &&
    (i < l.gone ==> i in l.taken || i in l.lost)
  }

  ghost predicate FatesKept(l: Log) {
    l.cleared <= l.gone <= |l.rolled| && Increasing(l.taken) && Increasing(l.lost) &&
    AllBelow(l.taken, l.gone) && AllBelow(l.lost, l.gone) &&
      (forall k :: 0 <= k < |l.lost| ==> l.cleared <= l.lost[k]) &&
    |l.delivered| == |l.taken| && (forall k :: 0 <= k < |l.taken| ==> l.delivered[k] == l.rolled[l.taken[k]]) &&
    forall i: nat {:trigger HasOneFate(l, i)} :: l.cleared <= i < |l.rolled| ==> HasOneFate(l, i)
  }

  lemma AppendIncreasing(s: seq<nat>, t: seq<nat>, n: nat)
    requires Increasing(s) && Increasing(t) && AllBelow(s, n) && forall k :: 0 <= k < |t| ==> n <= t[k]
    ensures Increasing(s + t)
  {
  }

  lemma InRange(from: nat, k: nat, i: nat)
    ensures i in Range(from, k) <==> from <= i < from + k
  {
    if from <= i < from + k {
      assert Range(from, k)[i - from] == i;
    }
  }

  lemma InAppend(s: seq<nat>, t: seq<nat>, i: nat)
    ensures i in s + t <==> i in s || i in t
  {
  }

  /** The next k records are delivered. */
  lemma DeliverFates(l: Log, l': Log, k: nat)
    requires FatesKept(l) && l.gone + k <= |l.rolled|
    requires l'.rolled == l.rolled && l'.lost == l.lost && l'.cleared == l.cleared && l'.gone == l.gone + k
    requires l'.taken == l.taken + Range(l.gone, k) && l'.delivered == l.delivered + l.rolled[l.gone..l.gone + k]
    ensures FatesKept(l')
  {
    AppendIncreasing(l.taken, Range(l.gone, k), l.gone);
    forall i: nat | l.cleared <= i < |l.rolled|
      ensures HasOneFate(l', i)
    {
      assert HasOneFate(l, i);
      InRange(l.gone, k, i);
      InAppend(l.taken, Range(l.gone, k), i);
    }
  }

  lemma StatDelivers(l: Log, k: nat)
    requires HaswellKept(l) && k == Taken(l.ring)
    ensures l.gone + k <= |l.rolled| && StatStep(l).delivered == l.delivered + l.rolled[l.gone..l.gone + k]
  {
    assert l.rolled[l.gone..][..k] == l.rolled[l.gone..l.gone + k];
  }

  lemma StatFates(l: Log)
    requires HaswellKept(l) && FatesKept(l)
    ensures FatesKept(StatStep(l))
  {
    StatDelivers(l, Taken(l.ring));
    DeliverFates(l, StatStep(l), Taken(l.ring));
  }

  /** A record is rolled, and the oldest stored one may go lost. */
  lemma LoseFates(l: Log, l': Log, rec: Record, full: bool)
    requires FatesKept(l) && (full ==> l.gone < |l.rolled|)
    requires l'.rolled == l.rolled + [rec] && l'.taken == l.taken && l'.delivered == l.delivered
    requires l'.cleared == l.cleared && l'.gone == if full then l.gone + 1 else l.gone
    requires l'.lost == if full then l.lost + [l.gone] else l.lost
    ensures FatesKept(l')
  {
    AppendIncreasing(l.lost, [l.gone], l.gone);
    forall i: nat | l.cleared <= i < |l'.rolled|
      ensures HasOneFate(l', i)
    {
      if i < |l.rolled| {
        assert HasOneFate(l, i);
      }
      InAppend(l.lost, [l.gone], i);
    }
  }

  lemma RollFates(l: Log, rec: Record)
    requires HaswellKept(l) && FatesKept(l)
    ensures FatesKept(Haswell(l, Roll(rec)))
  {
    LoseFates(l, Haswell(l, Roll(rec)), rec, l.ring.size >= MICSTAT_NBUF);
  }

  lemma {:induction false} RunsKeepFates(ops: seq<Op>)
    ensures FatesKept(HaswellAfter(ops))
  {
    if ops != [] {
      var l, op := HaswellAfter(ops[..|ops| - 1]), ops[|ops| - 1];
      HaswellRuns(ops[..|ops| - 1]);
      RunsKeepFates(ops[..|ops| - 1]);
      match op {
        case Roll(rec) => RollFates(l, rec);
        case Stat => StatFates(l);
        case Clear =>
      }
    }
  }

  /** In every run of haswellstat: of the records rolled since the last clear each is exactly one of delivered,
      overwritten and stored; deliveries are in order and unaltered, and the stored ones are the last in order. */
  lemma EveryRecordHasOneFate(ops: seq<Op>, i: nat)
    ensures var l := HaswellAfter(ops);
            l.cleared <= l.gone <= |l.rolled| && Increasing(l.taken) && Increasing(l.lost) &&
              AllBelow(l.taken, |l.rolled|) &&
            |l.delivered| == |l.taken| && (forall k :: 0 <= k < |l.taken| ==> l.delivered[k] == l.rolled[l.taken[k]]) &&
            Stored(l.ring) == l.rolled[l.gone..] && (l.cleared <= i < |l.rolled| ==> HasOneFate(l, i))
  {
    HaswellRuns(ops);
    RunsKeepFates(ops);
  }

  // ---- the newest undelivered records ----

  /** The records number from, ..., end - 1 that are not among those taken. */
  ghost function Undelivered(rolled: seq<Record>, taken: seq<nat>, from: nat, end: nat): seq<Record>
    requires end <= |rolled|
  {
    if end <= from then []
    else Undelivered(rolled, taken, from, end - 1) + if end - 1 in taken then [] else [rolled[end - 1]]
  }

  lemma {:induction false} NoneTaken(rolled: seq<Record>, taken: seq<nat>, from: nat, mid: nat, end: nat)
    requires from <= mid <= end <= |rolled| && forall i: nat :: mid <= i < end ==> i !in taken
    ensures Undelivered(rolled, taken, from, end) == Undelivered(rolled, taken, from, mid) + rolled[mid..end]
    decreases end
  {
    if mid < end {
      NoneTaken(rolled, taken, from, mid, end - 1);
      assert rolled[mid..end] == rolled[mid..end - 1] + [rolled[end - 1]];
    }
  }

  lemma {:induction false} AllTaken(rolled: seq<Record>, taken: seq<nat>, from: nat, end: nat)
    requires end <= |rolled| && forall i: nat :: from <= i < end ==> i in taken
    ensures Undelivered(rolled, taken, from, end) == []
    decreases end
  {
    if from < end {
      AllTaken(rolled, taken, from, end - 1);
    }
  }

  lemma {:induction false} OneNotTaken(rolled: seq<Record>, taken: seq<nat>, from: nat, i: nat, end: nat)
    requires from <= i < end <= |rolled| && i !in taken
    ensures Undelivered(rolled, taken, from, end) != []
    decreases end
  {
    if i < end - 1 {
      OneNotTaken(rolled, taken, from, i, end - 1);
    }
  }

  /** Since the last clear some roll found the ring full. */
  ghost predicate FoundFull(ops: seq<Op>) {
    ops != [] && !ops[|ops| - 1].Clear? &&
    (FoundFull(ops[..|ops| - 1]) ||
     (ops[|ops| - 1].Roll? && HaswellAfter(ops[..|ops| - 1]).ring.size == MICSTAT_NBUF))
  }

  lemma {:induction false} LostIfFull(ops: seq<Op>)
    ensures HaswellAfter(ops).lost != [] <==> FoundFull(ops)
  {
    if ops != [] {
      LostIfFull(ops[..|ops| - 1]);
      HaswellRuns(ops[..|ops| - 1]);
    }
  }

  lemma UndeliveredSplits(l: Log)
    requires HaswellKept(l) && FatesKept(l)
    ensures Undelivered(l.rolled, l.taken, l.cleared, |l.rolled|) ==
            Undelivered(l.rolled, l.taken, l.cleared, l.gone) + Stored(l.ring)
  {
    forall i: nat | l.gone <= i < |l.rolled|
      ensures i !in l.taken
    {
      assert HasOneFate(l, i);
    }
    NoneTaken(l.rolled, l.taken, l.cleared, l.gone, |l.rolled|);
  }

  lemma OnlyLostIsUndelivered(l: Log)
    requires FatesKept(l)
    ensures Undelivered(l.rolled, l.taken, l.cleared, l.gone) == [] <==> l.lost == []
  {
    if l.lost == [] {
      forall i: nat | l.cleared <= i < l.gone
        ensures i in l.taken
      {
        assert HasOneFate(l, i);
      }
      AllTaken(l.rolled, l.taken, l.cleared, l.gone);
    } else {
      assert l.lost[0] in l.lost && HasOneFate(l, l.lost[0]);
      OneNotTaken(l.rolled, l.taken, l.cleared, l.lost[0], l.gone);
    }
  }

  lemma NewestOfLonger(older: seq<Record>, stored: seq<Record>)
    requires |stored| <= MICSTAT_NBUF
    ensures stored == Newest(older + stored, MICSTAT_NBUF) <==> older == [] || |stored| == MICSTAT_NBUF
  {
    if older == [] {
      assert older + stored == stored;
    } else if |stored| == MICSTAT_NBUF {
      assert (older + stored)[|older|..] == stored;
    }
  }

  /** The ring holds the newest 128 of the records that were rolled since the last clear and not delivered, if and only
      if no roll since then found the ring full, or it is full now. */
  lemma HaswellUndelivered(ops: seq<Op>)
    ensures var l := HaswellAfter(ops);
            l.cleared <= |l.rolled| &&
            (Stored(l.ring) == Newest(Undelivered(l.rolled, l.taken, l.cleared, |l.rolled|), 128) <==>
               !FoundFull(ops) || l.ring.size == 128)
  {
    HaswellRuns(ops);
    RunsKeepFates(ops);
    LostIfFull(ops);
    var l := HaswellAfter(ops);
    UndeliveredSplits(l);
    OnlyLostIsUndelivered(l);
    NewestOfLonger(Undelivered(l.rolled, l.taken, l.cleared, l.gone), Stored(l.ring));
  }

  // ---- what the operations do to the record of a run ----

  /** The records of all rolls of a run. */
  function Rolls(ops: seq<Op>): seq<Record> {
    if ops == [] then [] else
      Rolls(ops[..|ops| - 1]) + if ops[|ops| - 1].Roll? then [ops[|ops| - 1].rec] else []
  }

  /** How many of them came before the last clear. */
  function RollsBeforeClear(ops: seq<Op>): nat {
    if ops == [] then 0
    else if ops[|ops| - 1].Clear? then |Rolls(ops[..|ops| - 1])|
    else RollsBeforeClear(ops[..|ops| - 1])
  }

  /** The first record after the last delivery, or after the last clear if nothing was delivered since. */
  function FirstUnseen(taken: seq<nat>, cleared: nat): nat {
    if taken != [] && taken[|taken| - 1] >= cleared then taken[|taken| - 1] + 1 else cleared
  }

  lemma FatesAreBelow(l: Log)
    requires FatesKept(l)
    ensures l.cleared <= l.gone <= |l.rolled| && AllBelow(l.taken, l.gone)
  {
  }

  lemma StatIsTold(taken: seq<nat>, gone: nat, k: nat, seen: nat, cleared: nat)
    requires cleared <= gone && seen == FirstUnseen(taken, cleared)
    ensures FirstUnseen(taken + Range(gone, k), cleared) == if k > 0 then gone + k else seen
  {
    var t := taken + Range(gone, k);
    if k > 0 {
      assert t[|t| - 1] == gone + k - 1;
    } else {
      assert t == taken;
    }
  }

  lemma StepIsTold(l: Log, op: Op)
    requires l.cleared <= l.gone <= |l.rolled| && AllBelow(l.taken, l.gone) && Shape(l)
    requires l.seen == FirstUnseen(l.taken, l.cleared)
    ensures var l' := Haswell(l, op);
            l'.rolled == l.rolled + (if op.Roll? then [op.rec] else []) &&
            l'.cleared == (if op.Clear? then |l.rolled| else l.cleared) &&
            l'.seen == FirstUnseen(l'.taken, l'.cleared)
  {
    if op.Stat? {
      StatIsTold(l.taken, l.gone, Taken(l.ring), l.seen, l.cleared);
    }
  }

  /** The numbers in the record of a run are told by its operations and deliveries alone. */
  lemma {:induction false} RunIsTold(ops: seq<Op>)
    ensures var l := HaswellAfter(ops);
            l.rolled == Rolls(ops) && l.cleared == RollsBeforeClear(ops) && l.seen == FirstUnseen(l.taken, l.cleared)
  {
    if ops != [] {
      RunIsTold(ops[..|ops| - 1]);
      RunsKeepFates(ops[..|ops| - 1]);
      FatesAreBelow(HaswellAfter(ops[..|ops| - 1]));
      StepIsTold(HaswellAfter(ops[..|ops| - 1]), ops[|ops| - 1]);
    }
  }

  /** From l to l' one read took the oldest stored records by the half-page rule. */
  ghost predicate ReadTook(l: Log, l': Log, texts: seq<string>)
    requires Shape(l) && Shape(l')
  {
    var k := |l'.delivered| - |l.delivered|;
    0 <= k <= |texts| == l.ring.size && HalfPage(texts, k, |Concat(texts[..k])|) &&
    Stored(l'.ring) == Stored(l.ring)[k..] && l'.delivered == l.delivered + Stored(l.ring)[..k]
  }

  lemma StatTakesNow(l: Log)
    requires HaswellKept(l) && OldRecords(Stored(l.ring))
    ensures ReadTook(l, StatStep(l), OldTexts(OLD_NAMES, Stored(l.ring)))
  {
    StatKeeps(l);
    OldNamesAreShort();
    OldTextsAreShort(OLD_NAMES, Stored(l.ring));
    ReadTakes(OldTexts(OLD_NAMES, Stored(l.ring)));
  }

  /** After any run a read delivers the oldest stored records by the half-page rule and leaves the others. */
  lemma StatTakes(ops: seq<Op>)
    ensures var l, l' := HaswellAfter(ops), HaswellAfter(ops + [Stat]);
            OldRecords(Stored(l.ring)) ==> ReadTook(l, l', OldTexts(OLD_NAMES, Stored(l.ring)))
  {
    var l := HaswellAfter(ops);
    HaswellRuns(ops);
    assert (ops + [Stat])[..|ops|] == ops;
    if OldRecords(Stored(l.ring)) {
      StatTakesNow(l);
    }
  }

  /** After any run a clear leaves nothing. */
  lemma ClearEmpties(ops: seq<Op>)
    ensures Stored(HaswellAfter(ops + [Clear]).ring) == []
  {
    HaswellRuns(ops);
    assert (ops + [Clear])[..|ops|] == ops;
    ResetRefines(HaswellAfter(ops).ring);
  }

  predicate AllRolls(ops: seq<Op>) { forall k :: 0 <= k < |ops| ==> ops[k].Roll? && |ops[k].rec| == MICSTAT_NCNT }

  /** n rolls into an empty ring. */
  ghost predicate Filled(l: Log, n: nat) {
    HaswellKept(l) && |l.rolled| == n && OldRecords(l.rolled) && l.seen == 0
  }

  lemma RollFills(l: Log, n: nat, rec: Record)
    requires Filled(l, n) && |rec| == MICSTAT_NCNT
    ensures Filled(Haswell(l, Roll(rec)), n + 1)
  {
    HaswellRollKeeps(l, rec);
  }

  lemma {:induction false} RollsFill(ops: seq<Op>)
    requires AllRolls(ops)
    ensures Filled(HaswellAfter(ops), |ops|)
    ensures |ops| > MICSTAT_NBUF ==> FoundFull(ops)
  {
    if ops == [] {
      HaswellRuns([]);
    } else {
      RollsFill(ops[..|ops| - 1]);
      RollFills(HaswellAfter(ops[..|ops| - 1]), |ops| - 1, ops[|ops| - 1].rec);
    }
  }

  lemma TakesSome(l: Log, n: nat)
    requires Filled(l, n) && n > 0
    ensures Taken(l.ring) > 0
  {
    assert OldRecords(Stored(l.ring));
    OldNamesAreShort();
    OldTextsAreShort(OLD_NAMES, Stored(l.ring));
    ReadTakes(OldTexts(OLD_NAMES, Stored(l.ring)));
  }

  /** It does not always: after more than 128 rolls and one read there is room, but what was overwritten is gone. */
  lemma NotAlwaysTheNewest(ops: seq<Op>)
    requires AllRolls(ops) && |ops| > MICSTAT_NBUF
    ensures var l := HaswellAfter(ops + [Stat]);
            l.cleared <= |l.rolled| &&
            Stored(l.ring) != Newest(Undelivered(l.rolled, l.taken, l.cleared, |l.rolled|), 128)
  {
    RollsFill(ops);
    TakesSome(HaswellAfter(ops), |ops|);
    assert (ops + [Stat])[..|ops|] == ops;
    HaswellUndelivered(ops + [Stat]);
  }

  /** sbstat loses nothing it accepted: what was delivered, then what is stored, is what was accepted. */
  ghost predicate SandyBridgeKept(l: Log) { Kept(l) && l.delivered + Stored(l.ring) == l.rolled }

  lemma SandyBridgeStep(l: Log, op: Op)
    requires SandyBridgeKept(l)
    ensures SandyBridgeKept(SandyBridge(l, op))
  {
    match op {
      case Roll(rec) =>
        RollDropNewestRefines(l.ring, rec);
        assert l.delivered + (Stored(l.ring) + [rec]) == (l.delivered + Stored(l.ring)) + [rec];
      case Stat =>
        StatKeeps(l);
        var s, k := Stored(l.ring), Taken(l.ring);
        assert (l.delivered + s[..k]) + s[k..] == l.delivered + s;
      case Clear =>
    }
  }

  lemma {:induction false} SandyBridgeLosesNothing(ops: seq<Op>)
    ensures var l := SandyBridgeAfter(ops); Kept(l) && l.delivered + Stored(l.ring) == l.rolled
  {
    if ops != [] {
      SandyBridgeLosesNothing(ops[..|ops| - 1]);
      SandyBridgeStep(SandyBridgeAfter(ops[..|ops| - 1]), ops[|ops| - 1]);
    }
  }
}
