/**
 The two models of a `stat` read agree: a reader that takes the node's lock, copies out as many records as the page
 holds, field by field, and gives the lock back leaves the ring that `ShowStat` of the node's class leaves, and delivers
 the records whose text `ShowStat` puts on the page.
 */
module SoloRead {
  import opened Words
  import opened Printer
  import opened StatRead
  import opened Drain
  import opened NodeCounters
  import opened RingBuffer
  import opened Pass
  import opened NodeMachine
  import opened NodeSafety

  /** The node after j fields were read. */
  function FieldsRead(n: NodeState, j: nat): (n': NodeState)
    requires Shape(n)
    ensures Shape(n')
  {
    if j == 0 then n else Next(FieldsRead(n, j - 1), ReadField)
  }

  /** And after k records were read and delivered, sixteen fields each. */
  function RecordsRead(n: NodeState, k: nat): (n': NodeState)
    requires Shape(n)
    ensures Shape(n')
  {
    if k == 0 then n else Next(FieldsRead(RecordsRead(n, k - 1), XSTAT_NCNT), Deliver)
  }

  /** A whole read of `stat` that takes k records. */
  function ReadAlone(n: NodeState, r: nat, k: nat): (n': NodeState)
    requires Shape(n)
    ensures Shape(n')
  {
    Next(RecordsRead(Next(n, Lock(r, false)), k), Unlock)
  }

  function Deliveries(r: nat, first: nat, recs: seq<Record>): (ds: seq<Delivery>)
    ensures |ds| == |recs|
  {
    seq(|recs|, j requires 0 <= j < |recs| => Delivery(r, first + j, recs[j]))
  }

  lemma {:induction false} FieldsAre(n: NodeState, r: nat, last: bool, slot: Record, j: nat)
    requires Shape(n) && n.holder == ReaderHolds(r, last, []) && (last || n.ring.size > 0) && j <= XSTAT_NCNT
    requires slot == ReadSlot(n, last) && |slot| == XSTAT_NCNT
    ensures FieldsRead(n, j) == n.(holder := ReaderHolds(r, last, slot[..j]))
  {
    if j == 0 {
      assert slot[..0] == [];
    } else {
      FieldsAre(n, r, last, slot, j - 1);
      assert slot[..j] == slot[..j - 1] + [slot[j - 1]];
    }
  }

  /** What reading k records leaves. */
  ghost predicate Took(n: NodeState, n': NodeState, r: nat, k: nat)
    requires Shape(n) && k <= n.ring.size
  {
    n'.ring == PopMany(n.ring, k) && n'.holder == ReaderHolds(r, false, []) && n'.threads == n.threads &&
    n'.kept == n.kept && n'.h.published == n.h.published && n'.h.gone == n.h.gone + k &&
    n'.h.delivered == n.h.delivered + Deliveries(r, n.h.gone, Stored(n.ring)[..k])
  }

  lemma DeliveriesSnoc(r: nat, first: nat, s: seq<Record>, k: nat)
    requires k < |s|
    ensures Deliveries(r, first, s[..k + 1]) == Deliveries(r, first, s[..k]) + [Delivery(r, first + k, s[k])]
  {
  }

  /** One record was delivered and left the ring. */
  predicate TookOne(m: NodeState, m': NodeState, r: nat)
    requires Shape(m) && m.ring.size > 0
  {
    m'.ring == Pop(m.ring) && m'.holder == m.holder && m'.threads == m.threads && m'.kept == m.kept &&
    m'.h.published == m.h.published && m'.h.gone == m.h.gone + 1 &&
    m'.h.delivered == m.h.delivered + [Delivery(r, m.h.gone, m.ring.slots[m.ring.base])]
  }

  lemma WholeIsDelivered(n: NodeState, m: NodeState, r: nat, slot: Record)
    requires Shape(n) && n.holder == ReaderHolds(r, false, []) && n.ring.size > 0
    requires slot == n.ring.slots[n.ring.base] && m == n.(holder := ReaderHolds(r, false, slot))
    ensures TookOne(n, Next(m, Deliver), r)
  {
  }

  lemma RecordDelivered(n: NodeState, r: nat)
    requires Shape(n) && n.holder == ReaderHolds(r, false, []) && n.ring.size > 0
    ensures TookOne(n, Next(FieldsRead(n, XSTAT_NCNT), Deliver), r)
  {
    var slot := n.ring.slots[n.ring.base];
    FieldsAre(n, r, false, slot, XSTAT_NCNT);
    assert slot[..XSTAT_NCNT] == slot;
    WholeIsDelivered(n, FieldsRead(n, XSTAT_NCNT), r, slot);
  }

  lemma OneMoreRecord(n: NodeState, m: NodeState, m': NodeState, r: nat, k: nat)
    requires Shape(n) && Shape(m) && ValidRing(n.ring) && k < n.ring.size && Took(n, m, r, k) && TookOne(m, m', r)
    ensures Took(n, m', r, k + 1)
  {
    PopManyRefines(n.ring, k);
    DeliveriesSnoc(r, n.h.gone, Stored(n.ring), k);
  }

  lemma OneMoreRead(n: NodeState, m: NodeState, r: nat, k: nat, next: nat) returns (m': NodeState)
    requires Shape(n) && ValidRing(n.ring) && next == k + 1 <= n.ring.size && m == RecordsRead(n, k) && Took(n, m, r, k)
    ensures m' == RecordsRead(n, next) && Took(n, m', r, next)
  {
    m' := Next(FieldsRead(m, XSTAT_NCNT), Deliver);
    RecordDelivered(m, r);
    OneMoreRecord(n, m, m', r, k);
  }

  lemma {:induction false} RecordsAre(n: NodeState, r: nat, k: nat) returns (m: NodeState)
    requires Shape(n) && ValidRing(n.ring) && n.holder == ReaderHolds(r, false, []) && k <= n.ring.size
    ensures m == RecordsRead(n, k) && Took(n, m, r, k)
  {
    if k == 0 {
      NothingTaken(n, r);
      return n;
    }
    var before := RecordsAre(n, r, k - 1);
    m := OneMoreRead(n, before, r, k - 1, k);
  }

  lemma NothingTaken(n: NodeState, r: nat)
    requires Shape(n) && ValidRing(n.ring) && n.holder == ReaderHolds(r, false, [])
    ensures Took(n, n, r, 0)
  {
    assert Deliveries(r, n.h.gone, Stored(n.ring)[..0]) == [];
  }

  /** The records of a ring have a table's length. */
  lemma StoredOfTable(n: NodeState, table: seq<Counter>)
    requires Shape(n) && ValidRing(n.ring) && |table| == XSTAT_NCNT
    ensures OfTable(table, Stored(n.ring))
  {
    forall k | 0 <= k < n.ring.size
      ensures |Stored(n.ring)[k]| == XSTAT_NCNT
    {
      StoredAt(n.ring, k);
    }
  }

  lemma NodeIsFree(n: NodeState)
    requires Shape(n) && OneSampler(n) && RingKept(n) && n.holder.Nobody?
    ensures ValidRing(n.ring)
  {
  }

  /** A read alone pops what it delivers, in order, and gives the lock back. */
  lemma ReadAloneTakes(n: NodeState, r: nat, k: nat)
    requires Shape(n) && ValidRing(n.ring) && n.holder.Nobody? && k <= n.ring.size
    ensures var n' := ReadAlone(n, r, k);
            n'.ring == PopMany(n.ring, k) && n'.holder.Nobody? && n'.threads == n.threads && n'.kept == n.kept &&
            n'.h.published == n.h.published &&
            n'.h.delivered == n.h.delivered + Deliveries(r, n.h.gone, Stored(n.ring)[..k])
  {
    var m := RecordsAre(Next(n, Lock(r, false)), r, k);
  }

  /** As many records as the page holds: the ring is the one `ShowStat` leaves, and the text of the new deliveries is
      the page it prints. */
  lemma ReadAloneIsShowStat(n: NodeState, r: nat, table: seq<Counter>)
    requires Shape(n) && OneSampler(n) && RingKept(n) && n.holder.Nobody? && |table| == XSTAT_NCNT
    ensures ValidRing(n.ring) && OfTable(table, Stored(n.ring))
    ensures var texts := RecordTexts(table, Stored(n.ring)); var k := DrainCount(texts, PAGE_SIZE);
            var n', recs := ReadAlone(n, r, k), Stored(n.ring)[..k];
            n'.ring == PopMany(n.ring, k) && n'.holder.Nobody? &&
            n'.h.delivered == n.h.delivered + Deliveries(r, n.h.gone, recs) &&
            OfTable(table, recs) && StatText(table, recs) == DrainText(texts, PAGE_SIZE)
  {
    NodeIsFree(n);
    StoredOfTable(n, table);
    var k := DrainCount(RecordTexts(table, Stored(n.ring)), PAGE_SIZE);
    ReadAloneTakes(n, r, k);
    PrefixTexts(table, Stored(n.ring), k);
  }

  /** A whole read of `last`. */
  function LastAlone(n: NodeState, r: nat): (n': NodeState)
    requires Shape(n)
    ensures Shape(n')
  {
    Next(FieldsRead(Next(n, Lock(r, true)), XSTAT_NCNT), Unlock)
  }

  lemma LastSlotIsNewest(n: NodeState)
    requires Shape(n) && OneSampler(n) && RingKept(n) && n.holder.Nobody?
    ensures |LastSlot(n.ring)| == XSTAT_NCNT
    ensures n.h.published != [] ==> LastSlot(n.ring) == n.h.published[|n.h.published| - 1]
  {
  }

  /** A reader of `last` alone shows the record published last, the one `ShowLast` prints, and changes nothing but that
      it was shown. */
  lemma LastAloneIsShowLast(n: NodeState, r: nat)
    requires Shape(n) && OneSampler(n) && RingKept(n) && n.holder.Nobody?
    ensures LastAlone(n, r) == n.(h := n.h.(shown := n.h.shown + [Shown(r, |n.h.published|, LastSlot(n.ring))]))
    ensures n.h.published != [] ==> LastSlot(n.ring) == n.h.published[|n.h.published| - 1]
  {
    LastSlotIsNewest(n);
    var slot := LastSlot(n.ring);
    FieldsAre(Next(n, Lock(r, true)), r, true, slot, XSTAT_NCNT);
    assert slot[..XSTAT_NCNT] == slot;
  }

  /** A write to `reset` that finds the lock free empties the ring: what was stored is reset away, what had another fate
      keeps it, and `last` shows what it showed. An empty write changes nothing. */
  lemma ResetAlone(n: NodeState, count: nat)
    requires Shape(n) && OneSampler(n) && RingKept(n) && FatesKept(n.h) && n.holder.Nobody?
    ensures var n' := Next(n, Reset(count));
            if count == 0 then n' == n else
              Stored(n'.ring) == [] && n'.h.gone == |n'.h.published| && LastSlot(n'.ring) == LastSlot(n.ring) &&
              n'.h.published == n.h.published && n'.h.delivered == n.h.delivered && n'.holder.Nobody? &&
              |n'.h.fates| == |n.h.fates| &&
              forall i :: 0 <= i < |n.h.fates| ==> n'.h.fates[i] == if i < n.h.gone then n.h.fates[i] else Cleared
  {
  }
}
