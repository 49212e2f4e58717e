/** One node of the xstat module: the counters' words, the working record, and the flat ring with its readers. */
module XstatNode {
  import opened Words
  import opened Json
  import opened Printer
  import opened StatRead
  import opened Drain
  import opened NodeCounters
  import opened RingBuffer
  import opened Pass

  /** Slot i of the flat buffer. */
  function Slot(buffer: seq<uint64>, i: nat): Record
    requires |buffer| == XSTAT_NBUF * XSTAT_NCNT && i < XSTAT_NBUF
  {
    buffer[i * XSTAT_NCNT..i * XSTAT_NCNT + XSTAT_NCNT]
  }

  /** `slots` is the flat buffer cut into records. */
  ghost predicate Cut16(buffer: seq<uint64>, slots: seq<Record>) {
    |buffer| == XSTAT_NBUF * XSTAT_NCNT && |slots| == XSTAT_NBUF &&
    forall i {:trigger Slot(buffer, i)} :: 0 <= i < XSTAT_NBUF ==> slots[i] == Slot(buffer, i)
  }

  /** Overwriting one slot's slice, and only that slice, is a slot update. */
  lemma SlotWrite(before: seq<uint64>, after: seq<uint64>, slots: seq<Record>, i: nat, rec: Record)
    requires Cut16(before, slots) && |after| == |before| && i < XSTAT_NBUF && |rec| == XSTAT_NCNT
    requires Slot(after, i) == rec
    requires forall j :: 0 <= j < |before| && !(i * XSTAT_NCNT <= j < i * XSTAT_NCNT + XSTAT_NCNT) ==>
             after[j] == before[j]
    ensures Cut16(after, slots[i := rec])
  {
    forall k {:trigger Slot(after, k)} | 0 <= k < XSTAT_NBUF
      ensures slots[i := rec][k] == Slot(after, k)
    {
      if k != i {
        assert Slot(after, k) == Slot(before, k);
      }
    }
  }

  /** One turn of the drain loop, on the texts. */
  lemma DrainAdvances(texts: seq<string>, k: nat, limit: nat)
    requires Short(texts) && k < |texts| && limit > PAGE_SIZE / 2
    ensures 0 < |texts[k]| <= RECORD_MAX && Cut(|texts[k]|, limit) == |texts[k]|
    ensures DrainCount(texts[k..], limit) == 1 + DrainCount(texts[k + 1..], limit - |texts[k]|)
    ensures Concat(texts[..k + 1]) == Concat(texts[..k]) + texts[k]
  {
    DrainStep(texts[k..], limit);
    assert texts[k..][1..] == texts[k + 1..];
    ConcatSnoc(texts[..k], texts[k]);
    assert texts[..k + 1] == texts[..k] + [texts[k]];
  }

  /** A record that is known to fit, printed where the text ends. */
  method PrintWhole(buf: array<char>, count: nat, limit: nat, table: seq<Counter>, rec: Record) returns (ret: nat)
    requires PrintableTable(table) && |table| == |rec| && count + limit == buf.Length &&
             |RecordText(table, rec)| < limit
    modifies buf
    ensures ret == |RecordText(table, rec)| && buf[..count + ret] == old(buf[..count]) + RecordText(table, rec)
  {
    ret := PrintRecord(buf, count, limit, table, rec);
    WriteMeaning(old(buf[..]), count, limit, RecordText(table, rec));
    assert buf[..count + ret] == buf[..count] + buf[count..count + ret];
  }

  /** Where a read stands: k records of the ring r it found are printed and gone, `now` is left. */
  ghost predicate Drained(now: Ring<Record>, r: Ring<Record>, texts: seq<string>, k: nat, text: seq<char>, limit: int) {
    0 < |r.slots| && k <= |texts| == r.size && now == PopMany(r, k) && Short(texts) &&
    |text| + limit == PAGE_SIZE && limit >= 0 && text == Concat(texts[..k]) &&
    DrainCount(texts, PAGE_SIZE) == k + DrainCount(texts[k..], limit)
  }

  lemma DrainedAtEnd(now: Ring<Record>, r: Ring<Record>, texts: seq<string>, k: nat, text: seq<char>, limit: int)
    requires Drained(now, r, texts, k, text, limit) && (limit <= PAGE_SIZE / 2 || now.size == 0)
    ensures now == PopMany(r, DrainCount(texts, PAGE_SIZE)) && text == DrainText(texts, PAGE_SIZE)
  {
  }

  lemma DrainedAtStart(r: Ring<Record>, texts: seq<string>, text: seq<char>)
    requires 0 < |r.slots| && |texts| == r.size && Short(texts) && text == []
    ensures Drained(r, r, texts, 0, text, PAGE_SIZE)
  {
    assert texts[0..] == texts;
  }

  /** How long the text of the last of k records is. */
  function LastLength(table: seq<Counter>, before: seq<Record>, k: nat): nat
    requires OfTable(table, before) && k <= |before|
  {
    if k == 0 then 0 else |RecordTexts(table, before)[k - 1]|
  }

  /** The half-page rule, for k of m records in n characters, the last of them in `last`: no more than needed to fill
      half a page, or all. */
  predicate FillsHalf(m: nat, k: nat, n: nat, last: nat) {
    Min(m, 4) <= k <= m && n < 4096 && (n < 2048 ==> k == m) && (k > 0 ==> n - last < 2048)
  }

  /** The page, parsed, shows exactly the k oldest records. */
  ghost predicate ShowsOldest(table: seq<Counter>, before: seq<Record>, k: nat, page: string)
    requires OfTable(table, before)
  {
    k <= |before| && OfTable(table, before[..k]) && ReadBack(page) == Ok(VisibleAll(table, before[..k]), |page|)
  }

  /** What a page achieves that took the k oldest records. */
  ghost predicate PageShows(table: seq<Counter>, before: seq<Record>, k: nat, page: string)
    requires OfTable(table, before)
  {
    k <= |before| && FillsHalf(|before|, k, |page|, LastLength(table, before, k)) && ShowsOldest(table, before, k, page)
  }

  /** A page that takes the oldest records, with `after` left. */
  ghost predicate PageTakes(table: seq<Counter>, before: seq<Record>, after: seq<Record>, page: string)
    requires OfTable(table, before)
  {
    var k := |before| - |after|;
    k >= 0 && after == before[k..] && PageShows(table, before, k, page)
  }

  lemma HalfIsFilled(texts: seq<string>, k: nat, n: nat)
    requires HalfPage(texts, k, n)
    ensures FillsHalf(|texts|, k, n, if k == 0 then 0 else |texts[k - 1]|)
  {
  }

  lemma OldestAreShown(table: seq<Counter>, before: seq<Record>, k: nat, page: string)
    requires OfTable(table, before) && PrintableTable(table)
    requires k == DrainCount(RecordTexts(table, before), PAGE_SIZE) &&
             page == DrainText(RecordTexts(table, before), PAGE_SIZE)
    ensures ShowsOldest(table, before, k, page)
  {
    DrainedReadBack(table, before);
  }

  lemma PageOf(table: seq<Counter>, before: seq<Record>, k: nat, page: string)
    requires OfTable(table, before) && PrintableTable(table) && Short(RecordTexts(table, before))
    requires k == DrainCount(RecordTexts(table, before), PAGE_SIZE) &&
             page == DrainText(RecordTexts(table, before), PAGE_SIZE)
    ensures PageShows(table, before, k, page)
  {
    ReadTakes(RecordTexts(table, before));
    HalfIsFilled(RecordTexts(table, before), k, |page|);
    OldestAreShown(table, before, k, page);
  }

  lemma NewestOne(s: seq<Record>, rec: Record)
    requires |s| <= XSTAT_NBUF
    ensures Newest(s + [rec], XSTAT_NBUF) == (if |s| < 256 then s else s[1..]) + [rec]
  {
  }

  /** What one page shows, and what a list of pages shows. */
  function PageFields(page: string): seq<seq<Field>> {
    var r := ReadBack(page);
    if r.Ok? then r.value else []
  }

  function PagesFields(pages: seq<string>): seq<seq<Field>> {
    if pages == [] then [] else PagesFields(pages[..|pages| - 1]) + PageFields(pages[|pages| - 1])
  }

  lemma PagesSnoc(pages: seq<string>, page: string)
    ensures PagesFields(pages + [page]) == PagesFields(pages) + PageFields(page)
  {
    assert (pages + [page])[..|pages|] == pages;
  }

  /** What the first m records show. */
  function VisibleFirst(table: seq<Counter>, recs: seq<Record>, m: nat): seq<seq<Field>>
    requires OfTable(table, recs) && m <= |recs|
  {
    seq(m, j requires 0 <= j < m => Visible(table, recs[j]))
  }

  /** After some reads the first records are out, and `shown` is what they show. */
  ghost predicate ReadOut(table: seq<Counter>, before: seq<Record>, after: seq<Record>, shown: seq<seq<Field>>)
    requires OfTable(table, before)
  {
    var m := |before| - |after|;
    m >= 0 && after == before[m..] && shown == VisibleFirst(table, before, m)
  }

  lemma SameFirst(table: seq<Counter>, recs: seq<Record>, m: nat, n: nat, j: nat)
    requires OfTable(table, recs) && j < m <= n <= |recs|
    ensures VisibleFirst(table, recs, m)[j] == VisibleFirst(table, recs, n)[j]
  {
    assert recs[j] in recs;
  }

  lemma SameLater(table: seq<Counter>, recs: seq<Record>, next: seq<Record>, n: nat, i: nat, j: nat)
    requires OfTable(table, recs) && OfTable(table, next) && i < n <= |recs| && j < |next| && next[j] == recs[i]
    ensures VisibleAll(table, next)[j] == VisibleFirst(table, recs, n)[i]
  {
    assert recs[i] in recs;
  }

  lemma Joined<T>(a: seq<T>, b: seq<T>, c: seq<T>)
    requires |c| == |a| + |b| && (forall j :: 0 <= j < |a| ==> a[j] == c[j])
    requires forall j :: 0 <= j < |b| ==> b[j] == c[|a| + j]
    ensures a + b == c
  {
  }

  lemma VisibleNext(table: seq<Counter>, before: seq<Record>, m: nat, k: nat, next: seq<Record>)
    requires OfTable(table, before) && OfTable(table, next) && m + k <= |before| && next == before[m..][..k]
    ensures VisibleFirst(table, before, m) + VisibleAll(table, next) == VisibleFirst(table, before, m + k)
  {
    var a, b, c := VisibleFirst(table, before, m), VisibleAll(table, next), VisibleFirst(table, before, m + k);
    forall j | 0 <= j < m
      ensures a[j] == c[j]
    {
      SameFirst(table, before, m, m + k, j);
    }
    forall j | 0 <= j < k
      ensures b[j] == c[m + j]
    {
      SameLater(table, before, next, m + k, m + j, j);
    }
    Joined(a, b, c);
  }

  lemma SplitAgain(s: seq<Record>, m: nat, k: nat)
    requires m + k <= |s|
    ensures s[m..][k..] == s[m + k..]
  {
  }

  lemma ReadOutNext(table: seq<Counter>, before: seq<Record>, mid: seq<Record>, k: nat, shown: seq<seq<Field>>,
                    next: seq<Record>)
    requires OfTable(table, before) && ReadOut(table, before, mid, shown)
    requires k <= |mid| && next == mid[..k] && OfTable(table, next)
    ensures ReadOut(table, before, mid[k..], shown + VisibleAll(table, next))
  {
    var m := |before| - |mid|;
    SplitAgain(before, m, k);
    VisibleNext(table, before, m, k, next);
  }

  lemma PageFieldsAre(table: seq<Counter>, before: seq<Record>, k: nat, page: string)
    requires OfTable(table, before) && PageShows(table, before, k, page)
    ensures OfTable(table, before[..k]) && PageFields(page) == VisibleAll(table, before[..k])
  {
  }

  lemma PageRead(table: seq<Counter>, before: seq<Record>, mid: seq<Record>, after: seq<Record>,
                 shown: seq<seq<Field>>, page: string, k: nat)
    requires OfTable(table, before) && OfTable(table, mid) && ReadOut(table, before, mid, shown)
    requires k <= |mid| && after == mid[k..] && PageShows(table, mid, k, page)
    ensures ReadOut(table, before, after, shown + PageFields(page))
  {
    PageFieldsAre(table, mid, k, page);
    ReadOutNext(table, before, mid, k, shown, mid[..k]);
  }

  lemma PageCount(table: seq<Counter>, mid: seq<Record>, after: seq<Record>, page: string) returns (k: nat)
    requires OfTable(table, mid) && PageTakes(table, mid, after, page)
    ensures k <= |mid| && after == mid[k..] && PageShows(table, mid, k, page)
    ensures |after| <= if |mid| <= 4 then 0 else |mid| - 4
  {
    k := |mid| - |after|;
    FourOrAll(table, mid, k, page);
  }

  lemma FourOrAll(table: seq<Counter>, before: seq<Record>, k: nat, page: string)
    requires OfTable(table, before) && PageShows(table, before, k, page)
    ensures Min(|before|, 4) <= k <= |before|
  {
  }

  class Node {
    const table: seq<Counter>
    const buffer: array<uint64>
    const workingBuf: array<uint64>
    const ctxs: array<nat>
    var bufferBase: nat
    var bufferNext: nat
    var bufferSize: nat
    ghost var ring: Ring<Record>

    ghost predicate Shapes()
      reads this
    {
      |table| == XSTAT_NCNT && Fitting(table) &&
      buffer.Length == XSTAT_NBUF * XSTAT_NCNT && workingBuf.Length == ctxs.Length == XSTAT_NCNT &&
      buffer != workingBuf && ctxs as object != buffer && ctxs as object != workingBuf
    }

    ghost function SamplerState(): Sampler
      reads this, ctxs, workingBuf
    {
      Sampler(ctxs[..], workingBuf[..])
    }

    /** `ring` is what the buffer and the three indices hold. */
    ghost predicate Valid()
      reads this, buffer
    {
      Shapes() && Cut16(buffer[..], ring.slots) && ring == Ring(ring.slots, bufferBase, bufferNext, bufferSize) &&
      ValidRing(ring)
    }

    /** The stored records, oldest first. */
    ghost function Contents(): seq<Record>
      requires Valid()
      reads this, buffer
    {
      Stored(ring)
    }

    constructor (table: seq<Counter>)
      requires |table| == XSTAT_NCNT && Fitting(table)
      ensures Valid() && fresh(buffer) && fresh(workingBuf) && fresh(ctxs)
      ensures Contents() == []
      ensures SamplerState() == Sampler(seq(XSTAT_NCNT, _ => 0), seq(XSTAT_NCNT, _ => 0))
    {
      this.table := table;
      buffer := new uint64[XSTAT_NBUF * XSTAT_NCNT](_ => 0);
      workingBuf := new uint64[XSTAT_NCNT](_ => 0);
      ctxs := new nat[XSTAT_NCNT](_ => 0);
      bufferBase, bufferNext, bufferSize := 0, 0, 0;
      ring := Ring(seq(XSTAT_NBUF, _ => seq(XSTAT_NCNT, _ => 0)), 0, 0, 0);
    }

    // ---- the counters that keep words ----

    method TsRestart(ctx: nat, last: uint64, now: uint64) returns (r: uint64)
      requires ctx + 1 < ctxs.Length
      modifies ctxs
      ensures r == now && ctxs[..] == old(ctxs[..])[ctx := last][ctx + 1 := now]
    {
      var p := ctx;
      ctxs[p] := last;
      p := p + 1;
      ctxs[p] := now;
      r := now;
    }

    method IntvRestart(ctx: nat) returns (r: uint64)
      requires 0 < ctx < ctxs.Length
      ensures r == Sub64(ctxs[ctx], ctxs[ctx - 1])
    {
      var now := ctxs[ctx];
      var p := ctx - 1;
      var prev := ctxs[p];
      r := Sub64(now, prev);
    }

    method EnergyRestart(ctx: nat, raw: uint64) returns (r: uint64)
      requires ctx < ctxs.Length
      modifies ctxs
      ensures r == EnergyDelta(old(ctxs[ctx]), raw) && ctxs[..] == old(ctxs[..])[ctx := raw]
    {
      var last := ctxs[ctx];
      ctxs[ctx] := raw;
      var e := raw % TWO32;
      if e < last {
        e := e + TWO32;
      }
      r := Sub64(e, last);
    }

    /** Counter i's restart, through the table of counters. */
    method Restart(i: nat, raw: uint64)
      requires Shapes() && i < XSTAT_NCNT
      modifies ctxs, workingBuf
      ensures SamplerState() == RestartOne(old(SamplerState()), i, raw)
    {
      var r := raw;
      if i == TS {
        r := TsRestart(i, workingBuf[i], raw);
      } else if i == INTV {
        r := IntvRestart(i);
      } else if i == ENERGY {
        r := EnergyRestart(i, raw);
      }
      workingBuf[i] := r;
    }

    // ---- roll, reset and the readers ----

    /** A pass over all counters. */
    method RestartAll(raws: Record)
      requires Shapes() && |raws| == XSTAT_NCNT
      modifies ctxs, workingBuf
      ensures SamplerState() == Passed(old(SamplerState()), raws)
      ensures PassLeaves(old(SamplerState()), raws, SamplerState())
    {
      for i := 0 to XSTAT_NCNT
        invariant SamplerState() == Restarted(old(SamplerState()), raws, i)
      {
        Restart(i, raws[i]);
      }
      PassMeaning(old(SamplerState()), raws);
      PassedWords(old(SamplerState()), raws);
    }

    /** The memcpy of the working record into slot `i`. */
    method CopyToSlot(i: nat, ghost slots: seq<Record>)
      requires Shapes() && i < XSTAT_NBUF && Cut16(buffer[..], slots)
      modifies buffer
      ensures Cut16(buffer[..], slots[i := workingBuf[..]])
    {
      var start := i * XSTAT_NCNT;
      for j := 0 to XSTAT_NCNT
        invariant buffer[start..start + j] == workingBuf[..j]
        invariant forall k :: 0 <= k < buffer.Length && !(start <= k < start + XSTAT_NCNT) ==>
                    buffer[k] == old(buffer[k])
      {
        buffer[start + j] := workingBuf[j];
      }
      SlotWrite(old(buffer[..]), buffer[..], slots, i, workingBuf[..]);
    }

    /** The three indices after a roll. */
    method Advance(ghost r: Ring<Record>, ghost x: Record)
      requires |r.slots| == XSTAT_NBUF && r.base < XSTAT_NBUF && r.next < XSTAT_NBUF && r.size <= XSTAT_NBUF
      requires r == Ring(r.slots, bufferBase, bufferNext, bufferSize)
      modifies this`bufferBase, this`bufferNext, this`bufferSize
      ensures RollDropOldest(r, x) == Ring(r.slots[r.next := x], bufferBase, bufferNext, bufferSize)
    {
      bufferNext := (bufferNext + 1) % XSTAT_NBUF;
      if bufferSize < XSTAT_NBUF {
        bufferSize := bufferSize + 1;
      } else {
        bufferBase := (bufferBase + 1) % XSTAT_NBUF;
      }
    }

    /** What happens under the node's lock: the working record goes into the ring. */
    method Publish()
      requires Valid()
      modifies this, buffer
      ensures Valid() && ring == RollDropOldest(old(ring), workingBuf[..])
    {
      ghost var rec, r, r' := workingBuf[..], ring, RollDropOldest(ring, workingBuf[..]);
      RollDropOldestRefines(r, rec);
      CopyToSlot(bufferNext, r.slots);
      Advance(r, rec);
      ring := r';
    }

    /** One sample: a pass over the counters, then the working record goes into the ring. */
    method RollBuffer(raws: Record)
      requires Valid() && |raws| == XSTAT_NCNT
      modifies this, buffer, workingBuf, ctxs
      ensures Valid()
      ensures SamplerState() == Passed(old(SamplerState()), raws) &&
              PassLeaves(old(SamplerState()), raws, SamplerState())
      ensures ring == RollDropOldest(old(ring), workingBuf[..])
      ensures var kept := if |old(Contents())| < 256 then old(Contents()) else old(Contents())[1..];
              Contents() == kept + [workingBuf[..]]
    {
      RestartAll(raws);
      RollDropOldestRefines(ring, workingBuf[..]);
      NewestOne(Contents(), workingBuf[..]);
      Publish();
    }

    /** A write of any non-empty text to `reset`. */
    method StoreReset(count: nat) returns (ret: nat)
      requires Valid()
      modifies this`bufferSize, this`bufferBase, this`ring
      ensures Valid() && ret == count && ring == if count > 0 then ResetToNext(old(ring)) else old(ring)
    {
      if count > 0 {
        ResetRefines(ring);
        bufferSize := 0;
        bufferBase := bufferNext;
        ring := ResetToNext(ring);
      }
      ret := count;
    }

    /** The oldest record leaves the ring. */
    method DropOldest()
      requires Valid() && bufferSize > 0
      modifies this`bufferSize, this`bufferBase, this`ring
      ensures Valid() && ring == Pop(old(ring))
    {
      ghost var r' := Pop(ring);
      PopRefines(ring);
      bufferBase := (bufferBase + 1) % XSTAT_NBUF;
      bufferSize := bufferSize - 1;
      ring := r';
    }

    /** One turn of the drain loop. */
    method DrainOne(buf: array<char>, count: nat, limit: nat, ghost r: Ring<Record>, ghost texts: seq<string>,
        ghost k: nat)
      returns (count': nat, limit': nat)
      requires Valid() && buf.Length == PAGE_SIZE && count <= PAGE_SIZE
      requires Drained(ring, r, texts, k, buf[..count], limit) && limit > PAGE_SIZE / 2 && bufferSize > 0
      requires texts[k] == RecordText(table, Slot(buffer[..], bufferBase))
      modifies this`bufferSize, this`bufferBase, this`ring, buf
      ensures Valid() && count' <= PAGE_SIZE && Drained(ring, r, texts, k + 1, buf[..count'], limit')
    {
      DrainAdvances(texts, k, limit);
      var ret := PrintWhole(buf, count, limit, table, Slot(buffer[..], bufferBase));
      count', limit' := count + ret, limit - ret;
      DropOldest();
    }

    /** A read of `stat`: drains the oldest records into one page, each of them whole. */
    method ShowStat(buf: array<char>) returns (count: nat)
      requires Valid() && buf.Length == PAGE_SIZE
      modifies this`bufferSize, this`bufferBase, this`ring, buf
      ensures Valid() && OfTable(table, old(Contents())) && count <= PAGE_SIZE
      ensures var texts := RecordTexts(table, old(Contents()));
              ring == PopMany(old(ring), DrainCount(texts, PAGE_SIZE)) && buf[..count] == DrainText(texts, PAGE_SIZE)
      ensures PageTakes(table, old(Contents()), Contents(), buf[..count])
    {
      StoredIsOfTable();
      ghost var r, stored, k := ring, Contents(), 0;
      ghost var texts := RecordTexts(table, stored);
      var limit: nat := PAGE_SIZE;
      count := 0;
      DrainedAtStart(r, texts, buf[..count]);
      while limit > PAGE_SIZE / 2 && bufferSize > 0
        modifies this`bufferSize, this`bufferBase, this`ring, buf
        invariant Valid() && count <= PAGE_SIZE && Drained(ring, r, texts, k, buf[..count], limit)
        decreases bufferSize
      {
        NextText(r, stored, k);
        count, limit := DrainOne(buf, count, limit, r, texts, k);
        k := k + 1;
      }
      DrainedAtEnd(ring, r, texts, k, buf[..count], limit);
      Remaining(r, stored, DrainCount(texts, PAGE_SIZE));
      PageOf(table, stored, DrainCount(texts, PAGE_SIZE), buf[..count]);
    }

    lemma Remaining(r: Ring<Record>, before: seq<Record>, k: nat)
      requires Valid() && ValidRing(r) && before == Stored(r) && k <= |before| && ring == PopMany(r, k)
      ensures |before| - |Contents()| == k && Contents() == before[k..]
    {
      PopManyRefines(r, k);
    }

    lemma NextText(r: Ring<Record>, stored: seq<Record>, k: nat)
      requires Valid() && ValidRing(r) && stored == Stored(r) && OfTable(table, stored)
      requires k < r.size && ring == PopMany(r, k)
      ensures RecordTexts(table, stored)[k] == RecordText(table, Slot(buffer[..], bufferBase))
    {
      PopManyRefines(r, k);
    }

    lemma StoredIsOfTable()
      requires Valid()
      ensures OfTable(table, Contents()) && Short(RecordTexts(table, Contents()))
    {
      forall k | 0 <= k < bufferSize
        ensures |Contents()[k]| == |table| && 0 < |RecordText(table, Contents()[k])| <= RECORD_MAX
      {
        StoredAt(ring, k);
        var i := Wrap(bufferBase + k, XSTAT_NBUF);
        assert Slot(buffer[..], i) == Contents()[k];
        assert 0 < |RecordText(table, Slot(buffer[..], i))| <= RECORD_MAX;
      }
    }

    /** The page of one read. */
    method ReadPage(buf: array<char>) returns (page: string)
      requires Valid() && buf.Length == PAGE_SIZE
      modifies this`bufferSize, this`bufferBase, this`ring, buf
      ensures Valid() && OfTable(table, old(Contents())) && PageTakes(table, old(Contents()), Contents(), page)
    {
      var count := ShowStat(buf);
      page := buf[..count];
    }

    /** One read and what it adds to the reads before it. */
    method ReadOnce(buf: array<char>, ghost before: seq<Record>, ghost shown: seq<seq<Field>>)
      returns (page: string, ghost more: seq<seq<Field>>)
      requires Valid() && buf.Length == PAGE_SIZE && OfTable(table, before) && ReadOut(table, before, Contents(), shown)
      modifies this`bufferSize, this`bufferBase, this`ring, buf
      ensures Valid() && more == shown + PageFields(page) && ReadOut(table, before, Contents(), more)
      ensures |Contents()| <= if |old(Contents())| <= 4 then 0 else |old(Contents())| - 4
    {
      ghost var mid := Contents();
      page := ReadPage(buf);
      ghost var k := PageCount(table, mid, Contents(), page);
      PageRead(table, before, mid, Contents(), shown, page, k);
      more := shown + PageFields(page);
    }

    /** n reads with nothing published in between: they take the oldest records in order and show exactly those; four
        records for each read are enough to empty the ring. */
    method ReadRepeatedly(buf: array<char>, n: nat) returns (pages: seq<string>)
      requires Valid() && buf.Length == PAGE_SIZE
      modifies this`bufferSize, this`bufferBase, this`ring, buf
      ensures Valid() && |pages| == n && OfTable(table, old(Contents()))
      ensures ReadOut(table, old(Contents()), Contents(), PagesFields(pages))
      ensures |old(Contents())| <= 4 * n ==> Contents() == []
    {
      ghost var before := Contents();
      StoredIsOfTable();
      pages := [];
      for i := 0 to n
        modifies this`bufferSize, this`bufferBase, this`ring, buf
        invariant Valid() && |pages| == i && ReadOut(table, before, Contents(), PagesFields(pages))
        invariant |Contents()| <= if |before| <= 4 * i then 0 else |before| - 4 * i
      {
        var page, more := ReadOnce(buf, before, PagesFields(pages));
        PagesSnoc(pages, page);
        pages := pages + [page];
      }
    }

    /** A read of `last`: the most recently published record, drained or reset away or not. */
    method ShowLast(buf: array<char>) returns (ret: nat)
      requires Valid() && buf.Length == PAGE_SIZE
      modifies buf
      ensures ret <= PAGE_SIZE && |LastSlot(ring)| == |table| && buf[..ret] == RecordText(table, LastSlot(ring))
    {
      var bufferLast := (XSTAT_NBUF + bufferNext - 1) % XSTAT_NBUF;
      LastFits(bufferLast);
      ghost var text := RecordText(table, LastSlot(ring));
      ret := PrintWhole(buf, 0, PAGE_SIZE, table, Slot(buffer[..], bufferLast));
      assert buf[..ret] == [] + text;
    }

    lemma LastFits(bufferLast: nat)
      requires Valid() && bufferLast == (XSTAT_NBUF + bufferNext - 1) % XSTAT_NBUF
      ensures bufferLast < XSTAT_NBUF && Slot(buffer[..], bufferLast) == LastSlot(ring)
      ensures |LastSlot(ring)| == |table| && 0 < |RecordText(table, LastSlot(ring))| <= RECORD_MAX
    {
      WrapIsMod(XSTAT_NBUF + bufferNext - 1, XSTAT_NBUF);
      assert Slot(buffer[..], bufferLast) == LastSlot(ring);
    }
  }
}
