/** The single buffer of haswellstat and sbstat: a static two-dimensional array and three indices. */
module OldStat {
  import opened Words
  import opened Printer
  import opened StatRead
  import opened Drain
  import opened RingBuffer
  import opened OldPrinter
  import opened OldRuns
  import opened XstatNode

  class Buffer {
    const buffer: array2<uint64>
    const workingBuf: array<uint64>
    var bufferBase: nat
    var bufferNext: nat
    var bufferSize: nat
    ghost var ring: Ring<Record>

    ghost predicate Shapes()
      reads this
    {
      buffer.Length0 == MICSTAT_NBUF && buffer.Length1 == MICSTAT_NCNT && workingBuf.Length == MICSTAT_NCNT
    }

    /** Row i of the buffer. */
    function Row(i: nat): (row: Record)
      requires Shapes() && i < MICSTAT_NBUF
      reads this, buffer
      ensures |row| == MICSTAT_NCNT && forall j :: 0 <= j < MICSTAT_NCNT ==> row[j] == buffer[i, j]
    {
      seq(MICSTAT_NCNT, j requires 0 <= j < MICSTAT_NCNT && Shapes() reads this, buffer => buffer[i, j])
    }

    ghost predicate Rows(slots: seq<Record>)
      requires Shapes()
      reads this, buffer
    {
      |slots| == MICSTAT_NBUF && forall i {:trigger slots[i]} :: 0 <= i < MICSTAT_NBUF ==> slots[i] == Row(i)
    }

    /** `ring` is what the buffer and the three indices hold. */
    ghost predicate Valid()
      reads this, buffer
    {
      Shapes() && Rows(ring.slots) && ring == Ring(ring.slots, bufferBase, bufferNext, bufferSize) && ValidRing(ring)
    }

    constructor ()
      ensures Valid() && fresh(buffer) && fresh(workingBuf) && ring == Empty().ring
    {
      buffer := new uint64[MICSTAT_NBUF, MICSTAT_NCNT]((_, _) => 0);
      workingBuf := new uint64[MICSTAT_NCNT](_ => 0);
      bufferBase, bufferNext, bufferSize := 0, 0, 0;
      ring := Empty().ring;
      new;
      assert forall i :: 0 <= i < MICSTAT_NBUF ==> Row(i) == seq(MICSTAT_NCNT, _ => 0);
    }

    /** The first loop of `roll_buffer`: what the counters' restarts return goes into the working record. */
    method Collect(raws: Record)
      requires Shapes() && |raws| == MICSTAT_NCNT
      modifies workingBuf
      ensures workingBuf[..] == raws
    {
      for i := 0 to MICSTAT_NCNT
        invariant workingBuf[..i] == raws[..i]
      {
        workingBuf[i] := raws[i];
      }
    }

    /** Its second loop: the working record goes into row i. */
    method CopyToRow(i: nat, ghost slots: seq<Record>)
      requires Shapes() && i < MICSTAT_NBUF && Rows(slots)
      modifies buffer
      ensures Rows(slots[i := workingBuf[..]])
    {
      for j := 0 to MICSTAT_NCNT
        invariant forall k :: 0 <= k < j ==> buffer[i, k] == workingBuf[k]
        invariant forall r, k :: 0 <= r < MICSTAT_NBUF && 0 <= k < MICSTAT_NCNT && r != i ==>
                    buffer[r, k] == old(buffer[r, k])
      {
        buffer[i, j] := workingBuf[j];
      }
      forall r | 0 <= r < MICSTAT_NBUF
        ensures slots[i := workingBuf[..]][r] == Row(r)
      {
        if r != i {
          assert slots[r] == old(Row(r));
        }
      }
    }

    /** `roll_buffer` of haswellstat: the oldest record makes room. */
    method RollHaswell(raws: Record)
      requires Valid() && |raws| == MICSTAT_NCNT
      modifies this, buffer, workingBuf
      ensures Valid() && ring == RollDropOldest(old(ring), raws)
    {
      Collect(raws);
      ghost var r, r' := ring, RollDropOldest(ring, raws);
      RollDropOldestRefines(r, raws);
      CopyToRow(bufferNext, r.slots);
      Advance(r, raws);
      ring := r';
    }

    /** The three indices after a roll of haswellstat. */
    method Advance(ghost r: Ring<Record>, ghost x: Record)
      requires |r.slots| == MICSTAT_NBUF && ValidRing(r) && r == Ring(r.slots, bufferBase, bufferNext, bufferSize)
      modifies this`bufferBase, this`bufferNext, this`bufferSize
      ensures RollDropOldest(r, x) == Ring(r.slots[r.next := x], bufferBase, bufferNext, bufferSize)
    {
      bufferNext := (bufferNext + 1) % MICSTAT_NBUF;
      if bufferSize < MICSTAT_NBUF {
        bufferSize := bufferSize + 1;
      } else {
        bufferBase := (bufferBase + 1) % MICSTAT_NBUF;
      }
    }

    /** `roll_buffer` of sbstat: a full ring refuses the record, and says so. */
    method RollSandyBridge(raws: Record) returns (ret: int)
      requires Valid() && |raws| == MICSTAT_NCNT
      modifies this, buffer, workingBuf
      ensures Valid() && ring == RollDropNewest(old(ring), raws) &&
              ret == if old(bufferSize) < MICSTAT_NBUF then 0 else -1
    {
      Collect(raws);
      if bufferSize < MICSTAT_NBUF {
        ghost var r, r' := ring, RollDropNewest(ring, raws);
        RollDropNewestRefines(r, raws);
        CopyToRow(bufferNext, r.slots);
        bufferNext := (bufferNext + 1) % MICSTAT_NBUF;
        bufferSize := bufferSize + 1;
        ring := r';
        return 0;
      }
      return -1;
    }

    /** `micstat_store_clear`, for a text that begins with "on" or "1"; any other text is not consumed. */
    method StoreClear(text: string) returns (ret: nat)
      requires Valid()
      modifies this`bufferSize, this`bufferNext, this`ring
      ensures Valid()
      ensures var clears := "on" <= text || "1" <= text;
              ret == (if clears then |text| else 0) && ring == if clears then ClearToBase(old(ring)) else old(ring)
    {
      if (|text| >= 2 && text[..2] == "on") || (|text| >= 1 && text[..1] == "1") {
        ResetRefines(ring);
        bufferSize := 0;
        bufferNext := bufferBase;
        ring := ClearToBase(ring);
        return |text|;
      }
      return 0;
    }

    /** The oldest record leaves the ring. */
    method DropOldest()
      requires Valid() && bufferSize > 0
      modifies this`bufferSize, this`bufferBase, this`ring
      ensures Valid() && ring == Pop(old(ring))
    {
      ghost var r' := Pop(ring);
      PopRefines(ring);
      bufferBase := (bufferBase + 1) % MICSTAT_NBUF;
      bufferSize := bufferSize - 1;
      ring := r';
    }

    /** A record that is known to fit, printed where the text ends. */
    method PrintWhole(buf: array<char>, count: nat, limit: nat, rec: Record) returns (ret: nat)
      requires |rec| == MICSTAT_NCNT && count + limit == buf.Length && |OldText(OLD_NAMES, rec)| < limit
      modifies buf
      ensures ret == |OldText(OLD_NAMES, rec)| && buf[..count + ret] == old(buf[..count]) + OldText(OLD_NAMES, rec)
    {
      ret := PrintOld(buf, count, limit, OLD_NAMES, rec);
      WriteMeaning(old(buf[..]), count, limit, OldText(OLD_NAMES, rec));
      assert buf[..count + ret] == buf[..count] + buf[count..count + ret];
    }

    lemma StoredLengths()
      requires Valid()
      ensures OldRecords(Stored(ring))
    {
      forall k | 0 <= k < bufferSize
        ensures |Stored(ring)[k]| == MICSTAT_NCNT
      {
        StoredAt(ring, k);
      }
    }

    lemma StoredIsOld()
      requires Valid()
      ensures OldRecords(Stored(ring)) && Short(OldTexts(OLD_NAMES, Stored(ring)))
    {
      StoredLengths();
      OldNamesAreShort();
      OldTextsAreShort(OLD_NAMES, Stored(ring));
    }

    lemma NextText(r: Ring<Record>, k: nat)
      requires Valid() && ValidRing(r) && OldRecords(Stored(r)) && k < r.size && ring == PopMany(r, k)
      ensures OldTexts(OLD_NAMES, Stored(r))[k] == OldText(OLD_NAMES, Row(bufferBase))
    {
      PopManyRefines(r, k);
    }

    /** One turn of the drain loop. */
    method DrainOne(buf: array<char>, count: nat, limit: nat, ghost r: Ring<Record>, ghost texts: seq<string>,
        ghost k: nat)
      returns (count': nat, limit': nat)
      requires Valid() && buf.Length == PAGE_SIZE && count <= PAGE_SIZE
      requires Drained(ring, r, texts, k, buf[..count], limit) && limit > PAGE_SIZE / 2 && bufferSize > 0
      requires texts[k] == OldText(OLD_NAMES, Row(bufferBase))
      modifies this`bufferSize, this`bufferBase, this`ring, buf
      ensures Valid() && count' <= PAGE_SIZE && Drained(ring, r, texts, k + 1, buf[..count'], limit')
    {
      DrainAdvances(texts, k, limit);
      var ret := PrintWhole(buf, count, limit, Row(bufferBase));
      count', limit' := count + ret, limit - ret;
      DropOldest();
    }

    /** `micstat_show_stat`: takes as many records as the run model says, and prints them whole. */
    method ShowStat(buf: array<char>) returns (count: nat)
      requires Valid() && buf.Length == PAGE_SIZE
      modifies this`bufferSize, this`bufferBase, this`ring, buf
      ensures Valid() && OldRecords(old(Stored(ring))) && count <= PAGE_SIZE
      ensures ring == PopMany(old(ring), old(Taken(ring)))
      ensures buf[..count] == DrainText(OldTexts(OLD_NAMES, old(Stored(ring))), PAGE_SIZE)
    {
      StoredIsOld();
      ghost var r, stored, k := ring, Stored(ring), 0;
      ghost var texts := OldTexts(OLD_NAMES, stored);
      var limit: nat := PAGE_SIZE;
      count := 0;
      DrainedAtStart(r, texts, buf[..count]);
      while limit > PAGE_SIZE / 2 && bufferSize > 0
        modifies this`bufferSize, this`bufferBase, this`ring, buf
        invariant Valid() && count <= PAGE_SIZE && Drained(ring, r, texts, k, buf[..count], limit)
        decreases bufferSize
      {
        NextText(r, k);
        count, limit := DrainOne(buf, count, limit, r, texts, k);
        k := k + 1;
      }
      DrainedAtEnd(ring, r, texts, k, buf[..count], limit);
    }

    lemma NewestRow(bufferLast: nat)
      requires Valid() && bufferSize > 0 && bufferLast == (bufferBase + bufferSize - 1) % MICSTAT_NBUF
      ensures bufferLast < MICSTAT_NBUF && Stored(ring)[bufferSize - 1] == Row(bufferLast)
      ensures 0 < |OldText(OLD_NAMES, Row(bufferLast))| <= RECORD_MAX
    {
      StoredAt(ring, bufferSize - 1);
      WrapIsMod(bufferBase + bufferSize - 1, MICSTAT_NBUF);
      OldNamesAreShort();
      OldTextLength(OLD_NAMES, Row(bufferLast));
    }

    /** The newest stored record, printed. */
    method PrintNewest(buf: array<char>) returns (ret: nat)
      requires Valid() && buf.Length == PAGE_SIZE && bufferSize > 0
      modifies buf
      ensures ret <= PAGE_SIZE && |Stored(ring)[bufferSize - 1]| == MICSTAT_NCNT
      ensures buf[..ret] == OldText(OLD_NAMES, Stored(ring)[bufferSize - 1])
    {
      var bufferLast := (bufferBase + bufferSize - 1) % MICSTAT_NBUF;
      NewestRow(bufferLast);
      ghost var text := OldText(OLD_NAMES, Row(bufferLast));
      ret := PrintWhole(buf, 0, PAGE_SIZE, Row(bufferLast));
      assert buf[..ret] == [] + text;
    }

    /** `micstat_show_last`: the newest stored record, or nothing when none is stored. */
    method ShowLast(buf: array<char>) returns (ret: nat)
      requires Valid() && buf.Length == PAGE_SIZE
      modifies buf
      ensures OldRecords(Stored(ring)) && ret <= PAGE_SIZE
      ensures buf[..ret] == if bufferSize > 0 then OldText(OLD_NAMES, Stored(ring)[bufferSize - 1]) else ""
    {
      StoredLengths();
      ret := 0;
      if bufferSize > 0 {
        ret := PrintNewest(buf);
      }
    }
  }
}
