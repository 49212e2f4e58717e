/**
 How much of a ring one `stat` read takes, and how many reads empty it. Only the texts of the stored
 records matter, oldest first.
 */
module Drain {
  import opened Words
  import opened Json
  import opened Printer
  import opened StatRead

  /** Most characters a record takes; three of them leave more than half a page. */
  const RECORD_MAX: nat := 628

  ghost predicate Short(ts: seq<string>) { forall k :: 0 <= k < |ts| ==> 0 < |ts[k]| <= RECORD_MAX }

  ghost predicate Fitting(table: seq<Counter>) {
    PrintableTable(table) && forall r: Record {:trigger RecordText(table, r)} :: |r| == |table| ==>
      0 < |RecordText(table, r)| <= RECORD_MAX
  }

  /** Records the drain loop takes when `limit` characters are left: it goes on while more than half a page is left. */
  function DrainCount(ts: seq<string>, limit: nat): (k: nat)
    ensures k <= |ts|
    decreases |ts|
  {
    if limit > PAGE_SIZE / 2 && ts != [] then 1 + DrainCount(ts[1..], limit - Cut(|ts[0]|, limit)) else 0
  }

  /** The text the drain loop leaves. */
  function DrainText(ts: seq<string>, limit: nat): string { Concat(ts[..DrainCount(ts, limit)]) }

  lemma DrainStep(ts: seq<string>, limit: nat)
    requires Short(ts) && ts != [] && limit > PAGE_SIZE / 2
    ensures |ts[0]| < limit && Cut(|ts[0]|, limit) == |ts[0]|
    ensures DrainCount(ts, limit) == 1 + DrainCount(ts[1..], limit - |ts[0]|)
    ensures DrainText(ts, limit) == ts[0] + DrainText(ts[1..], limit - |ts[0]|)
  {
    var k := DrainCount(ts[1..], limit - |ts[0]|);
    assert ts[..1 + k][1..] == ts[1..][..k];
  }

  /** A read never truncates and never fills the page; it stops short of half a page only on an empty ring. */
  lemma {:induction false} DrainBounds(ts: seq<string>, limit: nat)
    requires Short(ts) && 0 < limit <= PAGE_SIZE
    ensures |DrainText(ts, limit)| < limit
    ensures limit - |DrainText(ts, limit)| > PAGE_SIZE / 2 ==> DrainCount(ts, limit) == |ts|
    ensures |DrainText(ts, limit)| <= RECORD_MAX * DrainCount(ts, limit)
    decreases |ts|
  {
    if limit > PAGE_SIZE / 2 && ts != [] {
      DrainStep(ts, limit);
      DrainBounds(ts[1..], limit - |ts[0]|);
    }
  }

  /** The last record taken was needed: without it more than half a page would be left. */
  lemma {:induction false} LastIsNeeded(ts: seq<string>, limit: nat)
    requires Short(ts) && 0 < limit <= PAGE_SIZE && DrainCount(ts, limit) > 0
    ensures limit - |DrainText(ts, limit)| + |ts[DrainCount(ts, limit) - 1]| > PAGE_SIZE / 2
    decreases |ts|
  {
    DrainStep(ts, limit);
    var rest := limit - |ts[0]|;
    if DrainCount(ts[1..], rest) > 0 {
      LastIsNeeded(ts[1..], rest);
    } else {
      assert ts[1..][..0] == [];
    }
  }

  /** The half-page rule: k of the texts, in n characters, is as few as leave no more than half a page, or all of them;
      and at least four if there are as many. */
  ghost predicate HalfPage(ts: seq<string>, k: nat, n: nat) {
    k <= |ts| && n < 4096 && (n < 2048 ==> k == |ts|) && (k > 0 ==> n - |ts[k - 1]| < 2048) && (k >= 4 || k == |ts|)
  }

  /** One read on a whole page takes records by that rule. */
  lemma ReadTakes(ts: seq<string>)
    requires Short(ts)
    ensures HalfPage(ts, DrainCount(ts, PAGE_SIZE), |DrainText(ts, PAGE_SIZE)|)
  {
    DrainBounds(ts, PAGE_SIZE);
    if DrainCount(ts, PAGE_SIZE) > 0 {
      LastIsNeeded(ts, PAGE_SIZE);
    }
  }

  /** What is left in the ring after n reads with nothing published in between. */
  function AfterReads(ts: seq<string>, n: nat): seq<string> {
    if n == 0 then ts else AfterReads(ts[DrainCount(ts, PAGE_SIZE)..], n - 1)
  }

  /** Sixty-four reads empty any ring of 256 records. */
  lemma {:induction false} ReadsDrain(ts: seq<string>, n: nat)
    requires Short(ts) && |ts| <= 4 * n
    ensures AfterReads(ts, n) == []
  {
    if n > 0 {
      ReadTakes(ts);
      ReadsDrain(ts[DrainCount(ts, PAGE_SIZE)..], n - 1);
    }
  }

  lemma PrefixTexts(table: seq<Counter>, recs: seq<Record>, k: nat)
    requires OfTable(table, recs) && k <= |recs|
    ensures OfTable(table, recs[..k]) && RecordTexts(table, recs)[..k] == RecordTexts(table, recs[..k])
  {
    forall r | r in recs[..k]
      ensures r in recs
    {
    }
  }

  /** What one read prints, read back, is what the records it took show: none lost, added, torn or out of order. */
  lemma DrainedReadBack(table: seq<Counter>, recs: seq<Record>)
    requires OfTable(table, recs) && PrintableTable(table)
    ensures var texts := RecordTexts(table, recs); var k := DrainCount(texts, PAGE_SIZE);
            OfTable(table, recs[..k]) &&
            ReadBack(DrainText(texts, PAGE_SIZE)) == Ok(VisibleAll(table, recs[..k]), |DrainText(texts, PAGE_SIZE)|)
  {
    var k := DrainCount(RecordTexts(table, recs), PAGE_SIZE);
    PrefixTexts(table, recs, k);
    ReadBackRecovers(table, recs[..k]);
  }
}
