/**
 What a node's texts say, counter by counter: the names of the sixteen counters in order, each with the value that its
 word of the record stands for. Nothing here goes through the printer's own account of what a record shows.
 */
module NodeText {
  import opened Words
  import opened Json
  import opened Printer
  import opened StatRead
  import opened Drain
  import opened NodeCounters
  import opened RingBuffer
  import opened IpmiPacking
  import opened XstatNode
  import Temperature

  /** Byte k of a word, the lowest first. */
  function ByteOf(w: nat, k: nat): nat { w / Pow256(k) % 256 }

  /** Field number `at + k` shows (byte + base) * mul for sensor k of a group, under its name. */
  predicate SensorStands(fs: seq<Field>, at: nat, sensors: seq<Sensor>, w: nat, k: nat)
    requires at + |sensors| <= |fs| && k < |sensors|
  {
    fs[at + k].name == sensors[k].name && fs[at + k].value == (ByteOf(w, k) + sensors[k].base) * sensors[k].mul
  }

  ghost predicate ShowsSensors(fs: seq<Field>, at: nat, sensors: seq<Sensor>, w: nat) {
    at + |sensors| <= |fs| && forall k: nat :: k < |sensors| ==> SensorStands(fs, at, sensors, w, k)
  }

  /** The thirty-two fields that a node's record stands for. */
  ghost predicate ShowsRecord(fs: seq<Field>, rec: Record)
    requires |rec| == 16
  {
    |fs| == 32 &&
    fs[0] == Field("ts", rec[0]) && fs[1] == Field("intv", rec[1]) && fs[2] == Field("cyc", rec[2]) &&
    fs[3] == Field("inst", rec[3]) && fs[4] == Field("llcref", rec[4]) && fs[5] == Field("llcmiss", rec[5]) &&
    fs[6] == Field("br", rec[6]) && fs[7] == Field("brmiss", rec[7]) && fs[8] == Field("l2lin", rec[8]) &&
    fs[9] == Field("tpkg", Temperature.Printed(rec[9])) && fs[10] == Field("energy", rec[10]) &&
    fs[11] == Field("eunit", rec[11]) && fs[12] == Field("perflmt", rec[12]) &&
    ShowsSensors(fs, 13, GROUP_A, rec[13]) && ShowsSensors(fs, 20, GROUP_B, rec[14]) &&
    ShowsSensors(fs, 27, MISC, rec[15])
  }

  // ---- where each counter's fields stand ----

  lemma {:induction false} FlatAt(groups: seq<seq<Field>>, n: nat, k: nat, j: nat)
    requires k < n <= |groups| && j < |groups[k]|
    ensures |Flat(groups, k)| + j < |Flat(groups, n)| && Flat(groups, n)[|Flat(groups, k)| + j] == groups[k][j]
    decreases n
  {
    if k < n - 1 {
      FlatAt(groups, n - 1, k, j);
    } else {
      assert Flat(groups, n) == Flat(groups, k) + groups[k];
    }
  }

  lemma {:induction false} GroupIs(table: seq<Counter>, rec: Record, n: nat, k: nat)
    requires k < n <= |table| == |rec|
    ensures Groups(table, rec, n)[k] == Fields(table[k], rec[k])
  {
    if k < n - 1 {
      GroupIs(table, rec, n - 1, k);
    }
  }

  const FIRST_NAMES: seq<string> := ["ts", "intv", "cyc", "inst", "llcref", "llcmiss", "br", "brmiss", "l2lin"]

  const LATER_NAMES: seq<string> := ["energy", "eunit", "perflmt"]

  lemma NodeTable()
    ensures |NODE_COUNTERS| == 16 && |GROUP_A| == 7 && |GROUP_B| == 7 && |MISC| == 5
    ensures forall k :: 0 <= k < 9 ==> NODE_COUNTERS[k] == Plain(FIRST_NAMES[k])
    ensures NODE_COUNTERS[9] == Temp && forall k :: 10 <= k < 13 ==> NODE_COUNTERS[k] == Plain(LATER_NAMES[k - 10])
    ensures NODE_COUNTERS[13] == Ipmi(GROUP_A) && NODE_COUNTERS[14] == Ipmi(GROUP_B) && NODE_COUNTERS[15] == Ipmi(MISC)
  {
  }

  /** Fields before counter k. */
  function StartOf(k: nat): nat { if k <= 13 then k else if k == 14 then 20 else if k == 15 then 27 else 32 }

  lemma WidthOf(k: nat, w: uint64)
    requires k < 16
    ensures |NODE_COUNTERS| == 16 && |Fields(NODE_COUNTERS[k], w)| == StartOf(k + 1) - StartOf(k)
  {
    NodeTable();
  }

  lemma {:induction false} StartIs(groups: seq<seq<Field>>, k: nat)
    requires |groups| == 16 && k <= 16
    requires forall j :: 0 <= j < 16 ==> |groups[j]| == StartOf(j + 1) - StartOf(j)
    ensures |Flat(groups, k)| == StartOf(k)
  {
    if k > 0 {
      StartIs(groups, k - 1);
    }
  }

  /** Field j of counter k stands at its place. */
  lemma FieldStands(rec: Record, k: nat, j: nat)
    requires |rec| == 16 && k < 16 && StartOf(k) + j < StartOf(k + 1)
    ensures |NODE_COUNTERS| == 16 && |Visible(NODE_COUNTERS, rec)| == 32 && j < |Fields(NODE_COUNTERS[k], rec[k])|
    ensures Visible(NODE_COUNTERS, rec)[StartOf(k) + j] == Fields(NODE_COUNTERS[k], rec[k])[j]
  {
    NodeTable();
    var groups := Groups(NODE_COUNTERS, rec, 16);
    forall i | 0 <= i < 16
      ensures |groups[i]| == StartOf(i + 1) - StartOf(i)
    {
      GroupIs(NODE_COUNTERS, rec, 16, i);
      WidthOf(i, rec[i]);
    }
    GroupIs(NODE_COUNTERS, rec, 16, k);
    StartIs(groups, 16);
    StartIs(groups, k);
    FlatAt(groups, 16, k, j);
  }

  // ---- what they are ----

  lemma Regrouped(p: nat, a: nat, b: nat)
    ensures p * (256 * a + b) == (256 * p) * a + p * b
  {
  }

  lemma Fits(p: nat, b: nat, c: nat)
    requires b < 256 && c < p
    ensures p * b + c < 256 * p
  {
    assert p * b <= p * 255;
  }

  lemma QuotientOf(w: nat, p: nat, q: nat, c: nat, a: nat, b: nat, m: nat)
    requires w == p * q + c && c < p && q == 256 * a + b && b < 256 && m == 256 * p
    ensures w / m == a
  {
    Regrouped(p, a, b);
    Fits(p, b, c);
    QuotientIs(m, a, p * b + c);
  }

  lemma DivTwice(w: nat, p: nat)
    requires p > 0
    ensures w / p / 256 == w / (256 * p)
  {
    QuotientOf(w, p, w / p, w % p, w / p / 256, w / p % 256, 256 * p);
  }

  lemma QuotientIs(m: nat, q: nat, r: nat)
    requires r < m
    ensures (m * q + r) / m == q
  {
    var x := m * q + r;
    assert x == m * (x / m) + x % m;
    assert m * (q - x / m) == x % m - r;
    if q != x / m {
      Far(m, q - x / m);
    }
  }

  lemma Far(m: nat, d: int)
    requires m > 0 && d != 0
    ensures m * d >= m || m * d <= -(m as int)
  {
    if d > 0 {
      assert m * (d - 1) >= 0;
    } else {
      assert m * (-d - 1) >= 0;
    }
  }

  lemma {:induction false} ShiftedIs(w: nat, k: nat)
    ensures Shifted(w, k) == w / Pow256(k)
  {
    if k > 0 {
      ShiftedIs(w, k - 1);
      DivTwice(w, Pow256(k - 1));
    }
  }

  /** A sensor's field, by the byte of the word. */
  lemma SensorShows(sensors: seq<Sensor>, w: uint64, k: nat)
    requires k < |sensors|
    ensures var f, x := SensorFields(sensors, w, |sensors|)[k], sensors[k];
            f.name == x.name && f.value == (ByteOf(w, k) + x.base) * x.mul
  {
    SensorFieldAt(sensors, w, |sensors|, k);
    ShiftedIs(w, k);
  }

  lemma GroupShows(rec: Record, k: nat, at: nat, sensors: seq<Sensor>)
    requires |rec| == 16 && 13 <= k < 16 && |NODE_COUNTERS| == 16 && NODE_COUNTERS[k] == Ipmi(sensors)
    requires at == StartOf(k) && |sensors| == StartOf(k + 1) - at
    ensures |Visible(NODE_COUNTERS, rec)| == 32
    ensures ShowsSensors(Visible(NODE_COUNTERS, rec), at, sensors, rec[k])
  {
    FieldStands(rec, k, 0);
    assert at + |sensors| <= 32;
    forall j: nat | j < |sensors|
      ensures SensorStands(Visible(NODE_COUNTERS, rec), at, sensors, rec[k], j)
    {
      FieldStands(rec, k, j);
      SensorShows(sensors, rec[k], j);
    }
  }

  lemma PlainShows(rec: Record, k: nat, name: string)
    requires |rec| == 16 && k < 13 && |NODE_COUNTERS| == 16 && NODE_COUNTERS[k] == Plain(name)
    ensures |Visible(NODE_COUNTERS, rec)| == 32 && Visible(NODE_COUNTERS, rec)[k] == Field(name, rec[k])
  {
    FieldStands(rec, k, 0);
  }

  lemma TempShows(rec: Record)
    requires |rec| == 16
    ensures |NODE_COUNTERS| == 16 && |Visible(NODE_COUNTERS, rec)| == 32
    ensures Visible(NODE_COUNTERS, rec)[9] == Field("tpkg", Temperature.Printed(rec[9]))
  {
    NodeTable();
    FieldStands(rec, 9, 0);
  }

  lemma PlainsShow(rec: Record)
    requires |rec| == 16
    ensures |NODE_COUNTERS| == 16 && |Visible(NODE_COUNTERS, rec)| == 32
    ensures forall k :: 0 <= k < 9 ==> Visible(NODE_COUNTERS, rec)[k] == Field(FIRST_NAMES[k], rec[k])
    ensures forall k :: 10 <= k < 13 ==> Visible(NODE_COUNTERS, rec)[k] == Field(LATER_NAMES[k - 10], rec[k])
  {
    NodeTable();
    TempShows(rec);
    forall k | 0 <= k < 9
      ensures Visible(NODE_COUNTERS, rec)[k] == Field(FIRST_NAMES[k], rec[k])
    {
      PlainShows(rec, k, FIRST_NAMES[k]);
    }
    forall k | 10 <= k < 13
      ensures Visible(NODE_COUNTERS, rec)[k] == Field(LATER_NAMES[k - 10], rec[k])
    {
      PlainShows(rec, k, LATER_NAMES[k - 10]);
    }
  }

  lemma SensorsShow(rec: Record)
    requires |rec| == 16
    ensures |NODE_COUNTERS| == 16
    ensures ShowsSensors(Visible(NODE_COUNTERS, rec), 13, GROUP_A, rec[13])
    ensures ShowsSensors(Visible(NODE_COUNTERS, rec), 20, GROUP_B, rec[14])
    ensures ShowsSensors(Visible(NODE_COUNTERS, rec), 27, MISC, rec[15])
  {
    NodeTable();
    GroupShows(rec, 13, 13, GROUP_A);
    GroupShows(rec, 14, 20, GROUP_B);
    GroupShows(rec, 15, 27, MISC);
  }

  lemma NamesAre()
    ensures FIRST_NAMES[0] == "ts" && FIRST_NAMES[1] == "intv" && FIRST_NAMES[2] == "cyc" && FIRST_NAMES[3] == "inst"
    ensures FIRST_NAMES[4] == "llcref" && FIRST_NAMES[5] == "llcmiss" && FIRST_NAMES[6] == "br"
    ensures FIRST_NAMES[7] == "brmiss" && FIRST_NAMES[8] == "l2lin"
    ensures LATER_NAMES[0] == "energy" && LATER_NAMES[1] == "eunit" && LATER_NAMES[2] == "perflmt"
  {
  }

  lemma AllShown(fs: seq<Field>, rec: Record)
    requires |rec| == 16 && |fs| == 32
    requires forall k :: 0 <= k < 9 ==> fs[k] == Field(FIRST_NAMES[k], rec[k])
    requires forall k :: 10 <= k < 13 ==> fs[k] == Field(LATER_NAMES[k - 10], rec[k])
    requires fs[9] == Field("tpkg", Temperature.Printed(rec[9]))
    requires ShowsSensors(fs, 13, GROUP_A, rec[13]) && ShowsSensors(fs, 20, GROUP_B, rec[14])
    requires ShowsSensors(fs, 27, MISC, rec[15])
    ensures ShowsRecord(fs, rec)
  {
    NamesAre();
  }

  lemma VisibleShows(rec: Record)
    requires |rec| == 16
    ensures |NODE_COUNTERS| == 16 && ShowsRecord(Visible(NODE_COUNTERS, rec), rec)
  {
    PlainsShow(rec);
    TempShows(rec);
    SensorsShow(rec);
    AllShown(Visible(NODE_COUNTERS, rec), rec);
  }

  // ---- the texts ----

  lemma PageValues(table: seq<Counter>, before: seq<Record>, after: seq<Record>, page: string)
    requires OfTable(table, before) && PageTakes(table, before, after, page)
    ensures var r := ReadBack(page);
            r.Ok? && |r.value| == |before| - |after| &&
            forall j :: 0 <= j < |r.value| ==> r.value[j] == Visible(table, before[j])
  {
  }

  /** The text of any record of the node, read back: one object with exactly the fields the record stands for. */
  lemma RecordReadsBack(rec: Record)
    requires |rec| == 16
    ensures |NODE_COUNTERS| == 16
    ensures var r := ReadBack(RecordText(NODE_COUNTERS, rec));
            r.Ok? && |r.value| == 1 && ShowsRecord(r.value[0], rec)
  {
    TableIsPrintable();
    TextReadsBack(NODE_COUNTERS, rec);
    VisibleShows(rec);
  }

  /** A page of `stat`, read back: for every record taken, in order, exactly the fields it stands for. */
  lemma PageReadsBack(table: seq<Counter>, before: seq<Record>, after: seq<Record>, page: string)
    requires table == NODE_COUNTERS && OfTable(table, before) && PageTakes(table, before, after, page)
    ensures var r := ReadBack(page);
            r.Ok? && |r.value| == |before| - |after| &&
            forall j :: 0 <= j < |r.value| ==> |before[j]| == 16 && ShowsRecord(r.value[j], before[j])
  {
    PageValues(table, before, after, page);
    var r := ReadBack(page);
    forall j | 0 <= j < |before| - |after|
      ensures |before[j]| == 16 && ShowsRecord(r.value[j], before[j])
    {
      TableIsPrintable();
      assert before[j] in before;
      VisibleShows(before[j]);
    }
  }

  // ---- a node's attributes ----

  /** A read of `stat` of a node with the default counters. */
  method StatOfNode(node: Node, buf: array<char>) returns (page: string)
    requires node.Valid() && node.table == NODE_COUNTERS && buf.Length == PAGE_SIZE
    modifies node`bufferSize, node`bufferBase, node`ring, buf
    ensures node.Valid() && |page| < PAGE_SIZE
    ensures var k := |old(node.Contents())| - |node.Contents()|;
            k >= 0 && node.Contents() == old(node.Contents())[k..] &&
            var r := ReadBack(page);
            r.Ok? && |r.value| == k &&
            forall j :: 0 <= j < k ==>
              |old(node.Contents())[j]| == 16 && ShowsRecord(r.value[j], old(node.Contents())[j])
  {
    ghost var before := node.Contents();
    page := node.ReadPage(buf);
    PageReadsBack(node.table, before, node.Contents(), page);
  }

  /** A read of `last` of such a node. */
  method LastOfNode(node: Node, buf: array<char>) returns (text: string)
    requires node.Valid() && node.table == NODE_COUNTERS && buf.Length == PAGE_SIZE
    modifies buf
    ensures |LastSlot(node.ring)| == 16
    ensures var r := ReadBack(text); r.Ok? && |r.value| == 1 && ShowsRecord(r.value[0], LastSlot(node.ring))
  {
    var count := node.ShowLast(buf);
    text := buf[..count];
    RecordReadsBack(LastSlot(node.ring));
  }
}
