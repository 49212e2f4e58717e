/** The counters of an xstat node, in order, in the default configuration (IPMI on, Chameleon sensors). */
module NodeCounters {
  import opened Words
  import opened Decimal
  import opened Json
  import opened Printer
  import opened StatRead
  import opened Drain

  const XSTAT_NCNT: nat := 16
  const XSTAT_NBUF: nat := 256

  // Positions of the counters that keep state between passes.
  const TS: nat := 0
  const INTV: nat := 1
  const FIRST_PERF: nat := 2
  const LAST_PERF: nat := 8
  const ENERGY: nat := 10
  const FIRST_IPMI: nat := 13

  const GROUP_A: seq<Sensor> := [
    Sensor("Fan1A", 48, 120, 0), Sensor("Fan2A", 50, 120, 0), Sensor("Fan3A", 52, 120, 0), Sensor("Fan4A", 54, 120, 0),
    Sensor("Fan5A", 56, 120, 0), Sensor("Fan6A", 58, 120, 0), Sensor("Fan7A", 60, 120, 0)]

  const GROUP_B: seq<Sensor> := [
    Sensor("Fan1B", 49, 120, 0), Sensor("Fan2B", 51, 120, 0), Sensor("Fan3B", 53, 120, 0), Sensor("Fan4B", 55, 120, 0),
    Sensor("Fan5B", 57, 120, 0), Sensor("Fan6B", 58, 120, 0), Sensor("Fan7B", 61, 120, 0)]

  const MISC: seq<Sensor> := [
    Sensor("tinlet", 4, 1, -128), Sensor("toutlet", 1, 1, -128), Sensor("tp0", 14, 1, -128), Sensor("tp1", 15, 1, -128),
    Sensor("totpwr", 119, 14, 0)]

  const FIRST_HALF: seq<Counter> := [
    Plain("ts"), Plain("intv"), Plain("cyc"), Plain("inst"),
    Plain("llcref"), Plain("llcmiss"), Plain("br"), Plain("brmiss")]

  const SECOND_HALF: seq<Counter> := [Plain("l2lin"), Temp, Plain("energy"), Plain("eunit"), Plain("perflmt")]

  const GROUPS: seq<Counter> := [Ipmi(GROUP_A), Ipmi(GROUP_B), Ipmi(MISC)]

  const NODE_COUNTERS: seq<Counter> := FIRST_HALF + SECOND_HALF + GROUPS

  lemma {:induction false} ShortName(s: string)
    requires forall k :: 0 <= k < |s| ==> Unescaped(s[k])
    ensures IsName(s)
  {
    if s != "" {
      ShortName(s[1..]);
    }
  }

  lemma SensorNames()
    ensures PrintableSensors(GROUP_A) && PrintableSensors(GROUP_B) && PrintableSensors(MISC)
  {
    forall x | x in GROUP_A + GROUP_B + MISC
      ensures IsName(x.name)
    {
      ShortName(x.name);
    }
  }

  lemma FirstHalfIsPrintable()
    ensures forall c :: c in FIRST_HALF ==> Printable(c)
  {
    forall c | c in FIRST_HALF
      ensures Printable(c)
    {
      ShortName(c.name);
    }
  }

  lemma SecondHalfIsPrintable()
    ensures forall c :: c in SECOND_HALF ==> Printable(c)
  {
    forall c | c in SECOND_HALF && c.Plain?
      ensures Printable(c)
    {
      ShortName(c.name);
    }
  }

  lemma TableIsPrintable()
    ensures |NODE_COUNTERS| == XSTAT_NCNT && PrintableTable(NODE_COUNTERS)
  {
    FirstHalfIsPrintable();
    SecondHalfIsPrintable();
    SensorNames();
  }

  // ---- how long a record can get ----

  /** Most characters the value of a sensor takes: five. */
  predicate SensorFits(x: Sensor) { |x.name| <= 7 && -999 <= x.base * x.mul && (255 + x.base) * x.mul <= 99999 }

  function SensorsBound(sensors: seq<Sensor>, n: nat): nat
    requires n <= |sensors|
  {
    if n == 0 then 0 else SensorsBound(sensors, n - 1) + |sensors[n - 1].name| + 9
  }

  function Bound(c: Counter): nat {
    match c
    case Plain(name) => |name| + 23
    case Temp => 10
    case Ipmi(sensors) => SensorsBound(sensors, |sensors|)
  }

  predicate Fits(c: Counter) { c.Ipmi? ==> forall x :: x in c.sensors ==> SensorFits(x) }

  lemma Pow10Values()
    ensures Pow10(2) == 100 && Pow10(3) == 1000 && Pow10(4) == 10000 && Pow10(5) == 100000 &&
            Pow10(20) == 100000000000000000000
  {
    assert Pow10(5) == 100000;
    assert Pow10(10) == 100000 * Pow10(5);
    assert Pow10(15) == 100000 * Pow10(10);
    assert Pow10(20) == 100000 * Pow10(15);
  }

  lemma FieldTextLength(f: Field, k: nat)
    requires 1 <= k && -(Pow10(k - 1) as int) < f.value < Pow10(k)
    ensures |FieldText(f)| <= |f.name| + 3 + k
  {
    if f.value < 0 {
      assert k >= 2;
      DecLength(-f.value, k - 1);
    } else {
      DecLength(f.value, k);
    }
  }

  lemma SensorTextLength(x: Sensor, raw: byte)
    requires SensorFits(x)
    ensures |FieldText(SensorField(x, raw))| <= |x.name| + 8
  {
    var v := (raw + x.base) * x.mul;
    assert v == x.base * x.mul + raw * x.mul == (255 + x.base) * x.mul - (255 - raw) * x.mul;
    assert raw * x.mul >= 0 && (255 - raw) * x.mul >= 0;
    Pow10Values();
    FieldTextLength(SensorField(x, raw), 5);
  }

  lemma {:induction false} SensorsTextLength(sensors: seq<Sensor>, data: uint64, n: nat)
    requires n <= |sensors| && forall x :: x in sensors ==> SensorFits(x)
    ensures |FieldsText(SensorFields(sensors, data, n))| <= SensorsBound(sensors, n)
  {
    if n > 0 {
      SensorsTextLength(sensors, data, n - 1);
      var raw := Shifted(data, n - 1) % 256;
      var f := SensorField(sensors[n - 1], raw);
      FieldsTextExtend(SensorFields(sensors, data, n - 1), [f]);
      SingleFieldText(f);
      assert sensors[n - 1] in sensors;
      SensorTextLength(sensors[n - 1], raw);
    }
  }

  lemma CounterTextLength(c: Counter, data: uint64)
    requires Fits(c)
    ensures |FieldsText(Fields(c, data))| <= Bound(c)
  {
    Pow10Values();
    match c {
      case Plain(name) =>
        FieldTextLength(Field(name, data), 20);
        SingleFieldText(Field(name, data));
      case Temp =>
        FieldTextLength(Field("tpkg", data % 256), 3);
        SingleFieldText(Field("tpkg", data % 256));
      case Ipmi(sensors) =>
        SensorsTextLength(sensors, data, |sensors|);
    }
  }

  function TableBound(table: seq<Counter>, n: nat): nat
    requires n <= |table|
  {
    if n == 0 then 1 else TableBound(table, n - 1) + Bound(table[n - 1]) + 1
  }

  lemma {:induction false} PartialTextLength(groups: seq<seq<Field>>, table: seq<Counter>, n: nat)
    requires n <= |table| == |groups| && forall k :: 0 <= k < n ==> |FieldsText(groups[k])| <= Bound(table[k])
    ensures |PartialText(groups, n)| <= TableBound(table, n)
  {
    if n > 0 {
      PartialTextLength(groups, table, n - 1);
      assert |FieldsText(groups[n - 1])| <= Bound(table[n - 1]);
    }
  }

  lemma NodeTableBound()
    ensures TableBound(NODE_COUNTERS, XSTAT_NCNT) == 626
  {
    var t := NODE_COUNTERS;
    assert SensorsBound(GROUP_A, 7) == 98 by {
      assert SensorsBound(GROUP_A, 4) == 56;
    }
    assert SensorsBound(GROUP_B, 7) == 98 by {
      assert SensorsBound(GROUP_B, 4) == 56;
    }
    assert SensorsBound(MISC, 5) == 70 by {
      assert SensorsBound(MISC, 3) == 43;
    }
    assert TableBound(t, 1) == 27;
    assert TableBound(t, 2) == 55;
    assert TableBound(t, 4) == 110;
    assert TableBound(t, 6) == 171;
    assert TableBound(t, 8) == 227;
    assert TableBound(t, 10) == 267;
    assert TableBound(t, 12) == 326;
    assert TableBound(t, 14) == 456;
  }

  /** Every record renders within 628 characters, well under half a page. */
  lemma RecordLength(rec: Record)
    requires |rec| == XSTAT_NCNT
    ensures |NODE_COUNTERS| == XSTAT_NCNT && 0 < |RecordText(NODE_COUNTERS, rec)| <= RECORD_MAX
  {
    TableIsPrintable();
    var groups := Groups(NODE_COUNTERS, rec, XSTAT_NCNT);
    forall k | 0 <= k < XSTAT_NCNT
      ensures |FieldsText(groups[k])| <= Bound(NODE_COUNTERS[k])
    {
      SensorsFit();
      GroupAt(NODE_COUNTERS, rec, XSTAT_NCNT, k);
      CounterTextLength(NODE_COUNTERS[k], rec[k]);
    }
    PartialTextLength(groups, NODE_COUNTERS, XSTAT_NCNT);
    NodeTableBound();
    ClosingText(NODE_COUNTERS, rec);
  }

  lemma SensorsFit()
    ensures forall x :: x in GROUP_A || x in GROUP_B || x in MISC ==> SensorFits(x)
  {
  }

  /** The node's table meets what the drain loop needs of it. */
  lemma NodeTableFits()
    ensures |NODE_COUNTERS| == XSTAT_NCNT && Fitting(NODE_COUNTERS)
  {
    TableIsPrintable();
    forall r: Record | |r| == XSTAT_NCNT
      ensures 0 < |RecordText(NODE_COUNTERS, r)| <= RECORD_MAX
    {
      RecordLength(r);
    }
  }
}
