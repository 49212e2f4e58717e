/** The bounded printers: `scnprintf`, and the loops that print one record through it. */
module Printer {
  import opened Words
  import opened Decimal
  import opened Json

  /** A sensor of an IPMI group: name, sensor number, multiplier and offset of its raw byte. */
  datatype Sensor = Sensor(name: string, number: byte, mul: byte, base: int)

  /** How a counter prints: `"name":%llu`, the package temperature, or a group of packed sensor bytes. */
  datatype Counter = Plain(name: string) | Temp | Ipmi(sensors: seq<Sensor>)

  type Record = seq<uint64>

  /** One visible member of a printed record. */
  datatype Field = Field(name: string, value: int)

  predicate PrintableSensors(sensors: seq<Sensor>) { |sensors| > 0 && forall x :: x in sensors ==> IsName(x.name) }

  predicate Printable(c: Counter) {
    match c
    case Plain(name) => IsName(name)
    case Temp => true
    case Ipmi(sensors) => PrintableSensors(sensors)
  }

  predicate PrintableTable(table: seq<Counter>) { |table| > 0 && forall c :: c in table ==> Printable(c) }

  // ---- what a record shows ----

  /** The word after `n` times `data >>= 8`. */
  function Shifted(data: nat, n: nat): nat { if n == 0 then data else Shifted(data, n - 1) / 256 }

  function SensorField(x: Sensor, raw: byte): Field { Field(x.name, (raw + x.base) * x.mul) }

  function SensorFields(sensors: seq<Sensor>, data: uint64, n: nat): (fs: seq<Field>)
    requires n <= |sensors|
    ensures |fs| == n
  {
    if n == 0 then [] else
      SensorFields(sensors, data, n - 1) + [SensorField(sensors[n - 1], Shifted(data, n - 1) % 256)]
  }

  function Fields(c: Counter, data: uint64): seq<Field> {
    match c
    case Plain(name) => [Field(name, data)]
    case Temp => [Field("tpkg", data % 256)]
    case Ipmi(sensors) => SensorFields(sensors, data, |sensors|)
  }

  /** What the first n counters of a record show, counter by counter. */
  function Groups(table: seq<Counter>, rec: Record, n: nat): (gs: seq<seq<Field>>)
    requires n <= |table| == |rec|
    ensures |gs| == n
  {
    if n == 0 then [] else Groups(table, rec, n - 1) + [Fields(table[n - 1], rec[n - 1])]
  }

  /** The first n groups in one list. */
  function Flat(groups: seq<seq<Field>>, n: nat): seq<Field>
    requires n <= |groups|
  {
    if n == 0 then [] else Flat(groups, n - 1) + groups[n - 1]
  }

  /** Everything a record shows. */
  function Visible(table: seq<Counter>, rec: Record): seq<Field>
    requires |table| == |rec|
  {
    Flat(Groups(table, rec, |table|), |table|)
  }

  function FieldText(f: Field): string { "\"" + f.name + "\":" + DecInt(f.value) }

  function Texts(fs: seq<Field>): (ts: seq<string>)
    ensures |ts| == |fs|
  {
    if fs == [] then [] else [FieldText(fs[0])] + Texts(fs[1..])
  }

  function Join(ts: seq<string>): string {
    if ts == [] then "" else if |ts| == 1 then ts[0] else ts[0] + "," + Join(ts[1..])
  }

  function FieldsText(fs: seq<Field>): string { Join(Texts(fs)) }

  /** The unbounded rendering of a record. */
  function RecordText(table: seq<Counter>, rec: Record): string
    requires |table| == |rec|
  {
    "{" + FieldsText(Visible(table, rec)) + "}\n"
  }

  lemma Assoc(a: string, b: string, c: string)
    ensures (a + b) + c == a + (b + c)
  {
  }

  lemma Regroup(a: string, b: string, c: string, d: string)
    ensures ((a + b) + c) + d == a + ((b + c) + d)
  {
  }

  lemma SingleFieldText(f: Field)
    ensures FieldsText([f]) == FieldText(f)
  {
  }

  lemma VisibleOfTwo(c: Counter, d: Counter, u: uint64, v: uint64)
    ensures Visible([c, d], [u, v]) == Fields(c, u) + Fields(d, v)
  {
    var groups := Groups([c, d], [u, v], 2);
    assert Groups([c, d], [u, v], 1) == [Fields(c, u)];
    assert Flat(groups, 1) == Fields(c, u);
  }

  lemma TextOfFields(f: Field, g: Field)
    ensures FieldsText([f] + [g]) == FieldText(f) + "," + FieldText(g)
  {
    TextsAppend([f], [g]);
    JoinAppend(Texts([f]), Texts([g]));
    SingleFieldText(f);
    SingleFieldText(g);
  }

  /** The text of a record of two plain counters, in full. */
  lemma TextOfTwo(x: string, y: string, u: uint64, v: uint64)
    ensures RecordText([Plain(x), Plain(y)], [u, v]) ==
            "{" + (("\"" + x + "\":" + Dec(u)) + "," + ("\"" + y + "\":" + Dec(v))) + "}\n"
  {
    VisibleOfTwo(Plain(x), Plain(y), u, v);
    TextOfFields(Field(x, u), Field(y, v));
  }

  lemma {:induction false} JoinAppend(a: seq<string>, b: seq<string>)
    requires a != [] && b != []
    ensures Join(a + b) == Join(a) + "," + Join(b)
  {
    if |a| == 1 {
      assert (a + b)[1..] == b;
    } else {
      assert (a + b)[1..] == a[1..] + b;
      JoinAppend(a[1..], b);
      Assoc(a[0] + ",", Join(a[1..]), "," + Join(b));
      Assoc(Join(a[1..]), ",", Join(b));
      Assoc(Join(a), ",", Join(b));
    }
  }

  lemma {:induction false} TextsAppend(a: seq<Field>, b: seq<Field>)
    ensures Texts(a + b) == Texts(a) + Texts(b)
  {
    if a == [] {
      assert a + b == b;
    } else {
      assert (a + b)[1..] == a[1..] + b;
      TextsAppend(a[1..], b);
    }
  }

  lemma FieldsTextAppend(a: seq<Field>, b: seq<Field>)
    requires a != [] && b != []
    ensures FieldsText(a + b) == FieldsText(a) + "," + FieldsText(b)
  {
    TextsAppend(a, b);
    JoinAppend(Texts(a), Texts(b));
  }

  // ---- bounded writing ----

  /** Characters that `scnprintf` writes and reports, its terminator aside, for a text of length n. */
  function Cut(n: nat, limit: nat): nat { if limit == 0 then 0 else Min(n, limit - 1) }

  /** A buffer after t was written at `off` under `limit`, character by character, and terminated. */
  function Write(s: seq<char>, off: nat, limit: nat, t: string): (r: seq<char>)
    requires off + limit <= |s|
    ensures |r| == |s|
    decreases |t|
  {
    if limit == 0 then s
    else if limit == 1 || t == "" then s[off := '\0']
    else Write(s[off := t[0]], off + 1, limit - 1, t[1..])
  }

  /** What a bounded write of t leaves: the prefix that fits under `limit`, which is `ret` characters, a terminator, and
      everything else untouched. */
  ghost predicate WritesPrefix(before: seq<char>, after: seq<char>, off: nat, limit: nat, t: string, ret: nat) {
    |after| == |before| && off + limit <= |before| &&
    ret == (if limit == 0 then 0 else if |t| < limit then |t| else limit - 1) &&
    after[..off] == before[..off] && after[off..off + ret] == t[..ret] &&
    if limit == 0 then after == before else
      after[off + ret] == '\0' && after[off + ret + 1..] == before[off + ret + 1..]
  }

  lemma {:induction false} WriteMeaning(s: seq<char>, off: nat, limit: nat, t: string)
    requires off + limit <= |s|
    ensures WritesPrefix(s, Write(s, off, limit, t), off, limit, t, Cut(|t|, limit))
    decreases |t|
  {
    if limit > 1 && t != "" {
      var r, n := Write(s, off, limit, t), Cut(|t|, limit);
      WriteMeaning(s[off := t[0]], off + 1, limit - 1, t[1..]);
      assert r[..off + 1] == s[off := t[0]][..off + 1];
      assert r[off] == r[..off + 1][off] == t[0];
      assert r[..off] == r[..off + 1][..off];
      assert r[off..off + n] == [t[0]] + r[off + 1..off + n];
      assert t[..n] == [t[0]] + t[1..][..n - 1];
    }
  }

  lemma WriteIgnoresOldChar(s: seq<char>, off: nat, limit: nat, t: string, c: char)
    requires off + limit <= |s| && limit > 0
    ensures Write(s[off := c], off, limit, t) == Write(s, off, limit, t)
  {
    assert s[off := c][off := '\0'] == s[off := '\0'];
    if t != "" {
      assert s[off := c][off := t[0]] == s[off := t[0]];
    }
  }

  /** Writing t and then u where t ended is writing t + u. */
  lemma {:induction false} WriteAppend(s: seq<char>, off: nat, limit: nat, t: string, u: string)
    requires off + limit <= |s|
    ensures Cut(|t + u|, limit) == Cut(|t|, limit) + Cut(|u|, limit - Cut(|t|, limit))
    ensures Write(Write(s, off, limit, t), off + Cut(|t|, limit), limit - Cut(|t|, limit), u) ==
            Write(s, off, limit, t + u)
    decreases |t|
  {
    if limit == 0 {
    } else if t == "" {
      assert t + u == u;
      WriteIgnoresOldChar(s, off, limit, u, '\0');
    } else if limit == 1 {
      assert s[off := '\0'][off := '\0'] == s[off := '\0'];
    } else {
      assert (t + u)[1..] == t[1..] + u;
      WriteAppend(s[off := t[0]], off + 1, limit - 1, t[1..], u);
    }
  }

  /** The kernel's scnprintf, for a text already formatted: never negative, never past limit - 1 characters. */
  method Scnprintf(buf: array<char>, off: nat, limit: nat, text: string) returns (ret: nat)
    requires off + limit <= buf.Length
    modifies buf
    ensures ret == Cut(|text|, limit) && buf[..] == Write(old(buf[..]), off, limit, text)
    ensures WritesPrefix(old(buf[..]), buf[..], off, limit, text, ret)
  {
    WriteMeaning(buf[..], off, limit, text);
    ret := Cut(|text|, limit);
    for i := 0 to ret
      invariant Write(buf[..], off + i, limit - i, text[i..]) == Write(old(buf[..]), off, limit, text)
    {
      ghost var was := buf[..];
      buf[off + i] := text[i];
      assert buf[..] == was[off + i := text[i]];
      assert text[i..][1..] == text[i + 1..];
    }
    if limit > 0 {
      ghost var was := buf[..];
      buf[off + ret] := '\0';
      assert buf[..] == was[off + ret := '\0'];
    }
  }

  /** What the buffer holds once `written` has been printed piece by piece; nothing is touched before the
      first piece. */
  ghost predicate Holds(buf: array<char>, before: seq<char>, off: nat, limit: nat, written: string)
    requires off + limit <= buf.Length == |before|
    reads buf
  {
    buf[..] == if written == "" then before else Write(before, off, limit, written)
  }

  /** The printers' recurring step: `ret = scnprintf(ptr, limit, ...); ptr += ret; limit -= ret;`. */
  method Emit(buf: array<char>, off: nat, ghost total: nat, ptr: nat, limit: nat, text: string,
              ghost before: seq<char>, ghost written: string)
    returns (ptr': nat, limit': nat)
    requires ptr + limit == off + total <= buf.Length == |before| && text != ""
    requires ptr == off + Cut(|written|, total)
    requires Holds(buf, before, off, total, written)
    modifies buf
    ensures ptr' + limit' == off + total && ptr' == off + Cut(|written + text|, total)
    ensures Holds(buf, before, off, total, written + text)
  {
    WriteAppend(before, off, total, written, text);
    assert written == "" ==> written + text == text;
    var ret := Scnprintf(buf, ptr, limit, text);
    ptr', limit' := ptr + ret, limit - ret;
  }

  // ---- the printers ----

  function Separator(n: nat): string { if n == 0 then "" else "," }

  /** Appending fields to a list of fields: a separator only between two of them. */
  lemma FieldsTextExtend(a: seq<Field>, b: seq<Field>)
    requires b != []
    ensures FieldsText(a + b) == (FieldsText(a) + Separator(|a|)) + FieldsText(b)
  {
    if a == [] {
      assert a + b == b;
    } else {
      FieldsTextAppend(a, b);
    }
  }

  /** A group of sensors: the low byte of `data` belongs to the first sensor. */
  method PrintSensors(buf: array<char>, off: nat, limit: nat, data: uint64, sensors: seq<Sensor>) returns (ret: nat)
    requires off + limit <= buf.Length && PrintableSensors(sensors)
    modifies buf
    ensures ret == Cut(|FieldsText(SensorFields(sensors, data, |sensors|))|, limit)
    ensures buf[..] == Write(old(buf[..]), off, limit, FieldsText(SensorFields(sensors, data, |sensors|)))
  {
    var ptr, left, word := off, limit, data as nat;
    for i := 0 to |sensors|
      invariant word == Shifted(data, i)
      invariant ptr + left == off + limit && ptr == off + Cut(|FieldsText(SensorFields(sensors, data, i))|, limit)
      invariant Holds(buf, old(buf[..]), off, limit, FieldsText(SensorFields(sensors, data, i)))
    {
      ghost var done := SensorFields(sensors, data, i);
      var f := SensorField(sensors[i], word % 256);
      word := word / 256;
      FieldsTextExtend(done, [f]);
      SingleFieldText(f);
      Assoc(FieldsText(done), Separator(i), FieldText(f));
      ptr, left := Emit(buf, off, limit, ptr, left, Separator(i) + FieldText(f), old(buf[..]), FieldsText(done));
    }
    ret := ptr - off;
  }

  /** What one counter writes. */
  method PrintCounter(buf: array<char>, off: nat, limit: nat, data: uint64, c: Counter) returns (ret: nat)
    requires off + limit <= buf.Length && Printable(c)
    modifies buf
    ensures ret == Cut(|FieldsText(Fields(c, data))|, limit)
    ensures buf[..] == Write(old(buf[..]), off, limit, FieldsText(Fields(c, data)))
  {
    match c {
      case Plain(name) =>
        SingleFieldText(Field(name, data));
        ret := Scnprintf(buf, off, limit, FieldText(Field(name, data)));
      case Temp =>
        SingleFieldText(Field("tpkg", data % 256));
        ret := Scnprintf(buf, off, limit, FieldText(Field("tpkg", data % 256)));
      case Ipmi(sensors) =>
        ret := PrintSensors(buf, off, limit, data, sensors);
    }
  }

  lemma {:induction false} GroupAt(table: seq<Counter>, rec: Record, n: nat, i: nat)
    requires i < n <= |table| == |rec| && PrintableTable(table)
    ensures Groups(table, rec, n)[i] == Fields(table[i], rec[i]) != []
  {
    if i < n - 1 {
      GroupAt(table, rec, n - 1, i);
    } else {
      assert Printable(table[i]);
    }
  }

  /** The text once the first n groups and their separators are out. */
  function PartialText(groups: seq<seq<Field>>, n: nat): string
    requires n <= |groups|
  {
    if n == 0 then "{" else
      PartialText(groups, n - 1) + FieldsText(groups[n - 1]) + if n < |groups| then "," else ""
  }

  /** The pieces the loop emits add up to one object over all fields. */
  lemma {:induction false} PartialTextMeaning(groups: seq<seq<Field>>, n: nat)
    requires 0 < n <= |groups| && forall k :: 0 <= k < n ==> groups[k] != []
    ensures Flat(groups, n) != []
    ensures PartialText(groups, n) == ("{" + FieldsText(Flat(groups, n))) + if n < |groups| then "," else ""
  {
    if n == 1 {
      assert Flat(groups, 1) == groups[0];
    } else {
      PartialTextMeaning(groups, n - 1);
      FieldsTextAppend(Flat(groups, n - 1), groups[n - 1]);
      Regroup("{", FieldsText(Flat(groups, n - 1)), ",", FieldsText(groups[n - 1]));
    }
  }

  lemma OpeningText(groups: seq<seq<Field>>)
    ensures "" + "{" == PartialText(groups, 0) != ""
  {
  }

  lemma ClosingText(table: seq<Counter>, rec: Record)
    requires |table| == |rec| && PrintableTable(table)
    ensures PartialText(Groups(table, rec, |table|), |table|) + "}\n" == RecordText(table, rec)
  {
    var groups := Groups(table, rec, |table|);
    forall k | 0 <= k < |table|
      ensures groups[k] != []
    {
      GroupAt(table, rec, |table|, k);
    }
    PartialTextMeaning(groups, |table|);
    var t := "{" + FieldsText(Flat(groups, |table|));
    assert t + "" == t;
  }

  /** One counter and the separator after it. */
  method PrintStep(buf: array<char>, off: nat, ghost total: nat, ptr: nat, limit: nat, c: Counter, data: uint64,
                   last: bool, ghost before: seq<char>, ghost soFar: string)
    returns (ptr': nat, limit': nat)
    requires ptr + limit == off + total <= buf.Length == |before| && Printable(c)
    requires soFar != "" && ptr == off + Cut(|soFar|, total) && Holds(buf, before, off, total, soFar)
    modifies buf
    ensures var text := soFar + FieldsText(Fields(c, data)) + if last then "" else ",";
            ptr' + limit' == off + total && ptr' == off + Cut(|text|, total) && Holds(buf, before, off, total, text)
  {
    ghost var text := FieldsText(Fields(c, data));
    WriteAppend(before, off, total, soFar, text);
    var r := PrintCounter(buf, ptr, limit, data, c);
    ptr', limit' := ptr + r, limit - r;
    if !last {
      ptr', limit' := Emit(buf, off, total, ptr', limit', ",", before, soFar + text);
    } else {
      assert (soFar + text) + "" == soFar + text;
    }
  }

  /** The opening brace and all counters. */
  method PrintCounters(buf: array<char>, off: nat, limit: nat, table: seq<Counter>, rec: Record,
                       ghost before: seq<char>, ghost groups: seq<seq<Field>>)
    returns (ptr: nat, left: nat)
    requires off + limit <= buf.Length && PrintableTable(table) && |table| == |rec|
    requires before == buf[..] && groups == Groups(table, rec, |table|)
    modifies buf
    ensures ptr + left == off + limit && ptr == off + Cut(|PartialText(groups, |table|)|, limit)
    ensures Holds(buf, before, off, limit, PartialText(groups, |table|))
  {
    OpeningText(groups);
    ptr, left := Emit(buf, off, limit, off, limit, "{", before, "");
    for i := 0 to |table|
      invariant ptr + left == off + limit && ptr == off + Cut(|PartialText(groups, i)|, limit)
      invariant PartialText(groups, i) != "" && Holds(buf, before, off, limit, PartialText(groups, i))
    {
      GroupAt(table, rec, |table|, i);
      ptr, left := PrintStep(buf, off, limit, ptr, left, table[i], rec[i], i == |table| - 1, before,
        PartialText(groups, i));
    }
  }

  /** One record: a prefix of its unbounded rendering, as long as the limit allows, and that many characters
      reported. */
  method PrintRecord(buf: array<char>, off: nat, limit: nat, table: seq<Counter>, rec: Record) returns (ret: nat)
    requires off + limit <= buf.Length && PrintableTable(table) && |table| == |rec|
    modifies buf
    ensures ret == Cut(|RecordText(table, rec)|, limit)
    ensures buf[..] == Write(old(buf[..]), off, limit, RecordText(table, rec))
    ensures WritesPrefix(old(buf[..]), buf[..], off, limit, RecordText(table, rec), ret)
  {
    ghost var before, groups := buf[..], Groups(table, rec, |table|);
    var ptr, left := PrintCounters(buf, off, limit, table, rec, before, groups);
    ClosingText(table, rec);
    ptr, left := Emit(buf, off, limit, ptr, left, "}\n", before, PartialText(groups, |table|));
    ret := ptr - off;
    WriteMeaning(before, off, limit, RecordText(table, rec));
  }
}
