/**
 What one read of a node's `stat` attribute contains: the text of the drained records, how many records
 one page holds, and how a consumer gets every visible value back.
 */
module StatRead {
  import opened Words
  import opened Decimal
  import opened Json
  import opened Printer

  const PAGE_SIZE: nat := 4096

  function RecordTexts(table: seq<Counter>, recs: seq<Record>): seq<string>
    requires OfTable(table, recs)
  {
    seq(|recs|, k requires 0 <= k < |recs| => RecordText(table, recs[k]))
  }

  function Concat(ts: seq<string>): string { if ts == [] then "" else ts[0] + Concat(ts[1..]) }

  lemma {:induction false} ConcatSnoc(ts: seq<string>, t: string)
    ensures Concat(ts + [t]) == Concat(ts) + t
  {
    if ts == [] {
      assert [t][1..] == [] && t + "" == t;
    } else {
      assert (ts + [t])[1..] == ts[1..] + [t];
      ConcatSnoc(ts[1..], t);
    }
  }

  /** The texts of the records, one after the other. */
  function StatText(table: seq<Counter>, recs: seq<Record>): string
    requires OfTable(table, recs)
  {
    Concat(RecordTexts(table, recs))
  }

  // ---- reading a text back ----

  function MemberOf(f: Field): Member { Member(f.name, DecInt(f.value)) }

  function MembersOf(fs: seq<Field>): Members
    requires fs != []
  {
    if |fs| == 1 then One(MemberOf(fs[0])) else More(MemberOf(fs[0]), MembersOf(fs[1..]))
  }

  /** The object a list of fields prints as. */
  function ObjectOf(fs: seq<Field>): Object { if fs == [] then Empty else Object(MembersOf(fs)) }

  function FieldOf(m: Member): Field
    requires IsMember(m)
  {
    Field(m.name, NumberValue(m.number))
  }

  function FieldsOf(ms: Members): seq<Field>
    requires AreMembers(ms)
  {
    [FieldOf(ms.first)] + if ms.One? then [] else FieldsOf(ms.others)
  }

  function ObjectFields(o: Object): seq<Field>
    requires IsObject(o)
  {
    if o.Empty? then [] else FieldsOf(o.members)
  }

  function LinesFields(lines: Lines): seq<seq<Field>>
    requires AreObjects(lines)
  {
    if lines.NoLine? then [] else [ObjectFields(lines.head)] + LinesFields(lines.others)
  }

  predicate Printables(fs: seq<Field>) { forall f :: f in fs ==> IsName(f.name) }

  lemma {:induction false} MembersOfInverse(fs: seq<Field>)
    requires fs != [] && Printables(fs)
    ensures AreMembers(MembersOf(fs)) && FieldsOf(MembersOf(fs)) == fs
  {
    assert fs[0] in fs;
    DecIntIsNumber(fs[0].value);
    if |fs| > 1 {
      MembersOfInverse(fs[1..]);
    }
  }

  /** Text t stands at position i. */
  predicate Reads(s: string, i: nat, t: string) {
    i + |t| <= |s| && forall j {:trigger t[j]} :: 0 <= j < |t| ==> s[i + j] == t[j]
  }

  lemma ReadsAppend(s: string, i: nat, a: string, b: string)
    requires Reads(s, i, a + b)
    ensures Reads(s, i, a) && Reads(s, i + |a|, b)
  {
    forall j | 0 <= j < |a|
      ensures s[i + j] == a[j]
    {
      assert (a + b)[j] == a[j];
    }
    forall j | 0 <= j < |b|
      ensures s[i + |a| + j] == b[j]
    {
      assert (a + b)[|a| + j] == b[j];
    }
  }

  lemma ReadsFirst(s: string, i: nat, c: char, t: string)
    requires Reads(s, i, [c] + t)
    ensures CharAt(s, i, c) && Reads(s, i + 1, t)
  {
    ReadsAppend(s, i, [c], t);
    assert [c][0] == c;
  }

  lemma ReadsLast(s: string, i: nat, t: string, c: char)
    requires Reads(s, i, t + [c])
    ensures Reads(s, i, t) && CharAt(s, i + |t|, c)
  {
    ReadsAppend(s, i, t, [c]);
    assert [c][0] == c;
  }

  lemma ReadsJoined(s: string, i: nat, a: string, c: char, b: string)
    requires Reads(s, i, a + [c] + b)
    ensures Reads(s, i, a) && CharAt(s, i + |a|, c) && Reads(s, i + |a| + 1, b)
  {
    ReadsAppend(s, i, a + [c], b);
    ReadsLast(s, i, a, c);
  }

  lemma ReadsIsTextAt(s: string, i: nat, t: string)
    requires Reads(s, i, t)
    ensures TextAt(s, i, t)
  {
    forall j | 0 <= j < |t|
      ensures s[i..i + |t|][j] == t[j]
    {
    }
  }

  /** Wherever text t stands, it spells member m. */
  predicate Spelled(s: string, t: string, m: Member) {
    MemberLen(m) == |t| && forall p: nat :: p < |s| && Reads(s, p, t) ==> SpellsMember(s, p, m)
  }

  lemma FieldIsSpelledAt(s: string, i: nat, f: Field)
    requires Reads(s, i, FieldText(f))
    ensures SpellsMember(s, i, MemberOf(f))
  {
    var name, number := f.name, DecInt(f.value);
    assert FieldText(f) == (['"'] + name + ['"']) + [':'] + number;
    ReadsJoined(s, i, ['"'] + name + ['"'], ':', number);
    ReadsLast(s, i, ['"'] + name, '"');
    ReadsFirst(s, i, '"', name);
    ReadsIsTextAt(s, i + 1, name);
    ReadsIsTextAt(s, i + |name| + 3, number);
  }

  lemma FieldIsSpelled(s: string, f: Field)
    ensures Spelled(s, FieldText(f), MemberOf(f))
  {
    forall p: nat | p < |s| && Reads(s, p, FieldText(f))
      ensures SpellsMember(s, p, MemberOf(f))
    {
      FieldIsSpelledAt(s, p, f);
    }
  }

  lemma {:induction false} TextAtIndex(fs: seq<Field>, k: nat)
    requires k < |fs|
    ensures Texts(fs)[k] == FieldText(fs[k])
  {
    if k > 0 {
      TextAtIndex(fs[1..], k - 1);
    }
  }

  lemma JoinSplits(s: string, i: nat, ts: seq<string>)
    requires |ts| > 1 && ts[1] != "" && Reads(s, i, Join(ts))
    ensures Reads(s, i, ts[0]) && CharAt(s, i + |ts[0]|, ',') && Reads(s, i + |ts[0]| + 1, Join(ts[1..]))
    ensures |Join(ts)| == |ts[0]| + 1 + |Join(ts[1..])| && i + |ts[0]| + 1 < |s|
  {
    var tail := Join(ts[1..]);
    assert Join(ts) == (ts[0] + [',']) + tail;
    ReadsJoined(s, i, ts[0], ',', tail);
  }

  lemma {:induction false} JoinIsSpelled(s: string, i: nat, ts: seq<string>, fs: seq<Field>)
    requires |ts| == |fs| > 0 && i < |s| && Reads(s, i, Join(ts))
    requires forall k :: 0 <= k < |ts| ==> ts[k] != "" && Spelled(s, ts[k], MemberOf(fs[k]))
    ensures SpellsMembers(s, i, MembersOf(fs)) && MembersLen(MembersOf(fs)) == |Join(ts)|
    decreases |ts|
  {
    assert Spelled(s, ts[0], MemberOf(fs[0]));
    if |ts| > 1 {
      JoinSplits(s, i, ts);
      JoinIsSpelled(s, i + |ts[0]| + 1, ts[1..], fs[1..]);
    }
  }

  lemma BodyIsSpelled(s: string, i: nat, fs: seq<Field>)
    requires fs != [] && i < |s| && Reads(s, i, FieldsText(fs))
    ensures SpellsMembers(s, i, MembersOf(fs)) && MembersLen(MembersOf(fs)) == |FieldsText(fs)|
  {
    forall k | 0 <= k < |fs|
      ensures Texts(fs)[k] != "" && Spelled(s, Texts(fs)[k], MemberOf(fs[k]))
    {
      TextAtIndex(fs, k);
      FieldIsSpelled(s, fs[k]);
    }
    JoinIsSpelled(s, i, Texts(fs), fs);
  }

  /** Line t, standing at p, spells object o. */
  predicate LineAt(s: string, p: nat, t: string, o: Object)
    requires p < |s|
  {
    ObjectLen(o) + 1 == |t| && SpellsObject(s, p, o) && CharAt(s, p + ObjectLen(o), '\n')
  }

  /** Wherever line t stands, it spells object o. */
  predicate SpelledLine(s: string, t: string, o: Object) {
    forall p: nat :: p < |s| && Reads(s, p, t) ==> LineAt(s, p, t, o)
  }

  lemma LineOf(s: string, p: nat, fs: seq<Field>, n: nat, line: string)
    requires fs != [] && p + 1 < |s| && |line| == n + 3
    requires SpellsMembers(s, p + 1, MembersOf(fs)) && MembersLen(MembersOf(fs)) == n
    requires CharAt(s, p, '{') && CharAt(s, p + 1 + n, '}') && CharAt(s, p + 2 + n, '\n')
    ensures LineAt(s, p, line, ObjectOf(fs))
  {
  }

  lemma RecordIsSpelledAt(s: string, p: nat, fs: seq<Field>, t: string, line: string)
    requires fs != [] && t == FieldsText(fs) && line == "{" + t + "}\n" && p < |s| && Reads(s, p, line)
    ensures LineAt(s, p, line, ObjectOf(fs))
  {
    SplitRecord(s, p, t);
    BodyIsSpelled(s, p + 1, fs);
    LineOf(s, p, fs, |t|, line);
  }

  lemma RecordIsSpelled(s: string, fs: seq<Field>)
    requires fs != []
    ensures SpelledLine(s, "{" + FieldsText(fs) + "}\n", ObjectOf(fs))
  {
    var t := FieldsText(fs);
    var line := "{" + t + "}\n";
    forall p: nat | p < |s| && Reads(s, p, line)
      ensures LineAt(s, p, line, ObjectOf(fs))
    {
      RecordIsSpelledAt(s, p, fs, t, line);
    }
  }

  lemma SplitRecord(s: string, i: nat, t: string)
    requires Reads(s, i, "{" + t + "}\n")
    ensures CharAt(s, i, '{') && Reads(s, i + 1, t) && CharAt(s, i + 1 + |t|, '}') && CharAt(s, i + 2 + |t|, '\n')
  {
    var open, closed := ['{'] + t, ['{'] + t + ['}'];
    assert "{" + t + "}\n" == closed + ['\n'];
    assert CharAt(s, i + 2 + |t|, '\n') && Reads(s, i, closed) by {
      ReadsLast(s, i, closed, '\n');
    }
    assert CharAt(s, i + 1 + |t|, '}') && Reads(s, i, open) by {
      ReadsLast(s, i, open, '}');
    }
    ReadsFirst(s, i, '{', t);
  }

  // ---- the text of a read is a list of JSON objects, and reading it back gives what was visible ----

  predicate OfTable(table: seq<Counter>, recs: seq<Record>) { forall r :: r in recs ==> |r| == |table| }

  /** What every record shows, in order. */
  function VisibleAll(table: seq<Counter>, recs: seq<Record>): seq<seq<Field>>
    requires OfTable(table, recs)
  {
    seq(|recs|, k requires 0 <= k < |recs| => Visible(table, recs[k]))
  }

  /** A consumer of a stat read: the member names and values of every line, if the text is in the grammar. */
  function ReadBack(text: string): Parsed<seq<seq<Field>>> {
    var lines := ParseLines(text, 0);
    if lines.Ok? then
      LinesSound(text, 0);
      Ok(LinesFields(lines.value), lines.next)
    else Fail
  }

  lemma {:induction false} FlatPrintable(table: seq<Counter>, rec: Record, n: nat)
    requires n <= |table| == |rec| && PrintableTable(table)
    ensures Printables(Flat(Groups(table, rec, |table|), n)) && (n > 0 ==> Flat(Groups(table, rec, |table|), n) != [])
  {
    if n > 0 {
      FlatPrintable(table, rec, n - 1);
      GroupAt(table, rec, |table|, n - 1);
      FieldsPrintable(table[n - 1], rec[n - 1]);
    }
  }

  lemma FieldsPrintable(c: Counter, data: uint64)
    requires Printable(c)
    ensures Printables(Fields(c, data))
  {
    if c.Ipmi? {
      SensorFieldsPrintable(c.sensors, data, |c.sensors|);
    }
  }

  lemma {:induction false} SensorFieldsPrintable(sensors: seq<Sensor>, data: uint64, n: nat)
    requires n <= |sensors| && PrintableSensors(sensors)
    ensures Printables(SensorFields(sensors, data, n))
  {
    if n > 0 {
      SensorFieldsPrintable(sensors, data, n - 1);
      assert sensors[n - 1] in sensors;
    }
  }

  function RecordObjects(table: seq<Counter>, recs: seq<Record>): seq<Object>
    requires OfTable(table, recs)
  {
    seq(|recs|, k requires 0 <= k < |recs| => ObjectOf(Visible(table, recs[k])))
  }

  function LinesOf(os: seq<Object>): Lines { if os == [] then NoLine else Line(os[0], LinesOf(os[1..])) }

  /** The objects a read consists of, one for each record. */
  function Objects(table: seq<Counter>, recs: seq<Record>): Lines
    requires OfTable(table, recs)
  {
    LinesOf(RecordObjects(table, recs))
  }

  lemma {:induction false} ConcatIsSpelled(s: string, i: nat, ts: seq<string>, os: seq<Object>)
    requires |ts| == |os| && i + |Concat(ts)| == |s| && Reads(s, i, Concat(ts))
    requires forall k :: 0 <= k < |ts| ==> ts[k] != "" && SpelledLine(s, ts[k], os[k])
    ensures SpellsLines(s, i, LinesOf(os))
    decreases |ts|
  {
    if ts != [] {
      assert SpelledLine(s, ts[0], os[0]);
      ReadsAppend(s, i, ts[0], Concat(ts[1..]));
      ConcatIsSpelled(s, i + |ts[0]|, ts[1..], os[1..]);
    }
  }

  lemma RecordsAreSpelled(s: string, table: seq<Counter>, recs: seq<Record>)
    requires OfTable(table, recs) && PrintableTable(table)
    ensures forall k :: 0 <= k < |recs| ==>
              RecordTexts(table, recs)[k] != "" && SpelledLine(s, RecordTexts(table, recs)[k],
                RecordObjects(table, recs)[k])
  {
    forall k | 0 <= k < |recs|
      ensures RecordText(table, recs[k]) != "" && SpelledLine(s, RecordText(table, recs[k]),
              ObjectOf(Visible(table, recs[k])))
    {
      FlatPrintable(table, recs[k], |table|);
      RecordIsSpelled(s, Visible(table, recs[k]));
    }
  }

  lemma {:induction false} LinesShow(os: seq<Object>, shown: seq<seq<Field>>)
    requires |os| == |shown| && forall k :: 0 <= k < |os| ==> IsObject(os[k]) && ObjectFields(os[k]) == shown[k]
    ensures AreObjects(LinesOf(os)) && LinesFields(LinesOf(os)) == shown
  {
    if os != [] {
      LinesShow(os[1..], shown[1..]);
    }
  }

  lemma ObjectsShow(table: seq<Counter>, recs: seq<Record>)
    requires OfTable(table, recs) && PrintableTable(table)
    ensures AreObjects(Objects(table, recs)) && LinesFields(Objects(table, recs)) == VisibleAll(table, recs)
  {
    forall k | 0 <= k < |recs|
      ensures IsObject(ObjectOf(Visible(table, recs[k]))) &&
              ObjectFields(ObjectOf(Visible(table, recs[k]))) == Visible(table, recs[k])
    {
      FlatPrintable(table, recs[k], |table|);
      MembersOfInverse(Visible(table, recs[k]));
    }
    LinesShow(RecordObjects(table, recs), VisibleAll(table, recs));
  }

  /** Main result on the text: every line is an RFC 8259 object, and reading the text back recovers, in order,
      every visible name and value of every record. */
  lemma ReadBackRecovers(table: seq<Counter>, recs: seq<Record>)
    requires OfTable(table, recs) && PrintableTable(table)
    ensures SpellsLines(StatText(table, recs), 0, Objects(table, recs))
    ensures ReadBack(StatText(table, recs)) == Ok(VisibleAll(table, recs), |StatText(table, recs)|)
  {
    var s := StatText(table, recs);
    RecordsAreSpelled(s, table, recs);
    ConcatIsSpelled(s, 0, RecordTexts(table, recs), RecordObjects(table, recs));
    ObjectsShow(table, recs);
    LinesComplete(s, 0, Objects(table, recs));
  }

  /** Two reads with the same text show the same values. */
  lemma EqualTextsShowEqualValues(table: seq<Counter>, recs1: seq<Record>, recs2: seq<Record>)
    requires OfTable(table, recs1) && OfTable(table, recs2) && PrintableTable(table)
    requires StatText(table, recs1) == StatText(table, recs2)
    ensures VisibleAll(table, recs1) == VisibleAll(table, recs2)
  {
    ReadBackRecovers(table, recs1);
    ReadBackRecovers(table, recs2);
  }

  lemma OneText(table: seq<Counter>, rec: Record)
    requires |rec| == |table|
    ensures OfTable(table, [rec]) && StatText(table, [rec]) == RecordText(table, rec)
  {
    OneOfTable(table, rec);
    ConcatOne(RecordText(table, rec));
  }

  lemma OneOfTable(table: seq<Counter>, rec: Record)
    requires |rec| == |table|
    ensures OfTable(table, [rec]) && RecordTexts(table, [rec]) == [RecordText(table, rec)]
  {
    var one := [rec];
    assert one[0] == rec;
    assert |RecordTexts(table, one)| == 1 && RecordTexts(table, one)[0] == RecordText(table, rec);
  }

  lemma ConcatOne(t: string)
    ensures Concat([t]) == t
  {
    assert [t][1..] == [] && t + "" == t;
  }

  /** One record's text read back. */
  lemma TextReadsBack(table: seq<Counter>, rec: Record)
    requires |rec| == |table| && PrintableTable(table)
    ensures var r := ReadBack(RecordText(table, rec)); r.Ok? && r.value == [Visible(table, rec)]
  {
    OneText(table, rec);
    ReadBackRecovers(table, [rec]);
    assert VisibleAll(table, [rec]) == [Visible(table, rec)];
    var text := RecordText(table, rec);
    var r := ReadBack(text);
    assert r == Ok(VisibleAll(table, [rec]), |text|);
    assert r.value[0] == Visible(table, rec);
  }
}
