/** The record printer of haswellstat and sbstat, which puts a comma after every field. */
module OldPrinter {
  import opened Words
  import opened Decimal
  import opened Json
  import opened Printer
  import opened StatRead
  import opened Drain
  import opened NodeCounters

  const OLD_NAMES: seq<string> := [
    "ts", "intv", "temp", "cyc", "inst", "llcref", "llcmiss", "br", "brmiss", "l2lin", "oh"]

  const MICSTAT_NCNT: nat := 11

  predicate ShortNames(names: seq<string>) {
    |names| == MICSTAT_NCNT && forall k :: 0 <= k < MICSTAT_NCNT ==> |names[k]| <= 7
  }

  lemma OldNamesAreShort()
    ensures ShortNames(OLD_NAMES)
  {
  }

  /** The first n fields, each with its comma. */
  function OldFields(names: seq<string>, rec: Record, n: nat): string
    requires n <= |names| == |rec|
  {
    if n == 0 then "" else OldFields(names, rec, n - 1) + (FieldText(Field(names[n - 1], rec[n - 1])) + ",")
  }

  function OldText(names: seq<string>, rec: Record): string
    requires |names| == |rec|
  {
    ("{" + OldFields(names, rec, |names|)) + "}\n"
  }

  lemma {:induction false} OldFieldsLength(names: seq<string>, rec: Record, n: nat)
    requires n <= |names| == |rec| && forall k :: 0 <= k < |names| ==> |names[k]| <= 7
    ensures |OldFields(names, rec, n)| <= 31 * n
  {
    if n > 0 {
      OldFieldsLength(names, rec, n - 1);
      Pow10Values();
      FieldTextLength(Field(names[n - 1], rec[n - 1]), 20);
    }
  }

  lemma OldTextLength(names: seq<string>, rec: Record)
    requires ShortNames(names) && |rec| == MICSTAT_NCNT
    ensures 0 < |OldText(names, rec)| <= RECORD_MAX
  {
    OldFieldsLength(names, rec, MICSTAT_NCNT);
  }

  ghost predicate OldRecords(recs: seq<Record>) { forall k :: 0 <= k < |recs| ==> |recs[k]| == MICSTAT_NCNT }

  function OldTexts(names: seq<string>, recs: seq<Record>): (ts: seq<string>)
    requires |names| == MICSTAT_NCNT && OldRecords(recs)
    ensures |ts| == |recs|
  {
    seq(|recs|, k requires 0 <= k < |recs| => OldText(names, recs[k]))
  }

  lemma OldTextsAreShort(names: seq<string>, recs: seq<Record>)
    requires ShortNames(names) && OldRecords(recs)
    ensures Short(OldTexts(names, recs))
  {
    forall k | 0 <= k < |recs|
      ensures 0 < |OldText(names, recs[k])| <= RECORD_MAX
    {
      OldTextLength(names, recs[k]);
    }
  }

  lemma NotEmpty(a: string, b: string)
    requires b != ""
    ensures a + b != ""
  {
  }

  lemma OldStep(names: seq<string>, rec: Record, n: nat)
    requires n < |names| == |rec|
    ensures "{" + OldFields(names, rec, n + 1) == ("{" + OldFields(names, rec, n)) +
            (FieldText(Field(names[n], rec[n])) + ",")
  {
    Assoc("{", OldFields(names, rec, n), FieldText(Field(names[n], rec[n])) + ",");
  }

  /** One field and its comma. */
  method PrintField(buf: array<char>, off: nat, ghost total: nat, ptr: nat, limit: nat, names: seq<string>,
                    rec: Record, i: nat, ghost before: seq<char>)
    returns (ptr': nat, limit': nat)
    requires ptr + limit == off + total <= buf.Length == |before| && i < |names| == |rec|
    requires ptr == off + Cut(|"{" + OldFields(names, rec, i)|, total)
    requires Holds(buf, before, off, total, "{" + OldFields(names, rec, i))
    modifies buf
    ensures ptr' + limit' == off + total && ptr' == off + Cut(|"{" + OldFields(names, rec, i + 1)|, total)
    ensures Holds(buf, before, off, total, "{" + OldFields(names, rec, i + 1))
  {
    ghost var soFar := "{" + OldFields(names, rec, i);
    var text := FieldText(Field(names[i], rec[i])) + ",";
    OldStep(names, rec, i);
    NotEmpty(FieldText(Field(names[i], rec[i])), ",");
    ptr', limit' := Emit(buf, off, total, ptr, limit, text, before, soFar);
  }

  lemma OpeningBrace(names: seq<string>, rec: Record)
    requires |names| == |rec|
    ensures "" + "{" == "{" == "{" + OldFields(names, rec, 0)
  {
  }

  /** The opening brace and all fields. */
  method PrintFields(buf: array<char>, off: nat, limit: nat, names: seq<string>, rec: Record, ghost before: seq<char>)
    returns (ptr: nat, left: nat)
    requires off + limit <= buf.Length && |names| == |rec| && before == buf[..]
    modifies buf
    ensures ptr + left == off + limit && ptr == off + Cut(|"{" + OldFields(names, rec, |names|)|, limit)
    ensures Holds(buf, before, off, limit, "{" + OldFields(names, rec, |names|))
  {
    OpeningBrace(names, rec);
    ptr, left := Emit(buf, off, limit, off, limit, "{", before, "");
    for i := 0 to |names|
      invariant ptr + left == off + limit && ptr == off + Cut(|"{" + OldFields(names, rec, i)|, limit)
      invariant Holds(buf, before, off, limit, "{" + OldFields(names, rec, i))
    {
      ptr, left := PrintField(buf, off, limit, ptr, left, names, rec, i, before);
    }
  }

  /** One record: a prefix of its unbounded rendering, as long as the limit allows. */
  method PrintOld(buf: array<char>, off: nat, limit: nat, names: seq<string>, rec: Record) returns (ret: nat)
    requires off + limit <= buf.Length && |names| == |rec|
    modifies buf
    ensures ret == Cut(|OldText(names, rec)|, limit)
    ensures buf[..] == Write(old(buf[..]), off, limit, OldText(names, rec))
    ensures WritesPrefix(old(buf[..]), buf[..], off, limit, OldText(names, rec), ret)
  {
    ghost var before := buf[..];
    var ptr, left := PrintFields(buf, off, limit, names, rec, before);
    ptr, left := Emit(buf, off, limit, ptr, left, "}\n", before, "{" + OldFields(names, rec, |names|));
    ret := ptr - off;
    NotEmpty("{" + OldFields(names, rec, |names|), "}\n");
    WriteMeaning(before, off, limit, OldText(names, rec));
  }

  // ---- what the text says ----

  /** The fields a record stands for. */
  function OldShown(names: seq<string>, rec: Record): (fs: seq<Field>)
    requires |names| == |rec|
    ensures |fs| == |names| && forall k :: 0 <= k < |names| ==> fs[k] == Field(names[k], rec[k])
  {
    seq(|names|, k requires 0 <= k < |names| => Field(names[k], rec[k]))
  }

  function PlainTable(names: seq<string>): (table: seq<Counter>)
    ensures |table| == |names| && forall k :: 0 <= k < |names| ==> table[k] == Plain(names[k])
  {
    seq(|names|, k requires 0 <= k < |names| => Plain(names[k]))
  }

  lemma {:induction false} GroupsAreOld(names: seq<string>, rec: Record, n: nat)
    requires n <= |names| == |rec|
    ensures var groups := Groups(PlainTable(names), rec, n);
            forall k :: 0 <= k < n ==> groups[k] == [OldShown(names, rec)[k]]
  {
    if n > 0 {
      GroupsAreOld(names, rec, n - 1);
    }
  }

  lemma {:induction false} FlatSingles(groups: seq<seq<Field>>, fs: seq<Field>, n: nat)
    requires n <= |groups| == |fs| && forall k :: 0 <= k < |fs| ==> groups[k] == [fs[k]]
    ensures Flat(groups, n) == fs[..n]
  {
    if n > 0 {
      FlatSingles(groups, fs, n - 1);
      assert fs[..n] == fs[..n - 1] + [fs[n - 1]];
    }
  }

  lemma VisibleIsOld(names: seq<string>, rec: Record)
    requires |names| == |rec|
    ensures Visible(PlainTable(names), rec) == OldShown(names, rec)
  {
    var groups := Groups(PlainTable(names), rec, |names|);
    GroupsAreOld(names, rec, |names|);
    FlatSingles(groups, OldShown(names, rec), |names|);
  }

  lemma SnocField(fs: seq<Field>, f: Field)
    requires fs != []
    ensures FieldsText(fs + [f]) == FieldsText(fs) + ("," + FieldText(f))
  {
    FieldsTextAppend(fs, [f]);
    SingleFieldText(f);
    Assoc(FieldsText(fs), ",", FieldText(f));
  }

  lemma CommasMove(a: string, b: string)
    ensures (a + ",") + (b + ",") == (a + ("," + b)) + ","
  {
  }

  lemma OldFieldsNext(names: seq<string>, rec: Record, n: nat, done: seq<Field>)
    requires 0 < n < |names| == |rec| && done != [] && OldFields(names, rec, n) == FieldsText(done) + ","
    ensures OldFields(names, rec, n + 1) == FieldsText(done + [Field(names[n], rec[n])]) + ","
  {
    var f := Field(names[n], rec[n]);
    SnocField(done, f);
    CommasMove(FieldsText(done), FieldText(f));
  }

  lemma OldFieldsFirst(names: seq<string>, rec: Record)
    requires 0 < |names| == |rec|
    ensures OldFields(names, rec, 1) == FieldsText([Field(names[0], rec[0])]) + ","
  {
    var f := Field(names[0], rec[0]);
    SingleFieldText(f);
    assert OldFields(names, rec, 1) == "" + (FieldText(f) + ",");
  }

  lemma PrefixSnoc(fs: seq<Field>, n: nat)
    requires 0 < n < |fs|
    ensures fs[..n + 1] == fs[..n] + [fs[n]] && fs[..n] != []
  {
  }

  /** The fields with their commas are the comma-separated list and one comma more. */
  lemma {:induction false} OldFieldsAre(names: seq<string>, rec: Record, n: nat, fs: seq<Field>)
    requires 0 < n <= |names| == |rec| && fs == OldShown(names, rec)
    ensures OldFields(names, rec, n) == FieldsText(fs[..n]) + ","
  {
    if n == 1 {
      OldFieldsFirst(names, rec);
      assert fs[..1] == [Field(names[0], rec[0])];
    } else {
      OldFieldsAre(names, rec, n - 1, fs);
      PrefixSnoc(fs, n - 1);
      OldFieldsNext(names, rec, n - 1, fs[..n - 1]);
    }
  }

  lemma NamesPrint(names: seq<string>)
    requires Named(names) && names != []
    ensures PrintableTable(PlainTable(names))
  {
    forall c | c in PlainTable(names)
      ensures Printable(c)
    {
    }
  }

  lemma OldTextIs(names: seq<string>, rec: Record)
    requires |names| == |rec| > 0
    ensures OldText(names, rec) == ("{" + FieldsText(OldShown(names, rec))) + ",}\n"
  {
    var fs := OldShown(names, rec);
    OldFieldsAre(names, rec, |names|, fs);
    assert fs[..|names|] == fs;
    Regroup2("{", FieldsText(fs), ",", "}\n");
    assert "," + "}\n" == ",}\n";
  }

  lemma Regroup2(a: string, b: string, c: string, d: string)
    ensures (a + (b + c)) + d == (a + b) + (c + d)
  {
  }

  /** Without the comma before the closing brace the text is JSON, and read back it has exactly the names and values of
      the record, in order. */
  lemma OldTextReadsBack(names: seq<string>, rec: Record) returns (body: string)
    requires |names| == |rec| > 0 && Named(names)
    ensures OldText(names, rec) == body + ",}\n"
    ensures var r := ReadBack(body + "}\n");
            r.Ok? && |r.value| == 1 && |r.value[0]| == |names| &&
            forall k :: 0 <= k < |names| ==> r.value[0][k] == Field(names[k], rec[k])
  {
    var table := PlainTable(names);
    OldTextIs(names, rec);
    VisibleIsOld(names, rec);
    NamesPrint(names);
    TextReadsBack(table, rec);
    body := "{" + FieldsText(OldShown(names, rec));
    assert RecordText(table, rec) == body + "}\n";
  }

  // ---- the text is never JSON ----

  predicate Named(names: seq<string>) { forall k :: 0 <= k < |names| ==> IsName(names[k]) }

  lemma OldNamesAreNames()
    ensures Named(OLD_NAMES)
  {
    forall k | 0 <= k < |OLD_NAMES|
      ensures IsName(OLD_NAMES[k])
    {
      ShortName(OLD_NAMES[k]);
    }
  }

  /** Where field k and its comma stand in a text that has the first n fields at position i. */
  lemma {:induction false} OldFieldAt(s: string, i: nat, names: seq<string>, rec: Record, n: nat, k: nat)
    requires k < n <= |names| == |rec| && Reads(s, i, OldFields(names, rec, n))
    ensures Reads(s, i + |OldFields(names, rec, k)|, FieldText(Field(names[k], rec[k])) + ",")
    decreases n
  {
    ReadsAppend(s, i, OldFields(names, rec, n - 1), FieldText(Field(names[n - 1], rec[n - 1])) + ",");
    if k < n - 1 {
      OldFieldAt(s, i, names, rec, n - 1, k);
    }
  }

  /** Whether looking for members at position p fails. */
  predicate NoMembers(s: string, p: nat) { p <= |s| && ParseMembers(s, p).Fail? }

  /** Member m with a comma after it stands from p up to next. */
  predicate CommaMember(s: string, p: nat, m: Member, next: nat) {
    IsMember(m) && SpellsMember(s, p, m) && next == p + MemberLen(m) + 1 && CharAt(s, next - 1, ',')
  }

  /** A member with its comma makes the parser look for another one. */
  lemma CommaThenMore(s: string, p: nat, m: Member, next: nat)
    requires CommaMember(s, p, m, next) && NoMembers(s, next)
    ensures NoMembers(s, p)
  {
    MemberComplete(s, p, m);
  }

  lemma BraceIsNoMember(s: string, p: nat)
    requires CharAt(s, p, '}')
    ensures NoMembers(s, p)
  {
  }

  /** Looking for members fails where members with commas are followed by a brace. */
  lemma {:induction false} CommaThenBrace(s: string, ms: seq<Member>, starts: seq<nat>, k: nat)
    requires |starts| == |ms| + 1 && k <= |ms|
    requires forall j :: 0 <= j < |ms| ==> CommaMember(s, starts[j], ms[j], starts[j + 1])
    requires CharAt(s, starts[|ms|], '}')
    ensures NoMembers(s, starts[k])
    decreases |ms| - k
  {
    if k == |ms| {
      BraceIsNoMember(s, starts[k]);
    } else {
      CommaThenBrace(s, ms, starts, k + 1);
      CommaThenMore(s, starts[k], ms[k], starts[k + 1]);
    }
  }

  lemma FieldWithComma(s: string, p: nat, f: Field, m: Member, next: nat)
    requires Reads(s, p, FieldText(f) + ",") && IsName(f.name) && m == MemberOf(f) && next == p + |FieldText(f)| + 1
    ensures CommaMember(s, p, m, next)
  {
    assert FieldText(f) + "," == FieldText(f) + [','];
    ReadsLast(s, p, FieldText(f), ',');
    FieldIsSpelledAt(s, p, f);
    DecIntIsNumber(f.value);
  }

  function OldMember(names: seq<string>, rec: Record, k: nat): Member
    requires k < |names| == |rec|
  {
    MemberOf(Field(names[k], rec[k]))
  }

  /** Where field k starts. */
  function OldStart(names: seq<string>, rec: Record, k: nat): nat
    requires k <= |names| == |rec|
  {
    1 + |OldFields(names, rec, k)|
  }

  lemma OldFieldReads(s: string, names: seq<string>, rec: Record, k: nat)
    requires k < |names| == |rec| && Reads(s, 1, OldFields(names, rec, |names|))
    ensures Reads(s, OldStart(names, rec, k), FieldText(Field(names[k], rec[k])) + ",")
  {
    OldFieldAt(s, 1, names, rec, |names|, k);
  }

  lemma NextStart(names: seq<string>, rec: Record, k: nat)
    requires k < |names| == |rec|
    ensures OldStart(names, rec, k + 1) == OldStart(names, rec, k) + |FieldText(Field(names[k], rec[k]))| + 1
  {
  }

  function OldMembers(names: seq<string>, rec: Record): (ms: seq<Member>)
    requires |names| == |rec|
    ensures |ms| == |names| && forall k :: 0 <= k < |names| ==> ms[k] == OldMember(names, rec, k)
  {
    seq(|names|, k requires 0 <= k < |names| => OldMember(names, rec, k))
  }

  function OldStarts(names: seq<string>, rec: Record): (starts: seq<nat>)
    requires |names| == |rec|
    ensures |starts| == |names| + 1 && forall k :: 0 <= k <= |names| ==> starts[k] == OldStart(names, rec, k)
  {
    seq(|names| + 1, k requires 0 <= k < |names| + 1 => OldStart(names, rec, k))
  }

  lemma OldCommaMembers(s: string, names: seq<string>, rec: Record)
    requires |names| == |rec| && Named(names) && Reads(s, 1, OldFields(names, rec, |names|))
    ensures forall j :: 0 <= j < |names| ==>
              CommaMember(s, OldStarts(names, rec)[j], OldMembers(names, rec)[j], OldStarts(names, rec)[j + 1])
  {
    forall j | 0 <= j < |names|
      ensures CommaMember(s, OldStarts(names, rec)[j], OldMembers(names, rec)[j], OldStarts(names, rec)[j + 1])
    {
      OldFieldReads(s, names, rec, j);
      NextStart(names, rec, j);
      FieldWithComma(s, OldStart(names, rec, j), Field(names[j], rec[j]), OldMember(names, rec, j),
        OldStart(names, rec, j + 1));
    }
  }

  /** The comma before the closing brace keeps every record of these modules out of the grammar. */
  lemma OldTextIsNotJson(names: seq<string>, rec: Record, lines: Lines)
    requires |names| == |rec| > 0 && Named(names) && AreObjects(lines)
    ensures !SpellsLines(OldText(names, rec), 0, lines)
  {
    var s, t := OldText(names, rec), OldFields(names, rec, |names|);
    assert Reads(s, 0, s) && s == "{" + t + "}\n";
    SplitRecord(s, 0, t);
    OldCommaMembers(s, names, rec);
    CommaThenBrace(s, OldMembers(names, rec), OldStarts(names, rec), 0);
    assert CommaMember(s, OldStarts(names, rec)[0], OldMembers(names, rec)[0], OldStarts(names, rec)[1]);
    NoObject(s, lines);
  }

  lemma NoObject(s: string, lines: Lines)
    requires CharAt(s, 0, '{') && !CharAt(s, 1, '}') && NoMembers(s, 1) && AreObjects(lines)
    ensures !SpellsLines(s, 0, lines)
  {
    ParserIsExact(s, lines);
  }

  /** In particular no record of haswellstat or sbstat is. */
  lemma OldRecordIsNotJson(rec: Record, lines: Lines)
    requires |rec| == MICSTAT_NCNT && AreObjects(lines)
    ensures !SpellsLines(OldText(OLD_NAMES, rec), 0, lines)
  {
    OldNamesAreNames();
    OldTextIsNotJson(OLD_NAMES, rec, lines);
  }
}
