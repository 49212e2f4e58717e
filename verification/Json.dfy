/**
 JSON objects as defined in section 4 of RFC 8259: those without insignificant whitespace whose
 members are integers (section 6 of RFC 8259, without fraction and exponent).
 The parser is a recursive descent over positions; it returns the concrete syntax it read.
 */
module Json {
  import opened Decimal

  /** One member: the characters of its name and the characters of its number. */
  datatype Member = Member(name: string, number: string)

  /** member *( value-separator member ) */
  datatype Members = One(first: Member) | More(first: Member, others: Members)

  datatype Object = Empty | Object(members: Members)

  /** Objects, one a line. */
  datatype Lines = NoLine | Line(head: Object, others: Lines)

  /** What was read and the position after it. */
  datatype Parsed<+T> = Fail | Ok(value: T, next: nat)

  /** Characters a string may hold without an escape (section 7 of RFC 8259). */
  predicate Unescaped(c: char) { c != '"' && c != '\\' && c >= ' ' }

  predicate IsName(s: string) { s == "" || (Unescaped(s[0]) && IsName(s[1..])) }

  /** [ minus ] int, where int has no leading zero. */
  predicate IsNumber(s: string) {
    var u := if |s| > 0 && s[0] == '-' then s[1..] else s;
    |u| > 0 && AllDigits(u) && (u[0] == '0' ==> |u| == 1)
  }

  function NumberValue(s: string): int
    requires IsNumber(s)
  {
    if s[0] == '-' then 0 - Value(s[1..]) else Value(s)
  }

  predicate IsMember(m: Member) { IsName(m.name) && IsNumber(m.number) }

  predicate AreMembers(ms: Members) { IsMember(ms.first) && (ms.More? ==> AreMembers(ms.others)) }

  predicate IsObject(o: Object) { o.Object? ==> AreMembers(o.members) }

  predicate AreObjects(lines: Lines) { lines.Line? ==> IsObject(lines.head) && AreObjects(lines.others) }

  // Texts of the grammar, as positions of a character sequence: what starts at i, and how long it is.

  function MemberLen(m: Member): nat { |m.name| + 3 + |m.number| }

  function MembersLen(ms: Members): nat {
    MemberLen(ms.first) + if ms.One? then 0 else 1 + MembersLen(ms.others)
  }

  function ObjectLen(o: Object): nat { 2 + if o.Empty? then 0 else MembersLen(o.members) }

  predicate CharAt(s: string, i: nat, c: char) { i < |s| && s[i] == c }

  predicate TextAt(s: string, i: nat, t: string) { i + |t| <= |s| && s[i..i + |t|] == t }

  /** quotation-mark *char quotation-mark name-separator number */
  predicate SpellsMember(s: string, i: nat, m: Member) {
    var quote := i + 1 + |m.name|;
    CharAt(s, i, '"') && TextAt(s, i + 1, m.name) && CharAt(s, quote, '"') &&
    CharAt(s, quote + 1, ':') && TextAt(s, quote + 2, m.number)
  }

  predicate SpellsMembers(s: string, i: nat, ms: Members)
    decreases ms
  {
    SpellsMember(s, i, ms.first) &&
    (ms.More? ==>
       var comma := i + MemberLen(ms.first);
       CharAt(s, comma, ',') && SpellsMembers(s, comma + 1, ms.others))
  }

  /** begin-object [ members ] end-object */
  predicate SpellsObject(s: string, i: nat, o: Object) {
    CharAt(s, i, '{') && CharAt(s, i + ObjectLen(o) - 1, '}') && (o.Object? ==> SpellsMembers(s, i + 1, o.members))
  }

  /** Newline-terminated objects up to the end. */
  predicate SpellsLines(s: string, i: nat, lines: Lines)
    decreases lines
  {
    if lines.NoLine? then i == |s| else
      var newline := i + ObjectLen(lines.head);
      SpellsObject(s, i, lines.head) && CharAt(s, newline, '\n') && SpellsLines(s, newline + 1, lines.others)
  }

  // ---- the parser ----

  function DigitsEnd(s: string, i: nat): (j: nat)
    requires i <= |s|
    ensures i <= j <= |s|
    decreases |s| - i
  {
    if i < |s| && IsDigit(s[i]) then DigitsEnd(s, i + 1) else i
  }

  function NameEnd(s: string, i: nat): (j: nat)
    requires i <= |s|
    ensures i <= j <= |s|
    decreases |s| - i
  {
    if i < |s| && Unescaped(s[i]) then NameEnd(s, i + 1) else i
  }

  function ParseNumber(s: string, i: nat): (r: Parsed<string>)
    requires i <= |s|
    ensures r.Ok? ==> i < r.next <= |s|
  {
    var start := if CharAt(s, i, '-') then i + 1 else i;
    var j := DigitsEnd(s, start);
    if start < j && (s[start] == '0' ==> j == start + 1) then Ok(s[i..j], j) else Fail
  }

  function ParseQuoted(s: string, i: nat): (r: Parsed<string>)
    requires i <= |s|
    ensures r.Ok? ==> i < r.next <= |s|
  {
    if !CharAt(s, i, '"') then Fail else
      var j := NameEnd(s, i + 1);
      if CharAt(s, j, '"') then Ok(s[i + 1..j], j + 1) else Fail
  }

  function ParseMember(s: string, i: nat): (r: Parsed<Member>)
    requires i <= |s|
    ensures r.Ok? ==> i < r.next <= |s|
  {
    var name := ParseQuoted(s, i);
    if name.Fail? || !CharAt(s, name.next, ':') then Fail else
      var number := ParseNumber(s, name.next + 1);
      if number.Fail? then Fail else Ok(Member(name.value, number.value), number.next)
  }

  function ParseMembers(s: string, i: nat): (r: Parsed<Members>)
    requires i <= |s|
    ensures r.Ok? ==> i < r.next <= |s|
    decreases |s| - i
  {
    var first := ParseMember(s, i);
    if first.Fail? then Fail
    else if !CharAt(s, first.next, ',') then Ok(One(first.value), first.next)
    else
      var others := ParseMembers(s, first.next + 1);
      if others.Fail? then Fail else Ok(More(first.value, others.value), others.next)
  }

  function ParseObject(s: string, i: nat): (r: Parsed<Object>)
    requires i <= |s|
    ensures r.Ok? ==> i < r.next <= |s|
  {
    if !CharAt(s, i, '{') then Fail
    else if CharAt(s, i + 1, '}') then Ok(Empty, i + 2)
    else
      var members := ParseMembers(s, i + 1);
      if members.Fail? || !CharAt(s, members.next, '}') then Fail else Ok(Object(members.value), members.next + 1)
  }

  function ParseLines(s: string, i: nat): (r: Parsed<Lines>)
    requires i <= |s|
    ensures r.Ok? ==> r.next == |s|
    decreases |s| - i
  {
    if i == |s| then Ok(NoLine, i) else
      var first := ParseObject(s, i);
      if first.Fail? || !CharAt(s, first.next, '\n') then Fail else
        var others := ParseLines(s, first.next + 1);
        if others.Fail? then Fail else Ok(Line(first.value, others.value), others.next)
  }

  // ---- soundness: what is accepted is a text of the grammar, with the syntax returned ----

  lemma {:induction false} DigitsEndSound(s: string, i: nat)
    requires i <= |s|
    ensures var j := DigitsEnd(s, i); AllDigits(s[i..j]) && (j < |s| ==> !IsDigit(s[j]))
    decreases |s| - i
  {
    if i < |s| && IsDigit(s[i]) {
      DigitsEndSound(s, i + 1);
      assert s[i..DigitsEnd(s, i)][1..] == s[i + 1..DigitsEnd(s, i)];
    }
  }

  lemma {:induction false} NameEndSound(s: string, i: nat)
    requires i <= |s|
    ensures IsName(s[i..NameEnd(s, i)])
    decreases |s| - i
  {
    if i < |s| && Unescaped(s[i]) {
      NameEndSound(s, i + 1);
      assert s[i..NameEnd(s, i)][1..] == s[i + 1..NameEnd(s, i)];
    }
  }

  lemma QuotedSound(s: string, i: nat)
    requires i <= |s| && ParseQuoted(s, i).Ok?
    ensures var r := ParseQuoted(s, i);
            IsName(r.value) && CharAt(s, i, '"') && TextAt(s, i + 1, r.value) && CharAt(s, r.next - 1, '"') &&
            r.next == i + |r.value| + 2
  {
    NameEndSound(s, i + 1);
  }

  lemma NumberSound(s: string, i: nat)
    requires i <= |s| && ParseNumber(s, i).Ok?
    ensures var r := ParseNumber(s, i); IsNumber(r.value) && TextAt(s, i, r.value) && r.next == i + |r.value|
  {
    var start := if CharAt(s, i, '-') then i + 1 else i;
    DigitsEndSound(s, start);
    var j := DigitsEnd(s, start);
    assert s[i] == '-' ==> s[i..j][1..] == s[start..j];
  }

  lemma MemberSound(s: string, i: nat)
    requires i <= |s| && ParseMember(s, i).Ok?
    ensures var r := ParseMember(s, i);
            IsMember(r.value) && SpellsMember(s, i, r.value) && r.next == i + MemberLen(r.value)
  {
    QuotedSound(s, i);
    NumberSound(s, ParseQuoted(s, i).next + 1);
  }

  lemma {:induction false} MembersSound(s: string, i: nat)
    requires i <= |s| && ParseMembers(s, i).Ok?
    ensures var r := ParseMembers(s, i);
            AreMembers(r.value) && SpellsMembers(s, i, r.value) && r.next == i + MembersLen(r.value)
    decreases |s| - i
  {
    MemberSound(s, i);
    var comma := ParseMember(s, i).next;
    if CharAt(s, comma, ',') {
      MembersSound(s, comma + 1);
    }
  }

  lemma ObjectSound(s: string, i: nat)
    requires i <= |s| && ParseObject(s, i).Ok?
    ensures var r := ParseObject(s, i);
            IsObject(r.value) && SpellsObject(s, i, r.value) && r.next == i + ObjectLen(r.value)
  {
    if !CharAt(s, i + 1, '}') {
      assert ParseMembers(s, i + 1).Ok?;
      MembersSound(s, i + 1);
    }
  }

  lemma ParseLinesStep(s: string, i: nat)
    requires i < |s| && ParseLines(s, i).Ok?
    ensures var first := ParseObject(s, i);
            first.Ok? && CharAt(s, first.next, '\n') && ParseLines(s, first.next + 1).Ok? &&
            ParseLines(s, i).value == Line(first.value, ParseLines(s, first.next + 1).value)
  {
  }

  lemma {:induction false} LinesSound(s: string, i: nat)
    requires i <= |s| && ParseLines(s, i).Ok?
    ensures AreObjects(ParseLines(s, i).value) && SpellsLines(s, i, ParseLines(s, i).value)
    decreases |s| - i
  {
    if i < |s| {
      ParseLinesStep(s, i);
      ObjectSound(s, i);
      LinesSound(s, ParseObject(s, i).next + 1);
    }
  }

  // ---- completeness: every text of the grammar is accepted, with the syntax it was written from ----

  lemma {:induction false} DigitsEndExact(s: string, i: nat, j: nat)
    requires i <= j <= |s| && AllDigits(s[i..j]) && (j < |s| ==> !IsDigit(s[j]))
    ensures DigitsEnd(s, i) == j
    decreases j - i
  {
    if i < j {
      assert s[i..j][1..] == s[i + 1..j];
      DigitsEndExact(s, i + 1, j);
    }
  }

  lemma {:induction false} NameEndExact(s: string, i: nat, j: nat)
    requires i <= j <= |s| && IsName(s[i..j]) && (j < |s| ==> !Unescaped(s[j]))
    ensures NameEnd(s, i) == j
    decreases j - i
  {
    if i < j {
      assert s[i..j][1..] == s[i + 1..j];
      NameEndExact(s, i + 1, j);
    }
  }

  lemma QuotedComplete(s: string, i: nat, name: string)
    requires IsName(name) && CharAt(s, i, '"') && TextAt(s, i + 1, name) && CharAt(s, i + 1 + |name|, '"')
    ensures ParseQuoted(s, i) == Ok(name, i + |name| + 2)
  {
    NameEndExact(s, i + 1, i + 1 + |name|);
  }

  lemma NumberComplete(s: string, i: nat, number: string)
    requires IsNumber(number) && TextAt(s, i, number) && (i + |number| < |s| ==> !IsDigit(s[i + |number|]))
    ensures ParseNumber(s, i) == Ok(number, i + |number|)
  {
    var j := i + |number|;
    assert s[i] == number[0] && s[i..j][1..] == s[i + 1..j];
    assert s[i] == '-' ==> s[i + 1] == number[1];
    DigitsEndExact(s, if CharAt(s, i, '-') then i + 1 else i, j);
  }

  lemma MemberComplete(s: string, i: nat, m: Member)
    requires i <= |s| && IsMember(m) && SpellsMember(s, i, m)
    requires i + MemberLen(m) < |s| ==> !IsDigit(s[i + MemberLen(m)])
    ensures ParseMember(s, i) == Ok(m, i + MemberLen(m))
  {
    QuotedComplete(s, i, m.name);
    NumberComplete(s, i + |m.name| + 3, m.number);
  }

  lemma ParseMembersStep(s: string, i: nat, ms: Members, end: nat)
    requires i <= |s| && ParseMember(s, i) == Ok(ms.first, i + MemberLen(ms.first))
    requires end == i + MembersLen(ms) && (ms.One? ==> !CharAt(s, end, ','))
    requires ms.More? ==> var comma := i + MemberLen(ms.first);
                          CharAt(s, comma, ',') && ParseMembers(s, comma + 1) == Ok(ms.others, end)
    ensures ParseMembers(s, i) == Ok(ms, end)
  {
  }

  lemma {:induction false} MembersComplete(s: string, i: nat, ms: Members, end: nat)
    requires i <= |s| && AreMembers(ms) && SpellsMembers(s, i, ms) && end == i + MembersLen(ms)
    requires end < |s| && !IsDigit(s[end]) && s[end] != ','
    ensures ParseMembers(s, i) == Ok(ms, end)
    decreases ms
  {
    var comma := i + MemberLen(ms.first);
    assert comma < |s| && !IsDigit(s[comma]);
    MemberComplete(s, i, ms.first);
    if ms.More? {
      MembersComplete(s, comma + 1, ms.others, end);
    }
    ParseMembersStep(s, i, ms, end);
  }

  lemma ObjectComplete(s: string, i: nat, o: Object)
    requires i <= |s| && IsObject(o) && SpellsObject(s, i, o)
    ensures ParseObject(s, i) == Ok(o, i + ObjectLen(o))
  {
    if o.Object? {
      assert s[i + 1] == '"';
      MembersComplete(s, i + 1, o.members, i + ObjectLen(o) - 1);
    }
  }

  lemma {:induction false} LinesComplete(s: string, i: nat, lines: Lines)
    requires i <= |s| && AreObjects(lines) && SpellsLines(s, i, lines)
    ensures ParseLines(s, i) == Ok(lines, |s|)
    decreases lines
  {
    if lines.Line? {
      ObjectComplete(s, i, lines.head);
      LinesComplete(s, i + ObjectLen(lines.head) + 1, lines.others);
    }
  }

  /** The parser decides the grammar and inverts it: acceptance and the syntax returned are both exact. */
  lemma ParserIsExact(s: string, lines: Lines)
    ensures ParseLines(s, 0) == Ok(lines, |s|) <==> AreObjects(lines) && SpellsLines(s, 0, lines)
  {
    if ParseLines(s, 0).Ok? {
      LinesSound(s, 0);
    }
    if AreObjects(lines) && SpellsLines(s, 0, lines) {
      LinesComplete(s, 0, lines);
    }
  }

  /** A decimal integer is a number of the grammar and denotes itself. */
  lemma DecIntIsNumber(v: int)
    ensures IsNumber(DecInt(v)) && NumberValue(DecInt(v)) == v
  {
    DecMeaning(if v < 0 then -v else v);
    if v < 0 {
      assert DecInt(v)[1..] == Dec(-v);
    }
  }
}
