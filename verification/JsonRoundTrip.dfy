/** Reading a written JSON value gives it back (sections 4 to 7 of RFC 8259). */
module JsonRoundTrip {
  import opened Sequences
  import opened Utf16
  import opened DecimalText
  import opened JsonText

  predicate Blank(t: Text) { forall i | 0 <= i < |t| :: IsSpace(t[i]) }

  /** What can follow a value. */
  predicate Closes(unit: int) { IsSpace(unit) || unit == ',' as int || unit == ']' as int || unit == '}' as int }

  predicate Closed(s: Source, at: nat) { at == |s.text| || (at < |s.text| && Closes(s.text[at])) }

  /** A complete number that the reader keeps as it is. */
  predicate Spelled(respell: Text -> Text, literal: Text) {
    Source(literal, respell).NumberEnd(0) == Some(|literal|) && (HasExponent(literal) ==> respell(literal) == literal)
  }

  predicate Distinct(members: seq<Member>) {
    forall i, j | 0 <= i < j < |members| :: members[i].key != members[j].key
  }

  /** Numbers that are kept, keys that differ, and no more nesting than the reader takes. */
  predicate Readable(respell: Text -> Text, value: Json, depth: nat) {
    && depth < MAX_DEPTH
    && match value
       case Number(literal) => Spelled(respell, literal)
       case Array(items) => forall i | 0 <= i < |items| :: Readable(respell, items[i], depth + 1)
       case Object(members) =>
         Distinct(members) && forall i | 0 <= i < |members| :: Readable(respell, members[i].value, depth + 1)
       case _ => true
  }

  lemma {:induction false} SkipBlank(s: Source, at: nat, blank: Text)
    requires StartsWith(s.text, at, blank) && Blank(blank)
    ensures s.SkipSpace(at) == s.SkipSpace(at + |blank|)
    decreases |blank|
  {
    if blank != [] {
      assert s.text[at + 0] == blank[0];
      assert StartsWith(s.text, at + 1, blank[1..]) by {
        forall k | 0 <= k < |blank| - 1 ensures s.text[at + 1 + k] == blank[1..][k] { assert s.text[at + (k + 1)] == blank[k + 1]; }
      }
      SkipBlank(s, at + 1, blank[1..]);
    }
  }

  /** Digits end where they do in the literal alone. */
  lemma {:induction false} DigitsShift(s: Source, n: Source, at: nat, i: nat)
    requires StartsWith(s.text, at, n.text) && i <= |n.text| && Closed(s, at + |n.text|)
    ensures s.SkipDigits(at + i) == at + n.SkipDigits(i)
    decreases |n.text| - i
  {
    if i < |n.text| {
      assert s.text[at + i] == n.text[i];
      if IsDigit(n.text[i]) { DigitsShift(s, n, at, i + 1); }
    }
  }

  lemma IntegerShift(s: Source, n: Source, at: nat)
    requires StartsWith(s.text, at, n.text) && Closed(s, at + |n.text|) && n.IntegerEnd(0).Some?
    ensures s.IntegerEnd(at) == Some(at + n.IntegerEnd(0).value)
  {
    assert s.text[at + 0] == n.text[0];
    var first := if n.Has(0, '-' as int) then 1 else 0;
    assert s.text[at + first] == n.text[first];
    DigitsShift(s, n, at, first + 1);
  }

  lemma FractionShift(s: Source, n: Source, at: nat, i: nat)
    requires StartsWith(s.text, at, n.text) && Closed(s, at + |n.text|) && i <= |n.text|
    ensures s.FractionEnd(at + i) == at + n.FractionEnd(i)
  {
    if i < |n.text| { assert s.text[at + i] == n.text[i]; }
    if i + 1 < |n.text| {
      assert s.text[at + (i + 1)] == n.text[i + 1];
      DigitsShift(s, n, at, i + 2);
    }
  }

  lemma ExponentShift(s: Source, n: Source, at: nat, i: nat)
    requires StartsWith(s.text, at, n.text) && Closed(s, at + |n.text|) && i <= |n.text|
    ensures s.ExponentEnd(at + i) == at + n.ExponentEnd(i)
  {
    if i < |n.text| { assert s.text[at + i] == n.text[i]; }
    if i + 1 < |n.text| { assert s.text[at + (i + 1)] == n.text[i + 1]; }
    if i + 2 < |n.text| { assert s.text[at + (i + 2)] == n.text[i + 2]; }
    var first := if n.Has(i + 1, '+' as int) || n.Has(i + 1, '-' as int) then i + 2 else i + 1;
    if first < |n.text| { DigitsShift(s, n, at, first + 1); }
  }

  lemma NumberShift(s: Source, n: Source, at: nat)
    requires StartsWith(s.text, at, n.text) && Closed(s, at + |n.text|) && n.NumberEnd(0) == Some(|n.text|)
    ensures s.NumberEnd(at) == Some(at + |n.text|)
  {
    hide Source.IntegerEnd, Source.FractionEnd, Source.ExponentEnd, StartsWith, Closed;
    IntegerShift(s, n, at);
    var i := n.IntegerEnd(0).value;
    FractionShift(s, n, at, i);
    ExponentShift(s, n, at, n.FractionEnd(i));
  }

  lemma NumberStarts(respell: Text -> Text, literal: Text)
    requires Spelled(respell, literal)
    ensures literal != [] && (literal[0] == '-' as int || IsDigit(literal[0]))
  {
    hide Source.FractionEnd, Source.ExponentEnd, Source.SkipDigits;
    assert Source(literal, respell).IntegerEnd(0).Some?;
  }

  /** A complete number is read to its end wherever it stands. */
  lemma NumberReads(s: Source, at: nat, literal: Text)
    requires StartsWith(s.text, at, literal) && Closed(s, at + |literal|) && Spelled(s.respell, literal)
    ensures s.ReadNumber(at) == Ok(Read(Number(literal), at + |literal|))
  {
    hide Source.NumberEnd, Closed;
    NumberShift(s, Source(literal, s.respell), at);
    assert s.text[at..at + |literal|] == literal;
  }

  /** A written unit is read back, and the string goes on. */
  lemma UnitReads(s: Source, at: nat, unit: Unit)
    requires StartsWith(s.text, at, Escaped(unit))
    ensures s.ReadUnits(at) == Source.Before([unit], s.ReadUnits(at + |Escaped(unit)|))
  {
    var e := Escaped(unit);
    assert s.text[at + 0] == e[0];
    if |e| > 1 { assert s.text[at + 1] == e[1]; }
    if |e| == 6 {
      assert s.text[at + 2] == e[2] && s.text[at + 3] == e[3] && s.text[at + 4] == e[4] && s.text[at + 5] == e[5];
      assert s.ReadEscape(at) == Ok(Read(unit, at + 6));
    }
  }

  lemma QuoteReads(s: Source, at: nat)
    requires StartsWith(s.text, at, [QUOTE])
    ensures s.Has(at, QUOTE) && s.ReadUnits(at) == Ok(Read([], at + 1))
  {
    assert s.text[at + 0] == [QUOTE][0];
  }

  lemma {:induction false} UnitsRead(s: Source, at: nat, t: Text)
    requires StartsWith(s.text, at, WriteUnits(t))
    ensures s.ReadUnits(at) == Ok(Read(t, at + |WriteUnits(t)|))
    decreases |t|
  {
    hide Source.ReadUnits, StartsWith, Escaped;
    if t == [] {
      QuoteReads(s, at);
    } else {
      StartsWithAppend(s.text, at, Escaped(t[0]), WriteUnits(t[1..]));
      UnitReads(s, at, t[0]);
      UnitsRead(s, at + |Escaped(t[0])|, t[1..]);
      assert [t[0]] + t[1..] == t;
    }
  }

  /** A written string is read back. */
  lemma StringReads(s: Source, at: nat, t: Text)
    requires StartsWith(s.text, at, WriteString(t))
    ensures s.ReadString(at) == Ok(Read(t, at + |WriteString(t)|)) && s.Has(at, QUOTE)
  {
    hide Source.ReadUnits, StartsWith;
    StartsWithAppend(s.text, at, [QUOTE], WriteUnits(t));
    QuoteReads(s, at);
    UnitsRead(s, at + 1, t);
  }

  lemma Five(t: Text, at: nat, a: Text, b: Text, c: Text, d: Text, e: Text)
    requires StartsWith(t, at, a + b + c + d + e)
    ensures StartsWith(t, at, a) && StartsWith(t, at + |a|, b) && StartsWith(t, at + |a| + |b|, c)
    ensures StartsWith(t, at + |a| + |b| + |c|, d) && StartsWith(t, at + |a| + |b| + |c| + |d|, e)
  {
    hide StartsWith;
    StartsWithAppend(t, at, a + b + c + d, e);
    StartsWithAppend(t, at, a + b + c, d);
    StartsWithAppend(t, at, a + b, c);
    StartsWithAppend(t, at, a, b);
  }

  /** A character is where it was written. */
  lemma OneUnit(s: Source, at: nat, unit: Unit)
    requires StartsWith(s.text, at, [unit])
    ensures s.Has(at, unit)
    ensures !IsSpace(unit) ==> s.SkipSpace(at) == at
    ensures Closes(unit) ==> Closed(s, at)
  {
    assert s.text[at + 0] == [unit][0];
  }

  /** A break is skipped, and can follow a value. */
  lemma BreakReads(s: Source, at: nat, indent: Option<Text>, current: Text, close: Unit)
    requires StartsWith(s.text, at, Break(indent, current)) && Blank(current)
    requires s.Has(at + |Break(indent, current)|, close) && !IsSpace(close)
    ensures s.SkipSpace(at) == at + |Break(indent, current)|
    ensures Closes(close) ==> Closed(s, at)
  {
    var b := Break(indent, current);
    SkipBlank(s, at, b);
    if b != [] { assert s.text[at + 0] == b[0]; }
  }

  /** What a value is written with first. */
  lemma {:induction false} WrittenFirst(respell: Text -> Text, value: Json, indent: Option<Text>, current: Text, depth: nat)
    requires Readable(respell, value, depth)
    ensures var t := Write(value, indent, current); t != [] && !IsSpace(t[0]) && t[0] != ']' as int
  {
    if value.Number? { NumberStarts(respell, value.literal); }
  }

  lemma {:induction false} ItemsFirst(respell: Text -> Text, items: seq<Json>, indent: Option<Text>, current: Text, depth: nat)
    requires items != [] && Readable(respell, items[0], depth)
    ensures var t := WriteItems(items, indent, current); t != [] && !IsSpace(t[0]) && t[0] != ']' as int
  {
    WrittenFirst(respell, items[0], indent, current, depth);
  }

  lemma FirstUnit(s: Source, at: nat, t: Text)
    requires StartsWith(s.text, at, t) && t != []
    ensures s.Has(at, t[0])
  {
    assert s.text[at + 0] == t[0];
  }

  /** Leading space makes no difference. */
  lemma SpaceBeforeValue(s: Source, a: nat, b: nat, depth: nat)
    requires a <= |s.text| && b <= |s.text| && s.SkipSpace(a) == s.SkipSpace(b)
    ensures s.ReadValue(a, depth) == s.ReadValue(b, depth)
  {
    hide Source.ReadItems, Source.ReadMembers, Source.ReadString, Source.ReadNumber, Source.HasWord, Source.SkipSpace;
  }

  lemma SpaceBeforeItems(s: Source, a: nat, b: nat, depth: nat)
    requires a <= |s.text| && b <= |s.text| && s.SkipSpace(a) == s.SkipSpace(b)
    ensures s.ReadItems(a, depth) == s.ReadItems(b, depth)
  {
    hide Source.ReadValue, Source.SkipSpace;
    SpaceBeforeValue(s, a, b, depth);
  }

  lemma SpaceBeforeMembers(s: Source, a: nat, b: nat, depth: nat, members: seq<Member>)
    requires a <= |s.text| && b <= |s.text| && s.SkipSpace(a) == s.SkipSpace(b)
    ensures s.ReadMembers(a, depth, members) == s.ReadMembers(b, depth, members)
  {
    hide Source.ReadValue, Source.SkipSpace, Source.ReadString;
  }

  lemma WordReads(s: Source, value: Json, at: nat, depth: nat)
    requires depth < MAX_DEPTH && (value.Null? || value.Bool?) && StartsWith(s.text, at, Write(value, None, []))
    ensures s.ReadValue(at, depth) == Ok(Read(value, at + |Write(value, None, [])|))
  {
    var word := Write(value, None, []);
    FirstUnit(s, at, word);
    assert s.SkipSpace(at) == at;
    if value == Bool(false) { assert s.text[at + 0] != TRUE[0]; }
    if value == Null { assert s.text[at + 0] != TRUE[0] && s.text[at + 0] != FALSE[0]; }
  }

  lemma NumberValue(s: Source, literal: Text, at: nat, depth: nat)
    requires depth < MAX_DEPTH && StartsWith(s.text, at, literal) && Closed(s, at + |literal|) && Spelled(s.respell, literal)
    ensures s.ReadValue(at, depth) == Ok(Read(Number(literal), at + |literal|))
  {
    hide Source.ReadNumber, Spelled, Closed;
    NumberStarts(s.respell, literal);
    FirstUnit(s, at, literal);
    assert s.SkipSpace(at) == at;
    assert !s.HasWord(at, TRUE) by { if s.HasWord(at, TRUE) { FirstUnit(s, at, TRUE); } }
    assert !s.HasWord(at, FALSE) by { if s.HasWord(at, FALSE) { FirstUnit(s, at, FALSE); } }
    assert !s.HasWord(at, NULL) by { if s.HasWord(at, NULL) { FirstUnit(s, at, NULL); } }
    NumberReads(s, at, literal);
  }

  lemma StringValue(s: Source, t: Text, at: nat, depth: nat)
    requires depth < MAX_DEPTH && StartsWith(s.text, at, WriteString(t))
    ensures s.ReadValue(at, depth) == Ok(Read(String(t), at + |WriteString(t)|))
  {
    StringReads(s, at, t);
    hide Source.ReadString, WriteString, StartsWith;
    assert s.SkipSpace(at) == at;
  }

  /** An array is its items between brackets. */
  lemma ArrayValue(s: Source, items: seq<Json>, at: nat, first: nat, end: nat, depth: nat)
    requires depth < MAX_DEPTH && s.Has(at, '[' as int) && s.SkipSpace(at + 1) == first && !s.Has(first, ']' as int)
    requires s.ReadItems(first, depth + 1) == Ok(Read(items, end))
    ensures s.ReadValue(at, depth) == Ok(Read(Array(items), end))
  {
    hide Source.ReadItems;
    assert s.SkipSpace(at) == at;
  }

  lemma ObjectValue(s: Source, members: seq<Member>, at: nat, first: nat, end: nat, depth: nat)
    requires depth < MAX_DEPTH && s.Has(at, '{' as int) && s.SkipSpace(at + 1) == first && !s.Has(first, '}' as int)
    requires s.ReadMembers(first, depth + 1, []) == Ok(Read(members, end))
    ensures s.ReadValue(at, depth) == Ok(Read(Object(members), end))
  {
    hide Source.ReadMembers;
    assert s.SkipSpace(at) == at;
  }

  lemma EmptyValue(s: Source, value: Json, at: nat, depth: nat)
    requires depth < MAX_DEPTH && (value == Array([]) || value == Object([])) && StartsWith(s.text, at, Write(value, None, []))
    ensures s.ReadValue(at, depth) == Ok(Read(value, at + 2))
  {
    var t := Write(value, None, []);
    assert s.text[at + 0] == t[0] && s.text[at + 1] == t[1];
    assert s.SkipSpace(at) == at && s.SkipSpace(at + 1) == at + 1;
  }

  /** One item, a comma, and the rest. */
  lemma ItemsStep(s: Source, item: Json, rest: seq<Json>, at: nat, comma: nat, end: nat, depth: nat)
    requires at <= |s.text| && s.ReadValue(at, depth) == Ok(Read(item, comma)) && s.Has(comma, ',' as int)
    requires s.ReadItems(comma + 1, depth) == Ok(Read(rest, end))
    ensures s.ReadItems(at, depth) == Ok(Read([item] + rest, end))
  {
    hide Source.ReadValue;
    assert s.SkipSpace(comma) == comma;
  }

  lemma ItemsEnd(s: Source, item: Json, at: nat, after: nat, close: nat, depth: nat)
    requires at <= |s.text| && s.ReadValue(at, depth) == Ok(Read(item, after))
    requires after <= |s.text| && s.SkipSpace(after) == close && s.Has(close, ']' as int)
    ensures s.ReadItems(at, depth) == Ok(Read([item], close + 1))
  {
    hide Source.ReadValue, Source.SkipSpace;
  }

  /** One member, a comma, and the rest. */
  lemma MembersStep(s: Source, before: seq<Member>, member: Member, all: seq<Member>, at: nat, colon: nat, comma: nat, end: nat, depth: nat)
    requires at <= |s.text| && s.Has(at, QUOTE)
    requires s.ReadString(at) == Ok(Read(member.key, colon)) && s.Has(colon, ':' as int)
    requires s.ReadValue(colon + 1, depth) == Ok(Read(member.value, comma)) && s.Has(comma, ',' as int)
    requires s.ReadMembers(comma + 1, depth, Put(before, member.key, member.value)) == Ok(Read(all, end))
    ensures s.ReadMembers(at, depth, before) == Ok(Read(all, end))
  {
    hide Source.ReadValue, Source.ReadString, Put;
    assert s.SkipSpace(at) == at && s.SkipSpace(colon) == colon && s.SkipSpace(comma) == comma;
  }

  lemma MembersEnd(s: Source, before: seq<Member>, member: Member, at: nat, colon: nat, after: nat, close: nat, depth: nat)
    requires at <= |s.text| && s.Has(at, QUOTE)
    requires s.ReadString(at) == Ok(Read(member.key, colon)) && s.Has(colon, ':' as int)
    requires s.ReadValue(colon + 1, depth) == Ok(Read(member.value, after))
    requires after <= |s.text| && s.SkipSpace(after) == close && s.Has(close, '}' as int)
    ensures s.ReadMembers(at, depth, before) == Ok(Read(Put(before, member.key, member.value), close + 1))
  {
    hide Source.ReadValue, Source.ReadString, Put;
    assert s.SkipSpace(at) == at && s.SkipSpace(colon) == colon;
    assert !s.Has(close, ',' as int);
  }

  /** A key that is not there yet goes to the end. */
  lemma {:induction false} PutNew(members: seq<Member>, member: Member)
    requires Distinct(members + [member])
    ensures Put(members, member.key, member.value) == members + [member]
  {
    if members != [] {
      var all := members + [member];
      assert all[0].key != all[|members|].key;
      assert (members[1..] + [member]) == all[1..];
      PutNew(members[1..], member);
    }
  }

  predicate Indents(indent: Option<Text>, current: Text) { (indent.Some? ==> Blank(indent.value)) && Blank(current) }

  /** A written value is read back from wherever it stands. */
  lemma {:induction false} ValueReads(s: Source, value: Json, indent: Option<Text>, current: Text, at: nat, depth: nat)
    requires Readable(s.respell, value, depth) && Indents(indent, current)
    requires StartsWith(s.text, at, Write(value, indent, current)) && Closed(s, at + |Write(value, indent, current)|)
    ensures s.ReadValue(at, depth) == Ok(Read(value, at + |Write(value, indent, current)|))
    decreases value, 0
  {
    hide Source.ReadValue, StartsWith, Closed, Blank;
    match value
    case Null => WordReads(s, value, at, depth);
    case Bool(_) => WordReads(s, value, at, depth);
    case Number(literal) => NumberValue(s, literal, at, depth);
    case String(t) => StringValue(s, t, at, depth);
    case Array(items) =>
      if items == [] { EmptyValue(s, value, at, depth); } else { ArrayReads(s, items, indent, current, at, depth); }
    case Object(members) =>
      if members == [] { EmptyValue(s, value, at, depth); } else { ObjectReads(s, members, indent, current, at, depth); }
  }

  lemma {:induction false} ArrayReads(s: Source, items: seq<Json>, indent: Option<Text>, current: Text, at: nat, depth: nat)
    requires items != [] && Readable(s.respell, Array(items), depth) && Indents(indent, current)
    requires StartsWith(s.text, at, Write(Array(items), indent, current))
    ensures s.ReadValue(at, depth) == Ok(Read(Array(items), at + |Write(Array(items), indent, current)|))
    decreases items, 2
  {
    hide Source.ReadValue, Source.ReadItems, Source.SkipSpace, StartsWith, Closed, Blank, Break, WriteItems;
    var inner := Inner(indent, current);
    InnerIndents(indent, current);
    var open, body, close := Break(indent, inner), WriteItems(items, indent, inner), Break(indent, current);
    Five(s.text, at, ['[' as int], open, body, close, [']' as int]);
    var first := at + 1 + |open|;
    var after := first + |body|;
    OneUnit(s, at, '[' as int);
    OneUnit(s, after + |close|, ']' as int);
    ItemsFirst(s.respell, items, indent, inner, depth + 1);
    FirstUnit(s, first, body);
    BreakReads(s, at + 1, indent, inner, body[0]);
    BreakReads(s, after, indent, current, ']' as int);
    ItemsRead(s, items, indent, inner, first, after + |close|, depth + 1);
    ArrayValue(s, items, at, first, after + |close| + 1, depth);
  }

  lemma InnerIndents(indent: Option<Text>, current: Text)
    requires Indents(indent, current)
    ensures Indents(indent, Inner(indent, current))
  {}

  lemma {:induction false} ItemsRead(s: Source, items: seq<Json>, indent: Option<Text>, current: Text, at: nat, close: nat, depth: nat)
    requires items != [] && Indents(indent, current)
    requires forall i | 0 <= i < |items| :: Readable(s.respell, items[i], depth)
    requires StartsWith(s.text, at, WriteItems(items, indent, current))
    requires var after := at + |WriteItems(items, indent, current)|;
             after <= |s.text| && Closed(s, after) && s.SkipSpace(after) == close && s.Has(close, ']' as int)
    ensures s.ReadItems(at, depth) == Ok(Read(items, close + 1))
    decreases items, 1
  {
    hide Source.ReadValue, Source.ReadItems, Source.SkipSpace, StartsWith, Closed, Blank, Break, Write, Readable;
    var first := Write(items[0], indent, current);
    var comma := at + |first|;
    if |items| == 1 {
      ValueReads(s, items[0], indent, current, at, depth);
      ItemsEnd(s, items[0], at, comma, close, depth);
      assert items == [items[0]];
    } else {
      var rest := items[1..];
      var gap, body := Break(indent, current), WriteItems(rest, indent, current);
      assert first + [',' as int] + gap + body + [] == WriteItems(items, indent, current);
      Five(s.text, at, first, [',' as int], gap, body, []);
      OneUnit(s, comma, ',' as int);
      ValueReads(s, items[0], indent, current, at, depth);
      ItemsRead(s, rest, indent, current, comma + 1 + |gap|, close, depth);
      ItemsFirst(s.respell, rest, indent, current, depth);
      FirstUnit(s, comma + 1 + |gap|, body);
      BreakReads(s, comma + 1, indent, current, body[0]);
      NonSpace(s, comma + 1 + |gap|, body[0]);
      SpaceBeforeItems(s, comma + 1, comma + 1 + |gap|, depth);
      ItemsStep(s, items[0], rest, at, comma, close + 1, depth);
      assert items == [items[0]] + rest;
    }
  }

  lemma NonSpace(s: Source, at: nat, unit: int)
    requires s.Has(at, unit) && !IsSpace(unit)
    ensures s.SkipSpace(at) == at
  {}

  lemma {:induction false} ObjectReads(s: Source, members: seq<Member>, indent: Option<Text>, current: Text, at: nat, depth: nat)
    requires members != [] && Readable(s.respell, Object(members), depth) && Indents(indent, current)
    requires StartsWith(s.text, at, Write(Object(members), indent, current))
    ensures s.ReadValue(at, depth) == Ok(Read(Object(members), at + |Write(Object(members), indent, current)|))
    decreases members, 3
  {
    hide Source.ReadValue, Source.ReadMembers, Source.SkipSpace, StartsWith, Closed, Blank, Break, WriteMembers;
    var inner := Inner(indent, current);
    InnerIndents(indent, current);
    var open, body, close := Break(indent, inner), WriteMembers(members, indent, inner), Break(indent, current);
    Five(s.text, at, ['{' as int], open, body, close, ['}' as int]);
    var first := at + 1 + |open|;
    var after := first + |body|;
    OneUnit(s, at, '{' as int);
    OneUnit(s, after + |close|, '}' as int);
    MembersFirst(members, indent, inner);
    FirstUnit(s, first, body);
    BreakReads(s, at + 1, indent, inner, QUOTE);
    BreakReads(s, after, indent, current, '}' as int);
    assert [] + members == members;
    MembersRead(s, [], members, indent, inner, first, after + |close|, depth + 1);
    ObjectValue(s, members, at, first, after + |close| + 1, depth);
  }

  lemma MembersFirst(members: seq<Member>, indent: Option<Text>, current: Text)
    requires members != []
    ensures var t := WriteMembers(members, indent, current); t != [] && t[0] == QUOTE
  {}

  /** The key of a written member, and its colon. */
  lemma KeyReads(s: Source, member: Member, indent: Option<Text>, current: Text, at: nat) returns (colon: nat, value: nat)
    requires StartsWith(s.text, at, WriteMember(member, indent, current))
    ensures s.Has(at, QUOTE) && s.ReadString(at) == Ok(Read(member.key, colon)) && s.Has(colon, ':' as int)
    ensures value + |Write(member.value, indent, current)| == at + |WriteMember(member, indent, current)|
    ensures StartsWith(s.text, value, Write(member.value, indent, current))
    ensures value <= |s.text| && s.SkipSpace(colon + 1) == s.SkipSpace(value)
  {
    hide Source.SkipSpace, StartsWith, Write, WriteString, Source.ReadString;
    var key, space, written := WriteString(member.key), Space(indent), Write(member.value, indent, current);
    assert key + [':' as int] + space + written + [] == WriteMember(member, indent, current);
    Five(s.text, at, key, [':' as int], space, written, []);
    StringReads(s, at, member.key);
    colon, value := at + |key|, at + |key| + 1 + |space|;
    OneUnit(s, colon, ':' as int);
    SkipBlank(s, colon + 1, space);
    Inside(s, value, written);
  }

  lemma Inside(s: Source, at: nat, t: Text)
    requires StartsWith(s.text, at, t)
    ensures at <= |s.text|
  {}

  lemma {:induction false} MembersRead(s: Source, before: seq<Member>, members: seq<Member>, indent: Option<Text>, current: Text,
                                       at: nat, close: nat, depth: nat)
    requires members != [] && Indents(indent, current) && Distinct(before + members)
    requires forall i | 0 <= i < |members| :: Readable(s.respell, members[i].value, depth)
    requires StartsWith(s.text, at, WriteMembers(members, indent, current))
    requires var after := at + |WriteMembers(members, indent, current)|;
             after <= |s.text| && Closed(s, after) && s.SkipSpace(after) == close && s.Has(close, '}' as int)
    ensures s.ReadMembers(at, depth, before) == Ok(Read(before + members, close + 1))
    decreases members, 2
  {
    hide Source.ReadValue, Source.ReadMembers, Source.ReadString, Source.SkipSpace, StartsWith, Closed, Blank, Break, Write,
         WriteMember, Readable, Distinct, Put;
    var member := members[0];
    var first := WriteMember(member, indent, current);
    var comma := at + |first|;
    PutFirst(before, members);
    if |members| == 1 {
      var colon, value := KeyReads(s, member, indent, current, at);
      ValueReads(s, member.value, indent, current, value, depth);
      SpaceBeforeValue(s, colon + 1, value, depth);
      MembersEnd(s, before, member, at, colon, comma, close, depth);
      assert members == [member];
    } else {
      var rest := members[1..];
      var gap, body := Break(indent, current), WriteMembers(rest, indent, current);
      assert first + [',' as int] + gap + body + [] == WriteMembers(members, indent, current);
      Five(s.text, at, first, [',' as int], gap, body, []);
      OneUnit(s, comma, ',' as int);
      var colon, value := KeyReads(s, member, indent, current, at);
      ValueReads(s, member.value, indent, current, value, depth);
      SpaceBeforeValue(s, colon + 1, value, depth);
      MembersRead(s, before + [member], rest, indent, current, comma + 1 + |gap|, close, depth);
      MembersFirst(rest, indent, current);
      FirstUnit(s, comma + 1 + |gap|, body);
      BreakReads(s, comma + 1, indent, current, QUOTE);
      NonSpace(s, comma + 1 + |gap|, QUOTE);
      SpaceBeforeMembers(s, comma + 1, comma + 1 + |gap|, depth, before + [member]);
      MembersStep(s, before, member, before + members, at, colon, comma, close + 1, depth);
    }
  }

  /** The first member is new, and what is read before the rest is it too. */
  lemma PutFirst(before: seq<Member>, members: seq<Member>)
    requires members != [] && Distinct(before + members)
    ensures Put(before, members[0].key, members[0].value) == before + [members[0]]
    ensures before + [members[0]] + members[1..] == before + members
  {
    var all := before + members;
    assert Distinct(before + [members[0]]) by {
      assert before + [members[0]] == all[..|before| + 1];
    }
    PutNew(before, members[0]);
  }

  /** A platform's spelling of a double is a number that it spells the same again. */
  ghost predicate Respells(respell: Text -> Text) {
    forall literal :: Source(literal, respell).NumberEnd(0) == Some(|literal|) && HasExponent(literal) ==>
      Spelled(respell, respell(literal))
  }

  /** Digits that end within a stretch end there in the stretch alone. */
  lemma {:induction false} DigitsCut(s: Source, n: Source, at: nat, i: nat)
    requires StartsWith(s.text, at, n.text) && i <= |n.text| && s.SkipDigits(at + i) <= at + |n.text|
    ensures n.SkipDigits(i) == s.SkipDigits(at + i) - at
    decreases |n.text| - i
  {
    if i < |n.text| {
      assert s.text[at + i] == n.text[i];
      if IsDigit(n.text[i]) { DigitsCut(s, n, at, i + 1); }
    }
  }

  lemma IntegerCut(s: Source, n: Source, at: nat)
    requires StartsWith(s.text, at, n.text) && s.IntegerEnd(at).Some? && s.IntegerEnd(at).value <= at + |n.text|
    ensures n.IntegerEnd(0) == Some(s.IntegerEnd(at).value - at)
  {
    assert s.text[at + 0] == n.text[0];
    var first := if n.Has(0, '-' as int) then 1 else 0;
    assert s.text[at + first] == n.text[first];
    if !s.Has(at + first, '0' as int) { DigitsCut(s, n, at, first + 1); }
  }

  lemma FractionCut(s: Source, n: Source, at: nat, i: nat)
    requires StartsWith(s.text, at, n.text) && i <= |n.text| && s.FractionEnd(at + i) <= at + |n.text|
    ensures n.FractionEnd(i) == s.FractionEnd(at + i) - at
  {
    if i < |n.text| { assert s.text[at + i] == n.text[i]; }
    if i + 1 < |n.text| {
      assert s.text[at + (i + 1)] == n.text[i + 1];
      if n.Has(i, '.' as int) && IsDigit(n.text[i + 1]) { DigitsCut(s, n, at, i + 2); }
    }
  }

  lemma ExponentCut(s: Source, n: Source, at: nat, i: nat)
    requires StartsWith(s.text, at, n.text) && i <= |n.text| && s.ExponentEnd(at + i) == at + |n.text|
    ensures n.ExponentEnd(i) == |n.text|
  {
    if i < |n.text| {
      assert s.text[at + i] == n.text[i];
      if i + 1 < |n.text| { assert s.text[at + (i + 1)] == n.text[i + 1]; }
      var first := if s.Has(at + i + 1, '+' as int) || s.Has(at + i + 1, '-' as int) then i + 2 else i + 1;
      if first < |n.text| {
        assert s.text[at + first] == n.text[first];
        DigitsCut(s, n, at, first + 1);
      }
    }
  }

  /** What the reader takes for a number is a complete one. */
  lemma NumberCut(s: Source, at: nat)
    requires at <= |s.text| && s.NumberEnd(at).Some?
    ensures var literal := s.text[at..s.NumberEnd(at).value]; Source(literal, s.respell).NumberEnd(0) == Some(|literal|)
  {
    hide Source.IntegerEnd, Source.FractionEnd, Source.ExponentEnd;
    var end := s.NumberEnd(at).value;
    var n := Source(s.text[at..end], s.respell);
    var i := s.IntegerEnd(at).value;
    assert i <= s.FractionEnd(i) <= end;
    IntegerCut(s, n, at);
    FractionCut(s, n, at, i - at);
    ExponentCut(s, n, at, s.FractionEnd(i) - at);
  }

  lemma {:induction false} NumberIsReadable(s: Source, at: nat, depth: nat)
    requires Respells(s.respell) && depth < MAX_DEPTH && at <= |s.text| && s.ReadNumber(at).Ok?
    ensures Readable(s.respell, s.ReadNumber(at).value.value, depth)
  {
    hide Source.NumberEnd;
    NumberCut(s, at);
  }

  ghost predicate AllReadable(respell: Text -> Text, values: seq<Json>, depth: nat) {
    forall i | 0 <= i < |values| :: Readable(respell, values[i], depth)
  }

  ghost predicate MembersReadable(respell: Text -> Text, members: seq<Member>, depth: nat) {
    Distinct(members) && forall i | 0 <= i < |members| :: Readable(respell, members[i].value, depth)
  }

  lemma {:induction false} PutKeys(members: seq<Member>, key: Text, value: Json)
    ensures forall i | 0 <= i < |members| :: i < |Put(members, key, value)| && Put(members, key, value)[i].key == members[i].key
    ensures |Put(members, key, value)| == |members| || (|Put(members, key, value)| == |members| + 1
            && Put(members, key, value)[|members|].key == key && forall i | 0 <= i < |members| :: members[i].key != key)
    ensures forall i | 0 <= i < |Put(members, key, value)| :: Put(members, key, value)[i].value == value || (i < |members| && Put(members, key, value)[i] == members[i])
  {
    if members != [] && members[0].key != key { PutKeys(members[1..], key, value); }
  }

  /** Setting a member keeps the keys different. */
  lemma PutReadable(respell: Text -> Text, members: seq<Member>, key: Text, value: Json, depth: nat)
    requires MembersReadable(respell, members, depth) && Readable(respell, value, depth)
    ensures MembersReadable(respell, Put(members, key, value), depth)
  {
    hide Put, Readable;
    PutKeys(members, key, value);
  }

  /** The reader only produces values that can be read. */
  lemma {:induction false} ReadIsReadable(s: Source, at: nat, depth: nat)
    requires Respells(s.respell) && at <= |s.text| && s.ReadValue(at, depth).Ok?
    ensures Readable(s.respell, s.ReadValue(at, depth).value.value, depth)
    decreases |s.text| - at, 1
  {
    hide Respells, Spelled, Source.ReadItems, Source.ReadMembers, Source.ReadString, Source.ReadNumber, StartsWith;
    var start := s.SkipSpace(at);
    if s.text[start] == '{' as int {
      var first := s.SkipSpace(start + 1);
      if !s.Has(first, '}' as int) { MembersAreReadable(s, first, depth + 1, []); }
    } else if s.text[start] == '[' as int {
      var first := s.SkipSpace(start + 1);
      if !s.Has(first, ']' as int) { ItemsAreReadable(s, first, depth + 1); }
    } else if s.text[start] != QUOTE && !s.HasWord(start, TRUE) && !s.HasWord(start, FALSE) && !s.HasWord(start, NULL) {
      NumberIsReadable(s, start, depth);
    }
  }

  lemma {:induction false} ItemsAreReadable(s: Source, at: nat, depth: nat)
    requires Respells(s.respell) && at <= |s.text| && s.ReadItems(at, depth).Ok?
    ensures AllReadable(s.respell, s.ReadItems(at, depth).value.value, depth)
    decreases |s.text| - at, 2
  {
    hide Respells, Readable, Source.ReadValue;
    ReadIsReadable(s, at, depth);
    var next := s.SkipSpace(s.ReadValue(at, depth).value.end);
    if s.Has(next, ',' as int) { ItemsAreReadable(s, next + 1, depth); }
  }

  lemma {:induction false} MembersAreReadable(s: Source, at: nat, depth: nat, members: seq<Member>)
    requires Respells(s.respell) && at <= |s.text| && s.ReadMembers(at, depth, members).Ok?
    requires MembersReadable(s.respell, members, depth)
    ensures MembersReadable(s.respell, s.ReadMembers(at, depth, members).value.value, depth)
    decreases |s.text| - at, 2
  {
    hide Respells, Readable, Source.ReadValue, Source.ReadString, Put, MembersReadable;
    var key := s.ReadString(s.SkipSpace(at)).value;
    var colon := s.SkipSpace(key.end);
    var value := s.ReadValue(colon + 1, depth).value;
    ReadIsReadable(s, colon + 1, depth);
    PutReadable(s.respell, members, key.value, value.value, depth);
    var next := s.SkipSpace(value.end);
    if s.Has(next, ',' as int) { MembersAreReadable(s, next + 1, depth, Put(members, key.value, value.value)); }
  }

  lemma ParseIsReadable(s: Source)
    requires Respells(s.respell) && s.Parse().Ok?
    ensures Readable(s.respell, s.Parse().value, 0)
  {
    hide Readable, Respells, Source.ReadValue;
    ReadIsReadable(s, s.SkipSpace(0), 0);
  }

  /** A written value is a text with that one value exactly when the reader can produce it. */
  lemma RenderParses(respell: Text -> Text, value: Json, indent: Option<Text>)
    requires Respells(respell) && (indent.Some? ==> Blank(indent.value))
    ensures Source(Render(value, indent), respell).Parse() == Ok(value) <==> Readable(respell, value, 0)
  {
    var s := Source(Render(value, indent), respell);
    if Readable(respell, value, 0) {
      ValueReads(s, value, indent, [], 0, 0);
      WrittenFirst(respell, value, indent, [], 0);
      hide Source.ReadValue, Write, Readable;
      NonSpace(s, 0, s.text[0]);
      assert s.ReadAll(|s.text|) == Ok([]);
      assert [value] + [] == [value];
    }
    if s.Parse() == Ok(value) { ParseIsReadable(s); }
  }

  /** Whatever text a value was read from, writing it at any indentation and reading that gives the value again. */
  lemma ReparsesAsRead(s: Source, indent: Option<Text>)
    requires Respells(s.respell) && (indent.Some? ==> Blank(indent.value)) && s.Parse().Ok?
    ensures Source(Render(s.Parse().value, indent), s.respell).Parse() == s.Parse()
  {
    ParseIsReadable(s);
    RenderParses(s.respell, s.Parse().value, indent);
  }
}
