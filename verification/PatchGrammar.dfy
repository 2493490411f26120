/** Which lines of a patch are hunk headers, told from their text. */
module PatchGrammar {
  import opened Sequences
  import opened Utf16
  import opened TextLines
  import opened DecimalText
  import opened PatchFormat
  import opened UnifiedPatch

  ghost predicate AllDigits(t: Text) { t != [] && forall i | 0 <= i < |t| :: IsDigit(t[i]) }

  /** A range as written: a number and, behind a comma, a count. */
  datatype Written = Written(start: Text, count: Option<Text>)

  ghost predicate IsWritten(range: Written) { AllDigits(range.start) && (range.count.Some? ==> AllDigits(range.count.value)) }

  ghost function WrittenText(range: Written): Text {
    range.start + if range.count.Some? then [COMMA] + range.count.value else []
  }

  /** A count that is left out is one. */
  ghost function CountOf(range: Written): nat
    requires IsWritten(range)
  {
    if range.count.Some? then Value(range.count.value) else 1
  }

  ghost function HeaderLine(from: Written, to: Written, rest: Text): Text {
    Ascii("@@ -") + (WrittenText(from) + (Ascii(" +") + (WrittenText(to) + (Ascii(" @@") + (rest + [NEWLINE])))))
  }

  /** A number is read up to the first unit that is no digit. */
  lemma NumberScans(digits: Text, rest: Text)
    requires AllDigits(digits) && (rest == [] || !IsDigit(rest[0]))
    ensures ScanNumber(digits + rest) == Some(Scan(Value(digits), rest))
  {
    var t := digits + rest;
    var n := Digits(t);
    assert forall i | 0 <= i < |digits| :: t[i] == digits[i];
    if rest != [] { assert t[|digits|] == rest[0]; }
    assert n == |digits|;
    assert t[..|digits|] == digits && t[|digits|..] == rest;
  }

  lemma NumberScanned(t: Text)
    requires ScanNumber(t).Some?
    ensures var n := Digits(t);
            AllDigits(t[..n]) && t == t[..n] + t[n..] && ScanNumber(t).value == Scan(Value(t[..n]), t[n..]) && (t[n..] == [] || !IsDigit(t[n..][0]))
  {}

  lemma RangeScans(range: Written, rest: Text)
    requires IsWritten(range) && rest != [] && !IsDigit(rest[0]) && rest[0] != COMMA
    ensures ScanRange(WrittenText(range) + rest) == Some((Value(range.start), CountOf(range), rest))
  {
    hide ScanNumber, Value, AllDigits;
    if range.count.None? {
      assert WrittenText(range) + rest == range.start + rest;
      NumberScans(range.start, rest);
    } else {
      var tail := [COMMA] + (range.count.value + rest);
      assert WrittenText(range) + rest == range.start + tail;
      NumberScans(range.start, tail);
      assert tail[1..] == range.count.value + rest;
      NumberScans(range.count.value, rest);
    }
  }

  lemma RangeScanned(t: Text) returns (range: Written)
    requires ScanRange(t).Some?
    ensures var (start, count, rest) := ScanRange(t).value;
            IsWritten(range) && t == WrittenText(range) + rest && start == Value(range.start) && count == CountOf(range)
  {
    hide Value, AllDigits;
    var n := Digits(t);
    NumberScanned(t);
    var start, rest := t[..n], t[n..];
    if rest != [] && rest[0] == COMMA && ScanNumber(rest[1..]).Some? {
      var tail := rest[1..];
      var k := Digits(tail);
      NumberScanned(tail);
      range := Written(start, Some(tail[..k]));
      assert rest == [COMMA] + tail;
      Regroup(start, [COMMA], tail[..k], tail[k..]);
    } else {
      range := Written(start, None);
      assert start + [] == start;
    }
  }

  lemma Regroup(a: Text, b: Text, c: Text, d: Text)
    ensures a + (b + (c + d)) == a + (b + c) + d
  {}

  lemma AfterText(t: Text, literal: Text)
    requires After(t, literal).Some?
    ensures t == literal + After(t, literal).value
  {}

  lemma Literals()
    ensures Ascii("@@ -") == HUNK_OPEN && Ascii(" +") == HUNK_NEW && Ascii(" @@") == HUNK_CLOSE
  {}

  lemma Closes(rest: Text)
    ensures ClosesHeader(HUNK_CLOSE + (rest + [NEWLINE])) <==> NEWLINE !in rest
  {
    AfterLiteral(HUNK_CLOSE, rest + [NEWLINE]);
    var t := rest + [NEWLINE];
    var at := Find(t, NEWLINE, 0);
    if NEWLINE in rest {
      var i :| 0 <= i < |rest| && rest[i] == NEWLINE;
      assert t[i] == NEWLINE;
    } else {
      assert t[|rest|] == NEWLINE;
      assert forall i | 0 <= i < |rest| :: t[i] == rest[i];
    }
  }

  /** Every line of that shape whose numbers are exact is a header with its numbers. */
  lemma HeaderReads(from: Written, to: Written, rest: Text)
    requires IsWritten(from) && IsWritten(to) && NEWLINE !in rest
    requires Safe(Value(from.start)) && Safe(CountOf(from)) && Safe(Value(to.start)) && Safe(CountOf(to))
    ensures ScanHeader(HeaderLine(from, to, rest)) == Some(Hunk(Value(from.start), CountOf(from), Value(to.start), CountOf(to), []))
  {
    hide After, ScanRange, ClosesHeader, Safe, WrittenText, Value, Ascii;
    Literals();
    var t3 := HUNK_CLOSE + (rest + [NEWLINE]);
    var t2 := WrittenText(to) + t3;
    var t1 := HUNK_NEW + t2;
    var t0 := WrittenText(from) + t1;
    AfterLiteral(HUNK_OPEN, t0);
    RangeScans(from, t1);
    AfterLiteral(HUNK_NEW, t2);
    RangeScans(to, t3);
    Closes(rest);
    ScanHeaderParts(Hunk(Value(from.start), CountOf(from), Value(to.start), CountOf(to), []), HeaderLine(from, to, rest), t0, t1, t2, t3);
  }

  /** And every header is of that shape, with exact numbers. */
  lemma HeaderIsWritten(line: Text) returns (from: Written, to: Written, rest: Text)
    requires ScanHeader(line).Some?
    ensures IsWritten(from) && IsWritten(to) && NEWLINE !in rest && line == HeaderLine(from, to, rest)
    ensures ScanHeader(line).value == Hunk(Value(from.start), CountOf(from), Value(to.start), CountOf(to), [])
    ensures Safe(Value(from.start)) && Safe(CountOf(from)) && Safe(Value(to.start)) && Safe(CountOf(to))
  {
    hide After, ScanRange, WrittenText, Value, Ascii, IsWritten;
    Literals();
    var t0 := After(line, HUNK_OPEN).value;
    AfterText(line, HUNK_OPEN);
    var t1 := ScanRange(t0).value.2;
    from := RangeScanned(t0);
    var t2 := After(t1, HUNK_NEW).value;
    AfterText(t1, HUNK_NEW);
    var t3 := ScanRange(t2).value.2;
    to := RangeScanned(t2);
    var closing := After(t3, HUNK_CLOSE).value;
    AfterText(t3, HUNK_CLOSE);
    rest := closing[..|closing| - 1];
    assert closing == rest + [NEWLINE];
    Closes(rest);
  }

  /** The sign in front of a hunk line is the one its kind prints, and there are no others. */
  lemma SignIsMark(unit: Unit)
    ensures KindOf(unit) == if unit == ' ' as int then Some(Context) else if unit == '-' as int then Some(Delete)
                            else if unit == '+' as int then Some(Insert) else None
    ensures KindOf(unit).Some? ==> Mark(KindOf(unit).value) == unit
  {}
}
