/** The text of a unified patch: how hunks are printed (src/core/line-diff.ts:109-122, 178-191). */
module PatchFormat {
  import opened Sequences
  import opened Utf16
  import opened TextLines
  import opened DecimalText

  datatype LineKind = Context | Delete | Insert

  datatype PatchLine = PatchLine(kind: LineKind, text: Text)

  datatype Hunk = Hunk(oldStart: nat, oldCount: nat, newStart: nat, newCount: nat, lines: seq<PatchLine>)

  const SPACE: Unit := ' ' as int
  const MINUS: Unit := '-' as int
  const PLUS: Unit := '+' as int
  const COMMA: Unit := ',' as int
  const AT: Unit := '@' as int
  const BACKSLASH: Unit := '\\' as int

  /** "--- " and "+++ ", which a patch starts with. */
  const OLD_FILE: Text := [MINUS, MINUS, MINUS, SPACE]
  const NEW_FILE: Text := [PLUS, PLUS, PLUS, SPACE]

  /** "@@ -", " +" and " @@", around the ranges of a hunk. */
  const HUNK_OPEN: Text := [AT, AT, SPACE, MINUS]
  const HUNK_NEW: Text := [SPACE, PLUS]
  const HUNK_CLOSE: Text := [SPACE, AT, AT]
  const HUNK_START: Text := [AT, AT, SPACE]

  /** "\ No newline at end of file". */
  const NO_NEWLINE: Text := [
    BACKSLASH, SPACE, 'N' as int, 'o' as int, SPACE, 'n' as int, 'e' as int, 'w' as int, 'l' as int, 'i' as int, 'n' as int,
    'e' as int, SPACE, 'a' as int, 't' as int, SPACE, 'e' as int, 'n' as int, 'd' as int, SPACE, 'o' as int, 'f' as int, SPACE,
    'f' as int, 'i' as int, 'l' as int, 'e' as int, NEWLINE]

  function Mark(kind: LineKind): Unit {
    match kind
    case Context => SPACE
    case Delete => MINUS
    case Insert => PLUS
  }

  /** The lines a patch line prints: an unterminated one is followed by the marker. */
  function LineText(line: PatchLine): seq<Text> {
    if Ends(line.text) then [[Mark(line.kind)] + line.text]
    else [[Mark(line.kind)] + line.text + [NEWLINE], NO_NEWLINE]
  }

  function LinesText(lines: seq<PatchLine>): seq<Text> {
    if lines == [] then [] else LineText(lines[0]) + LinesText(lines[1..])
  }

  /** A range names its start; the count is left out when it is one. */
  function RangeText(start: nat, count: nat): Text {
    if count == 1 then Decimal(start) else Decimal(start) + [COMMA] + Decimal(count)
  }

  function HeaderText(hunk: Hunk): Text {
    HUNK_OPEN + RangeText(hunk.oldStart, hunk.oldCount) + HUNK_NEW + RangeText(hunk.newStart, hunk.newCount) + HUNK_CLOSE + [NEWLINE]
  }

  function HunkText(hunk: Hunk): seq<Text> { [HeaderText(hunk)] + LinesText(hunk.lines) }

  function HunksText(hunks: seq<Hunk>): seq<Text> {
    if hunks == [] then [] else HunkText(hunks[0]) + HunksText(hunks[1..])
  }

  /** The lines of a patch between two labelled files. */
  function PatchText(from: Text, to: Text, hunks: seq<Hunk>): seq<Text> {
    [OLD_FILE + from + [NEWLINE], NEW_FILE + to + [NEWLINE]] + HunksText(hunks)
  }

  lemma OneLine(line: PatchLine)
    ensures LinesText([line]) == LineText(line)
  {
    assert [line][1..] == [] && LineText(line) + [] == LineText(line);
  }

  lemma TwoLines(first: PatchLine, second: PatchLine)
    ensures LinesText([first, second]) == LineText(first) + LineText(second)
  {
    assert [first, second][1..] == [second];
    OneLine(second);
  }

  lemma PrintedHeader(lines: seq<PatchLine>)
    ensures HeaderText(Hunk(1, 1, 1, 1, lines)) == Ascii("@@ -1 +1 @@\n")
  {
    assert Decimal(1) == ['1' as int];
  }

  /** A line that goes and a line that comes, as they are printed. */
  lemma PrintedChange()
    ensures PatchText(Ascii("a"), Ascii("b"), [Hunk(1, 1, 1, 1, [PatchLine(Delete, Ascii("x\n")), PatchLine(Insert, Ascii("y\n"))])])
         == [Ascii("--- a\n"), Ascii("+++ b\n"), Ascii("@@ -1 +1 @@\n"), Ascii("-x\n"), Ascii("+y\n")]
  {
    hide LinesText, HeaderText;
    var gone, come := PatchLine(Delete, Ascii("x\n")), PatchLine(Insert, Ascii("y\n"));
    TwoLines(gone, come);
    assert [MINUS] + gone.text == Ascii("-x\n") && [PLUS] + come.text == Ascii("+y\n");
    var hunk := Hunk(1, 1, 1, 1, [gone, come]);
    PrintedHeader([gone, come]);
    assert [hunk][1..] == [] && HunksText([hunk]) == HunkText(hunk);
    assert OLD_FILE + Ascii("a") + [NEWLINE] == Ascii("--- a\n") && NEW_FILE + Ascii("b") + [NEWLINE] == Ascii("+++ b\n");
  }

  /** A kept line, and a line without a newline. */
  lemma PrintedUnterminated()
    ensures LinesText([PatchLine(Context, Ascii("x\n")), PatchLine(Insert, Ascii("y"))])
         == [Ascii(" x\n"), Ascii("+y\n"), NO_NEWLINE]
  {
    hide LinesText;
    var kept, come := PatchLine(Context, Ascii("x\n")), PatchLine(Insert, Ascii("y"));
    TwoLines(kept, come);
    assert [SPACE] + kept.text == Ascii(" x\n") && [PLUS] + come.text + [NEWLINE] == Ascii("+y\n");
  }

  lemma Marker()
    ensures NO_NEWLINE == Ascii("\\ No newline at end of file\n")
  {}

  lemma TwoDigits(n: nat)
    requires 10 <= n < 100
    ensures Decimal(n) == ['0' as int + n / 10, '0' as int + n % 10]
  {
    assert Decimal(n / 10) == ['0' as int + n / 10];
  }

  /** A range is its start and, unless that is one, its count. */
  lemma PrintedRanges()
    ensures RangeText(12, 0) == Ascii("12,0") && RangeText(13, 2) == Ascii("13,2") && RangeText(7, 1) == Ascii("7")
  {
    TwoDigits(12);
    TwoDigits(13);
    assert Decimal(0) == ['0' as int] && Decimal(2) == ['2' as int];
  }

  function CountOld(lines: seq<PatchLine>): nat {
    if lines == [] then 0 else (if lines[0].kind == Insert then 0 else 1) + CountOld(lines[1..])
  }

  function CountNew(lines: seq<PatchLine>): nat {
    if lines == [] then 0 else (if lines[0].kind == Delete then 0 else 1) + CountNew(lines[1..])
  }

  predicate Safe(n: nat) { n <= MAX_SAFE_INTEGER }

  /** A hunk the printer can be asked for: its counts are those of its lines, and its numbers are exact in a double. */
  ghost predicate WellFormed(hunk: Hunk) {
    && hunk.oldCount == CountOld(hunk.lines) && hunk.newCount == CountNew(hunk.lines)
    && Safe(hunk.oldStart) && Safe(hunk.oldCount) && Safe(hunk.newStart) && Safe(hunk.newCount)
    && forall i | 0 <= i < |hunk.lines| :: IsLine(hunk.lines[i].text)
  }

  /** Reads one range. */
  function ScanRange(t: Text): Option<(nat, nat, Text)> {
    match ScanNumber(t)
    case None => None
    case Some(Scan(start, rest)) =>
      if rest != [] && rest[0] == COMMA && ScanNumber(rest[1..]).Some? then
        var count := ScanNumber(rest[1..]).value;
        Some((start, count.value, count.rest))
      else Some((start, 1, rest))
  }

  /** What follows the second range: anything up to the line's own newline. */
  predicate ClosesHeader(t: Text) {
    After(t, HUNK_CLOSE).Some? && var rest := After(t, HUNK_CLOSE).value; rest != [] && Find(rest, NEWLINE, 0) == |rest| - 1
  }

  /** A hunk header, or nothing if the line is not one or its numbers are not exact. */
  function ScanHeader(line: Text): Option<Hunk> {
    match After(line, HUNK_OPEN)
    case None => None
    case Some(t0) =>
      match ScanRange(t0)
      case None => None
      case Some((oldStart, oldCount, t1)) =>
        match After(t1, HUNK_NEW)
        case None => None
        case Some(t2) =>
          match ScanRange(t2)
          case None => None
          case Some((newStart, newCount, t3)) =>
            if ClosesHeader(t3) && Safe(oldStart) && Safe(oldCount) && Safe(newStart) && Safe(newCount)
            then Some(Hunk(oldStart, oldCount, newStart, newCount, [])) else None
  }

  /** A printed range is read back. */
  lemma ScanPrintedRange(start: nat, count: nat, rest: Text)
    requires rest != [] && !IsDigit(rest[0]) && rest[0] != COMMA
    ensures ScanRange(RangeText(start, count) + rest) == Some((start, count, rest))
  {
    if count == 1 {
      ScanDecimal(start, rest);
    } else {
      var tail := [COMMA] + (Decimal(count) + rest);
      assert RangeText(start, count) + rest == Decimal(start) + tail;
      ScanDecimal(start, tail);
      assert tail[1..] == Decimal(count) + rest;
      ScanDecimal(count, rest);
    }
  }

  /** What a header line scans to, range by range. */
  lemma ScanHeaderParts(hunk: Hunk, line: Text, t0: Text, t1: Text, t2: Text, t3: Text)
    requires Safe(hunk.oldStart) && Safe(hunk.oldCount) && Safe(hunk.newStart) && Safe(hunk.newCount)
    requires After(line, HUNK_OPEN) == Some(t0) && ScanRange(t0) == Some((hunk.oldStart, hunk.oldCount, t1))
    requires After(t1, HUNK_NEW) == Some(t2) && ScanRange(t2) == Some((hunk.newStart, hunk.newCount, t3))
    requires ClosesHeader(t3)
    ensures ScanHeader(line) == Some(hunk.(lines := []))
  {
    hide After, ScanRange, ClosesHeader, Safe;
  }

  lemma PrintedClose()
    ensures ClosesHeader(HUNK_CLOSE + [NEWLINE])
  {
    AfterLiteral(HUNK_CLOSE, [NEWLINE]);
  }

  /** A printed header is read back. */
  lemma ScanPrintedHeader(hunk: Hunk)
    requires Safe(hunk.oldStart) && Safe(hunk.oldCount) && Safe(hunk.newStart) && Safe(hunk.newCount)
    ensures ScanHeader(HeaderText(hunk)) == Some(hunk.(lines := []))
  {
    hide After, ScanRange, RangeText, ClosesHeader, ScanHeader, Safe;
    var t3 := HUNK_CLOSE + [NEWLINE];
    var t2 := RangeText(hunk.newStart, hunk.newCount) + t3;
    var t1 := HUNK_NEW + t2;
    var t0 := RangeText(hunk.oldStart, hunk.oldCount) + t1;
    assert HeaderText(hunk) == HUNK_OPEN + t0;
    AfterLiteral(HUNK_OPEN, t0);
    ScanPrintedRange(hunk.oldStart, hunk.oldCount, t1);
    AfterLiteral(HUNK_NEW, t2);
    ScanPrintedRange(hunk.newStart, hunk.newCount, t3);
    PrintedClose();
    ScanHeaderParts(hunk, HeaderText(hunk), t0, t1, t2, t3);
  }
}
