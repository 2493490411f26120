/** Reading a patch undoes printing it. */
module PatchReadBack {
  import opened Sequences
  import opened Utf16
  import opened TextLines
  import opened DecimalText
  import opened PatchFormat
  import opened UnifiedPatch

  predicate Printed(line: Text) { IsLine(line) && Ends(line) }

  predicate AllPrinted(lines: seq<Text>) { forall i | 0 <= i < |lines| :: Printed(lines[i]) }

  predicate NewlineFree(t: Text) { forall i | 0 <= i < |t| :: t[i] != NEWLINE }

  lemma AllPrintedTwo(a: seq<Text>, b: seq<Text>)
    requires AllPrinted(a) && AllPrinted(b)
    ensures AllPrinted(a + b)
  {}

  lemma PrintedFrom(t: Text)
    requires NewlineFree(t)
    ensures Printed(t + [NEWLINE])
  {}

  lemma LinePrinted(line: PatchLine)
    requires IsLine(line.text)
    ensures AllPrinted(LineText(line))
  {
    if !Ends(line.text) {
      PrintedFrom([Mark(line.kind)] + line.text);
    }
  }

  lemma {:induction false} LinesPrinted(lines: seq<PatchLine>)
    requires forall i | 0 <= i < |lines| :: IsLine(lines[i].text)
    ensures AllPrinted(LinesText(lines))
  {
    if lines != [] {
      LinePrinted(lines[0]);
      LinesPrinted(lines[1..]);
      AllPrintedTwo(LineText(lines[0]), LinesText(lines[1..]));
    }
  }

  lemma FreeTwo(a: Text, b: Text)
    requires NewlineFree(a) && NewlineFree(b)
    ensures NewlineFree(a + b)
  {}

  lemma DecimalFree(n: nat)
    ensures NewlineFree(Decimal(n))
  {}

  lemma RangeFree(start: nat, count: nat)
    ensures NewlineFree(RangeText(start, count))
  {
    DecimalFree(start);
    DecimalFree(count);
  }

  lemma HeaderPrinted(hunk: Hunk)
    ensures Printed(HeaderText(hunk)) && HUNK_START <= HeaderText(hunk)
  {
    var range, newRange := RangeText(hunk.oldStart, hunk.oldCount), RangeText(hunk.newStart, hunk.newCount);
    RangeFree(hunk.oldStart, hunk.oldCount);
    RangeFree(hunk.newStart, hunk.newCount);
    FreeTwo(HUNK_OPEN, range);
    FreeTwo(HUNK_OPEN + range, HUNK_NEW);
    FreeTwo(HUNK_OPEN + range + HUNK_NEW, newRange);
    FreeTwo(HUNK_OPEN + range + HUNK_NEW + newRange, HUNK_CLOSE);
    PrintedFrom(HUNK_OPEN + range + HUNK_NEW + newRange + HUNK_CLOSE);
  }

  lemma {:induction false} HunksPrinted(hunks: seq<Hunk>)
    requires forall i | 0 <= i < |hunks| :: WellFormed(hunks[i])
    ensures AllPrinted(HunksText(hunks))
  {
    if hunks != [] {
      HeaderPrinted(hunks[0]);
      LinesPrinted(hunks[0].lines);
      AllPrintedTwo([HeaderText(hunks[0])], LinesText(hunks[0].lines));
      HunksPrinted(hunks[1..]);
      AllPrintedTwo(HunkText(hunks[0]), HunksText(hunks[1..]));
    }
  }

  /** What follows a hunk: nothing, or another. */
  predicate Stops(rest: seq<Text>) { rest == [] || HUNK_START <= rest[0] }

  lemma MarkReads(kind: LineKind, text: Text, rest: seq<Text>, lines: seq<PatchLine>)
    ensures ReadBody([[Mark(kind)] + text] + rest, lines) == ReadBody(rest, lines + [PatchLine(kind, text)])
  {
    var first := [Mark(kind)] + text;
    assert first[0] == Mark(kind) && first[1..] == text;
    assert HUNK_START[0] == AT && NO_NEWLINE[0] == BACKSLASH;
    assert ([first] + rest)[1..] == rest;
  }

  lemma MarkerReads(kind: LineKind, text: Text, rest: seq<Text>, lines: seq<PatchLine>)
    ensures ReadBody([NO_NEWLINE] + rest, lines + [PatchLine(kind, text + [NEWLINE])])
         == ReadBody(rest, lines + [PatchLine(kind, text)])
  {
    var last := PatchLine(kind, text + [NEWLINE]);
    assert last.text[..|last.text| - 1] == text;
    assert (lines + [last])[|lines| := PatchLine(kind, text)] == lines + [PatchLine(kind, text)];
    assert NO_NEWLINE[0] == BACKSLASH && HUNK_START[0] == AT;
    assert ([NO_NEWLINE] + rest)[1..] == rest;
  }

  lemma LineReads(line: PatchLine, rest: seq<Text>, lines: seq<PatchLine>)
    requires IsLine(line.text)
    ensures ReadBody(LineText(line) + rest, lines) == ReadBody(rest, lines + [line])
  {
    if Ends(line.text) {
      MarkReads(line.kind, line.text, rest, lines);
    } else {
      var text := line.text + [NEWLINE];
      assert [Mark(line.kind)] + line.text + [NEWLINE] == [Mark(line.kind)] + text;
      assert LineText(line) + rest == [[Mark(line.kind)] + text] + ([NO_NEWLINE] + rest);
      MarkReads(line.kind, text, [NO_NEWLINE] + rest, lines);
      MarkerReads(line.kind, line.text, rest, lines);
    }
  }

  lemma NoLineReads(rest: seq<Text>, before: seq<PatchLine>)
    requires Stops(rest)
    ensures ReadBody(rest, before) == Ok(Body(before, rest))
  {}

  lemma {:induction false} LinesRead(lines: seq<PatchLine>, rest: seq<Text>, before: seq<PatchLine>)
    requires Stops(rest) && forall i | 0 <= i < |lines| :: IsLine(lines[i].text)
    ensures ReadBody(LinesText(lines) + rest, before) == Ok(Body(before + lines, rest))
    decreases |lines|
  {
    hide ReadBody, Stops, LineText, IsLine;
    if lines == [] {
      NoLineReads(rest, before);
      assert LinesText(lines) + rest == rest && before + lines == before;
    } else {
      var more := LinesText(lines[1..]) + rest;
      Assoc(LineText(lines[0]), LinesText(lines[1..]), rest);
      LineReads(lines[0], more, before);
      LinesRead(lines[1..], rest, before + [lines[0]]);
      assert before + lines == before + [lines[0]] + lines[1..];
    }
  }

  lemma HunkReads(hunk: Hunk, rest: seq<Text>)
    requires WellFormed(hunk) && Stops(rest)
    ensures ReadHunk(HunkText(hunk) + rest) == Ok((hunk, rest))
  {
    var all := HunkText(hunk) + rest;
    assert all[0] == HeaderText(hunk) && all[1..] == LinesText(hunk.lines) + rest;
    ScanPrintedHeader(hunk);
    LinesRead(hunk.lines, rest, []);
    assert [] + hunk.lines == hunk.lines;
  }

  lemma {:induction false} HunksRead(hunks: seq<Hunk>)
    requires forall i | 0 <= i < |hunks| :: WellFormed(hunks[i])
    ensures ReadHunks(HunksText(hunks)) == Ok(hunks) && Stops(HunksText(hunks))
  {
    if hunks != [] {
      HunksRead(hunks[1..]);
      HunkReads(hunks[0], HunksText(hunks[1..]));
      HeaderPrinted(hunks[0]);
      assert HunksText(hunks)[0] == HeaderText(hunks[0]);
      assert [hunks[0]] + hunks[1..] == hunks;
    }
  }

  /** A hunk's lines end at the next hunk at the latest. */
  lemma {:induction false} BodyStops(extra: seq<Text>, more: seq<Text>, lines: seq<PatchLine>) returns (j: nat)
    requires more != [] && HUNK_START <= more[0]
    ensures j <= |extra| && (ReadBody(extra + more, lines).Ok? ==> ReadBody(extra + more, lines).value.rest == extra[j..] + more)
    decreases |extra|
  {
    var all := extra + more;
    j := 0;
    if extra == [] {
      assert all == more;
    } else if !(HUNK_START <= extra[0]) {
      assert all[1..] == extra[1..] + more;
      var next := if extra[0] == NO_NEWLINE then Unterminated(lines)
                  else if extra[0] == [] || KindOf(extra[0][0]).None? then None
                  else Some(lines + [PatchLine(KindOf(extra[0][0]).value, extra[0][1..])]);
      if next.Some? {
        var i := BodyStops(extra[1..], more, next.value);
        j := i + 1;
        assert extra[1..][i..] == extra[j..];
      }
    }
  }

  /** Lines in front of the hunks are refused, or are hunks themselves. */
  lemma {:induction false} ExtraHunks(extra: seq<Text>, hunks: seq<Hunk>)
    requires hunks != [] && forall i | 0 <= i < |hunks| :: WellFormed(hunks[i])
    ensures var r := ReadHunks(extra + HunksText(hunks)); r.Ok? ==> |r.value| >= |hunks| + if extra == [] then 0 else 1
    decreases |extra|
  {
    hide ReadBody, HunksText, WellFormed, Stops, ScanHeader, CountOld, CountNew;
    HunksRead(hunks);
    var text := HunksText(hunks);
    if extra == [] {
      assert extra + text == text;
    } else {
      assert (extra + text)[1..] == extra[1..] + text;
      TextStarts(hunks);
      var j := BodyStops(extra[1..], text, []);
      ExtraHunks(extra[1..][j..], hunks);
    }
  }

  lemma TextStarts(hunks: seq<Hunk>)
    requires hunks != []
    ensures HunksText(hunks) != [] && HUNK_START <= HunksText(hunks)[0]
  {
    HeaderPrinted(hunks[0]);
  }

  /** A terminated text is cut into terminated lines, one if no other newline is in it. */
  lemma EndedLines(t: Text)
    ensures var lines := Lines(t + [NEWLINE]);
            AllPrinted(lines) && lines != [] && Join(lines) == t + [NEWLINE]
            && (|lines| == 1 <==> NewlineFree(t)) && (NewlineFree(t) ==> lines == [t + [NEWLINE]])
  {
    hide LinesFrom;
    var all := t + [NEWLINE];
    LinesSpell(all);
    var lines := Lines(all);
    assert Join([]) == [] && Join(lines[..|lines| - 1]) + lines[|lines| - 1] == all;
    assert all[|all| - 1] == NEWLINE;
    if |lines| == 1 {
      assert lines[0] == all;
      forall i | 0 <= i < |t| ensures t[i] != NEWLINE { assert t[i] == all[i]; }
    }
    if NewlineFree(t) {
      PrintedFrom(t);
      LinesOf([all]);
      assert Join([all]) == all by { JoinOne([], all); }
    }
  }

  /** The lines of a printed patch, whatever its labels hold. */
  lemma PatchLinesAre(from: Text, to: Text, hunks: seq<Hunk>)
    requires forall i | 0 <= i < |hunks| :: WellFormed(hunks[i])
    ensures var lines := Lines(OLD_FILE + from + [NEWLINE]) + Lines(NEW_FILE + to + [NEWLINE]) + HunksText(hunks);
            var patch := Join(PatchText(from, to, hunks));
            Lines(patch) == lines && Ends(patch)
  {
    hide Lines, HunksText, AllPrinted, Printed, WellFormed, NewlineFree;
    var a, b := OLD_FILE + from + [NEWLINE], NEW_FILE + to + [NEWLINE];
    EndedLines(OLD_FILE + from);
    EndedLines(NEW_FILE + to);
    HunksPrinted(hunks);
    AllPrintedTwo(Lines(a), Lines(b));
    AllPrintedTwo(Lines(a) + Lines(b), HunksText(hunks));
    var lines := Lines(a) + Lines(b) + HunksText(hunks);
    JoinTwo(Lines(a) + Lines(b), HunksText(hunks));
    JoinTwo(Lines(a), Lines(b));
    JoinTwo([a, b], HunksText(hunks));
    JoinCons(a, [b]);
    JoinOne([], b);
    assert [a] + [b] == [a, b] && [] + [b] == [b] && Join([]) + b == b;
    JoinEnds(lines);
    LinesOf(lines);
  }

  lemma FreeAfter(mark: Text, name: Text)
    requires NewlineFree(mark)
    ensures NewlineFree(mark + name) <==> NewlineFree(name)
  {
    forall i | 0 <= i < |name| ensures (mark + name)[|mark| + i] == name[i] {}
  }

  /** With a newline in a label, a printed patch is refused, or read with hunks it was not printed from. */
  lemma LabelsSpoil(from: Text, to: Text, hunks: seq<Hunk>)
    requires hunks != [] && forall i | 0 <= i < |hunks| :: WellFormed(hunks[i])
    requires !NewlineFree(from) || !NewlineFree(to)
    ensures var r := Hunks(Join(PatchText(from, to, hunks))); r.Ok? ==> |r.value| > |hunks|
  {
    hide Lines, HunksText, AllPrinted, WellFormed, ReadHunks, PatchText, Join, NewlineFree;
    var a, b := Lines(OLD_FILE + from + [NEWLINE]), Lines(NEW_FILE + to + [NEWLINE]);
    PatchLinesAre(from, to, hunks);
    MarksAreFree();
    FreeAfter(OLD_FILE, from);
    FreeAfter(NEW_FILE, to);
    EndedLines(OLD_FILE + from);
    EndedLines(NEW_FILE + to);
    var headers := a + b;
    assert |headers| > 2;
    assert (headers + HunksText(hunks))[2..] == headers[2..] + HunksText(hunks);
    ExtraHunks(headers[2..], hunks);
  }

  lemma MarksAreFree()
    ensures NewlineFree(OLD_FILE) && NewlineFree(NEW_FILE)
  {}

  /** The hunks of a printed patch are the hunks it was printed from, exactly when neither label has a newline. */
  lemma PatchReadsBack(from: Text, to: Text, hunks: seq<Hunk>)
    requires hunks != [] && forall i | 0 <= i < |hunks| :: WellFormed(hunks[i])
    ensures Hunks(Join(PatchText(from, to, hunks))) == Ok(hunks) <==> NewlineFree(from) && NewlineFree(to)
  {
    hide Lines, HunksText, AllPrinted, WellFormed, ReadHunks, PatchText, Join, NewlineFree, Stops, Ends;
    if !NewlineFree(from) || !NewlineFree(to) {
      LabelsSpoil(from, to, hunks);
    } else {
      PatchLinesAre(from, to, hunks);
      MarksAreFree();
      FreeAfter(OLD_FILE, from);
      FreeAfter(NEW_FILE, to);
      EndedLines(OLD_FILE + from);
      EndedLines(NEW_FILE + to);
      HunksRead(hunks);
      var lines := Lines(Join(PatchText(from, to, hunks)));
      assert lines[0] == OLD_FILE + from + [NEWLINE] && lines[1] == NEW_FILE + to + [NEWLINE];
      assert lines[2..] == HunksText(hunks);
    }
  }

  /** A file name of two lines, "a" and "b". */
  const SPLIT_NAME: Text := ['a' as int, NEWLINE, 'b' as int]

  /** No patch of a file of that name is read. */
  lemma SplitNameIsRefused(to: Text, hunks: seq<Hunk>)
    requires forall i | 0 <= i < |hunks| :: WellFormed(hunks[i])
    ensures Hunks(Join(PatchText(SPLIT_NAME, to, hunks))) == Err(EINVAL) && !NewlineFree(SPLIT_NAME)
  {
    hide LinesFrom, HunksText, PatchText, ReadHunks, WellFormed;
    var first, second := OLD_FILE + ['a' as int, NEWLINE], ['b' as int, NEWLINE];
    PatchLinesAre(SPLIT_NAME, to, hunks);
    assert WellSplit([first, second]);
    LinesOf([first, second]);
    JoinCons(first, [second]);
    JoinOne([], second);
    assert [first] + [second] == [first, second] && [] + [second] == [second] && Join([]) + second == second;
    assert first + second == OLD_FILE + SPLIT_NAME + [NEWLINE];
    assert SPLIT_NAME[1] == NEWLINE;
  }

  lemma JoinEnds(lines: seq<Text>)
    requires lines != [] && AllPrinted(lines)
    ensures Ends(Join(lines)) && WellSplit(lines)
  {
    var last := lines[|lines| - 1];
    var init := Join(lines[..|lines| - 1]);
    assert Printed(last);
    assert Join(lines) == init + last;
  }
}
