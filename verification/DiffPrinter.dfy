/** src/core/line-diff.ts:109-136, 178-210: which operations a diff shows, and how it prints them. */
module DiffPrinter {
  import opened Sequences
  import opened Utf16
  import opened TextLines
  import opened LineScript
  import opened LineDiff
  import P = PatchFormat
  import opened DecimalText

  const CONTEXT_LINES: nat := 3

  datatype Span = Span(start: nat, end: nat)

  ghost predicate Within(spans: seq<Span>, j: int) {
    exists i | 0 <= i < |spans| :: spans[i].start <= j < spans[i].end
  }

  /** One of the first `n` operations is a change within three lines of `j`. */
  ghost predicate Near(ops: Script, n: nat, j: int)
    requires n <= |ops|
  {
    exists k | 0 <= k < n :: ops[k].kind != Equal && k - 3 <= j <= k + 3
  }

  /** Spans follow each other with something left out between any two. */
  ghost predicate Ordered(spans: seq<Span>, n: nat) {
    && (forall i | 0 <= i < |spans| :: spans[i].start < spans[i].end <= n)
    && (forall i, j | 0 <= i < j < |spans| :: spans[i].end < spans[j].start)
  }

  /** The spans show exactly the operations near a change. */
  ghost predicate Shows(spans: seq<Span>, ops: Script) {
    && Ordered(spans, |ops|)
    && forall j | 0 <= j < |ops| :: Within(spans, j) <==> Near(ops, |ops|, j)
  }

  /** The spans so far: they show what is near the first `index` operations, and the last one can still grow. */
  ghost predicate ShownSoFar(spans: seq<Span>, ops: Script, index: nat)
    requires index <= |ops|
  {
    && Ordered(spans, |ops|)
    && (forall j | 0 <= j < |ops| :: Within(spans, j) <==> Near(ops, index, j))
    && (spans != [] ==>
          var last := spans[|spans| - 1];
          last.start <= Max(0, index - CONTEXT_LINES) && last.end <= index + CONTEXT_LINES)
  }

  lemma NothingNew(spans: seq<Span>, ops: Script, index: nat)
    requires index < |ops| && ShownSoFar(spans, ops, index) && ops[index].kind == Equal
    ensures ShownSoFar(spans, ops, index + 1)
  {
    forall j | 0 <= j < |ops| ensures Near(ops, index + 1, j) <==> Near(ops, index, j) {}
  }

  lemma NearMore(ops: Script, index: nat, j: int)
    requires index < |ops| && ops[index].kind != Equal
    ensures Near(ops, index + 1, j) <==> Near(ops, index, j) || index - CONTEXT_LINES <= j <= index + CONTEXT_LINES
  {}

  lemma Grown(spans: seq<Span>, ops: Script, index: nat, start: nat, end: nat)
    requires index < |ops| && ShownSoFar(spans, ops, index) && ops[index].kind != Equal
    requires start == Max(0, index - CONTEXT_LINES) && end == Min(|ops|, index + CONTEXT_LINES + 1)
    requires spans != [] && start <= spans[|spans| - 1].end
    ensures ShownSoFar(spans[|spans| - 1 := spans[|spans| - 1].(end := end)], ops, index + 1)
  {
    hide Near;
    var now := spans[|spans| - 1 := spans[|spans| - 1].(end := end)];
    forall j | 0 <= j < |ops| ensures Within(now, j) <==> Near(ops, index + 1, j) {
      NearMore(ops, index, j);
      if Within(spans, j) {
        var i :| 0 <= i < |spans| && spans[i].start <= j < spans[i].end;
        assert now[i].start <= j < now[i].end;
      }
      if index - CONTEXT_LINES <= j <= index + CONTEXT_LINES {
        var last := |spans| - 1;
        if j >= spans[last].start {
          assert now[last].start <= j < now[last].end;
        }
      }
      if Within(now, j) && !Within(spans, j) {
        var i :| 0 <= i < |now| && now[i].start <= j < now[i].end;
        assert i == |spans| - 1;
        assert !(spans[i].start <= j < spans[i].end);
      }
    }
  }

  lemma PushedOrdered(spans: seq<Span>, n: nat, span: Span)
    requires Ordered(spans, n) && span.start < span.end <= n
    requires spans == [] || spans[|spans| - 1].end < span.start
    ensures Ordered(spans + [span], n)
  {
    var now := spans + [span];
    forall i, j | 0 <= i < j < |now| ensures now[i].end < now[j].start {
      if j == |spans| && i < |spans| - 1 { assert spans[i].end < spans[|spans| - 1].start; }
    }
  }

  lemma Pushed(spans: seq<Span>, ops: Script, index: nat, start: nat, end: nat)
    requires index < |ops| && ShownSoFar(spans, ops, index) && ops[index].kind != Equal
    requires start == Max(0, index - CONTEXT_LINES) && end == Min(|ops|, index + CONTEXT_LINES + 1)
    requires spans == [] || spans[|spans| - 1].end < start
    ensures ShownSoFar(spans + [Span(start, end)], ops, index + 1)
  {
    hide Near;
    var now := spans + [Span(start, end)];
    PushedOrdered(spans, |ops|, Span(start, end));
    forall j | 0 <= j < |ops| ensures Within(now, j) <==> Near(ops, index + 1, j) {
      NearMore(ops, index, j);
      if Within(spans, j) {
        var i :| 0 <= i < |spans| && spans[i].start <= j < spans[i].end;
        assert now[i] == spans[i];
      }
      if start <= j < end { assert now[|spans|] == Span(start, end); }
      if Within(now, j) && !(start <= j < end) {
        var i :| 0 <= i < |now| && now[i].start <= j < now[i].end;
        assert spans[i] == now[i];
      }
    }
  }

  function Min(a: int, b: int): int { if a < b then a else b }

  /** Widens each change by its context, merging spans that touch or overlap. */
  method HunkSpans(operations: Script) returns (spans: seq<Span>)
    ensures Shows(spans, operations)
  {
    hide ShownSoFar;
    spans := [];
    assert ShownSoFar(spans, operations, 0) by { NothingShown(operations); }
    var index := 0;
    while index < |operations|
      invariant index <= |operations| && ShownSoFar(spans, operations, index)
    {
      if operations[index].kind == Equal {
        NothingNew(spans, operations, index);
      } else {
        var start := Max(0, index - CONTEXT_LINES);
        var end := Min(|operations|, index + CONTEXT_LINES + 1);
        if spans != [] && start <= spans[|spans| - 1].end {
          Grown(spans, operations, index, start, end);
          spans := spans[|spans| - 1 := spans[|spans| - 1].(end := end)];
        } else {
          Pushed(spans, operations, index, start, end);
          spans := spans + [Span(start, end)];
        }
      }
      index := index + 1;
    }
    AllShown(spans, operations);
  }

  lemma NothingShown(ops: Script)
    ensures ShownSoFar([], ops, 0)
  {}

  lemma AllShown(spans: seq<Span>, ops: Script)
    requires ShownSoFar(spans, ops, |ops|)
    ensures Shows(spans, ops)
  {}

  /** Only one list of spans shows a script. */
  lemma SpansAreDetermined(a: seq<Span>, b: seq<Span>, ops: Script)
    requires Shows(a, ops) && Shows(b, ops)
    ensures a == b
  {
    SameSpans(a, b, ops, 0);
    assert a[0..] == a && b[0..] == b;
  }

  /** The first spans of two lists agree where everything before them does. */
  lemma {:induction false} SameSpans(a: seq<Span>, b: seq<Span>, ops: Script, n: nat)
    requires Shows(a, ops) && Shows(b, ops) && n <= |a| && n <= |b| && a[..n] == b[..n]
    ensures a[n..] == b[n..]
    decreases |a| - n
  {
    if n < |a| {
      SpanIsThere(a, b, ops, n);
      SpanIsThere(b, a, ops, n);
      EndsTogether(a, b, ops, n);
      EndsTogether(b, a, ops, n);
      assert a[n] == b[n];
      assert a[..n + 1] == b[..n + 1];
      SameSpans(a, b, ops, n + 1);
    } else if n < |b| {
      SpanIsThere(b, a, ops, n);
    }
  }

  /** A list that agrees so far has a span that starts no later. */
  lemma SpanIsThere(a: seq<Span>, b: seq<Span>, ops: Script, n: nat)
    requires Shows(a, ops) && Shows(b, ops) && n < |a| && n <= |b| && a[..n] == b[..n]
    ensures n < |b| && b[n].start <= a[n].start
  {
    var j := a[n].start;
    assert Within(a, j);
    assert forall i | 0 <= i < n :: b[i] == b[..n][i] == a[i];
    var i :| 0 <= i < |b| && b[i].start <= j < b[i].end;
    assert n <= i;
  }

  lemma EndsTogether(a: seq<Span>, b: seq<Span>, ops: Script, n: nat)
    requires Shows(a, ops) && Shows(b, ops) && n < |a| && n < |b| && a[n].start == b[n].start
    ensures a[n].end <= b[n].end
  {
    if b[n].end < a[n].end {
      var j := b[n].end;
      assert Within(a, j);
    }
  }

  function KindOf(kind: Kind): P.LineKind {
    match kind
    case Equal => P.Context
    case Delete => P.Delete
    case Insert => P.Insert
  }

  function PatchLines(shown: Script): seq<P.PatchLine> {
    seq(|shown|, i requires 0 <= i < |shown| => P.PatchLine(KindOf(shown[i].kind), shown[i].text))
  }

  /** A hunk shows `shown` after `oldBefore` old lines and `newBefore` new ones; an empty range names the line before. */
  function HunkOf(shown: Script, oldBefore: nat, newBefore: nat): P.Hunk {
    var oldCount, newCount := |Old(shown)|, |New(shown)|;
    P.Hunk(if oldCount == 0 then oldBefore else oldBefore + 1, oldCount,
           if newCount == 0 then newBefore else newBefore + 1, newCount, PatchLines(shown))
  }

  function HunkAt(ops: Script, span: Span): P.Hunk
    requires span.start <= span.end <= |ops|
  {
    HunkOf(ops[span.start..span.end], |Old(ops[..span.start])|, |New(ops[..span.start])|)
  }

  /** The hunks of a script, span by span. */
  function HunksAt(ops: Script, spans: seq<Span>): seq<P.Hunk>
    requires Ordered(spans, |ops|)
  {
    seq(|spans|, i requires 0 <= i < |spans| => HunkAt(ops, spans[i]))
  }

  function HunkRange(before: nat, count: nat): Text {
    if count == 1 then Decimal(before + 1)
    else Decimal(if count == 0 then before else before + 1) + [P.COMMA] + Decimal(count)
  }

  function PrefixedLine(prefix: Unit, text: Text): Text {
    if Ends(text) then [prefix] + text else [prefix] + text + [NEWLINE] + P.NO_NEWLINE
  }

  lemma PrefixedIsLine(line: P.PatchLine)
    ensures PrefixedLine(P.Mark(line.kind), line.text) == Join(P.LineText(line))
  {
    var first := [P.Mark(line.kind)] + line.text;
    if Ends(line.text) {
      JoinOne([], first);
      assert [] + [first] == [first];
    } else {
      JoinOne([], first + [NEWLINE]);
      JoinOne([first + [NEWLINE]], P.NO_NEWLINE);
      assert [] + [first + [NEWLINE]] == [first + [NEWLINE]];
    }
  }

  lemma {:induction false} LinesTextSnoc(lines: seq<P.PatchLine>, line: P.PatchLine)
    ensures P.LinesText(lines + [line]) == P.LinesText(lines) + P.LineText(line)
  {
    if lines == [] {
      assert lines + [line] == [line] && P.LinesText([line][1..]) == [];
    } else {
      LinesTextSnoc(lines[1..], line);
      assert (lines + [line])[1..] == lines[1..] + [line];
    }
  }

  lemma {:induction false} HunksTextSnoc(hunks: seq<P.Hunk>, hunk: P.Hunk)
    ensures P.HunksText(hunks + [hunk]) == P.HunksText(hunks) + P.HunkText(hunk)
  {
    hide P.HunkText;
    if hunks == [] {
      assert hunks + [hunk] == [hunk] && P.HunksText([hunk][1..]) == [];
    } else {
      HunksTextSnoc(hunks[1..], hunk);
      assert (hunks + [hunk])[1..] == hunks[1..] + [hunk];
    }
  }

  /** The header as the printer builds it is the header of the hunk. */
  lemma HeaderAsPrinted(shown: Script, oldBefore: nat, newBefore: nat)
    ensures P.HUNK_OPEN + HunkRange(oldBefore, |Old(shown)|) + P.HUNK_NEW + HunkRange(newBefore, |New(shown)|)
            + P.HUNK_CLOSE + [NEWLINE]
         == P.HeaderText(HunkOf(shown, oldBefore, newBefore))
  {}

  method RenderHunk(shown: Script, oldBefore: nat, newBefore: nat) returns (lines: seq<Text>)
    ensures Join(lines) == Join(P.HunkText(HunkOf(shown, oldBefore, newBefore)))
  {
    hide Old, New, Join, P.LinesText, PrefixedLine, P.LineText;
    ghost var hunk := HunkOf(shown, oldBefore, newBefore);
    var oldCount, newCount := |Old(shown)|, |New(shown)|;
    lines := [P.HUNK_OPEN + HunkRange(oldBefore, oldCount) + P.HUNK_NEW + HunkRange(newBefore, newCount) + P.HUNK_CLOSE + [NEWLINE]];
    HeaderAsPrinted(shown, oldBefore, newBefore);
    ghost var printed: seq<Text> := [P.HeaderText(hunk)];
    PrintStart(hunk);
    var index := 0;
    while index < |shown|
      invariant index <= |shown| && Join(lines) == Join(printed)
      invariant printed == [P.HeaderText(hunk)] + P.LinesText(hunk.lines[..index])
    {
      var operation := shown[index];
      var prefix := if operation.kind == Delete then P.MINUS else if operation.kind == Insert then P.PLUS else P.SPACE;
      ghost var line := hunk.lines[index];
      PushLine(lines, printed, line);
      lines := lines + [PrefixedLine(prefix, operation.text)];
      PrintMore(hunk, printed, index);
      printed := printed + P.LineText(line);
      index := index + 1;
    }
    assert hunk.lines[..index] == hunk.lines;
  }

  lemma PrintStart(hunk: P.Hunk)
    ensures [P.HeaderText(hunk)] == [P.HeaderText(hunk)] + P.LinesText(hunk.lines[..0])
  {}

  lemma PrintMore(hunk: P.Hunk, printed: seq<Text>, index: nat)
    requires index < |hunk.lines| && printed == [P.HeaderText(hunk)] + P.LinesText(hunk.lines[..index])
    ensures printed + P.LineText(hunk.lines[index]) == [P.HeaderText(hunk)] + P.LinesText(hunk.lines[..index + 1])
  {
    hide *;
    LinesTextSnoc(hunk.lines[..index], hunk.lines[index]);
    assert hunk.lines[..index] + [hunk.lines[index]] == hunk.lines[..index + 1];
    Assoc([P.HeaderText(hunk)], P.LinesText(hunk.lines[..index]), P.LineText(hunk.lines[index]));
  }

  lemma PushLine(lines: seq<Text>, printed: seq<Text>, line: P.PatchLine)
    requires Join(lines) == Join(printed)
    ensures Join(lines + [PrefixedLine(P.Mark(line.kind), line.text)]) == Join(printed + P.LineText(line))
  {
    PrefixedIsLine(line);
    hide Join, P.LineText, PrefixedLine;
    JoinOne(lines, PrefixedLine(P.Mark(line.kind), line.text));
    JoinTwo(printed, P.LineText(line));
  }

  /** The old and new lines before the hunk at `span`. */
  lemma CursorMoves(ops: Script, cursor: nat)
    requires cursor < |ops|
    ensures |Old(ops[..cursor + 1])| == |Old(ops[..cursor])| + if ops[cursor].kind == Insert then 0 else 1
    ensures |New(ops[..cursor + 1])| == |New(ops[..cursor])| + if ops[cursor].kind == Delete then 0 else 1
  {
    Snoc(ops[..cursor], ops[cursor]);
    assert ops[..cursor] + [ops[cursor]] == ops[..cursor + 1];
  }

  lemma PatchGrows(from: Text, to: Text, hunks: seq<P.Hunk>, i: nat, output: seq<Text>, printed: seq<Text>)
    requires i < |hunks| && Join(output) == Join(P.PatchText(from, to, hunks[..i]))
    requires Join(printed) == Join(P.HunkText(hunks[i]))
    ensures Join(output + printed) == Join(P.PatchText(from, to, hunks[..i + 1]))
  {
    hide *;
    assert hunks[..i + 1] == hunks[..i] + [hunks[i]];
    PatchTextSnoc(from, to, hunks[..i], hunks[i]);
    JoinGrows(output, P.PatchText(from, to, hunks[..i]), printed, P.HunkText(hunks[i]));
  }

  lemma JoinGrows(a: seq<Text>, b: seq<Text>, c: seq<Text>, d: seq<Text>)
    requires Join(a) == Join(b) && Join(c) == Join(d)
    ensures Join(a + c) == Join(b + d)
  {
    JoinTwo(a, c);
    JoinTwo(b, d);
  }

  lemma PatchTextSnoc(from: Text, to: Text, hunks: seq<P.Hunk>, hunk: P.Hunk)
    ensures P.PatchText(from, to, hunks + [hunk]) == P.PatchText(from, to, hunks) + P.HunkText(hunk)
  {
    HunksTextSnoc(hunks, hunk);
    hide P.HunksText, P.HunkText;
    assert forall a: seq<Text>, b: seq<Text>, c: seq<Text> {:trigger a + (b + c)} :: a + (b + c) == a + b + c;
  }

  /** Prints the headers and one hunk for each span; nothing if nothing changed. */
  method RenderLineDiff(from: Text, to: Text, diff: Diff) returns (text: Text, ghost spans: seq<Span>)
    ensures diff.changes == 0 ==> text == []
    ensures diff.changes != 0 ==> Shows(spans, diff.operations)
    ensures diff.changes != 0 ==> text == Join(P.PatchText(from, to, HunksAt(diff.operations, spans)))
  {
    hide Join, Old, New, Shows, P.PatchText, P.HunkText, HunksAt, HunkOf;
    if diff.changes == 0 { return [], []; }
    var output := [P.OLD_FILE + from + [NEWLINE], P.NEW_FILE + to + [NEWLINE]];
    var operations := diff.operations;
    var oldBefore, newBefore, cursor := 0, 0, 0;
    var shown := HunkSpans(operations);
    spans := shown;
    SpansOrdered(spans, operations);
    ghost var hunks := HunksAt(operations, spans);
    HunksAre(operations, spans);
    NoPatchYet(from, to, operations, hunks);
    var i := 0;
    while i < |shown|
      invariant i <= |shown| && cursor <= |operations| && (i < |shown| ==> cursor <= shown[i].start)
      invariant oldBefore == |Old(operations[..cursor])| && newBefore == |New(operations[..cursor])|
      invariant Join(output) == Join(P.PatchText(from, to, hunks[..i]))
    {
      var start, end := shown[i].start, shown[i].end;
      while cursor < start
        invariant cursor <= start
        invariant oldBefore == |Old(operations[..cursor])| && newBefore == |New(operations[..cursor])|
      {
        CursorMoves(operations, cursor);
        if operations[cursor].kind != Insert { oldBefore := oldBefore + 1; }
        if operations[cursor].kind != Delete { newBefore := newBefore + 1; }
        cursor := cursor + 1;
      }
      var hunk := RenderHunk(operations[start..end], oldBefore, newBefore);
      PatchGrows(from, to, hunks, i, output, hunk);
      output := output + hunk;
      i := i + 1;
    }
    assert hunks[..i] == hunks;
    return Join(output), spans;
  }

  lemma SpansOrdered(spans: seq<Span>, ops: Script)
    requires Shows(spans, ops)
    ensures Ordered(spans, |ops|)
  {}

  lemma HunksAre(ops: Script, spans: seq<Span>)
    requires Ordered(spans, |ops|)
    ensures |HunksAt(ops, spans)| == |spans|
    ensures forall i | 0 <= i < |spans| ::
              HunksAt(ops, spans)[i] == HunkOf(ops[spans[i].start..spans[i].end], |Old(ops[..spans[i].start])|, |New(ops[..spans[i].start])|)
  {}

  lemma NoPatchYet(from: Text, to: Text, ops: Script, hunks: seq<P.Hunk>)
    ensures Old(ops[..0]) == [] && New(ops[..0]) == []
    ensures P.PatchText(from, to, hunks[..0]) == [P.OLD_FILE + from + [NEWLINE], P.NEW_FILE + to + [NEWLINE]]
  {}
}
