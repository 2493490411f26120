/** src/core/unified-patch.ts: reading the hunks of a patch and applying them. */
module UnifiedPatch {
  import opened Sequences
  import opened Utf16
  import opened TextLines
  import opened DecimalText
  import opened PatchFormat

  datatype Error = EINVAL | EREVISION

  datatype Outcome<+T> = Ok(value: T) | Err(error: Error)

  /** The lines of a hunk, and the lines of the patch after it. */
  datatype Body = Body(lines: seq<PatchLine>, rest: seq<Text>)

  datatype Applied = Applied(text: Text, hunks: nat, additions: nat, deletions: nat)

  /** How far applying has come: the source lines used, the lines given, and the changes made. */
  datatype Progress = Progress(source: nat, output: seq<Text>, additions: nat, deletions: nat)

  function KindOf(unit: Unit): Option<LineKind> {
    if unit == SPACE then Some(Context) else if unit == MINUS then Some(Delete) else if unit == PLUS then Some(Insert) else None
  }

  /** The hunk lines so far, with the last one's newline taken back. */
  function Unterminated(lines: seq<PatchLine>): Option<seq<PatchLine>> {
    if lines == [] || !Ends(lines[|lines| - 1].text) then None else
      var last := lines[|lines| - 1];
      Some(lines[|lines| - 1 := last.(text := last.text[..|last.text| - 1])])
  }

  /** Reads hunk lines until the next hunk starts. */
  function ReadBody(patch: seq<Text>, lines: seq<PatchLine>): (r: Outcome<Body>)
    ensures r.Ok? ==> |r.value.rest| <= |patch|
  {
    if patch == [] || HUNK_START <= patch[0] then Ok(Body(lines, patch))
    else if patch[0] == NO_NEWLINE then
      match Unterminated(lines)
      case None => Err(EINVAL)
      case Some(marked) => ReadBody(patch[1..], marked)
    else if patch[0] == [] then Err(EINVAL)
    else
      match KindOf(patch[0][0])
      case None => Err(EINVAL)
      case Some(kind) => ReadBody(patch[1..], lines + [PatchLine(kind, patch[0][1..])])
  }

  /** Reads a hunk: its header, its lines, and the check that they agree. */
  function ReadHunk(patch: seq<Text>): (r: Outcome<(Hunk, seq<Text>)>)
    requires patch != []
    ensures r.Ok? ==> |r.value.1| < |patch|
  {
    match ScanHeader(patch[0])
    case None => Err(EINVAL)
    case Some(header) =>
      match ReadBody(patch[1..], [])
      case Err(error) => Err(error)
      case Ok(Body(lines, rest)) =>
        if CountOld(lines) == header.oldCount && CountNew(lines) == header.newCount
        then Ok((header.(lines := lines), rest)) else Err(EINVAL)
  }

  function Prepend(hunks: seq<Hunk>, r: Outcome<seq<Hunk>>): Outcome<seq<Hunk>> {
    match r
    case Err(error) => Err(error)
    case Ok(more) => Ok(hunks + more)
  }

  function ReadHunks(patch: seq<Text>): Outcome<seq<Hunk>>
    decreases |patch|
  {
    if patch == [] then Ok([]) else
      match ReadHunk(patch)
      case Err(error) => Err(error)
      case Ok((hunk, rest)) => Prepend([hunk], ReadHunks(rest))
  }

  /** The hunks of a patch: it ends with a newline, starts with the two file headers, and has a hunk. */
  function Hunks(patch: Text): Outcome<seq<Hunk>> {
    var lines := Lines(patch);
    if patch != [] && !Ends(patch) then Err(EINVAL)
    else if |lines| < 2 || !(OLD_FILE <= lines[0]) || !(NEW_FILE <= lines[1]) then Err(EINVAL)
    else
      match ReadHunks(lines[2..])
      case Err(error) => Err(error)
      case Ok(hunks) => if hunks == [] then Err(EINVAL) else Ok(hunks)
  }

  /** Where a hunk starts; an empty range names the line before. */
  function HunkIndex(start: nat, count: nat): Outcome<nat> {
    if count == 0 then Ok(start) else if start < 1 then Err(EINVAL) else Ok(start - 1)
  }

  function ApplyLines(source: seq<Text>, lines: seq<PatchLine>, at: Progress): Outcome<Progress> {
    if lines == [] then Ok(at) else
      var line := lines[0];
      if line.kind == Insert then
        ApplyLines(source, lines[1..], at.(output := at.output + [line.text], additions := at.additions + 1))
      else if at.source >= |source| || source[at.source] != line.text then Err(EREVISION)
      else if line.kind == Context then
        ApplyLines(source, lines[1..], at.(source := at.source + 1, output := at.output + [line.text]))
      else
        ApplyLines(source, lines[1..], at.(source := at.source + 1, deletions := at.deletions + 1))
  }

  /** Copies the lines before a hunk, checks both positions, and applies its lines. */
  function ApplyHunk(source: seq<Text>, hunk: Hunk, at: Progress): Outcome<Progress> {
    match HunkIndex(hunk.oldStart, hunk.oldCount)
    case Err(error) => Err(error)
    case Ok(start) =>
      if start < at.source || start > |source| then Err(EINVAL) else
        var output := at.output + source[at.source..start];
        match HunkIndex(hunk.newStart, hunk.newCount)
        case Err(error) => Err(error)
        case Ok(newStart) =>
          if newStart != |output| then Err(EINVAL)
          else ApplyLines(source, hunk.lines, at.(source := start, output := output))
  }

  function ApplyHunks(source: seq<Text>, hunks: seq<Hunk>, at: Progress): Outcome<Progress> {
    if hunks == [] then Ok(at) else
      match ApplyHunk(source, hunks[0], at)
      case Err(error) => Err(error)
      case Ok(next) => ApplyHunks(source, hunks[1..], next)
  }

  const START: Progress := Progress(0, [], 0, 0)

  function Apply(source: Text, patch: Text): Outcome<Applied> {
    match Hunks(patch)
    case Err(error) => Err(error)
    case Ok(hunks) =>
      match ApplyHunks(Lines(source), hunks, START)
      case Err(error) => Err(error)
      case Ok(at) =>
        Ok(Applied(Join(at.output + if at.source <= |Lines(source)| then Lines(source)[at.source..] else []),
                   |hunks|, at.additions, at.deletions))
  }

  // What applying means, told from the hunks alone.

  /** The lines a hunk expects in the source: its context and what it deletes. */
  ghost function OldSide(lines: seq<PatchLine>): seq<Text> {
    if lines == [] then [] else (if lines[0].kind == Insert then [] else [lines[0].text]) + OldSide(lines[1..])
  }

  /** The lines a hunk leaves there: its context and what it inserts. */
  ghost function NewSide(lines: seq<PatchLine>): seq<Text> {
    if lines == [] then [] else (if lines[0].kind == Delete then [] else [lines[0].text]) + NewSide(lines[1..])
  }

  ghost function Tally(lines: seq<PatchLine>, kind: LineKind): nat {
    if lines == [] then 0 else (if lines[0].kind == kind then 1 else 0) + Tally(lines[1..], kind)
  }

  ghost function TallyAll(hunks: seq<Hunk>, kind: LineKind): nat {
    if hunks == [] then 0 else Tally(hunks[0].lines, kind) + TallyAll(hunks[1..], kind)
  }

  /** The source line a range starts at, counted from zero; an empty range names the line before it. */
  ghost function StartOf(start: nat, count: nat): int { if count == 0 then start else start - 1 }

  ghost function EndOf(hunk: Hunk): int { StartOf(hunk.oldStart, hunk.oldCount) + |OldSide(hunk.lines)| }

  /**
   * A hunk stands where its header says: behind the hunks before it, which used the source up to `from`, and at the place
   * in the new text that they have shifted it to.
   */
  ghost predicate Stands(source: seq<Text>, hunk: Hunk, from: nat, shift: int) {
    var start := StartOf(hunk.oldStart, hunk.oldCount);
    from <= start <= |source| && StartOf(hunk.newStart, hunk.newCount) == start + shift && start + shift >= 0
  }

  /** The source has these lines at `n`. */
  ghost predicate HasLines(source: seq<Text>, n: nat, side: seq<Text>) {
    n + |side| <= |source| && source[n..n + |side|] == side
  }

  /** The source has the lines that the hunk expects. */
  ghost predicate Agrees(source: seq<Text>, hunk: Hunk) {
    var start := StartOf(hunk.oldStart, hunk.oldCount);
    0 <= start && HasLines(source, start, OldSide(hunk.lines))
  }

  ghost function ShiftBy(hunk: Hunk): int { |NewSide(hunk.lines)| - |OldSide(hunk.lines)| }

  ghost predicate AllFit(source: seq<Text>, hunks: seq<Hunk>, from: nat, shift: int) {
    hunks != [] ==>
      && Stands(source, hunks[0], from, shift) && Agrees(source, hunks[0])
      && AllFit(source, hunks[1..], EndOf(hunks[0]), shift + ShiftBy(hunks[0]))
  }

  /** The source from `from` on with the stretch of each hunk replaced by its new side. */
  ghost function Spliced(source: seq<Text>, hunks: seq<Hunk>, from: nat, shift: int): seq<Text>
    requires from <= |source| && AllFit(source, hunks, from, shift)
  {
    if hunks == [] then source[from..]
    else
      source[from..StartOf(hunks[0].oldStart, hunks[0].oldCount)] + NewSide(hunks[0].lines)
        + Spliced(source, hunks[1..], EndOf(hunks[0]), shift + ShiftBy(hunks[0]))
  }

  /** The first hunk that does not fit is misplaced, or the source has other lines there. */
  ghost function Misfit(source: seq<Text>, hunks: seq<Hunk>, from: nat, shift: int): Error
    requires !AllFit(source, hunks, from, shift)
  {
    if !Stands(source, hunks[0], from, shift) then EINVAL
    else if !Agrees(source, hunks[0]) then EREVISION
    else Misfit(source, hunks[1..], EndOf(hunks[0]), shift + ShiftBy(hunks[0]))
  }

  /** What applying hunks to a text gives. */
  ghost predicate Patches(source: Text, hunks: seq<Hunk>, r: Outcome<Applied>) {
    var lines := Lines(source);
    if AllFit(lines, hunks, 0, 0) then
      r == Ok(Applied(Join(Spliced(lines, hunks, 0, 0)), |hunks|, TallyAll(hunks, Insert), TallyAll(hunks, Delete)))
    else r == Err(Misfit(lines, hunks, 0, 0))
  }

  /** How far applying one line comes, if the source has the line it needs. */
  ghost function OneLine(line: PatchLine, at: Progress): Progress {
    Progress(at.source + (if line.kind == Insert then 0 else 1), at.output + (if line.kind == Delete then [] else [line.text]),
             at.additions + (if line.kind == Insert then 1 else 0), at.deletions + if line.kind == Delete then 1 else 0)
  }

  lemma OneApplies(source: seq<Text>, lines: seq<PatchLine>, at: Progress)
    requires lines != []
    ensures ApplyLines(source, lines, at)
         == if lines[0].kind == Insert || (at.source < |source| && source[at.source] == lines[0].text)
            then ApplyLines(source, lines[1..], OneLine(lines[0], at)) else Err(EREVISION)
  {
    assert at.output + [] == at.output;
  }

  /** All of them, one after another. */
  ghost function AllLines(lines: seq<PatchLine>, at: Progress): Progress {
    Progress(at.source + |OldSide(lines)|, at.output + NewSide(lines), at.additions + Tally(lines, Insert), at.deletions + Tally(lines, Delete))
  }

  lemma Sides(lines: seq<PatchLine>)
    requires lines != []
    ensures OldSide(lines) == (if lines[0].kind == Insert then [] else [lines[0].text]) + OldSide(lines[1..])
    ensures NewSide(lines) == (if lines[0].kind == Delete then [] else [lines[0].text]) + NewSide(lines[1..])
    ensures forall kind :: Tally(lines, kind) == (if lines[0].kind == kind then 1 else 0) + Tally(lines[1..], kind)
  {}

  lemma OneThenAll(lines: seq<PatchLine>, at: Progress)
    requires lines != []
    ensures AllLines(lines, at) == AllLines(lines[1..], OneLine(lines[0], at))
    ensures OldSide(lines) == (if lines[0].kind == Insert then [] else [lines[0].text]) + OldSide(lines[1..])
  {
    hide OldSide, NewSide, Tally;
    Sides(lines);
    Assoc(at.output, if lines[0].kind == Delete then [] else [lines[0].text], NewSide(lines[1..]));
  }

  lemma HasNone(source: seq<Text>, n: nat)
    requires n <= |source|
    ensures HasLines(source, n, [])
  {}

  lemma HasOneMore(source: seq<Text>, n: nat, text: Text, rest: seq<Text>)
    ensures HasLines(source, n, [text] + rest) <==> n < |source| && source[n] == text && HasLines(source, n + 1, rest)
  {
    var end := n + 1 + |rest|;
    assert |[text] + rest| == 1 + |rest|;
    if end <= |source| {
      var here := source[n..end];
      assert here[0] == source[n] && here[1..] == source[n + 1..end];
      assert ([text] + rest)[0] == text && ([text] + rest)[1..] == rest;
      assert here == [here[0]] + here[1..];
    }
  }

  lemma {:induction false} LinesMean(source: seq<Text>, lines: seq<PatchLine>, at: Progress)
    requires at.source <= |source|
    ensures ApplyLines(source, lines, at) == if HasLines(source, at.source, OldSide(lines)) then Ok(AllLines(lines, at)) else Err(EREVISION)
    decreases |lines|
  {
    if lines == [] {
      HasNone(source, at.source);
      assert at.output + [] == at.output;
    } else {
      hide ApplyLines, OldSide, AllLines, HasLines;
      OneApplies(source, lines, at);
      OneThenAll(lines, at);
      if lines[0].kind == Insert {
        assert [] + OldSide(lines[1..]) == OldSide(lines[1..]);
        LinesMean(source, lines[1..], OneLine(lines[0], at));
      } else {
        HasOneMore(source, at.source, lines[0].text, OldSide(lines[1..]));
        if at.source < |source| && source[at.source] == lines[0].text { LinesMean(source, lines[1..], OneLine(lines[0], at)); }
      }
    }
  }

  lemma {:induction false} SidesAreCounted(lines: seq<PatchLine>)
    ensures CountOld(lines) == |OldSide(lines)| && CountNew(lines) == |NewSide(lines)|
    decreases |lines|
  {
    if lines != [] { SidesAreCounted(lines[1..]); }
  }

  /** A hunk that was read has as many lines on each side as its header says. */
  lemma {:induction false} HeadersCount(patch: seq<Text>)
    ensures var r := ReadHunks(patch);
            r.Ok? ==> forall i | 0 <= i < |r.value| ::
              |OldSide(r.value[i].lines)| == r.value[i].oldCount && |NewSide(r.value[i].lines)| == r.value[i].newCount
    decreases |patch|
  {
    hide ReadBody, ScanHeader, OldSide, NewSide, CountOld, CountNew;
    if patch != [] {
      var read := ReadHunk(patch);
      if read.Ok? {
        SidesAreCounted(read.value.0.lines);
        HeadersCount(read.value.1);
      }
    }
  }

  lemma HunkMeans(source: seq<Text>, hunk: Hunk, at: Progress, shift: int)
    requires at.source <= |source| && |at.output| == at.source + shift
    ensures ApplyHunk(source, hunk, at)
         == if !Stands(source, hunk, at.source, shift) then Err(EINVAL)
            else if !Agrees(source, hunk) then Err(EREVISION)
            else Ok(Progress(EndOf(hunk), at.output + source[at.source..StartOf(hunk.oldStart, hunk.oldCount)] + NewSide(hunk.lines),
                             at.additions + Tally(hunk.lines, Insert), at.deletions + Tally(hunk.lines, Delete)))
  {
    hide ApplyLines, OldSide, NewSide, Tally;
    var start := StartOf(hunk.oldStart, hunk.oldCount);
    if at.source <= start <= |source| {
      LinesMean(source, hunk.lines, at.(source := start, output := at.output + source[at.source..start]));
    }
  }

  lemma {:induction false} HunksMean(source: seq<Text>, hunks: seq<Hunk>, at: Progress, shift: int)
    requires at.source <= |source| && |at.output| == at.source + shift
    ensures !AllFit(source, hunks, at.source, shift) ==>
              ApplyHunks(source, hunks, at) == Err(Misfit(source, hunks, at.source, shift))
    ensures AllFit(source, hunks, at.source, shift) ==>
              var r := ApplyHunks(source, hunks, at);
              && r.Ok? && r.value.source <= |source|
              && r.value.output + source[r.value.source..] == at.output + Spliced(source, hunks, at.source, shift)
              && r.value.additions == at.additions + TallyAll(hunks, Insert)
              && r.value.deletions == at.deletions + TallyAll(hunks, Delete)
    decreases |hunks|
  {
    hide Stands, Agrees, ApplyHunk, EndOf, NewSide, OldSide, Tally, StartOf;
    if hunks != [] {
      HunkMeans(source, hunks[0], at, shift);
      if Stands(source, hunks[0], at.source, shift) && Agrees(source, hunks[0]) {
        StandsBounds(source, hunks[0], at.source, shift);
        var next := ApplyHunk(source, hunks[0], at).value;
        HunksMean(source, hunks[1..], next, shift + ShiftBy(hunks[0]));
      }
    }
  }

  lemma StandsBounds(source: seq<Text>, hunk: Hunk, from: nat, shift: int)
    requires Stands(source, hunk, from, shift) && Agrees(source, hunk)
    ensures from <= StartOf(hunk.oldStart, hunk.oldCount) <= EndOf(hunk) <= |source|
    ensures EndOf(hunk) == StartOf(hunk.oldStart, hunk.oldCount) + |OldSide(hunk.lines)|
  {}

  /** Applying a patch succeeds exactly when its hunks fit the text, and does what they say. */
  lemma ApplyMeans(source: Text, patch: Text)
    ensures Hunks(patch).Err? ==> Apply(source, patch) == Err(Hunks(patch).error)
    ensures Hunks(patch).Ok? ==> Patches(source, Hunks(patch).value, Apply(source, patch))
  {
    hide Hunks, ApplyHunks, AllFit, Lines, Join, Spliced, Misfit;
    if Hunks(patch).Ok? {
      var lines, hunks := Lines(source), Hunks(patch).value;
      HunksMean(lines, hunks, START, 0);
      if AllFit(lines, hunks, 0, 0) { assert [] + Spliced(lines, hunks, 0, 0) == Spliced(lines, hunks, 0, 0); }
    }
  }

  method ConsumeHunkLines(patch: seq<Text>, start: nat) returns (r: Outcome<Body>)
    requires start <= |patch|
    ensures r == ReadBody(patch[start..], [])
  {
    var lines: seq<PatchLine> := [];
    var index := start;
    while index < |patch| && !(HUNK_START <= patch[index])
      invariant start <= index <= |patch| && ReadBody(patch[start..], []) == ReadBody(patch[index..], lines)
    {
      var line := patch[index];
      assert patch[index..][0] == line && patch[index..][1..] == patch[index + 1..];
      if line == NO_NEWLINE {
        if lines == [] || !Ends(lines[|lines| - 1].text) { return Err(EINVAL); }
        var last := lines[|lines| - 1];
        lines := lines[|lines| - 1 := last.(text := last.text[..|last.text| - 1])];
      } else {
        if line == [] || KindOf(line[0]).None? { return Err(EINVAL); }
        lines := lines + [PatchLine(KindOf(line[0]).value, line[1..])];
      }
      index := index + 1;
    }
    return Ok(Body(lines, patch[index..]));
  }

  method ParseHunks(patch: Text) returns (r: Outcome<seq<Hunk>>)
    ensures r == Hunks(patch)
  {
    hide ReadBody, ScanHeader, Lines, CountOld, CountNew;
    var lines := SplitLinesPreservingEndings(patch);
    if patch != [] && !Ends(patch) { return Err(EINVAL); }
    if |lines| < 2 || !(OLD_FILE <= lines[0]) || !(NEW_FILE <= lines[1]) { return Err(EINVAL); }
    var hunks: seq<Hunk> := [];
    var rest := lines[2..];
    PrependNothing(ReadHunks(rest));
    while rest != []
      invariant ReadHunks(lines[2..]) == Prepend(hunks, ReadHunks(rest))
      decreases |rest|
    {
      var header := ScanHeader(rest[0]);
      if header.None? { return Err(EINVAL); }
      assert rest[1..][0..] == rest[1..];
      var body := ConsumeHunkLines(rest, 1);
      if body.Err? { return Err(body.error); }
      if CountOld(body.value.lines) != header.value.oldCount || CountNew(body.value.lines) != header.value.newCount {
        return Err(EINVAL);
      }
      var hunk := header.value.(lines := body.value.lines);
      HunkRead(rest, hunk, body.value.rest, hunks);
      hunks := hunks + [hunk];
      rest := body.value.rest;
    }
    assert hunks + [] == hunks;
    return if hunks == [] then Err(EINVAL) else Ok(hunks);
  }

  lemma HunkRead(patch: seq<Text>, hunk: Hunk, rest: seq<Text>, hunks: seq<Hunk>)
    requires patch != [] && ReadHunk(patch) == Ok((hunk, rest))
    ensures Prepend(hunks, ReadHunks(patch)) == Prepend(hunks + [hunk], ReadHunks(rest))
  {
    if ReadHunks(rest).Ok? {
      assert hunks + ([hunk] + ReadHunks(rest).value) == hunks + [hunk] + ReadHunks(rest).value;
    }
  }

  lemma PrependNothing(r: Outcome<seq<Hunk>>)
    ensures Prepend([], r) == r
  {
    if r.Ok? { assert [] + r.value == r.value; }
  }

  /** Applies one hunk, pushing onto what has been given so far. */
  method ApplyHunkTo(source: seq<Text>, hunk: Hunk, at: Progress) returns (r: Outcome<Progress>)
    ensures r == ApplyHunk(source, hunk, at)
  {
    var begin := HunkIndex(hunk.oldStart, hunk.oldCount);
    if begin.Err? { return Err(begin.error); }
    var start := begin.value;
    if start < at.source || start > |source| { return Err(EINVAL); }
    var output := at.output;
    var index := at.source;
    while index < start
      invariant at.source <= index <= start && output == at.output + source[at.source..index]
    {
      output := output + [source[index]];
      index := index + 1;
    }
    var newStart := HunkIndex(hunk.newStart, hunk.newCount);
    if newStart.Err? { return Err(newStart.error); }
    if newStart.value != |output| { return Err(EINVAL); }
    var now := at.(source := start, output := output);
    var k := 0;
    assert hunk.lines[0..] == hunk.lines;
    while k < |hunk.lines|
      invariant k <= |hunk.lines|
      invariant ApplyLines(source, hunk.lines, at.(source := start, output := output)) == ApplyLines(source, hunk.lines[k..], now)
    {
      var line := hunk.lines[k];
      assert hunk.lines[k..][0] == line && hunk.lines[k..][1..] == hunk.lines[k + 1..];
      if line.kind == Insert {
        now := now.(output := now.output + [line.text], additions := now.additions + 1);
      } else {
        if now.source >= |source| || source[now.source] != line.text { return Err(EREVISION); }
        if line.kind == Context {
          now := now.(source := now.source + 1, output := now.output + [line.text]);
        } else {
          now := now.(source := now.source + 1, deletions := now.deletions + 1);
        }
      }
      k := k + 1;
    }
    return Ok(now);
  }

  /** Applies a patch to a text. */
  method ApplyUnifiedPatch(source: Text, patch: Text) returns (r: Outcome<Applied>)
    ensures r == Apply(source, patch)
    ensures Hunks(patch).Err? ==> r == Err(Hunks(patch).error)
    ensures Hunks(patch).Ok? ==> Patches(source, Hunks(patch).value, r)
  {
    hide Lines, Hunks, ApplyHunk, Join, Patches;
    ApplyMeans(source, patch);
    var content := SplitLinesPreservingEndings(source);
    var parsed := ParseHunks(patch);
    if parsed.Err? { return Err(parsed.error); }
    var hunks := parsed.value;
    var at, k := START, 0;
    assert hunks[0..] == hunks;
    while k < |hunks|
      invariant k <= |hunks| && ApplyHunks(content, hunks, START) == ApplyHunks(content, hunks[k..], at)
    {
      assert hunks[k..][0] == hunks[k] && hunks[k..][1..] == hunks[k + 1..];
      var next := ApplyHunkTo(content, hunks[k], at);
      if next.Err? { return Err(next.error); }
      at, k := next.value, k + 1;
    }
    var output, index := at.output, at.source;
    while index < |content|
      invariant at.source <= index && (index <= |content| || index == at.source)
      invariant output == at.output + if at.source <= |content| then content[at.source..index] else []
    {
      output := output + [content[index]];
      index := index + 1;
    }
    if at.source <= |content| { assert content[at.source..index] == content[at.source..]; }
    return Ok(Applied(Join(output), |hunks|, at.additions, at.deletions));
  }
}
