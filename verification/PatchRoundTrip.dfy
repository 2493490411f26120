/** A printed diff, applied as a patch to the old text, gives the new one. */
module PatchRoundTrip {
  import opened Utf16
  import opened TextLines
  import opened DecimalText
  import opened LineScript
  import opened LineDiff
  import opened DiffPrinter
  import opened PatchReadBack
  import P = PatchFormat
  import U = UnifiedPatch

  /** Applying has come to the operation at `k`. */
  ghost function At(ops: Script, k: nat): U.Progress
    requires k <= |ops|
  {
    U.Progress(|Old(ops[..k])|, New(ops[..k]), Count(ops[..k], Insert), Count(ops[..k], Delete))
  }

  lemma SplitBetween(ops: Script, j: nat, k: nat)
    requires j <= k <= |ops|
    ensures Old(ops[..k]) == Old(ops[..j]) + Old(ops[j..k]) && New(ops[..k]) == New(ops[..j]) + New(ops[j..k])
    ensures forall kind :: Count(ops[..k], kind) == Count(ops[..j], kind) + Count(ops[j..k], kind)
  {
    Append(ops[..j], ops[j..k]);
    assert ops[..j] + ops[j..k] == ops[..k];
  }

  lemma {:induction false} LinesApply(ops: Script, k: nat, end: nat)
    requires k <= end <= |ops|
    ensures U.ApplyLines(Old(ops), PatchLines(ops[k..end]), At(ops, k)) == U.Ok(At(ops, end))
    decreases end - k
  {
    if k < end {
      var lines := PatchLines(ops[k..end]);
      assert lines[0] == P.PatchLine(KindOf(ops[k].kind), ops[k].text);
      assert lines[1..] == PatchLines(ops[k + 1..end]);
      OneMore(ops, k);
      if ops[k].kind != Insert { NextOld(ops, k); }
      LineApplies(Old(ops), lines, At(ops, k), At(ops, k + 1), ops[k]);
      LinesApply(ops, k + 1, end);
    }
  }

  lemma LineApplies(source: seq<Text>, lines: seq<P.PatchLine>, at: U.Progress, next: U.Progress, op: Operation)
    requires lines != [] && lines[0] == P.PatchLine(KindOf(op.kind), op.text)
    requires op.kind != Insert ==> at.source < |source| && source[at.source] == op.text
    requires next == U.Progress(at.source + |OldPart(op)|, at.output + NewPart(op),
                                at.additions + (if op.kind == Insert then 1 else 0),
                                at.deletions + if op.kind == Delete then 1 else 0)
    ensures U.ApplyLines(source, lines, at) == U.ApplyLines(source, lines[1..], next)
  {
    assert at.output + [] == at.output;
  }

  /** Between two hunks nothing changes. */
  ghost predicate Quiet(ops: Script, from: nat, to: nat)
    requires from <= to <= |ops|
  {
    forall k | from <= k < to :: ops[k].kind == Equal
  }

  lemma {:induction false} QuietKeeps(ops: Script)
    requires forall k | 0 <= k < |ops| :: ops[k].kind == Equal
    ensures Old(ops) == New(ops) && Count(ops, Insert) == 0 && Count(ops, Delete) == 0
  {
    if ops != [] { QuietKeeps(ops[..|ops| - 1]); }
  }

  lemma QuietBetween(ops: Script, from: nat, to: nat)
    requires from <= to <= |ops| && Quiet(ops, from, to)
    ensures |Old(ops[..from])| <= |Old(ops[..to])| <= |Old(ops)|
    ensures New(ops[..from]) + Old(ops)[|Old(ops[..from])|..|Old(ops[..to])|] == New(ops[..to])
    ensures Count(ops[..from], Insert) == Count(ops[..to], Insert) && Count(ops[..from], Delete) == Count(ops[..to], Delete)
  {
    SplitBetween(ops, from, to);
    Split(ops, to);
    QuietKeeps(ops[from..to]);
    hide Old, New, Count;
    Slice(Old(ops[..from]), Old(ops[from..to]), Old(ops[to..]), Old(ops));
  }

  lemma Slice<T>(a: seq<T>, b: seq<T>, c: seq<T>, whole: seq<T>)
    requires whole == a + b + c
    ensures whole[|a|..|a| + |b|] == b
  {}

  /** A hunk takes applying from the end of the one before to its own end. */
  lemma HunkApplies(ops: Script, from: nat, span: Span)
    requires from <= span.start <= span.end <= |ops| && Quiet(ops, from, span.start)
    ensures U.ApplyHunk(Old(ops), HunkAt(ops, span), At(ops, from)) == U.Ok(At(ops, span.end))
  {
    QuietBetween(ops, from, span.start);
    LinesApply(ops, span.start, span.end);
    hide Old, New, Count, U.ApplyLines, U.ApplyHunk;
    HunkStep(Old(ops), HunkAt(ops, span), At(ops, from), At(ops, span.start), At(ops, span.end));
  }

  lemma HunkStep(source: seq<Text>, hunk: P.Hunk, at: U.Progress, mid: U.Progress, next: U.Progress)
    requires hunk.oldStart == if hunk.oldCount == 0 then mid.source else mid.source + 1
    requires hunk.newStart == if hunk.newCount == 0 then |mid.output| else |mid.output| + 1
    requires at.source <= mid.source <= |source| && mid.output == at.output + source[at.source..mid.source]
    requires mid.additions == at.additions && mid.deletions == at.deletions
    requires U.ApplyLines(source, hunk.lines, mid) == U.Ok(next)
    ensures U.ApplyHunk(source, hunk, at) == U.Ok(next)
  {
    hide U.ApplyLines;
    assert at.(source := mid.source, output := at.output + source[at.source..mid.source]) == mid;
  }

  /** The spans from the `i`th on still show every change from `from` on. */
  ghost predicate Ahead(ops: Script, spans: seq<Span>, i: nat, from: nat) {
    && Ordered(spans, |ops|) && i <= |spans| && from <= |ops|
    && (i < |spans| ==> from <= spans[i].start)
    && forall k | from <= k < |ops| && ops[k].kind != Equal ::
         exists j | i <= j < |spans| :: spans[j].start <= k < spans[j].end
  }

  lemma AheadQuiet(ops: Script, spans: seq<Span>, i: nat, from: nat)
    requires Ahead(ops, spans, i, from)
    ensures Quiet(ops, from, if i < |spans| then spans[i].start else |ops|)
    ensures i < |spans| ==> Ahead(ops, spans, i + 1, spans[i].end)
  {
    if i < |spans| {
      forall k | spans[i].end <= k < |ops| && ops[k].kind != Equal
        ensures exists j | i + 1 <= j < |spans| :: spans[j].start <= k < spans[j].end
      {
        var j :| i <= j < |spans| && spans[j].start <= k < spans[j].end;
        assert i + 1 <= j < |spans|;
      }
    }
  }

  lemma {:induction false} HunksApply(ops: Script, spans: seq<Span>, i: nat, from: nat)
    requires Ahead(ops, spans, i, from)
    ensures var last := if i < |spans| then spans[|spans| - 1].end else from;
            && last <= |ops| && Quiet(ops, last, |ops|)
            && U.ApplyHunks(Old(ops), HunksAt(ops, spans)[i..], At(ops, from)) == U.Ok(At(ops, last))
    decreases |spans| - i
  {
    hide At, HunkAt, U.ApplyHunk, Old;
    AheadQuiet(ops, spans, i, from);
    var hunks := HunksAt(ops, spans);
    if i < |spans| {
      assert hunks[i..][0] == HunkAt(ops, spans[i]) && hunks[i..][1..] == hunks[i + 1..];
      HunkApplies(ops, from, spans[i]);
      HunksApply(ops, spans, i + 1, spans[i].end);
    }
  }

  lemma ShownIsAhead(ops: Script, spans: seq<Span>)
    requires Shows(spans, ops)
    ensures Ahead(ops, spans, 0, 0) && (Changes(ops) > 0 ==> spans != [])
  {
    forall k | 0 <= k < |ops| && ops[k].kind != Equal
      ensures exists j | 0 <= j < |spans| :: spans[j].start <= k < spans[j].end
    {
      assert Near(ops, |ops|, k);
      assert Within(spans, k);
    }
    if Changes(ops) > 0 && spans == [] { QuietKeeps(ops); }
  }

  lemma {:induction false} CountsAgree(shown: Script)
    ensures P.CountOld(PatchLines(shown)) == |Old(shown)| && P.CountNew(PatchLines(shown)) == |New(shown)|
    decreases |shown|
  {
    if shown != [] {
      CountsAgree(shown[1..]);
      assert PatchLines(shown)[1..] == PatchLines(shown[1..]);
      Append([shown[0]], shown[1..]);
      Snoc([], shown[0]);
      assert [] + [shown[0]] == [shown[0]] && [shown[0]] + shown[1..] == shown;
    }
  }

  /** A hunk of a diff between texts of exact lengths can be printed. */
  lemma HunkIsWellFormed(ops: Script, span: Span)
    requires span.start <= span.end <= |ops| && WellSplit(Old(ops)) && WellSplit(New(ops))
    requires |Old(ops)| <= MAX_SAFE_INTEGER && |New(ops)| <= MAX_SAFE_INTEGER
    ensures P.WellFormed(HunkAt(ops, span))
  {
    hide Old, New, P.CountOld, P.CountNew, WellSplit, IsLine;
    var shown := ops[span.start..span.end];
    CountsAgree(shown);
    PartsFit(ops, span.start, span.end);
    forall i | 0 <= i < |shown| ensures IsLine(PatchLines(shown)[i].text) { OpIsLine(ops, span.start + i); }
  }

  /** What comes before a stretch of a script, and the stretch, are no longer than the whole. */
  lemma PartsFit(ops: Script, from: nat, to: nat)
    requires from <= to <= |ops|
    ensures |Old(ops[..from])| + |Old(ops[from..to])| <= |Old(ops)| && |New(ops[..from])| + |New(ops[from..to])| <= |New(ops)|
  {
    hide Old, New, Count;
    SplitBetween(ops, from, to);
    Split(ops, to);
  }

  /**
   * For different texts, the printed diff applied to the old text gives the new text, and reports the hunks and
   * changes of the diff, exactly when neither label has a newline.
   */
  lemma RoundTrip(before: Text, after: Text, from: Text, to: Text, diff: Diff, spans: seq<Span>)
    requires before != after && |before| <= MAX_SAFE_INTEGER && |after| <= MAX_SAFE_INTEGER
    requires IsDiff(diff, before, after) && Shows(spans, diff.operations)
    ensures var r := U.Apply(before, Join(P.PatchText(from, to, HunksAt(diff.operations, spans))));
            (r.Ok? && r.value.text == after && r.value.hunks == |spans|
             && r.value.additions == Count(diff.operations, Insert) && r.value.deletions == Count(diff.operations, Delete))
            <==> NewlineFree(from) && NewlineFree(to)
  {
    hide Ahead, Lcs, LinesFrom, Join, U.Hunks, U.ApplyHunks, P.PatchText, Numbered, Count, Old, New, NewlineFree, WellSplit;
    hide P.WellFormed, HunkAt;
    var ops := diff.operations;
    LinesSpell(before);
    LinesSpell(after);
    LinesBound(before, 0);
    LinesBound(after, 0);
    DiffIsMinimal(diff, before, after, ops);
    ShownIsAhead(ops, spans);
    var hunks := HunksAt(ops, spans);
    forall i | 0 <= i < |hunks| ensures P.WellFormed(hunks[i]) { HunkIsWellFormed(ops, spans[i]); }
    PatchReadsBack(from, to, hunks);
    if !NewlineFree(from) || !NewlineFree(to) { LabelsSpoil(from, to, hunks); }
    RoundTripApplies(ops, spans);
  }

  lemma ToEnd<T>(s: seq<T>, from: nat)
    requires from <= |s|
    ensures s[from..|s|] == s[from..]
  {}

  lemma RoundTripApplies(ops: Script, spans: seq<Span>)
    requires Ahead(ops, spans, 0, 0)
    ensures var r := U.ApplyHunks(Old(ops), HunksAt(ops, spans), U.START);
            && r.Ok? && r.value.source <= |Old(ops)| && r.value.output + Old(ops)[r.value.source..] == New(ops)
            && r.value.additions == Count(ops, Insert) && r.value.deletions == Count(ops, Delete)
  {
    HunksApply(ops, spans, 0, 0);
    var last := if 0 < |spans| then spans[|spans| - 1].end else 0;
    QuietBetween(ops, last, |ops|);
    assert At(ops, 0) == U.START;
    hide Old, New, Count, U.ApplyHunks, HunksAt, Ahead, Quiet;
    assert ops[..|ops|] == ops && HunksAt(ops, spans)[0..] == HunksAt(ops, spans);
    ToEnd(Old(ops), |Old(ops[..last])|);
  }
}
