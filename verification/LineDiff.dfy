/** src/core/line-diff.ts:34-176: the comparison table, the walk over it, and the trimmed diff. */
module LineDiff {
  import opened Utf16
  import opened TextLines
  import opened LineScript

  const MAX_LCS_CELLS: nat := 1_000_000

  datatype Outcome<+T> = Ok(value: T) | TooBig

  datatype Diff = Diff(changes: nat, operations: Script)

  /** Where row `left` of the flat table starts. */
  function Row(left: nat, columns: nat): nat { if left == 0 then 0 else Row(left - 1, columns) + columns }

  lemma {:induction false} RowIsProduct(left: nat, columns: nat)
    ensures Row(left, columns) == left * columns
  {
    if left > 0 { RowIsProduct(left - 1, columns); }
  }

  lemma {:induction false} RowsApart(a: nat, b: nat, columns: nat)
    requires a < b
    ensures Row(a, columns) + columns <= Row(b, columns)
  {
    if a + 1 < b { RowsApart(a, b - 1, columns); }
  }

  /** The table's entry for the suffixes from `left` and `right`. */
  ghost predicate CellHolds(cells: seq<nat>, before: seq<Text>, after: seq<Text>, left: nat, right: nat)
    requires left <= |before| && right <= |after|
  {
    && Row(left, |after| + 1) + right < |cells|
    && cells[Row(left, |after| + 1) + right] == Lcs(before[left..], after[right..])
  }

  /** Every entry after the one for `left` and `right`, in the order they are filled, is right. */
  ghost predicate FilledAfter(cells: seq<nat>, before: seq<Text>, after: seq<Text>, left: int, right: int) {
    forall l: nat, r: nat {:trigger CellHolds(cells, before, after, l, r)} |
      l <= |before| && r <= |after| && (l > left || (l == left && r > right) || r == |after|) ::
      CellHolds(cells, before, after, l, r)
  }

  lemma BordersFilled(cells: seq<nat>, before: seq<Text>, after: seq<Text>)
    requires |cells| == Row(|before| + 1, |after| + 1) && forall i | 0 <= i < |cells| :: cells[i] == 0
    ensures FilledAfter(cells, before, after, |before| - 1, |after| - 1)
  {
    forall l: nat, r: nat | l <= |before| && r <= |after| && (l > |before| - 1 || r == |after|)
      ensures CellHolds(cells, before, after, l, r)
    {
      RowsApart(l, |before| + 1, |after| + 1);
    }
  }

  /** Filling one entry leaves those already filled. */
  lemma FillOne(cells: seq<nat>, now: seq<nat>, before: seq<Text>, after: seq<Text>, left: nat, right: nat, value: nat)
    requires left < |before| && right < |after| && FilledAfter(cells, before, after, left, right)
    requires var index := Row(left, |after| + 1) + right; index < |cells| && now == cells[index := value]
    requires value == Lcs(before[left..], after[right..])
    ensures FilledAfter(now, before, after, left, right - 1)
  {
    var columns := |after| + 1;
    forall l: nat, r: nat |
      l <= |before| && r <= |after| && (l > left || (l == left && r > right - 1) || r == |after|)
      ensures CellHolds(now, before, after, l, r)
    {
      if l != left || r != right {
        assert CellHolds(cells, before, after, l, r);
        if l < left { RowsApart(l, left, columns); }
        if left < l { RowsApart(left, l, columns); }
      }
    }
  }

  /** The recurrence the table is filled by. */
  lemma Recurrence(cells: seq<nat>, before: seq<Text>, after: seq<Text>, left: nat, right: nat)
    requires left < |before| && right < |after| && FilledAfter(cells, before, after, left, right)
    ensures var columns := |after| + 1;
            var index, below := Row(left, columns) + right, Row(left + 1, columns) + right;
            && below == index + columns && below + 1 < |cells|
            && Lcs(before[left..], after[right..]) ==
                 if before[left] == after[right] then cells[below + 1] + 1 else Max(cells[below], cells[index + 1])
  {
    assert CellHolds(cells, before, after, left + 1, right + 1);
    assert CellHolds(cells, before, after, left + 1, right);
    assert CellHolds(cells, before, after, left, right + 1);
    assert before[left..][1..] == before[left + 1..] && after[right..][1..] == after[right + 1..];
  }

  function CellCount(rows: nat, columns: nat): nat { (rows + 1) * (columns + 1) }

  method LcsLengths(before: seq<Text>, after: seq<Text>) returns (r: Outcome<array<nat>>)
    ensures r.TooBig? <==> CellCount(|before|, |after|) > MAX_LCS_CELLS
    ensures r.Ok? ==> fresh(r.value) && FilledAfter(r.value[..], before, after, -1, |after|)
  {
    var columns := |after| + 1;
    var cells := (|before| + 1) * columns;
    if cells > MAX_LCS_CELLS { return TooBig; }
    var lengths := new nat[cells](_ => 0);
    RowIsProduct(|before| + 1, columns);
    BordersFilled(lengths[..], before, after);
    var left := |before| - 1;
    while left >= 0
      invariant -1 <= left < |before| && lengths.Length == Row(|before| + 1, columns)
      invariant FilledAfter(lengths[..], before, after, left, |after| - 1)
      decreases left
    {
      var right := |after| - 1;
      while right >= 0
        invariant -1 <= right < |after| && lengths.Length == Row(|before| + 1, columns)
        invariant FilledAfter(lengths[..], before, after, left, right)
        decreases right
      {
        RowIsProduct(left, columns);
        RowIsProduct(left + 1, columns);
        Recurrence(lengths[..], before, after, left, right);
        ghost var cells := lengths[..];
        var index := left * columns + right;
        lengths[index] :=
          if before[left] == after[right] then lengths[(left + 1) * columns + right + 1] + 1
          else Max(lengths[(left + 1) * columns + right], lengths[index + 1]);
        FillOne(cells, lengths[..], before, after, left, right, lengths[index]);
        right := right - 1;
      }
      NextRow(lengths[..], before, after, left);
      left := left - 1;
    }
    return Ok(lengths);
  }

  lemma NextRow(cells: seq<nat>, before: seq<Text>, after: seq<Text>, left: nat)
    requires left < |before| && FilledAfter(cells, before, after, left, -1)
    ensures FilledAfter(cells, before, after, left - 1, |after| - 1) && FilledAfter(cells, before, after, left - 1, |after|)
  {
    forall l: nat, r: nat | l <= |before| && r <= |after| && (l > left - 1 || r == |after|)
      ensures CellHolds(cells, before, after, l, r) {}
  }

  /** Whether the table says to delete before inserting. */
  predicate ShouldDelete(lengths: array<nat>, columns: nat, left: nat, right: nat, afterLength: nat)
    reads lengths
    requires right < afterLength ==> (left + 1) * columns + right < lengths.Length && left * columns + right + 1 < lengths.Length
  {
    right >= afterLength || lengths[(left + 1) * columns + right] >= lengths[left * columns + right + 1]
  }

  /** The script so far, and what is still to be compared, keep a longest common subsequence. */
  ghost predicate Walked(ops: Script, before: seq<Text>, after: seq<Text>, left: nat, right: nat, oldOffset: nat, newOffset: nat) {
    && left <= |before| && right <= |after|
    && IsScript(ops, before[..left], after[..right]) && Numbered(ops, oldOffset, newOffset)
    && Count(ops, Equal) + Lcs(before[left..], after[right..]) == Lcs(before, after)
  }

  lemma Advance(lines: seq<Text>, at: nat)
    requires at < |lines|
    ensures lines[..at + 1] == lines[..at] + [lines[at]] && lines[at..][0] == lines[at] && lines[at..][1..] == lines[at + 1..]
  {}

  /** What the walk may push next. */
  ghost predicate NextOp(before: seq<Text>, after: seq<Text>, left: nat, right: nat, op: Operation) {
    match op.kind
    case Equal => left < |before| && right < |after| && op.text == before[left] == after[right]
    case Delete =>
      && left < |before| && op.text == before[left]
      && (right >= |after| || (before[left] != after[right]
                               && Lcs(before[left + 1..], after[right..]) >= Lcs(before[left..], after[right + 1..])))
    case Insert =>
      && right < |after| && op.text == after[right]
      && (left >= |before| || (before[left] != after[right]
                               && Lcs(before[left + 1..], after[right..]) < Lcs(before[left..], after[right + 1..])))
  }

  /** Each step keeps what is still to be kept. */
  lemma StepLcs(before: seq<Text>, after: seq<Text>, left: nat, right: nat, op: Operation)
    requires left <= |before| && right <= |after| && NextOp(before, after, left, right, op)
    ensures var l, r := if op.kind == Insert then left else left + 1, if op.kind == Delete then right else right + 1;
            && l <= |before| && r <= |after|
            && Lcs(before[left..], after[right..]) == Lcs(before[l..], after[r..]) + if op.kind == Equal then 1 else 0
  {
    if left < |before| { Advance(before, left); }
    if right < |after| { Advance(after, right); }
  }

  lemma StepScript(ops: Script, before: seq<Text>, after: seq<Text>, left: nat, right: nat, op: Operation)
    requires left <= |before| && right <= |after| && IsScript(ops, before[..left], after[..right])
    requires op.kind != Insert ==> left < |before| && op.text == before[left]
    requires op.kind != Delete ==> right < |after| && op.text == after[right]
    ensures var l, r := if op.kind == Insert then left else left + 1, if op.kind == Delete then right else right + 1;
            l <= |before| && r <= |after| && IsScript(ops + [op], before[..l], after[..r])
  {
    Snoc(ops, op);
    hide Old, New;
    if op.kind != Insert { Advance(before, left); } else { assert Old(ops) + [] == Old(ops); }
    if op.kind != Delete { Advance(after, right); } else { assert New(ops) + [] == New(ops); }
  }

  lemma WalkStep(ops: Script, before: seq<Text>, after: seq<Text>, left: nat, right: nat, oldOffset: nat, newOffset: nat, op: Operation)
    requires Walked(ops, before, after, left, right, oldOffset, newOffset) && NextOp(before, after, left, right, op)
    requires op.oldLine == oldOffset + left + 1 && op.newLine == newOffset + right + 1
    ensures Walked(ops + [op], before, after, if op.kind == Insert then left else left + 1,
                   if op.kind == Delete then right else right + 1, oldOffset, newOffset)
  {
    StepLcs(before, after, left, right, op);
    StepScript(ops, before, after, left, right, op);
    NumberedSnoc(ops, op, oldOffset, newOffset);
    Snoc(ops, op);
    hide Old, New, Lcs, Numbered, Count;
  }

  lemma TableAt(cells: seq<nat>, before: seq<Text>, after: seq<Text>, left: nat, right: nat)
    requires FilledAfter(cells, before, after, -1, |after|) && left < |before| && right < |after|
    ensures var columns := |after| + 1;
            && (left + 1) * columns + right < |cells| && left * columns + right + 1 < |cells|
            && cells[(left + 1) * columns + right] == Lcs(before[left + 1..], after[right..])
            && cells[left * columns + right + 1] == Lcs(before[left..], after[right + 1..])
  {
    RowIsProduct(left, |after| + 1);
    RowIsProduct(left + 1, |after| + 1);
    assert CellHolds(cells, before, after, left + 1, right);
    assert CellHolds(cells, before, after, left, right + 1);
  }

  lemma WalkStart(before: seq<Text>, after: seq<Text>, oldOffset: nat, newOffset: nat)
    ensures Walked([], before, after, 0, 0, oldOffset, newOffset)
  {
    assert before[0..] == before && after[0..] == after;
  }

  lemma WalkEnd(ops: Script, before: seq<Text>, after: seq<Text>, oldOffset: nat, newOffset: nat)
    requires Walked(ops, before, after, |before|, |after|, oldOffset, newOffset)
    ensures IsScript(ops, before, after) && Numbered(ops, oldOffset, newOffset) && Count(ops, Equal) == Lcs(before, after)
  {
    assert before[..|before|] == before && after[..|after|] == after;
  }

  /** The operations for what is left of either side: common lines are kept, and deletions come before insertions. */
  function Walk(before: seq<Text>, after: seq<Text>, left: nat, right: nat, oldOffset: nat, newOffset: nat): Script
    requires left <= |before| && right <= |after|
    decreases |before| - left + |after| - right
  {
    var oldLine, newLine := oldOffset + left + 1, newOffset + right + 1;
    if left == |before| && right == |after| then []
    else if left < |before| && right < |after| && before[left] == after[right] then
      [Operation(Equal, before[left], oldLine, newLine)] + Walk(before, after, left + 1, right + 1, oldOffset, newOffset)
    else if left < |before| && (right == |after| || Lcs(before[left + 1..], after[right..]) >= Lcs(before[left..], after[right + 1..])) then
      [Operation(Delete, before[left], oldLine, newLine)] + Walk(before, after, left + 1, right, oldOffset, newOffset)
    else
      [Operation(Insert, after[right], oldLine, newLine)] + Walk(before, after, left, right + 1, oldOffset, newOffset)
  }

  lemma WalkDone(before: seq<Text>, after: seq<Text>, oldOffset: nat, newOffset: nat)
    ensures Walk(before, after, |before|, |after|, oldOffset, newOffset) == []
  {}

  lemma WalkPushes(ops: Script, before: seq<Text>, after: seq<Text>, left: nat, right: nat, oldOffset: nat, newOffset: nat, op: Operation)
    requires left <= |before| && right <= |after| && NextOp(before, after, left, right, op)
    requires op.oldLine == oldOffset + left + 1 && op.newLine == newOffset + right + 1
    ensures var l, r := if op.kind == Insert then left else left + 1, if op.kind == Delete then right else right + 1;
            l <= |before| && r <= |after|
            && ops + Walk(before, after, left, right, oldOffset, newOffset) == ops + [op] + Walk(before, after, l, r, oldOffset, newOffset)
  {
    hide Lcs;
    var l, r := if op.kind == Insert then left else left + 1, if op.kind == Delete then right else right + 1;
    assert Walk(before, after, left, right, oldOffset, newOffset) == [op] + Walk(before, after, l, r, oldOffset, newOffset);
  }

  /** Walks the table from the start, keeping a longest common subsequence; deletions come before insertions. */
  method LineOperations(before: seq<Text>, after: seq<Text>, oldOffset: nat, newOffset: nat) returns (r: Outcome<Script>)
    ensures r.TooBig? <==> CellCount(|before|, |after|) > MAX_LCS_CELLS
    ensures r.Ok? ==> IsScript(r.value, before, after) && Numbered(r.value, oldOffset, newOffset)
    ensures r.Ok? ==> Count(r.value, Equal) == Lcs(before, after)
    ensures r.Ok? ==> r.value == Walk(before, after, 0, 0, oldOffset, newOffset)
  {
    hide Walked, FilledAfter, CellCount, Walk;
    var columns := |after| + 1;
    var table := LcsLengths(before, after);
    if table.TooBig? { return TooBig; }
    var lengths := table.value;
    ghost var cells := lengths[..];
    var operations: Script := [];
    var left, right := 0, 0;
    WalkStart(before, after, oldOffset, newOffset);
    while left < |before| || right < |after|
      invariant left <= |before| && right <= |after|
      invariant Walked(operations, before, after, left, right, oldOffset, newOffset)
      invariant lengths[..] == cells
      invariant operations + Walk(before, after, left, right, oldOffset, newOffset) == Walk(before, after, 0, 0, oldOffset, newOffset)
      decreases |before| - left + |after| - right
    {
      if left < |before| && right < |after| { TableAt(lengths[..], before, after, left, right); }
      if left < |before| && right < |after| && before[left] == after[right] {
        var op := Operation(Equal, before[left], oldOffset + left + 1, newOffset + right + 1);
        WalkStep(operations, before, after, left, right, oldOffset, newOffset, op);
        WalkPushes(operations, before, after, left, right, oldOffset, newOffset, op);
        operations := operations + [op];
        left, right := left + 1, right + 1;
      } else if left < |before| && ShouldDelete(lengths, columns, left, right, |after|) {
        var op := Operation(Delete, before[left], oldOffset + left + 1, newOffset + right + 1);
        WalkStep(operations, before, after, left, right, oldOffset, newOffset, op);
        WalkPushes(operations, before, after, left, right, oldOffset, newOffset, op);
        operations := operations + [op];
        left := left + 1;
      } else {
        var op := Operation(Insert, after[right], oldOffset + left + 1, newOffset + right + 1);
        WalkStep(operations, before, after, left, right, oldOffset, newOffset, op);
        WalkPushes(operations, before, after, left, right, oldOffset, newOffset, op);
        operations := operations + [op];
        right := right + 1;
      }
    }
    WalkEnd(operations, before, after, oldOffset, newOffset);
    WalkDone(before, after, oldOffset, newOffset);
    assert operations + [] == operations;
    return Ok(operations);
  }

  ghost function CommonPrefix(a: seq<Text>, b: seq<Text>): (n: nat)
    ensures n <= |a| && n <= |b|
  {
    if a == [] || b == [] || a[0] != b[0] then 0 else CommonPrefix(a[1..], b[1..]) + 1
  }

  ghost function CommonSuffix(a: seq<Text>, b: seq<Text>): (n: nat)
    ensures n <= |a| && n <= |b|
  {
    if a == [] || b == [] || a[|a| - 1] != b[|b| - 1] then 0 else CommonSuffix(a[..|a| - 1], b[..|b| - 1]) + 1
  }

  /** The comparison cells a diff needs once common lines at either end are left out. */
  ghost function Cells(before: seq<Text>, after: seq<Text>): nat {
    var prefix := CommonPrefix(before, after);
    var suffix := CommonSuffix(before[prefix..], after[prefix..]);
    CellCount(|before| - prefix - suffix, |after| - prefix - suffix)
  }

  /** The first `n` lines are common, and what is left has the other common ones. */
  ghost predicate Leads(before: seq<Text>, after: seq<Text>, n: nat) {
    && n <= |before| && n <= |after| && before[..n] == after[..n]
    && CommonPrefix(before, after) == n + CommonPrefix(before[n..], after[n..])
  }

  lemma LeadsMore(before: seq<Text>, after: seq<Text>, n: nat)
    requires Leads(before, after, n) && n < |before| && n < |after|
    ensures if before[n] == after[n] then Leads(before, after, n + 1) else CommonPrefix(before, after) == n
  {
    Advance(before, n);
    Advance(after, n);
  }

  /** The last `n` lines are common, and what is left has the other common ones. */
  ghost predicate Trails(before: seq<Text>, after: seq<Text>, n: nat) {
    && n <= |before| && n <= |after| && before[|before| - n..] == after[|after| - n..]
    && CommonSuffix(before, after) == n + CommonSuffix(before[..|before| - n], after[..|after| - n])
  }

  lemma Retreat(lines: seq<Text>, n: nat)
    requires n < |lines|
    ensures var rest := lines[..|lines| - n];
            rest[|rest| - 1] == lines[|lines| - n - 1] && rest[..|rest| - 1] == lines[..|lines| - n - 1]
    ensures lines[|lines| - n - 1..] == [lines[|lines| - n - 1]] + lines[|lines| - n..]
  {}

  lemma TrailsMore(before: seq<Text>, after: seq<Text>, n: nat)
    requires Trails(before, after, n) && n < |before| && n < |after|
    ensures if before[|before| - n - 1] == after[|after| - n - 1] then Trails(before, after, n + 1)
            else CommonSuffix(before, after) == n
  {
    Retreat(before, n);
    Retreat(after, n);
  }

  lemma TrimStarts(before: seq<Text>, after: seq<Text>)
    ensures Leads(before, after, 0) && Trails(before, after, 0)
  {
    assert before[0..] == before && after[0..] == after;
    assert before[..|before|] == before && after[..|after|] == after;
  }

  lemma TrimStops(before: seq<Text>, after: seq<Text>, n: nat)
    requires n == |before| || n == |after|
    ensures Leads(before, after, n) ==> CommonPrefix(before, after) == n
    ensures Trails(before, after, n) ==> CommonSuffix(before, after) == n
  {}

  /** Finds the common lines at the start. */
  method CommonStart(before: seq<Text>, after: seq<Text>) returns (prefix: nat)
    ensures prefix == CommonPrefix(before, after) && Leads(before, after, prefix)
  {
    hide Leads, CommonPrefix;
    var shared := if |before| < |after| then |before| else |after|;
    prefix := 0;
    TrimStarts(before, after);
    while prefix < shared && before[prefix] == after[prefix]
      invariant prefix <= shared && Leads(before, after, prefix)
    {
      LeadsMore(before, after, prefix);
      prefix := prefix + 1;
    }
    if prefix < shared { LeadsMore(before, after, prefix); } else { TrimStops(before, after, prefix); }
  }

  /** Finds the common lines at the end, not counting those at the start again. */
  method CommonEnd(before: seq<Text>, after: seq<Text>, prefix: nat) returns (suffix: nat)
    requires prefix <= |before| && prefix <= |after|
    ensures suffix == CommonSuffix(before[prefix..], after[prefix..]) && Trails(before[prefix..], after[prefix..], suffix)
  {
    hide Trails, CommonSuffix;
    var shared := if |before| < |after| then |before| else |after|;
    ghost var a, b := before[prefix..], after[prefix..];
    suffix := 0;
    TrimStarts(a, b);
    while suffix < shared - prefix && before[|before| - suffix - 1] == after[|after| - suffix - 1]
      invariant suffix <= shared - prefix && Trails(a, b, suffix)
    {
      TrailsMore(a, b, suffix);
      assert a[|a| - suffix - 1] == before[|before| - suffix - 1] && b[|b| - suffix - 1] == after[|after| - suffix - 1];
      suffix := suffix + 1;
    }
    if suffix < shared - prefix {
      TrailsMore(a, b, suffix);
      assert a[|a| - suffix - 1] == before[|before| - suffix - 1] && b[|b| - suffix - 1] == after[|after| - suffix - 1];
    } else {
      TrimStops(a, b, suffix);
    }
  }

  /** The script is that of the middle, with the common lines kept around it. */
  lemma Around(before: seq<Text>, after: seq<Text>, prefix: nat, suffix: nat, head: Script, middle: Script, tail: Script)
    requires Leads(before, after, prefix) && Trails(before[prefix..], after[prefix..], suffix)
    requires Kept(head, before[..prefix], 0, 0)
    requires var a, b := before[prefix..|before| - suffix], after[prefix..|after| - suffix];
             IsScript(middle, a, b) && Numbered(middle, prefix, prefix) && Count(middle, Equal) == Lcs(a, b)
    requires Kept(tail, before[|before| - suffix..], |before| - suffix, |after| - suffix)
    ensures var ops := head + middle + tail;
            IsScript(ops, before, after) && Numbered(ops, 0, 0) && Count(ops, Equal) == Lcs(before, after)
  {
    hide *;
    EndsAgree(before, after, prefix, suffix);
    Pieces(before, prefix, suffix);
    Pieces(after, prefix, suffix);
    var p, a, b := before[..prefix], before[prefix..|before| - suffix], after[prefix..|after| - suffix];
    var s := before[|before| - suffix..];
    AroundPieces(p, a, b, s, head, middle, tail);
  }

  lemma AroundPieces(p: seq<Text>, a: seq<Text>, b: seq<Text>, s: seq<Text>, head: Script, middle: Script, tail: Script)
    requires Kept(head, p, 0, 0) && Kept(tail, s, |p| + |a|, |p| + |b|)
    requires IsScript(middle, a, b) && Numbered(middle, |p|, |p|) && Count(middle, Equal) == Lcs(a, b)
    ensures var ops := head + middle + tail;
            IsScript(ops, p + a + s, p + b + s) && Numbered(ops, 0, 0) && Count(ops, Equal) == Lcs(p + a + s, p + b + s)
  {
    hide Kept, Lcs, Numbered, Old, New, Count;
    KeptIsScript(head, p, 0, 0);
    KeptIsScript(tail, s, |p| + |a|, |p| + |b|);
    assert |Old(head)| == |p| == |New(head)| && |Old(middle)| == |a| && |New(middle)| == |b|;
    hide IsScript;
    AroundCounts(p, a, b, s, head, middle, tail);
    AroundNumbers(head, middle, tail);
  }

  lemma EndsAgree(before: seq<Text>, after: seq<Text>, prefix: nat, suffix: nat)
    requires Leads(before, after, prefix) && Trails(before[prefix..], after[prefix..], suffix)
    ensures prefix + suffix <= |before| && prefix + suffix <= |after|
    ensures before[..prefix] == after[..prefix] && before[|before| - suffix..] == after[|after| - suffix..]
  {
    var a, b := before[prefix..], after[prefix..];
    assert a[|a| - suffix..] == before[|before| - suffix..] && b[|b| - suffix..] == after[|after| - suffix..];
  }

  lemma Pieces(lines: seq<Text>, prefix: nat, suffix: nat)
    requires prefix + suffix <= |lines|
    ensures lines == lines[..prefix] + lines[prefix..|lines| - suffix] + lines[|lines| - suffix..]
  {}

  lemma AroundCounts(p: seq<Text>, a: seq<Text>, b: seq<Text>, s: seq<Text>, head: Script, middle: Script, tail: Script)
    requires IsScript(head, p, p) && IsScript(middle, a, b) && IsScript(tail, s, s)
    requires Count(head, Equal) == |p| && Count(tail, Equal) == |s| && Count(middle, Equal) == Lcs(a, b)
    ensures IsScript(head + middle + tail, p + a + s, p + b + s)
    ensures Count(head + middle + tail, Equal) == Lcs(p + a + s, p + b + s)
  {
    hide Old, New, Count, Lcs;
    Append(head, middle);
    Append(head + middle, tail);
    LcsPrefix(p, a, b);
    LcsSuffix(p + a, p + b, s);
  }

  lemma AroundNumbers(head: Script, middle: Script, tail: Script)
    requires Numbered(head, 0, 0) && Numbered(middle, |Old(head)|, |New(head)|)
    requires Numbered(tail, |Old(head)| + |Old(middle)|, |New(head)| + |New(middle)|)
    ensures Numbered(head + middle + tail, 0, 0)
  {
    hide Old, New, Count, Numbered;
    NumberedAppend(head, middle);
    Append(head, middle);
    NumberedAppend(head + middle, tail);
  }

  /** Pushes the operations of common lines. */
  method KeepLines(lines: seq<Text>, oldFrom: nat, newFrom: nat) returns (ops: Script)
    ensures Kept(ops, lines, oldFrom, newFrom) && ops == KeptLines(lines, oldFrom, newFrom)
  {
    ops := [];
    var index := 0;
    while index < |lines|
      invariant index <= |lines| && Kept(ops, lines[..index], oldFrom, newFrom)
    {
      ops := ops + [Operation(Equal, lines[index], oldFrom + index + 1, newFrom + index + 1)];
      index := index + 1;
    }
    assert lines[..index] == lines;
  }

  /** The operations of a run of common lines. */
  function KeptLines(lines: seq<Text>, oldFrom: nat, newFrom: nat): Script {
    seq(|lines|, i requires 0 <= i < |lines| => Operation(Equal, lines[i], oldFrom + i + 1, newFrom + i + 1))
  }

  /** The operations of a diff: the walk over what lies between the common ends. */
  ghost function DiffScript(before: seq<Text>, after: seq<Text>): Script {
    var prefix := CommonPrefix(before, after);
    var suffix := CommonSuffix(before[prefix..], after[prefix..]);
    var oldEnd, newEnd := |before| - suffix, |after| - suffix;
    KeptLines(before[..prefix], 0, 0) + Walk(before[prefix..oldEnd], after[prefix..newEnd], 0, 0, prefix, prefix)
    + KeptLines(before[oldEnd..], oldEnd, newEnd)
  }

  /** What a diff of different texts says: a shortest script between their lines, numbered, and how many lines it changes. */
  ghost predicate IsDiff(diff: Diff, before: Text, after: Text) {
    && diff.operations == DiffScript(Lines(before), Lines(after))
    && IsScript(diff.operations, Lines(before), Lines(after)) && Numbered(diff.operations, 0, 0)
    && Count(diff.operations, Equal) == Lcs(Lines(before), Lines(after))
    && diff.changes == Changes(diff.operations)
  }

  lemma CellsAre(before: seq<Text>, after: seq<Text>, prefix: nat, suffix: nat)
    requires prefix == CommonPrefix(before, after) && suffix == CommonSuffix(before[prefix..], after[prefix..])
    ensures prefix + suffix <= |before| && prefix + suffix <= |after|
    ensures Cells(before, after) == CellCount(|before[prefix..|before| - suffix]|, |after[prefix..|after| - suffix]|)
  {}

  method DiffLines(beforeLines: seq<Text>, afterLines: seq<Text>) returns (r: Outcome<Script>)
    ensures r.TooBig? <==> Cells(beforeLines, afterLines) > MAX_LCS_CELLS
    ensures r.Ok? ==> IsScript(r.value, beforeLines, afterLines) && Numbered(r.value, 0, 0)
    ensures r.Ok? ==> Count(r.value, Equal) == Lcs(beforeLines, afterLines)
    ensures r.Ok? ==> r.value == DiffScript(beforeLines, afterLines)
  {
    hide Walk, Leads, Trails, CommonPrefix, CommonSuffix, Lcs, Kept, IsScript, Numbered, CellCount, Cells, Count;
    var prefix := CommonStart(beforeLines, afterLines);
    var suffix := CommonEnd(beforeLines, afterLines, prefix);
    CellsAre(beforeLines, afterLines, prefix, suffix);
    var head := KeepLines(beforeLines[..prefix], 0, 0);
    var middle := LineOperations(beforeLines[prefix..|beforeLines| - suffix], afterLines[prefix..|afterLines| - suffix], prefix, prefix);
    if middle.TooBig? { return TooBig; }
    var tail := KeepLines(beforeLines[|beforeLines| - suffix..], |beforeLines| - suffix, |afterLines| - suffix);
    Around(beforeLines, afterLines, prefix, suffix, head, middle.value, tail);
    return Ok(head + middle.value + tail);
  }

  /** Compares two texts line by line. */
  method CreateLineDiff(before: Text, after: Text) returns (r: Outcome<Diff>)
    ensures r.TooBig? <==> before != after && Cells(Lines(before), Lines(after)) > MAX_LCS_CELLS
    ensures r.Ok? && before == after ==> r.value == Diff(0, [])
    ensures r.Ok? && before != after ==> IsDiff(r.value, before, after)
  {
    hide Lcs, IsScript, Numbered, Cells, Count, Lines, DiffScript;
    if before == after { return Ok(Diff(0, [])); }
    var beforeLines := SplitLinesPreservingEndings(before);
    var afterLines := SplitLinesPreservingEndings(after);
    var operations := DiffLines(beforeLines, afterLines);
    if operations.TooBig? { return TooBig; }
    return Ok(Diff(Changes(operations.value), operations.value));
  }

  /**
   * The diff of two different texts is minimal, and changes something: no other script between their
   * lines changes fewer.
   */
  lemma DiffIsMinimal(diff: Diff, before: Text, after: Text, other: Script)
    requires IsDiff(diff, before, after) && before != after && IsScript(other, Lines(before), Lines(after))
    ensures diff.changes == |Lines(before)| + |Lines(after)| - 2 * Lcs(Lines(before), Lines(after))
    ensures 0 < diff.changes <= Changes(other)
  {
    Minimal(diff.operations, other, Lines(before), Lines(after));
    if diff.changes == 0 {
      Unchanged(diff.operations);
      LinesDetermine(before, after);
    }
  }

  lemma {:induction false} Unchanged(ops: Script)
    requires Changes(ops) == 0
    ensures Old(ops) == New(ops)
  {
    if ops != [] { Unchanged(ops[..|ops| - 1]); }
  }

  /** Every line of a script is a line of one of its texts. */
  lemma OpIsLine(ops: Script, k: nat)
    requires k < |ops| && WellSplit(Old(ops)) && WellSplit(New(ops))
    ensures IsLine(ops[k].text)
  {
    if ops[k].kind != Insert { NextOld(ops, k); } else { NextNew(ops, k); }
  }

  /** What the walk may push next is the first of its operations. */
  lemma WalkNext(before: seq<Text>, after: seq<Text>, left: nat, right: nat, oldOffset: nat, newOffset: nat) returns (op: Operation)
    requires left <= |before| && right <= |after| && (left < |before| || right < |after|)
    ensures NextOp(before, after, left, right, op) && op.oldLine == oldOffset + left + 1 && op.newLine == newOffset + right + 1
  {
    op := Walk(before, after, left, right, oldOffset, newOffset)[0];
  }

  lemma {:induction false} WalkFinishes(ops: Script, before: seq<Text>, after: seq<Text>, left: nat, right: nat, oldOffset: nat, newOffset: nat)
    requires Walked(ops, before, after, left, right, oldOffset, newOffset)
    ensures Walked(ops + Walk(before, after, left, right, oldOffset, newOffset), before, after, |before|, |after|, oldOffset, newOffset)
    decreases |before| - left + |after| - right
  {
    WalkedBounds(ops, before, after, left, right, oldOffset, newOffset);
    hide Walked, Walk;
    if left == |before| && right == |after| {
      WalkDone(before, after, oldOffset, newOffset);
      assert ops + [] == ops;
    } else {
      var op := WalkNext(before, after, left, right, oldOffset, newOffset);
      WalkStep(ops, before, after, left, right, oldOffset, newOffset, op);
      WalkPushes(ops, before, after, left, right, oldOffset, newOffset, op);
      WalkFinishes(ops + [op], before, after, if op.kind == Insert then left else left + 1,
                   if op.kind == Delete then right else right + 1, oldOffset, newOffset);
    }
  }

  lemma WalkedBounds(ops: Script, before: seq<Text>, after: seq<Text>, left: nat, right: nat, oldOffset: nat, newOffset: nat)
    requires Walked(ops, before, after, left, right, oldOffset, newOffset)
    ensures left <= |before| && right <= |after|
  {}

  lemma {:induction false} LeadsOn(before: seq<Text>, after: seq<Text>, n: nat)
    requires Leads(before, after, n) && n <= |before| && n <= |after|
    ensures Leads(before, after, CommonPrefix(before, after))
    decreases |before| - n
  {
    hide Leads, CommonPrefix;
    if n < |before| && n < |after| {
      LeadsMore(before, after, n);
      if before[n] == after[n] { LeadsOn(before, after, n + 1); }
    } else {
      TrimStops(before, after, n);
    }
  }

  lemma {:induction false} TrailsOn(before: seq<Text>, after: seq<Text>, n: nat)
    requires Trails(before, after, n) && n <= |before| && n <= |after|
    ensures Trails(before, after, CommonSuffix(before, after))
    decreases |before| - n
  {
    hide Trails, CommonSuffix;
    if n < |before| && n < |after| {
      TrailsMore(before, after, n);
      if before[|before| - n - 1] == after[|after| - n - 1] { TrailsOn(before, after, n + 1); }
    } else {
      TrimStops(before, after, n);
    }
  }

  /** The operations of a diff are a shortest script, whether or not the comparison fits the limit. */
  lemma DiffScriptIsDiff(before: Text, after: Text)
    ensures var ops := DiffScript(Lines(before), Lines(after)); IsDiff(Diff(Changes(ops), ops), before, after)
  {
    hide Lines;
    LineDiffIsScript(Lines(before), Lines(after));
    hide DiffScript, IsScript, Numbered, Count, Lcs;
  }

  lemma LineDiffIsScript(before: seq<Text>, after: seq<Text>)
    ensures var ops := DiffScript(before, after);
            IsScript(ops, before, after) && Numbered(ops, 0, 0) && Count(ops, Equal) == Lcs(before, after)
  {
    hide Leads, Trails, CommonPrefix, CommonSuffix, Lcs, Kept, IsScript, Numbered, Count, Walk, KeptLines;
    TrimStarts(before, after);
    LeadsOn(before, after, 0);
    var prefix := CommonPrefix(before, after);
    TrimStarts(before[prefix..], after[prefix..]);
    TrailsOn(before[prefix..], after[prefix..], 0);
    var suffix := CommonSuffix(before[prefix..], after[prefix..]);
    var oldEnd, newEnd := |before| - suffix, |after| - suffix;
    var a, b := before[prefix..oldEnd], after[prefix..newEnd];
    var head, middle, tail := KeptLines(before[..prefix], 0, 0), Walk(a, b, 0, 0, prefix, prefix), KeptLines(before[oldEnd..], oldEnd, newEnd);
    LinesKept(before[..prefix], 0, 0);
    LinesKept(before[oldEnd..], oldEnd, newEnd);
    WalkIsScript(a, b, prefix, prefix);
    Around(before, after, prefix, suffix, head, middle, tail);
  }

  lemma LinesKept(lines: seq<Text>, oldFrom: nat, newFrom: nat)
    ensures Kept(KeptLines(lines, oldFrom, newFrom), lines, oldFrom, newFrom)
  {}

  lemma WalkIsScript(before: seq<Text>, after: seq<Text>, oldOffset: nat, newOffset: nat)
    ensures var ops := Walk(before, after, 0, 0, oldOffset, newOffset);
            IsScript(ops, before, after) && Numbered(ops, oldOffset, newOffset) && Count(ops, Equal) == Lcs(before, after)
  {
    var ops := Walk(before, after, 0, 0, oldOffset, newOffset);
    hide Walked, Walk, IsScript, Numbered, Count, Lcs;
    WalkStart(before, after, oldOffset, newOffset);
    WalkFinishes([], before, after, 0, 0, oldOffset, newOffset);
    assert [] + ops == ops;
    WalkEnd(ops, before, after, oldOffset, newOffset);
  }
}
