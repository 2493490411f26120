/** src/collab/edits.ts: the edits that turn one text into another. */
module DocumentEdits {
  import opened Sequences
  import opened Utf16
  import opened TextLines
  import opened LineScript
  import opened LineDiff

  /** Replaces `remove` units at `offset` by `insert`. */
  datatype TextEdit = TextEdit(offset: nat, remove: nat, insert: Text)

  function End(edit: TextEdit): nat { edit.offset + edit.remove }

  predicate Changing(edit: TextEdit) { edit.remove > 0 || edit.insert != [] }

  /** `text.slice(from, to)`. */
  function Slice(text: Text, from: nat, to: nat): Text {
    if from < to && from < |text| then text[from..if to < |text| then to else |text|] else []
  }

  /** What the edits make of `text` from `read` on. */
  function ApplyFrom(text: Text, read: nat, edits: seq<TextEdit>): Text
    decreases |edits|
  {
    if edits == [] then Slice(text, read, |text|)
    else Slice(text, read, edits[0].offset) + edits[0].insert + ApplyFrom(text, End(edits[0]), edits[1..])
  }

  /** Edits within the text from `from` on, each changing something, with something kept between any two. */
  predicate Separated(edits: seq<TextEdit>, from: nat, length: nat) {
    edits == [] || (from <= edits[0].offset && End(edits[0]) <= length && Changing(edits[0])
                    && Separated(edits[1..], End(edits[0]) + 1, length))
  }

  function Flush(pending: Option<TextEdit>): seq<TextEdit> {
    if pending.Some? && Changing(pending.value) then [pending.value] else []
  }

  function Begin(pending: Option<TextEdit>, offset: nat): TextEdit {
    if pending.Some? then pending.value else TextEdit(offset, 0, [])
  }

  /** The edits for what is left of a script: adjacent deletions and insertions make one. */
  function EditsFrom(ops: Script, offset: nat, pending: Option<TextEdit>): seq<TextEdit> {
    if ops == [] then Flush(pending)
    else
      var op := ops[0];
      match op.kind
      case Equal => Flush(pending) + EditsFrom(ops[1..], offset + |op.text|, None)
      case Delete =>
        var edit := Begin(pending, offset);
        EditsFrom(ops[1..], offset + |op.text|, Some(edit.(remove := edit.remove + |op.text|)))
      case Insert =>
        var edit := Begin(pending, offset);
        EditsFrom(ops[1..], offset, Some(edit.(insert := edit.insert + op.text)))
  }

  /** The edits between two texts that are not too different to compare. */
  ghost function Edits(before: Text, after: Text): seq<TextEdit> {
    if before == after then [] else EditsFrom(DiffScript(Lines(before), Lines(after)), 0, None)
  }

  /** Whether the texts are too different to compare. */
  ghost predicate TooDifferent(before: Text, after: Text) {
    before != after && Cells(Lines(before), Lines(after)) > MAX_LCS_CELLS
  }

  lemma ApplyStep(text: Text, read: nat, edits: seq<TextEdit>, i: nat)
    requires i < |edits|
    ensures ApplyFrom(text, read, edits[i..])
         == Slice(text, read, edits[i].offset) + edits[i].insert + ApplyFrom(text, End(edits[i]), edits[i + 1..])
  {
    hide Slice;
    assert edits[i..][0] == edits[i] && edits[i..][1..] == edits[i + 1..];
  }

  method ApplyTextEdits(text: Text, edits: seq<TextEdit>) returns (result: Text)
    ensures result == ApplyFrom(text, 0, edits)
  {
    hide ApplyFrom, Slice;
    result := [];
    var read: nat, i := 0, 0;
    assert edits[0..] == edits;
    while i < |edits|
      invariant i <= |edits| && result + ApplyFrom(text, read, edits[i..]) == ApplyFrom(text, 0, edits)
    {
      var edit := edits[i];
      ApplyStep(text, read, edits, i);
      Regroup(result, Slice(text, read, edit.offset), edit.insert, ApplyFrom(text, End(edit), edits[i + 1..]));
      result := result + Slice(text, read, edit.offset);
      result := result + edit.insert;
      read := edit.offset + edit.remove;
      i := i + 1;
    }
    ApplyNothing(text, read);
    assert edits[i..] == [];
    result := result + Slice(text, read, |text|);
  }

  lemma ApplyNothing(text: Text, read: nat)
    ensures ApplyFrom(text, read, []) == Slice(text, read, |text|)
  {}

  lemma Regroup(a: Text, b: Text, c: Text, d: Text)
    ensures a + (b + c + d) == a + b + c + d
  {}

  method TextEdits(before: Text, after: Text) returns (r: Outcome<seq<TextEdit>>)
    ensures r == if TooDifferent(before, after) then TooBig else Ok(Edits(before, after))
  {
    hide DiffScript, Cells, Lines, Lcs, EditsFrom, IsScript, Numbered, Count;
    if before == after { return Ok([]); }
    var diff := CreateLineDiff(before, after);
    if diff.TooBig? { return TooBig; }
    var edits := EditsOf(diff.value.operations);
    return Ok(edits);
  }

  method EditsOf(ops: Script) returns (edits: seq<TextEdit>)
    ensures edits == EditsFrom(ops, 0, None)
  {
    edits := [];
    var offset: nat := 0;
    var pending: Option<TextEdit> := None;
    var i := 0;
    assert ops[0..] == ops;
    while i < |ops|
      invariant i <= |ops| && edits + EditsFrom(ops[i..], offset, pending) == EditsFrom(ops, 0, None)
    {
      var op := ops[i];
      assert ops[i..][0] == op && ops[i..][1..] == ops[i + 1..];
      if op.kind == Equal {
        Assoc(edits, Flush(pending), EditsFrom(ops[i + 1..], offset + |op.text|, None));
        edits := edits + Flush(pending);
        pending := None;
        offset := offset + |op.text|;
      } else {
        if pending.None? { pending := Some(TextEdit(offset, 0, [])); }
        if op.kind == Delete {
          pending := Some(pending.value.(remove := pending.value.remove + |op.text|));
          offset := offset + |op.text|;
        } else {
          pending := Some(pending.value.(insert := pending.value.insert + op.text));
        }
      }
      i := i + 1;
    }
    edits := edits + Flush(pending);
  }

  /** A piece of the text between two offsets. */
  lemma SliceIs(text: Text, from: nat, to: nat)
    requires from <= to <= |text|
    ensures Slice(text, from, to) == text[from..to]
  {}

  /** What the edits make of the rest of the text is `after`. */
  ghost predicate Makes(text: Text, from: nat, edits: seq<TextEdit>, after: Text) {
    from <= |text| && Separated(edits, from, |text|) && ApplyFrom(text, from, edits) == after
  }

  ghost predicate HasAt(text: Text, at: nat, piece: Text) {
    at + |piece| <= |text| && text[at..at + |piece|] == piece
  }

  /** Text kept before the first edit. */
  lemma KeepFirst(text: Text, from: nat, kept: Text, edits: seq<TextEdit>, after: Text)
    requires HasAt(text, from, kept) && Makes(text, from + |kept|, edits, after)
    ensures Makes(text, from, edits, kept + after)
  {
    hide ApplyFrom, Slice, Separated;
    Opened(text, from + |kept|, edits);
    var to := if edits == [] then |text| else edits[0].offset;
    Cut(text, from, from + |kept|, to);
    Reopened(text, from, from + |kept|, edits);
    if edits != [] {
      Regroup(kept, text[from + |kept|..to], edits[0].insert, ApplyFrom(text, End(edits[0]), edits[1..]));
    }
  }

  lemma Opened(text: Text, from: nat, edits: seq<TextEdit>)
    requires from <= |text| && Separated(edits, from, |text|)
    ensures if edits == [] then ApplyFrom(text, from, edits) == text[from..|text|]
            else
              && from <= edits[0].offset <= End(edits[0]) <= |text|
              && ApplyFrom(text, from, edits)
                 == text[from..edits[0].offset] + edits[0].insert + ApplyFrom(text, End(edits[0]), edits[1..])
  {}

  lemma Reopened(text: Text, from: nat, later: nat, edits: seq<TextEdit>)
    requires from <= later <= |text| && Separated(edits, later, |text|)
    ensures Separated(edits, from, |text|)
    ensures if edits == [] then ApplyFrom(text, from, edits) == text[from..|text|]
            else
              && from <= edits[0].offset <= |text|
              && ApplyFrom(text, from, edits)
                 == text[from..edits[0].offset] + edits[0].insert + ApplyFrom(text, End(edits[0]), edits[1..])
  {
    Opened(text, from, edits);
  }

  lemma Cut(text: Text, a: nat, b: nat, c: nat)
    requires a <= b <= c <= |text|
    ensures text[a..c] == text[a..b] + text[b..c]
  {}

  /** One edit at the start, with nothing edited after it. */
  lemma EditOnly(text: Text, edit: TextEdit)
    requires End(edit) <= |text| && Changing(edit)
    ensures Makes(text, edit.offset, [edit], edit.insert + text[End(edit)..])
  {
    SliceIs(text, edit.offset, edit.offset);
    SliceIs(text, End(edit), |text|);
    assert [edit][1..] == [];
    assert [] + edit.insert == edit.insert;
    assert text[End(edit)..|text|] == text[End(edit)..];
  }

  /** One edit at the start, with something kept after it. */
  lemma EditFirst(text: Text, edit: TextEdit, edits: seq<TextEdit>, kept: Unit, after: Text)
    requires End(edit) < |text| && Changing(edit) && text[End(edit)] == kept
    requires Makes(text, End(edit) + 1, edits, after)
    ensures Makes(text, edit.offset, [edit] + edits, edit.insert + ([kept] + after))
  {
    KeepFirst(text, End(edit), [kept], edits, after);
    SliceIs(text, edit.offset, edit.offset);
    assert ([edit] + edits)[1..] == edits;
    hide Slice, ApplyFrom;
    assert ApplyFrom(text, End(edit), edits) == [kept] + after;
    EditFirstApplies(text, edit, edits);
  }

  lemma EditFirstApplies(text: Text, edit: TextEdit, edits: seq<TextEdit>)
    requires edit.offset <= |text|
    ensures ApplyFrom(text, edit.offset, [edit] + edits) == edit.insert + ApplyFrom(text, End(edit), edits)
  {
    SliceIs(text, edit.offset, edit.offset);
    assert ([edit] + edits)[1..] == edits;
    assert [] + edit.insert == edit.insert;
  }

  /** The rest of the text is what the rest of the script takes. */
  ghost predicate Remaining(text: Text, offset: nat, ops: Script) {
    Rest(text, offset, Old(ops)) && Worded(ops)
  }

  ghost predicate Rest(text: Text, offset: nat, lines: seq<Text>) { offset <= |text| && text[offset..] == Join(lines) }

  /** Every operation has a text. */
  ghost predicate Worded(ops: Script) { forall i | 0 <= i < |ops| :: ops[i].text != [] }

  lemma WordedRest(ops: Script)
    requires Worded(ops) && ops != []
    ensures ops[0].text != [] && Worded(ops[1..])
  {}

  lemma First(ops: Script)
    requires ops != []
    ensures var op, rest := ops[0], ops[1..];
            && Old(ops) == (if op.kind == Insert then Old(rest) else [op.text] + Old(rest))
            && New(ops) == (if op.kind == Delete then New(rest) else [op.text] + New(rest))
  {
    var op, rest := ops[0], ops[1..];
    Append([op], rest);
    Snoc([], op);
    assert [op] + rest == ops && [] + [op] == [op];
    hide Continues, Count;
    Nothing(OldPart(op), Old(rest));
    Nothing(NewPart(op), New(rest));
  }

  lemma Nothing<T>(a: seq<T>, b: seq<T>)
    ensures [] + a == a && [] + b == b && (a == [] ==> a + b == b)
  {}

  lemma FirstRemains(text: Text, offset: nat, ops: Script)
    requires Remaining(text, offset, ops) && ops != []
    ensures var op, rest := ops[0], ops[1..];
            && op.text != []
            && (op.kind != Insert ==> HasAt(text, offset, op.text))
            && Remaining(text, if op.kind == Insert then offset else offset + |op.text|, rest)
  {
    hide Old, New, Rest, Worded, HasAt;
    var op, rest := ops[0], ops[1..];
    First(ops);
    WordedRest(ops);
    if op.kind != Insert { TakeLine(text, offset, op.text, Old(rest)); }
  }

  lemma FirstGives(ops: Script)
    requires ops != []
    ensures Join(New(ops)) == if ops[0].kind == Delete then Join(New(ops[1..])) else ops[0].text + Join(New(ops[1..]))
  {
    First(ops);
    hide Old, New, Join;
    if ops[0].kind != Delete { JoinCons(ops[0].text, New(ops[1..])); }
  }

  lemma TakeLine(text: Text, offset: nat, line: Text, rest: seq<Text>)
    requires Rest(text, offset, [line] + rest)
    ensures HasAt(text, offset, line) && Rest(text, offset + |line|, rest)
  {
    JoinCons(line, rest);
    FirstOf(text, offset, line, Join(rest));
  }

  /** What the edits of a script make, given the edit that is being put together. */
  ghost predicate Turns(text: Text, offset: nat, pending: Option<TextEdit>, edits: seq<TextEdit>, after: Text) {
    match pending
    case None => Makes(text, offset, edits, after)
    case Some(edit) => Makes(text, edit.offset, edits, edit.insert + after)
  }

  lemma Flushed(text: Text, offset: nat, pending: Option<TextEdit>, kept: Text, edits: seq<TextEdit>, after: Text)
    requires pending.Some? ==> End(pending.value) == offset && Changing(pending.value)
    requires kept != [] && HasAt(text, offset, kept)
    requires Makes(text, offset + |kept|, edits, after)
    ensures Turns(text, offset, pending, Flush(pending) + edits, kept + after)
  {
    hide Makes;
    if pending.None? {
      assert [] + edits == edits;
      KeepFirst(text, offset, kept, edits, after);
    } else {
      var edit := pending.value;
      assert text[offset + 1..offset + |kept|] == kept[1..] && text[offset] == kept[0];
      KeepFirst(text, offset + 1, kept[1..], edits, after);
      EditFirst(text, edit, edits, kept[0], kept[1..] + after);
      assert [kept[0]] + (kept[1..] + after) == kept + after;
    }
  }

  lemma {:induction false} EditsTurn(text: Text, offset: nat, ops: Script, pending: Option<TextEdit>)
    requires Remaining(text, offset, ops)
    requires pending.Some? ==> End(pending.value) == offset && Changing(pending.value)
    ensures Turns(text, offset, pending, EditsFrom(ops, offset, pending), Join(New(ops)))
    decreases |ops|
  {
    hide Makes, Join, Old, New, Worded, Remaining, HasAt;
    if ops == [] {
      LastFlush(text, offset, pending);
    } else {
      var op, rest := ops[0], ops[1..];
      FirstRemains(text, offset, ops);
      FirstGives(ops);
      match op.kind {
        case Equal =>
          EditsTurn(text, offset + |op.text|, rest, None);
          Flushed(text, offset, pending, op.text, EditsFrom(rest, offset + |op.text|, None), Join(New(rest)));
        case Delete =>
          var edit := Begin(pending, offset);
          EditsTurn(text, offset + |op.text|, rest, Some(edit.(remove := edit.remove + |op.text|)));
          assert [] + Join(New(rest)) == Join(New(rest));
        case Insert =>
          var edit := Begin(pending, offset);
          EditsTurn(text, offset, rest, Some(edit.(insert := edit.insert + op.text)));
          Assoc(edit.insert, op.text, Join(New(rest)));
          assert [] + Join(New(ops)) == Join(New(ops));
      }
    }
  }

  lemma LastFlush(text: Text, offset: nat, pending: Option<TextEdit>)
    requires Remaining(text, offset, [])
    requires pending.Some? ==> End(pending.value) == offset && Changing(pending.value)
    ensures Turns(text, offset, pending, EditsFrom([], offset, pending), Join(New([])))
  {
    assert |text[offset..]| == 0;
    if pending.Some? {
      EditOnly(text, pending.value);
    }
  }

  /** Applying the edits between two texts to the first gives the second; no two of the edits touch. */
  lemma EditsMakeAfter(before: Text, after: Text)
    ensures ApplyFrom(before, 0, Edits(before, after)) == after && Separated(Edits(before, after), 0, |before|)
  {
    if before == after {
      SliceIs(before, 0, |before|);
    } else {
      LinesSpell(before);
      LinesSpell(after);
      DiffScriptIsDiff(before, after);
      var ops := DiffScript(Lines(before), Lines(after));
      assert Worded(ops) by { forall i | 0 <= i < |ops| ensures ops[i].text != [] { OpIsLine(ops, i); } }
      hide DiffScript, Lines, Lcs, IsScript, EditsFrom, Old, New, Join, Numbered, ApplyFrom, WellSplit, Worded;
      assert before[0..] == before;
      EditsTurn(before, 0, ops, None);
    }
  }
}
