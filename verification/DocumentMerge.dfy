/** src/collab/merge.ts: merging two texts that were edited from the same base. */
module DocumentMerge {
  import opened Sequences
  import opened Utf16
  import TextLines
  import opened LineDiff
  import opened DocumentEdits

  function Max(a: int, b: int): int { if a < b then b else a }

  function Min(a: int, b: int): int { if a < b then a else b }

  predicate Overlaps(left: TextEdit, right: TextEdit) {
    if left.remove == 0 && right.remove == 0 then left.offset == right.offset
    else if left.remove == 0 then right.offset <= left.offset < End(right)
    else if right.remove == 0 then left.offset <= right.offset < End(left)
    else Max(left.offset, right.offset) < Min(End(left), End(right))
  }

  /** The edit takes away the unit at an offset of the base. */
  ghost predicate Removes(edit: TextEdit, at: nat) { edit.offset <= at < edit.offset + edit.remove }

  /**
   * Edits get in each other's way: two replacements that both remove some unit, an insertion where the other one removes
   * what stands there, or two insertions at one place.
   */
  ghost predicate Collide(left: TextEdit, right: TextEdit) {
    || (exists at: nat :: Removes(left, at) && Removes(right, at))
    || (left.remove == 0 && Removes(right, left.offset))
    || (right.remove == 0 && Removes(left, right.offset))
    || (left.remove == 0 && right.remove == 0 && left.offset == right.offset)
  }

  lemma OverlapsIffCollide(left: TextEdit, right: TextEdit)
    ensures Overlaps(left, right) <==> Collide(left, right)
  {
    var at := Max(left.offset, right.offset);
    if Overlaps(left, right) && left.remove > 0 && right.remove > 0 { assert Removes(left, at) && Removes(right, at); }
  }

  /** Any two edits of the lists are the same or do not collide. */
  ghost predicate Compatible(ours: seq<TextEdit>, theirs: seq<TextEdit>) {
    forall i, j | 0 <= i < |ours| && 0 <= j < |theirs| :: ours[i] == theirs[j] || !Collide(ours[i], theirs[j])
  }

  /** Edits at one offset collide. */
  lemma SameOffset(a: TextEdit, b: TextEdit)
    ensures a.offset == b.offset ==> Collide(a, b)
    ensures Collide(a, b) == Collide(b, a)
  {
    OverlapsIffCollide(a, b);
    OverlapsIffCollide(b, a);
  }

  /** An edit that does not collide with a later one ends before it. */
  lemma EndsBefore(a: TextEdit, b: TextEdit)
    requires a.offset < b.offset && !Collide(a, b)
    ensures End(a) <= b.offset
  {
    OverlapsIffCollide(a, b);
  }

  lemma CompatibleSymmetric(ours: seq<TextEdit>, theirs: seq<TextEdit>)
    ensures Compatible(ours, theirs) == Compatible(theirs, ours)
  {
    hide Collide;
    forall a: TextEdit, b: TextEdit ensures Collide(a, b) == Collide(b, a) { SameOffset(a, b); }
    if Compatible(ours, theirs) {
      forall i, j | 0 <= i < |theirs| && 0 <= j < |ours| ensures theirs[i] == ours[j] || !Collide(theirs[i], ours[j]) {
        assert ours[j] == theirs[i] || !Collide(ours[j], theirs[i]);
      }
    }
    if Compatible(theirs, ours) {
      forall i, j | 0 <= i < |ours| && 0 <= j < |theirs| ensures ours[i] == theirs[j] || !Collide(ours[i], theirs[j]) {
        assert theirs[j] == ours[i] || !Collide(theirs[j], ours[i]);
      }
    }
  }

  lemma CompatibleRest(ours: seq<TextEdit>, theirs: seq<TextEdit>)
    requires Compatible(ours, theirs)
    ensures ours != [] ==> Compatible(ours[1..], theirs)
    ensures theirs != [] ==> Compatible(ours, theirs[1..])
    ensures ours != [] && theirs != [] ==> Compatible(ours[1..], theirs[1..])
    ensures ours != [] && theirs != [] ==> ours[0] == theirs[0] || !Collide(ours[0], theirs[0])
  {}

  /** Edits in the order of their offsets, none reaching into the next. */
  ghost predicate Apart(edits: seq<TextEdit>, from: nat, length: nat) {
    edits == [] || (from <= edits[0].offset && End(edits[0]) <= length
                    && Apart(edits[1..], Max(End(edits[0]), edits[0].offset + 1), length))
  }

  lemma SeparatedLater(edits: seq<TextEdit>, from: nat, to: nat, length: nat)
    requires Separated(edits, from, length) && (edits == [] || to <= edits[0].offset)
    ensures Separated(edits, to, length)
  {}

  lemma {:induction false} SeparatedApart(edits: seq<TextEdit>, from: nat, length: nat)
    requires Separated(edits, from, length)
    ensures Apart(edits, from, length)
  {
    if edits != [] {
      var rest := edits[1..];
      SeparatedLater(rest, End(edits[0]) + 1, Max(End(edits[0]), edits[0].offset + 1), length);
      SeparatedApart(rest, Max(End(edits[0]), edits[0].offset + 1), length);
    }
  }

  /** Which list the next edit of the merge comes from. */
  datatype Turn = Both | Ours | Theirs | Done

  function NextTurn(ours: seq<TextEdit>, theirs: seq<TextEdit>): Turn {
    if ours == [] && theirs == [] then Done
    else if theirs == [] || (ours != [] && ours[0].offset < theirs[0].offset) then Ours
    else if ours == [] || ours[0] != theirs[0] then Theirs
    else Both
  }

  /** The edits of both lists in order, those they share taken once. */
  function MergeLists(ours: seq<TextEdit>, theirs: seq<TextEdit>): seq<TextEdit>
    decreases |ours| + |theirs|
  {
    match NextTurn(ours, theirs)
    case Done => []
    case Ours => [ours[0]] + MergeLists(ours[1..], theirs)
    case Theirs => [theirs[0]] + MergeLists(ours, theirs[1..])
    case Both => [ours[0]] + MergeLists(ours[1..], theirs[1..])
  }

  /** After the next edit, what is left of either list comes later. */
  lemma TurnLeaves(ours: seq<TextEdit>, theirs: seq<TextEdit>, from: nat, length: nat)
    requires Separated(ours, from, length) && Separated(theirs, from, length) && Compatible(ours, theirs)
    requires !NextTurn(ours, theirs).Done?
    ensures var edit := if NextTurn(ours, theirs).Theirs? then theirs[0] else ours[0];
            var next := Max(End(edit), edit.offset + 1);
            && from <= edit.offset && End(edit) <= length
            && (match NextTurn(ours, theirs)
                case Ours => Separated(ours[1..], next, length) && Separated(theirs, next, length)
                case Theirs => Separated(ours, next, length) && Separated(theirs[1..], next, length)
                case Both => Separated(ours[1..], next, length) && Separated(theirs[1..], next, length))
  {
    CompatibleRest(ours, theirs);
    if ours != [] {
      if theirs != [] {
        SameOffset(ours[0], theirs[0]);
        if ours[0].offset < theirs[0].offset { EndsBefore(ours[0], theirs[0]); }
        if theirs[0].offset < ours[0].offset { EndsBefore(theirs[0], ours[0]); }
      }
      var next := Max(End(ours[0]), ours[0].offset + 1);
      SeparatedLater(ours[1..], End(ours[0]) + 1, next, length);
      if theirs != [] && next <= theirs[0].offset { SeparatedLater(theirs, from, next, length); }
    }
    if theirs != [] {
      var next := Max(End(theirs[0]), theirs[0].offset + 1);
      SeparatedLater(theirs[1..], End(theirs[0]) + 1, next, length);
      if ours != [] && next <= ours[0].offset { SeparatedLater(ours, from, next, length); }
    }
  }

  lemma {:induction false} MergeIsApart(ours: seq<TextEdit>, theirs: seq<TextEdit>, from: nat, length: nat)
    requires Separated(ours, from, length) && Separated(theirs, from, length) && Compatible(ours, theirs)
    ensures Apart(MergeLists(ours, theirs), from, length)
    decreases |ours| + |theirs|
  {
    hide Separated, Compatible;
    if !NextTurn(ours, theirs).Done? {
      TurnLeaves(ours, theirs, from, length);
      CompatibleRest(ours, theirs);
      var edit := if NextTurn(ours, theirs).Theirs? then theirs[0] else ours[0];
      var next := Max(End(edit), edit.offset + 1);
      match NextTurn(ours, theirs) {
        case Ours => MergeIsApart(ours[1..], theirs, next, length);
        case Theirs => MergeIsApart(ours, theirs[1..], next, length);
        case Both => MergeIsApart(ours[1..], theirs[1..], next, length);
      }
    }
  }

  /** Neither side comes first. */
  lemma {:induction false} MergeListsSymmetric(ours: seq<TextEdit>, theirs: seq<TextEdit>)
    requires Compatible(ours, theirs)
    ensures MergeLists(ours, theirs) == MergeLists(theirs, ours)
    decreases |ours| + |theirs|
  {
    hide Compatible;
    CompatibleRest(ours, theirs);
    if ours != [] && theirs != [] { SameOffset(ours[0], theirs[0]); }
    match NextTurn(ours, theirs) {
      case Done =>
      case Ours => MergeListsSymmetric(ours[1..], theirs);
      case Theirs => MergeListsSymmetric(ours, theirs[1..]);
      case Both => MergeListsSymmetric(ours[1..], theirs[1..]);
    }
  }

  /** The edits of `theirs` that are not ours as well. */
  function Extra(theirs: seq<TextEdit>, ours: seq<TextEdit>): seq<TextEdit> {
    if theirs == [] then []
    else (if theirs[0] in ours then [] else [theirs[0]]) + Extra(theirs[1..], ours)
  }

  /** Every edit of a separated list starts at or after `from`. */
  lemma {:induction false} SeparatedAfter(edits: seq<TextEdit>, from: nat, length: nat)
    requires Separated(edits, from, length)
    ensures forall e | e in edits :: from <= e.offset && End(e) <= length && Changing(e)
  {
    if edits != [] {
      SeparatedAfter(edits[1..], End(edits[0]) + 1, length);
      assert edits == [edits[0]] + edits[1..];
    }
  }

  lemma {:induction false} ExtraWithout(theirs: seq<TextEdit>, ours: seq<TextEdit>, edit: TextEdit)
    requires edit !in theirs
    ensures Extra(theirs, [edit] + ours) == Extra(theirs, ours)
  {
    if theirs != [] { ExtraWithout(theirs[1..], ours, edit); }
  }

  /** After the next turn, what is extra is what was extra, without the edit taken. */
  lemma ExtraTurn(ours: seq<TextEdit>, theirs: seq<TextEdit>, from: nat, length: nat)
    requires Separated(ours, from, length) && Separated(theirs, from, length) && Compatible(ours, theirs)
    ensures match NextTurn(ours, theirs)
            case Done => Extra(theirs, ours) == []
            case Ours => Extra(theirs, ours) == Extra(theirs, ours[1..])
            case Theirs => theirs[0] !in ours && Extra(theirs, ours) == [theirs[0]] + Extra(theirs[1..], ours)
            case Both => Extra(theirs, ours) == Extra(theirs[1..], ours[1..])
  {
    var turn := NextTurn(ours, theirs);
    if turn.Done? { return; }
    TurnLeaves(ours, theirs, from, length);
    CompatibleRest(ours, theirs);
    hide Compatible, Separated, Collide;
    if ours != [] { assert ours == [ours[0]] + ours[1..]; }
    var edit := if turn.Theirs? then theirs[0] else ours[0];
    var next := Max(End(edit), edit.offset + 1);
    if turn.Ours? {
      SeparatedAfter(theirs, next, length);
      ExtraWithout(theirs, ours[1..], edit);
    } else if turn.Theirs? {
      SeparatedAfter(ours, next, length);
    } else {
      SeparatedAfter(theirs[1..], next, length);
      ExtraWithout(theirs[1..], ours[1..], edit);
      assert [] + Extra(theirs[1..], ours) == Extra(theirs[1..], ours);
    }
  }

  lemma Elements<T>(x: T, s: seq<T>)
    ensures multiset([x] + s) == multiset{x} + multiset(s)
  {}

  lemma HeadElements<T>(s: seq<T>)
    requires s != []
    ensures multiset(s) == multiset{s[0]} + multiset(s[1..])
  {
    assert s == [s[0]] + s[1..];
  }

  /** What one turn of the merge takes. */
  lemma MergeTurn(ours: seq<TextEdit>, theirs: seq<TextEdit>)
    ensures match NextTurn(ours, theirs)
            case Done => ours == [] && theirs == [] && MergeLists(ours, theirs) == []
            case Ours => ours != [] && MergeLists(ours, theirs) == [ours[0]] + MergeLists(ours[1..], theirs)
            case Theirs => theirs != [] && MergeLists(ours, theirs) == [theirs[0]] + MergeLists(ours, theirs[1..])
            case Both => ours != [] && theirs != [] && MergeLists(ours, theirs) == [ours[0]] + MergeLists(ours[1..], theirs[1..])
  {}

  /** The merge has the edits of ours, and the extra ones of theirs. */
  lemma {:induction false} MergeElements(ours: seq<TextEdit>, theirs: seq<TextEdit>, from: nat, length: nat)
    requires Separated(ours, from, length) && Separated(theirs, from, length) && Compatible(ours, theirs)
    ensures multiset(MergeLists(ours, theirs)) == multiset(ours) + multiset(Extra(theirs, ours))
    decreases |ours| + |theirs|
  {
    hide Separated, Compatible, Extra, MergeLists, NextTurn;
    ExtraTurn(ours, theirs, from, length);
    MergeTurn(ours, theirs);
    if NextTurn(ours, theirs).Done? { return; }
    TurnLeaves(ours, theirs, from, length);
    CompatibleRest(ours, theirs);
    var edit := if NextTurn(ours, theirs).Theirs? then theirs[0] else ours[0];
    var next := Max(End(edit), edit.offset + 1);
    match NextTurn(ours, theirs) {
      case Ours =>
        MergeElements(ours[1..], theirs, next, length);
        Elements(edit, MergeLists(ours[1..], theirs));
        HeadElements(ours);
      case Theirs =>
        MergeElements(ours, theirs[1..], next, length);
        Elements(edit, MergeLists(ours, theirs[1..]));
        Elements(edit, Extra(theirs[1..], ours));
      case Both =>
        MergeElements(ours[1..], theirs[1..], next, length);
        Elements(edit, MergeLists(ours[1..], theirs[1..]));
        HeadElements(ours);
    }
  }

  predicate InOrder(edits: seq<TextEdit>) {
    forall i, j | 0 <= i < j < |edits| :: edits[i].offset <= edits[j].offset
  }

  lemma InOrderCons(edit: TextEdit, edits: seq<TextEdit>)
    requires InOrder(edits) && forall e | e in multiset(edits) :: edit.offset <= e.offset
    ensures InOrder([edit] + edits)
  {
    forall i | 0 <= i < |edits| ensures edit.offset <= edits[i].offset { assert edits[i] in multiset(edits); }
  }

  lemma InOrderRest(edits: seq<TextEdit>)
    requires InOrder(edits) && edits != []
    ensures InOrder(edits[1..]) && forall e | e in multiset(edits) :: edits[0].offset <= e.offset
  {
    assert forall i | 0 <= i < |edits[1..]| :: edits[1..][i] == edits[i + 1];
  }

  function Insert(edit: TextEdit, edits: seq<TextEdit>): (r: seq<TextEdit>)
    requires InOrder(edits)
    ensures InOrder(r) && multiset(r) == multiset(edits) + multiset{edit}
  {
    hide InOrder;
    if edits == [] then
      assert InOrder([edit]) by { SingleInOrder(edit); }
      [edit]
    else
      InOrderRest(edits);
      if edit.offset < edits[0].offset then
        InOrderCons(edit, edits);
        Elements(edit, edits);
        [edit] + edits
      else
        var rest := Insert(edit, edits[1..]);
        HeadElements(edits);
        Elements(edits[0], rest);
        InOrderCons(edits[0], rest);
        [edits[0]] + rest
  }

  lemma SingleInOrder(edit: TextEdit)
    ensures InOrder([edit])
  {}

  /** The built-in stable sort by offset. */
  function SortByOffset(edits: seq<TextEdit>): (r: seq<TextEdit>)
    ensures InOrder(r) && multiset(r) == multiset(edits)
  {
    if edits == [] then [] else
      assert edits == edits[..|edits| - 1] + [edits[|edits| - 1]];
      Insert(edits[|edits| - 1], SortByOffset(edits[..|edits| - 1]))
  }

  lemma {:induction false} ApartAfter(edits: seq<TextEdit>, from: nat, length: nat)
    requires Apart(edits, from, length)
    ensures forall e | e in edits :: from <= e.offset
  {
    if edits != [] {
      ApartAfter(edits[1..], Max(End(edits[0]), edits[0].offset + 1), length);
      assert edits == [edits[0]] + edits[1..];
    }
  }

  lemma RestElements<T>(a: seq<T>, b: seq<T>)
    requires a != [] && b != [] && a[0] == b[0] && multiset(a) == multiset(b)
    ensures multiset(a[1..]) == multiset(b[1..])
  {
    HeadElements(a);
    HeadElements(b);
    assert multiset(a[1..]) == multiset(a) - multiset{a[0]};
    assert multiset(b[1..]) == multiset(b) - multiset{b[0]};
  }

  lemma BothEmpty<T>(a: seq<T>, b: seq<T>)
    requires multiset(a) == multiset(b)
    ensures a == [] <==> b == []
  {
    if a != [] { assert a[0] in multiset(a); }
    if b != [] { assert b[0] in multiset(b); }
  }

  /** Only one order puts edits at different offsets in order. */
  lemma {:induction false} OrderIsUnique(a: seq<TextEdit>, b: seq<TextEdit>, from: nat, length: nat)
    requires InOrder(a) && Apart(b, from, length) && multiset(a) == multiset(b)
    ensures a == b
    decreases |b|
  {
    BothEmpty(a, b);
    if b != [] {
      FirstInOrder(a, b, from, length);
      InOrderRest(a);
      RestElements(a, b);
      hide InOrder, Apart;
      OrderIsUnique(a[1..], b[1..], Max(End(b[0]), b[0].offset + 1), length);
      assert a == [a[0]] + a[1..] && b == [b[0]] + b[1..];
    }
  }

  lemma FirstInOrder(a: seq<TextEdit>, b: seq<TextEdit>, from: nat, length: nat)
    requires InOrder(a) && Apart(b, from, length) && multiset(a) == multiset(b) && a != [] && b != []
    ensures a[0] == b[0] && Apart(b[1..], Max(End(b[0]), b[0].offset + 1), length)
  {
    var rest := b[1..];
    ApartAfter(rest, Max(End(b[0]), b[0].offset + 1), length);
    InOrderRest(a);
    HeadElements(b);
    assert b[0] in multiset(a) && a[0] in multiset(b);
    assert forall e | e in multiset(rest) :: e in rest;
  }

  /** By how much the edits before `at` move it. */
  function Delta(edits: seq<TextEdit>, at: nat): int {
    if edits == [] then 0
    else (if edits[0].offset < at then |edits[0].insert| - edits[0].remove else 0) + Delta(edits[1..], at)
  }

  /** An edit of the base, moved to where its text is once other edits have been made. */
  function Shift(edit: TextEdit, edits: seq<TextEdit>, moved: int): TextEdit {
    var offset := edit.offset + moved + Delta(edits, edit.offset);
    edit.(offset := if offset < 0 then 0 else offset)
  }

  function ShiftAll(extra: seq<TextEdit>, edits: seq<TextEdit>, moved: int): seq<TextEdit> {
    if extra == [] then [] else [Shift(extra[0], edits, moved)] + ShiftAll(extra[1..], edits, moved)
  }

  /** Edits that all come later do not move anything. */
  lemma {:induction false} DeltaNone(edits: seq<TextEdit>, from: nat, length: nat, at: nat)
    requires Separated(edits, from, length) && at <= from
    ensures Delta(edits, at) == 0
  {
    if edits != [] { DeltaNone(edits[1..], End(edits[0]) + 1, length, at); }
  }

  /** No edit is moved to before the point its list starts from. */
  lemma {:induction false} DeltaBound(edits: seq<TextEdit>, from: nat, length: nat, edit: TextEdit)
    requires Separated(edits, from, length) && from <= edit.offset && Compatible(edits, [edit]) && edit !in edits
    ensures edit.offset + Delta(edits, edit.offset) >= from
  {
    if edits != [] {
      assert edits == [edits[0]] + edits[1..];
      CompatibleRest(edits, [edit]);
      if edits[0].offset < edit.offset {
        EndsBefore(edits[0], edit);
        if End(edits[0]) + 1 <= edit.offset {
          DeltaBound(edits[1..], End(edits[0]) + 1, length, edit);
        } else {
          DeltaNone(edits[1..], End(edits[0]) + 1, length, edit.offset);
        }
      } else {
        DeltaNone(edits[1..], End(edits[0]) + 1, length, edit.offset);
      }
    }
  }

  /** Taking an edit of ours into the shift of the later ones. */
  lemma {:induction false} ShiftAllTurn(extra: seq<TextEdit>, ours: seq<TextEdit>, moved: int)
    requires ours != [] && forall e | e in extra :: ours[0].offset < e.offset
    ensures ShiftAll(extra, ours, moved) == ShiftAll(extra, ours[1..], moved + |ours[0].insert| - ours[0].remove)
  {
    if extra != [] {
      assert extra == [extra[0]] + extra[1..];
      ShiftAllTurn(extra[1..], ours, moved);
    }
  }

  /** The edited text from `at` on is what the edits make of the base from `from` on. */
  ghost predicate Agrees(base: Text, from: nat, edits: seq<TextEdit>, edited: Text, at: nat) {
    from <= |base| && at <= |edited| && edited[at..] == ApplyFrom(base, from, edits)
  }

  /** Edits that start later leave the text before them. */
  lemma KeptUntil(text: Text, from: nat, to: nat, edits: seq<TextEdit>)
    requires from <= to <= |text| && (edits == [] || to <= edits[0].offset)
    ensures ApplyFrom(text, from, edits) == text[from..to] + ApplyFrom(text, to, edits)
  {
    var end := if edits == [] then |text| else Min(|text|, edits[0].offset);
    assert edits != [] ==> Slice(text, from, edits[0].offset) == text[from..end] && Slice(text, to, edits[0].offset) == text[to..end];
    SliceIs(text, from, |text|);
    SliceIs(text, to, |text|);
    Cut(text, from, to, end);
    hide Slice;
    if edits != [] {
      Regroup(text[from..to], text[to..end], edits[0].insert, ApplyFrom(text, End(edits[0]), edits[1..]));
    }
  }

  lemma {:induction false} ExtraFromTheirs(theirs: seq<TextEdit>, ours: seq<TextEdit>)
    ensures forall e | e in Extra(theirs, ours) :: e in theirs && e !in ours
  {
    if theirs != [] {
      ExtraFromTheirs(theirs[1..], ours);
      assert theirs == [theirs[0]] + theirs[1..];
    }
  }

  /** The first extra edit is moved to no earlier than the point reached. */
  lemma ShiftedLater(ours: seq<TextEdit>, theirs: seq<TextEdit>, next: nat, length: nat, moved: int)
    requires Separated(ours, next, length) && Separated(theirs, next, length) && Compatible(ours, theirs)
    ensures var shifted := ShiftAll(Extra(theirs, ours), ours, moved); shifted == [] || next + moved <= shifted[0].offset
  {
    var extra := Extra(theirs, ours);
    if extra != [] {
      ExtraFromTheirs(theirs, ours);
      SeparatedAfter(theirs, next, length);
      assert extra[0] in extra && extra[0] in theirs;
      var j :| 0 <= j < |theirs| && theirs[j] == extra[0];
      assert Compatible(ours, [extra[0]]) by {
        forall i | 0 <= i < |ours| ensures ours[i] == extra[0] || !Collide(ours[i], extra[0]) {
          assert ours[i] == theirs[j] || !Collide(ours[i], theirs[j]);
        }
      }
      DeltaBound(ours, next, length, extra[0]);
    }
  }

  /** Making the first edit of ours takes the base and the edited text past it together. */
  lemma AgreesPast(base: Text, from: nat, edit: TextEdit, rest: seq<TextEdit>, edited: Text, at: nat)
    requires Agrees(base, from, [edit] + rest, edited, at) && from <= edit.offset && End(edit) <= |base|
    ensures var past := at + (edit.offset - from) + |edit.insert|;
            && past <= |edited| && edited[at..past] == base[from..edit.offset] + edit.insert
            && Agrees(base, End(edit), rest, edited, past)
  {
    SliceIs(base, from, edit.offset);
    assert ([edit] + rest)[1..] == rest;
    var piece := base[from..edit.offset] + edit.insert;
    assert edited[at..] == piece + ApplyFrom(base, End(edit), rest);
    hide ApplyFrom, Slice;
    TextLines.FirstOf(edited, at, piece, ApplyFrom(base, End(edit), rest));
  }

  /** Text that ours keep is in both. */
  lemma AgreesKept(base: Text, from: nat, to: nat, edits: seq<TextEdit>, edited: Text, at: nat)
    requires Agrees(base, from, edits, edited, at) && from <= to <= |base| && (edits == [] || to <= edits[0].offset)
    ensures var past := at + (to - from);
            past <= |edited| && edited[at..past] == base[from..to] && Agrees(base, to, edits, edited, past)
  {
    KeptUntil(base, from, to, edits);
    hide ApplyFrom;
    TextLines.FirstOf(edited, at, base[from..to], ApplyFrom(base, to, edits));
  }

  lemma ApplyCons(text: Text, from: nat, edit: TextEdit, rest: seq<TextEdit>)
    requires from <= edit.offset <= |text|
    ensures ApplyFrom(text, from, [edit] + rest) == text[from..edit.offset] + edit.insert + ApplyFrom(text, End(edit), rest)
  {
    SliceIs(text, from, edit.offset);
    assert ([edit] + rest)[1..] == rest;
  }

  /** What the law says of lists that start from `next`, with both texts read up to where they agree. */
  ghost predicate Lawful(base: Text, from: nat, ours: seq<TextEdit>, theirs: seq<TextEdit>, edited: Text, at: nat, moved: int) {
    ApplyFrom(edited, at, ShiftAll(Extra(theirs, ours), ours, moved)) == ApplyFrom(base, from, MergeLists(ours, theirs))
  }

  lemma LawAtEnd(base: Text, from: nat, edited: Text, at: nat, moved: int)
    requires Agrees(base, from, [], edited, at)
    ensures Lawful(base, from, [], [], edited, at, moved)
  {
    SliceIs(edited, at, |edited|);
    assert edited[at..|edited|] == edited[at..];
  }

  /** The law when the next edit is ours. */
  lemma LawOurs(base: Text, from: nat, ours: seq<TextEdit>, theirs: seq<TextEdit>, edited: Text, at: nat, moved: int,
                rest: seq<TextEdit>, next: nat)
    requires ours != [] && Agrees(base, from, ours, edited, at) && at == from + moved
    requires from <= ours[0].offset && End(ours[0]) <= |base| && next == Max(End(ours[0]), ours[0].offset + 1)
    requires Separated(ours[1..], next, |base|) && Separated(rest, next, |base|) && Compatible(ours[1..], rest)
    requires Extra(theirs, ours) == Extra(rest, ours[1..])
    requires MergeLists(ours, theirs) == [ours[0]] + MergeLists(ours[1..], rest)
    requires var past := at + (ours[0].offset - from) + |ours[0].insert|;
             Lawful(base, End(ours[0]), ours[1..], rest, edited, past, moved + |ours[0].insert| - ours[0].remove)
    ensures Lawful(base, from, ours, theirs, edited, at, moved)
  {
    hide ApplyFrom, Extra, ShiftAll, MergeLists, Separated, Compatible, Agrees;
    var edit, past := ours[0], at + (ours[0].offset - from) + |ours[0].insert|;
    var onward := moved + |edit.insert| - edit.remove;
    var shifted := ShiftAll(Extra(theirs, ours), ours, moved);
    assert ours == [edit] + ours[1..];
    AgreesPast(base, from, edit, ours[1..], edited, at);
    ExtraLater(rest, ours[1..], next, |base|);
    ShiftAllTurn(Extra(theirs, ours), ours, moved);
    ShiftedLater(ours[1..], rest, next, |base|, onward);
    KeptUntil(edited, at, past, shifted);
    ApplyCons(base, from, edit, MergeLists(ours[1..], rest));
  }

  lemma ExtraLater(theirs: seq<TextEdit>, ours: seq<TextEdit>, next: nat, length: nat)
    requires Separated(theirs, next, length)
    ensures forall e | e in Extra(theirs, ours) :: next <= e.offset
  {
    ExtraFromTheirs(theirs, ours);
    SeparatedAfter(theirs, next, length);
  }

  /** The law when the next edit is theirs alone. */
  lemma LawTheirs(base: Text, from: nat, ours: seq<TextEdit>, theirs: seq<TextEdit>, edited: Text, at: nat, moved: int, next: nat)
    requires theirs != [] && Agrees(base, from, ours, edited, at) && at == from + moved
    requires ours == [] || End(theirs[0]) <= ours[0].offset
    requires from <= theirs[0].offset && End(theirs[0]) <= |base| && next == Max(End(theirs[0]), theirs[0].offset + 1)
    requires Separated(ours, next, |base|)
    requires Extra(theirs, ours) == [theirs[0]] + Extra(theirs[1..], ours)
    requires MergeLists(ours, theirs) == [theirs[0]] + MergeLists(ours, theirs[1..])
    requires Lawful(base, End(theirs[0]), ours, theirs[1..], edited, at + (End(theirs[0]) - from), moved)
    ensures Lawful(base, from, ours, theirs, edited, at, moved)
  {
    hide ApplyFrom, Extra, ShiftAll, MergeLists, Separated, Agrees, Delta;
    var edit := theirs[0];
    var past := at + (End(edit) - from);
    var extra := Extra(theirs[1..], ours);
    AgreesKept(base, from, End(edit), ours, edited, at);
    DeltaNone(ours, next, |base|, edit.offset);
    var shifted := edit.(offset := at + (edit.offset - from));
    assert Shift(edit, ours, moved) == shifted;
    ShiftAllCons(edit, extra, ours, moved);
    ApplyCons(edited, at, shifted, ShiftAll(extra, ours, moved));
    ApplyCons(base, from, edit, MergeLists(ours, theirs[1..]));
    Prefixes(edited, at, base, from, End(edit), edit.offset);
  }

  lemma ShiftAllCons(edit: TextEdit, extra: seq<TextEdit>, ours: seq<TextEdit>, moved: int)
    ensures ShiftAll([edit] + extra, ours, moved) == [Shift(edit, ours, moved)] + ShiftAll(extra, ours, moved)
  {
    assert ([edit] + extra)[1..] == extra;
  }

  lemma Prefixes(a: Text, at: nat, b: Text, from: nat, to: nat, until: nat)
    requires from <= until <= to <= |b| && at + (to - from) <= |a| && a[at..at + (to - from)] == b[from..to]
    ensures a[at..at + (until - from)] == b[from..until]
  {
    assert a[at..at + (until - from)] == a[at..at + (to - from)][..until - from];
    assert b[from..until] == b[from..to][..until - from];
  }

  /** Making the merged edits is making ours, and then theirs moved by ours. */
  lemma {:induction false} ShiftLaw(base: Text, from: nat, next: nat, ours: seq<TextEdit>, theirs: seq<TextEdit>, edited: Text, at: nat, moved: int)
    requires from <= next && at == from + moved && Agrees(base, from, ours, edited, at)
    requires Separated(ours, next, |base|) && Separated(theirs, next, |base|) && Compatible(ours, theirs)
    ensures Lawful(base, from, ours, theirs, edited, at, moved)
    decreases |ours| + |theirs|
  {
    hide Lawful, Separated, Compatible, Agrees, Extra, Collide;
    var turn := NextTurn(ours, theirs);
    if turn.Done? {
      LawAtEnd(base, from, edited, at, moved);
      return;
    }
    TurnLeaves(ours, theirs, next, |base|);
    ExtraTurn(ours, theirs, next, |base|);
    CompatibleRest(ours, theirs);
    var edit := if turn.Theirs? then theirs[0] else ours[0];
    var later := Max(End(edit), edit.offset + 1);
    if turn.Theirs? {
      assert ours == [] || End(edit) <= ours[0].offset by { SeparatedStart(ours, later, |base|); }
      AgreesKept(base, from, End(edit), ours, edited, at);
      ShiftLaw(base, End(edit), later, ours, theirs[1..], edited, at + (End(edit) - from), moved);
      LawTheirs(base, from, ours, theirs, edited, at, moved, later);
    } else {
      var past := at + (edit.offset - from) + |edit.insert|;
      var rest := if turn.Both? then theirs[1..] else theirs;
      assert ours == [edit] + ours[1..];
      AgreesPast(base, from, edit, ours[1..], edited, at);
      ShiftLaw(base, End(edit), later, ours[1..], rest, edited, past, moved + |edit.insert| - edit.remove);
      LawOurs(base, from, ours, theirs, edited, at, moved, rest, later);
    }
  }

  lemma SeparatedStart(edits: seq<TextEdit>, from: nat, length: nat)
    requires Separated(edits, from, length)
    ensures edits == [] || from <= edits[0].offset
  {}

  datatype Merge = Merged(text: Text) | Conflict | TooLarge

  /** Distinct edits of one list do not collide. */
  lemma {:induction false} SeparatedCompatible(edits: seq<TextEdit>, from: nat, length: nat)
    requires Separated(edits, from, length)
    ensures Compatible(edits, edits)
    decreases |edits|
  {
    if edits != [] {
      var first, rest := edits[0], edits[1..];
      SeparatedCompatible(rest, End(first) + 1, length);
      SeparatedAfter(rest, End(first) + 1, length);
      assert edits == [first] + rest;
      forall i, j | 0 <= i < |edits| && 0 <= j < |edits| ensures edits[i] == edits[j] || !Collide(edits[i], edits[j]) {
        if i > 0 { assert edits[i] == rest[i - 1] && rest[i - 1] in rest; }
        if j > 0 { assert edits[j] == rest[j - 1] && rest[j - 1] in rest; }
      }
    }
  }

  /** Some edit of theirs that is not ours overlaps one of ours. */
  ghost predicate Refused(ours: seq<TextEdit>, theirs: seq<TextEdit>) {
    exists j | 0 <= j < |theirs| :: theirs[j] !in ours && exists i | 0 <= i < |ours| :: Overlaps(ours[i], theirs[j])
  }

  /** A merge is refused exactly when the lists hold different edits that collide. */
  lemma RefusedIff(ours: seq<TextEdit>, theirs: seq<TextEdit>, length: nat)
    requires Separated(ours, 0, length)
    ensures Refused(ours, theirs) <==> !Compatible(ours, theirs)
  {
    hide Overlaps, Collide;
    forall a: TextEdit, b: TextEdit ensures Overlaps(a, b) <==> Collide(a, b) { OverlapsIffCollide(a, b); }
    SeparatedCompatible(ours, 0, length);
    if !Compatible(ours, theirs) {
      var i, j :| 0 <= i < |ours| && 0 <= j < |theirs| && ours[i] != theirs[j] && Collide(ours[i], theirs[j]);
      forall k | 0 <= k < |ours| ensures ours[k] != theirs[j] {
        assert ours[i] == ours[k] || !Collide(ours[i], ours[k]);
      }
    }
  }

  /** What merging gives: the merged edits made on the base, unless the texts do not need or allow it. */
  ghost function MergedText(base: Text, local: Text, incoming: Text): Merge {
    if local == base || local == incoming then Merged(incoming)
    else if incoming == base then Merged(local)
    else if TooDifferent(base, local) || TooDifferent(base, incoming) then TooLarge
    else if !Compatible(Edits(base, local), Edits(base, incoming)) then Conflict
    else Merged(ApplyFrom(base, 0, MergeLists(Edits(base, local), Edits(base, incoming))))
  }

  /** Sorting our edits and the extra ones of theirs is merging the lists. */
  lemma SortMerges(ours: seq<TextEdit>, theirs: seq<TextEdit>, length: nat)
    requires Separated(ours, 0, length) && Separated(theirs, 0, length) && Compatible(ours, theirs)
    ensures SortByOffset(ours + Extra(theirs, ours)) == MergeLists(ours, theirs)
  {
    var all := ours + Extra(theirs, ours);
    MergeElements(ours, theirs, 0, length);
    MergeIsApart(ours, theirs, 0, length);
    hide MergeLists, Separated, Compatible, Extra, SortByOffset, Apart, InOrder;
    OrderIsUnique(SortByOffset(all), MergeLists(ours, theirs), 0, length);
  }

  lemma {:induction false} ExtraSnoc(theirs: seq<TextEdit>, edit: TextEdit, ours: seq<TextEdit>)
    ensures Extra(theirs + [edit], ours) == Extra(theirs, ours) + if edit in ours then [] else [edit]
  {
    if theirs == [] {
      assert theirs + [edit] == [edit];
      assert Extra([edit][1..], ours) == [];
    } else {
      assert (theirs + [edit])[1..] == theirs[1..] + [edit];
      ExtraSnoc(theirs[1..], edit, ours);
    }
  }

  /** Preserves disjoint edits of both sides; leaves both untouched when they conflict. */
  method MergeText(base: Text, local: Text, incoming: Text) returns (r: Merge)
    ensures r == MergedText(base, local, incoming)
  {
    hide Edits, TooDifferent, Compatible, MergeLists, SortByOffset, Extra, Separated, Refused;
    if local == base || local == incoming { return Merged(incoming); }
    if incoming == base { return Merged(local); }
    var left := TextEdits(base, local);
    if left.TooBig? { return TooLarge; }
    var right := TextEdits(base, incoming);
    if right.TooBig? { return TooLarge; }
    EditsMakeAfter(base, local);
    EditsMakeAfter(base, incoming);
    RefusedIff(left.value, right.value, |base|);
    var combined := Combine(left.value, right.value);
    if combined.None? { return Conflict; }
    SortMerges(left.value, right.value, |base|);
    var text := ApplyTextEdits(base, SortByOffset(combined.value));
    return Merged(text);
  }

  /** Our edits and those of theirs that are not ours, unless one of those overlaps one of ours. */
  method Combine(ours: seq<TextEdit>, theirs: seq<TextEdit>) returns (combined: Option<seq<TextEdit>>)
    ensures combined.None? <==> Refused(ours, theirs)
    ensures combined.Some? ==> combined.value == ours + Extra(theirs, ours)
  {
    hide Extra, Overlaps;
    var all := ours;
    var k := 0;
    NoExtra(ours);
    while k < |theirs|
      invariant k <= |theirs| && all == ours + Extra(theirs[..k], ours)
      invariant forall j | 0 <= j < k :: theirs[j] in ours || forall i | 0 <= i < |ours| :: !Overlaps(ours[i], theirs[j])
    {
      var edit := theirs[k];
      ExtraSnoc(theirs[..k], edit, ours);
      assert theirs[..k + 1] == theirs[..k] + [edit];
      if edit !in ours {
        if exists i | 0 <= i < |ours| :: Overlaps(ours[i], edit) { return None; }
        all := all + [edit];
      }
      k := k + 1;
    }
    assert theirs[..k] == theirs;
    return Some(all);
  }

  lemma NoExtra(ours: seq<TextEdit>)
    ensures ours + Extra([], ours) == ours
  {}

  /** Swapping the two sides gives the same text, or the same refusal. */
  lemma MergeIsSymmetric(base: Text, local: Text, incoming: Text)
    ensures MergedText(base, local, incoming) == MergedText(base, incoming, local)
  {
    hide Edits, TooDifferent, Compatible, MergeLists, ApplyFrom;
    var ours, theirs := Edits(base, local), Edits(base, incoming);
    CompatibleSymmetric(ours, theirs);
    if Compatible(ours, theirs) { MergeListsSymmetric(ours, theirs); }
  }

  /** The edits `theirs` makes beyond `ours`, moved to where `ours` leave them. */
  ghost function Moved(theirs: seq<TextEdit>, ours: seq<TextEdit>): seq<TextEdit> {
    ShiftAll(Extra(theirs, ours), ours, 0)
  }

  /** The edits of a text against itself as base: none. */
  lemma OneSided(base: Text, text: Text)
    ensures Moved(Edits(base, text), Edits(base, text)) == [] && Moved([], Edits(base, text)) == []
    ensures Edits(base, base) == []
  {
    SameExtra(Edits(base, text), Edits(base, text));
  }

  lemma {:induction false} SameExtra(edits: seq<TextEdit>, ours: seq<TextEdit>)
    requires forall e | e in edits :: e in ours
    ensures Extra(edits, ours) == []
  {
    if edits != [] {
      assert edits[0] in edits;
      SameExtra(edits[1..], ours);
    }
  }

  /**
   * A merged text is the local text with the incoming edits made where the local ones have moved them,
   * and so is it the incoming text with the local edits moved.
   */
  lemma MergeMovesEdits(base: Text, local: Text, incoming: Text)
    requires MergedText(base, local, incoming).Merged?
    ensures var ours, theirs := Edits(base, local), Edits(base, incoming);
            var merged := MergedText(base, local, incoming).text;
            merged == ApplyFrom(local, 0, Moved(theirs, ours)) && merged == ApplyFrom(incoming, 0, Moved(ours, theirs))
  {
    MergeMoves(base, local, incoming);
    MergeIsSymmetric(base, local, incoming);
    MergeMoves(base, incoming, local);
  }

  lemma MergeMoves(base: Text, local: Text, incoming: Text)
    requires MergedText(base, local, incoming).Merged?
    ensures MergedText(base, local, incoming).text == ApplyFrom(local, 0, Moved(Edits(base, incoming), Edits(base, local)))
  {
    var ours, theirs := Edits(base, local), Edits(base, incoming);
    EditsMakeAfter(base, local);
    EditsMakeAfter(base, incoming);
    OneSided(base, local);
    OneSided(base, incoming);
    NothingMoves(local);
    if local == base {
      NothingExtra(theirs);
      CompatibleWithNone(theirs);
      AgreesAtStart(base, local);
      ShiftLaw(base, 0, 0, ours, theirs, local, 0, 0);
      MergeWithNone(theirs);
    } else if local != incoming && incoming != base {
      AgreesAtStart(base, local);
      ShiftLaw(base, 0, 0, ours, theirs, local, 0, 0);
    }
  }

  lemma NothingMoves(text: Text)
    ensures ApplyFrom(text, 0, []) == text
  {
    SliceIs(text, 0, |text|);
  }

  lemma AgreesAtStart(base: Text, text: Text)
    requires ApplyFrom(base, 0, Edits(base, text)) == text
    ensures Agrees(base, 0, Edits(base, text), text, 0)
  {
    assert text[0..] == text;
  }

  lemma {:induction false} NothingExtra(theirs: seq<TextEdit>)
    ensures Extra(theirs, []) == theirs
  {
    if theirs != [] {
      NothingExtra(theirs[1..]);
      assert theirs == [theirs[0]] + theirs[1..];
    }
  }

  lemma CompatibleWithNone(theirs: seq<TextEdit>)
    ensures Compatible([], theirs)
  {}

  lemma {:induction false} MergeWithNone(theirs: seq<TextEdit>)
    ensures MergeLists([], theirs) == theirs
  {
    if theirs != [] {
      MergeWithNone(theirs[1..]);
      assert theirs == [theirs[0]] + theirs[1..];
    }
  }
}
