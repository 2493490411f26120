/** src/shell/brace.ts: a word expanded into the words its braces stand for, within a budget of work. */
module BraceExpansion {
  import opened Sequences
  import opened BraceGroups
  import DecimalText

  /** A group: its words, where it ends, and the work of reading it, group or not. */
  datatype Reading = Reading(alternatives: Option<seq<Word>>, end: nat, work: nat)

  function RangeWords(range: Range): seq<Word>
    requires range.stride > 0
  {
    seq(Count(range), i requires 0 <= i < Count(range) => Spelled(range, i))
  }

  predicate Literal(atoms: Word) { forall i | 0 <= i < |atoms| :: atoms[i].Char? }

  function Codes(atoms: Word): seq<int>
    requires Literal(atoms)
  {
    seq(|atoms|, i requires 0 <= i < |atoms| => atoms[i].code)
  }

  /** The range a group's content writes, if that is all it holds. */
  function ContentRange(content: Word): (range: Option<Range>)
    ensures range.Some? ==> range.value.stride > 0
    ensures range.Some? && range.value.letters ==> IsLetter(range.value.start) && IsLetter(range.value.end)
  {
    if Literal(content) then ReadRange(Codes(content)) else None
  }

  /** What the brace at `start` opens. */
  function ReadGroup(atoms: Word, start: nat): (r: Reading)
    requires start < |atoms| && atoms[start] == OPEN
    ensures r.alternatives.Some? ==> start < r.end < |atoms|
  {
    ScanMeans(atoms, start, start + 1, 1, []);
    var s := ScanGroup(atoms, start + 1, 1, []);
    var work := s.work + 1;
    if s.end.None? then Reading(None, 0, work)
    else if s.separators != [] then Reading(Some(Pieces(atoms, start + 1, s.separators, s.end.value)), s.end.value, work)
    else
      match ContentRange(atoms[start + 1..s.end.value])
      case None => Reading(None, 0, work)
      case Some(range) => Reading(Some(RangeWords(range)), s.end.value, work + Count(range))
  }

  /** One word for each alternative, in the group's place. */
  function Replaced(atoms: Word, start: nat, end: nat, alternative: Word): Word
    requires start < end < |atoms|
  {
    atoms[..start] + alternative + atoms[end + 1..]
  }

  lemma {:induction false} CharsOpen(text: seq<int>)
    requires forall i | 0 <= i < |text| :: text[i] != OPEN.code
    ensures Opens(Chars(text)) == 0
    decreases |text|
  {
    if text != [] {
      var all := Chars(text);
      assert all[..|all| - 1] == Chars(text[..|text| - 1]);
      CharsOpen(text[..|text| - 1]);
    }
  }

  /** A range writes no braces. */
  lemma SpelledOpens(range: Range, i: nat)
    requires range.stride > 0 && i < Count(range)
    requires range.letters ==> IsLetter(range.start) && IsLetter(range.end)
    ensures Opens(Spelled(range, i)) == 0
  {
    if range.letters {
      RangeBounds(range, i);
      assert Spelled(range, i)[..0] == [];
    } else {
      SpellingUnits(ValueAt(range, i), range.width);
      CharsOpen(Spelling(ValueAt(range, i), range.width));
    }
  }

  lemma SpellingUnits(value: int, width: nat)
    ensures var text := Spelling(value, width); forall k | 0 <= k < |text| :: text[k] != OPEN.code
  {
    var digits: seq<int> := DecimalText.Decimal(Abs(value));
    NumberOfZeros(if width == 0 then 0 else width - (if value < 0 then 1 else 0) - |digits|, digits);
    hide DecimalText.Decimal, Number, Zeros;
  }

  /** Every alternative has at least one brace less, and finding them costs at least their number. */
  lemma GroupShrinks(atoms: Word, start: nat, i: nat)
    requires start < |atoms| && atoms[start] == OPEN
    requires ReadGroup(atoms, start).alternatives.Some? && i < |ReadGroup(atoms, start).alternatives.value|
    ensures var r := ReadGroup(atoms, start); Opens(Replaced(atoms, start, r.end, r.alternatives.value[i])) < Opens(atoms)
  {
    hide ReadGroup, Opens;
    var r := ReadGroup(atoms, start);
    var alternative := r.alternatives.value[i];
    AlternativeOpens(atoms, start, i);
    OpensAround(atoms, start, r.end);
    OpensTwo(atoms[..start] + alternative, atoms[r.end + 1..]);
    OpensTwo(atoms[..start], alternative);
  }

  lemma OpensAround(atoms: Word, start: nat, end: nat)
    requires start < end < |atoms| && atoms[start] == OPEN
    ensures Opens(atoms) > Opens(atoms[..start]) + Opens(atoms[start + 1..end]) + Opens(atoms[end + 1..])
  {
    OneOpen();
    hide Opens;
    OpensSplit(atoms, start);
    OpensSplit(atoms[start..], 1);
    OpensSplit(atoms[start + 1..], end - start - 1);
    OpensSplit(atoms[end..], 1);
    assert atoms[start..][..1] == [OPEN] && atoms[start..][1..] == atoms[start + 1..];
    assert atoms[start + 1..][..end - start - 1] == atoms[start + 1..end] && atoms[start + 1..][end - start - 1..] == atoms[end..];
    assert atoms[end..][1..] == atoms[end + 1..];
  }

  lemma OneOpen()
    ensures Opens([OPEN]) == 1
  {
    assert [OPEN][..0] == [];
  }

  lemma AlternativeOpens(atoms: Word, start: nat, i: nat)
    requires start < |atoms| && atoms[start] == OPEN
    requires ReadGroup(atoms, start).alternatives.Some? && i < |ReadGroup(atoms, start).alternatives.value|
    ensures var r := ReadGroup(atoms, start); Opens(r.alternatives.value[i]) <= Opens(atoms[start + 1..r.end])
  {
    hide ReadRange, Spelled, Opens;
    ScanMeans(atoms, start, start + 1, 1, []);
    var s := ScanGroup(atoms, start + 1, 1, []);
    if s.separators != [] {
      PiecesAreParts(atoms, start + 1, s.separators, s.end.value);
    } else {
      SpelledOpens(ContentRange(atoms[start + 1..s.end.value]).value, i);
    }
  }

  lemma GroupCosts(atoms: Word, start: nat)
    requires start < |atoms| && atoms[start] == OPEN && ReadGroup(atoms, start).alternatives.Some?
    ensures 0 < |ReadGroup(atoms, start).alternatives.value| <= ReadGroup(atoms, start).work
  {
    hide ReadRange;
    ScanMeans(atoms, start, start + 1, 1, []);
    var s := ScanGroup(atoms, start + 1, 1, []);
    if s.separators != [] { PiecesAreParts(atoms, start + 1, s.separators, s.end.value); }
  }

  /** The first group from an index on, and the work of finding it. */
  datatype First = First(start: nat, reading: Option<Reading>, work: nat)

  function FirstGroup(atoms: Word, index: nat): (f: First)
    requires index <= |atoms|
    ensures f.reading.Some? ==> && index <= f.start < |atoms| && atoms[f.start] == OPEN
                                && f.reading.value == ReadGroup(atoms, f.start) && f.reading.value.alternatives.Some?
                                && f.reading.value.work <= f.work
    decreases |atoms| - index
  {
    if index == |atoms| then First(0, None, 0)
    else if atoms[index] != OPEN then FirstGroup(atoms, index + 1)
    else
      var reading := ReadGroup(atoms, index);
      if reading.alternatives.Some? then First(index, Some(reading), reading.work)
      else
        var rest := FirstGroup(atoms, index + 1);
        rest.(work := reading.work + rest.work)
  }

  /** The words a word stands for, and the work of building them. */
  datatype Expansion = Expansion(words: seq<Word>, work: nat)

  function Expand(atoms: Word): Expansion
    decreases Opens(atoms), 0, 1
  {
    var first := FirstGroup(atoms, 0);
    if first.reading.None? then Expansion([atoms], first.work)
    else
      AllShrink(atoms, first.start);
      var rest := ExpandEach(atoms, first.start, first.reading.value.end, first.reading.value.alternatives.value);
      Expansion(rest.words, first.work + rest.work)
  }

  /** Every alternative, in the group's place, has fewer braces. */
  predicate Shrink(atoms: Word, start: nat, end: nat, alternatives: seq<Word>) {
    && start < end < |atoms|
    && forall i | 0 <= i < |alternatives| :: Opens(Replaced(atoms, start, end, alternatives[i])) < Opens(atoms)
  }

  lemma AllShrink(atoms: Word, start: nat)
    requires start < |atoms| && atoms[start] == OPEN && ReadGroup(atoms, start).alternatives.Some?
    ensures var r := ReadGroup(atoms, start); Shrink(atoms, start, r.end, r.alternatives.value)
  {
    var r := ReadGroup(atoms, start);
    forall i | 0 <= i < |r.alternatives.value| ensures Opens(Replaced(atoms, start, r.end, r.alternatives.value[i])) < Opens(atoms) {
      GroupShrinks(atoms, start, i);
    }
  }

  /** Alternatives expanded again, each in its place. */
  function ExpandEach(atoms: Word, start: nat, end: nat, alternatives: seq<Word>): Expansion
    requires Shrink(atoms, start, end, alternatives)
    decreases Opens(atoms), 0, 0, |alternatives|
  {
    if alternatives == [] then Expansion([], 0)
    else
      var before := ExpandEach(atoms, start, end, alternatives[..|alternatives| - 1]);
      var last := Expand(Replaced(atoms, start, end, alternatives[|alternatives| - 1]));
      Expansion(before.words + last.words, before.work + last.work)
  }

  /** A word that stands for itself alone. */
  ghost predicate Settled(word: Word) { Expand(word).words == [word] }

  lemma NoGroupSettles(word: Word)
    requires FirstGroup(word, 0).reading.None?
    ensures Settled(word)
  {}

  /** Every word that comes out expands to itself. */
  lemma {:induction false} WordsSettle(atoms: Word, i: nat)
    requires i < |Expand(atoms).words|
    ensures Settled(Expand(atoms).words[i])
    decreases Opens(atoms), 0, 1
  {
    hide FirstGroup, ReadGroup, Settled, Shrink;
    var first := FirstGroup(atoms, 0);
    if first.reading.None? {
      NoGroupSettles(atoms);
    } else {
      AllShrink(atoms, first.start);
      EachSettles(atoms, first.start, first.reading.value.end, first.reading.value.alternatives.value, i);
    }
  }

  lemma {:induction false} EachSettles(atoms: Word, start: nat, end: nat, alternatives: seq<Word>, i: nat)
    requires Shrink(atoms, start, end, alternatives) && i < |ExpandEach(atoms, start, end, alternatives).words|
    ensures Settled(ExpandEach(atoms, start, end, alternatives).words[i])
    decreases Opens(atoms), 0, 0, |alternatives|
  {
    hide Settled, Expand;
    if alternatives != [] {
      var init, last := alternatives[..|alternatives| - 1], alternatives[|alternatives| - 1];
      var before := ExpandEach(atoms, start, end, init);
      if i < |before.words| {
        EachSettles(atoms, start, end, init, i);
      } else {
        WordsSettle(Replaced(atoms, start, end, last), i - |before.words|);
      }
    }
  }

  /** A word stands for itself exactly when it holds no group. */
  lemma SettledExactly(word: Word)
    ensures Settled(word) <==> FirstGroup(word, 0).reading.None?
  {
    hide FirstGroup, ReadGroup, Shrink;
    var first := FirstGroup(word, 0);
    if first.reading.None? {
      NoGroupSettles(word);
    } else if Settled(word) {
      AllShrink(word, first.start);
      EachShrinks(word, first.start, first.reading.value.end, first.reading.value.alternatives.value, 0);
    }
  }

  /** The words of a group have fewer braces than it. */
  lemma {:induction false} EachShrinks(atoms: Word, start: nat, end: nat, alternatives: seq<Word>, i: nat)
    requires Shrink(atoms, start, end, alternatives) && i < |ExpandEach(atoms, start, end, alternatives).words|
    ensures Opens(ExpandEach(atoms, start, end, alternatives).words[i]) < Opens(atoms)
    decreases Opens(atoms), 0, 0, |alternatives|
  {
    hide Expand, Opens;
    if alternatives != [] {
      var init, last := alternatives[..|alternatives| - 1], alternatives[|alternatives| - 1];
      var before := ExpandEach(atoms, start, end, init);
      if i < |before.words| {
        EachShrinks(atoms, start, end, init, i);
      } else {
        WordsShrink(Replaced(atoms, start, end, last), i - |before.words|);
      }
    }
  }

  lemma {:induction false} WordsShrink(atoms: Word, i: nat)
    requires i < |Expand(atoms).words|
    ensures Opens(Expand(atoms).words[i]) <= Opens(atoms)
    decreases Opens(atoms), 0, 1
  {
    hide FirstGroup, ReadGroup, Opens, Shrink;
    var first := FirstGroup(atoms, 0);
    if first.reading.Some? {
      AllShrink(atoms, first.start);
      EachShrinks(atoms, first.start, first.reading.value.end, first.reading.value.alternatives.value, i);
    }
  }

  /** The words built are at most the work charged, or one word without any. */
  lemma {:induction false} WordsCost(atoms: Word)
    ensures var e := Expand(atoms); 0 < |e.words| <= e.work + 1
    ensures FirstGroup(atoms, 0).reading.Some? ==> |Expand(atoms).words| <= Expand(atoms).work
    decreases Opens(atoms), 0, 1
  {
    hide FirstGroup, ReadGroup, Shrink;
    var first := FirstGroup(atoms, 0);
    if first.reading.Some? {
      GroupCosts(atoms, first.start);
      AllShrink(atoms, first.start);
      EachCosts(atoms, first.start, first.reading.value.end, first.reading.value.alternatives.value);
    }
  }

  lemma {:induction false} EachCosts(atoms: Word, start: nat, end: nat, alternatives: seq<Word>)
    requires Shrink(atoms, start, end, alternatives)
    ensures var e := ExpandEach(atoms, start, end, alternatives); |alternatives| <= |e.words| <= e.work + |alternatives|
    decreases Opens(atoms), 0, 0, |alternatives|
  {
    hide Expand;
    if alternatives != [] {
      EachCosts(atoms, start, end, alternatives[..|alternatives| - 1]);
      WordsCost(Replaced(atoms, start, end, alternatives[|alternatives| - 1]));
    }
  }

  class ShellBudget {
    const limit: nat
    var work: nat

    constructor (limit: nat)
      ensures this.limit == limit && work == 0
    {
      this.limit, work := limit, 0;
    }

    /** Charges before the work is done. */
    method ExpansionWork(count: nat) returns (ok: bool)
      modifies this
      ensures work == old(work) + count && ok == (work <= limit)
    {
      work := work + count;
      return work <= limit;
    }
  }

  /** A scan that starts on the opening brace itself. */
  lemma FromBrace(atoms: Word, start: nat)
    requires start < |atoms| && atoms[start] == OPEN
    ensures var s := ScanGroup(atoms, start + 1, 1, []); ScanGroup(atoms, start, 0, []) == GroupScan(s.end, s.separators, s.work + 1)
  {}

  lemma ScanTurn(atoms: Word, index: nat, depth: nat, separators: seq<nat>)
    requires index < |atoms|
    ensures var s := ScanGroup(atoms, index, depth, separators);
            if atoms[index].Opaque? then s == ScanGroup(atoms, index + 1, depth, separators)
            else if atoms[index] == CLOSE && depth == 1 then s == GroupScan(Some(index), separators, 1)
            else
              var inner := if atoms[index] == OPEN then depth + 1
                           else if atoms[index] == CLOSE && depth > 0 then depth - 1 else depth;
              var more := if atoms[index] == COMMA && depth == 1 then separators + [index] else separators;
              var rest := ScanGroup(atoms, index + 1, inner, more);
              s == GroupScan(rest.end, rest.separators, rest.work + 1)
  {}

  /** The matching brace and the commas, charged character by character. */
  method GroupBounds(atoms: Word, start: nat, budget: ShellBudget) returns (ok: bool, end: Option<nat>, separators: seq<nat>)
    requires start < |atoms| && atoms[start] == OPEN && budget.work <= budget.limit
    modifies budget
    ensures var s := ScanGroup(atoms, start + 1, 1, []);
            && ok == (old(budget.work) + s.work + 1 <= budget.limit)
            && (ok ==> end == s.end && separators == (if s.end.Some? then s.separators else []) && budget.work == old(budget.work) + s.work + 1)
  {
    hide ScanGroup;
    FromBrace(atoms, start);
    separators := [];
    var depth: nat := 0;
    var index := start;
    while index < |atoms|
      invariant start <= index <= |atoms| && (if index == start then depth == 0 else depth > 0)
      invariant old(budget.work) <= budget.work <= budget.limit
      invariant var s, rest := ScanGroup(atoms, start, 0, []), ScanGroup(atoms, index, depth, separators);
                s == GroupScan(rest.end, rest.separators, budget.work - old(budget.work) + rest.work)
    {
      ScanTurn(atoms, index, depth, separators);
      if atoms[index].Char? {
        ok := budget.ExpansionWork(1);
        if !ok { return false, None, []; }
        if atoms[index] == OPEN {
          depth := depth + 1;
        } else if atoms[index] == COMMA && depth == 1 {
          separators := separators + [index];
        } else if atoms[index] == CLOSE {
          depth := depth - 1;
          if depth == 0 { return true, Some(index), separators; }
        }
      }
      index := index + 1;
    }
    ScanOver(atoms, index, depth, separators);
    return true, None, [];
  }

  lemma ScanOver(atoms: Word, index: nat, depth: nat, separators: seq<nat>)
    requires index >= |atoms|
    ensures ScanGroup(atoms, index, depth, separators) == GroupScan(None, separators, 0)
  {}

  /** The pieces between the commas, one after another. */
  method CutPieces(atoms: Word, start: nat, separators: seq<nat>, end: nat) returns (pieces: seq<Word>)
    requires start < end < |atoms| && Inside(separators, start, end)
    ensures pieces == Pieces(atoms, start + 1, separators, end)
  {
    pieces := [];
    var from := start + 1;
    for k := 0 to |separators|
      invariant from == (if k == 0 then start else separators[k - 1]) + 1 <= end
      invariant Inside(separators[k..], from - 1, end)
      invariant pieces + Pieces(atoms, from, separators[k..], end) == Pieces(atoms, start + 1, separators, end)
    {
      assert separators[k..][1..] == separators[k + 1..];
      Assoc(pieces, [atoms[from..separators[k]]], Pieces(atoms, separators[k] + 1, separators[k + 1..], end));
      pieces := pieces + [atoms[from..separators[k]]];
      from := separators[k] + 1;
    }
    assert separators[|separators|..] == [];
    pieces := pieces + [atoms[from..end]];
  }

  /** Reads the group at a brace, charging for the scan and for a range before it is built. */
  method TakeGroup(atoms: Word, start: nat, budget: ShellBudget) returns (r: Option<Reading>)
    requires start < |atoms| && atoms[start] == OPEN && budget.work <= budget.limit
    modifies budget
    ensures var reading := ReadGroup(atoms, start);
            && (r.Some? <==> old(budget.work) + reading.work <= budget.limit)
            && (r.Some? ==> r.value == reading && budget.work == old(budget.work) + reading.work)
  {
    hide ScanGroup, ContentRange, Spelled, Pieces;
    ScanMeans(atoms, start, start + 1, 1, []);
    var before := budget.work;
    var ok, end, separators := GroupBounds(atoms, start, budget);
    if !ok { return None; }
    if end.None? { return Some(Reading(None, 0, budget.work - before)); }
    if separators != [] {
      var pieces := CutPieces(atoms, start, separators, end.value);
      return Some(Reading(Some(pieces), end.value, budget.work - before));
    }
    var range := ContentRange(atoms[start + 1..end.value]);
    if range.None? { return Some(Reading(None, 0, budget.work - before)); }
    ok := budget.ExpansionWork(Count(range.value));
    if !ok { return None; }
    var values: seq<Word> := [];
    for i := 0 to Count(range.value)
      invariant |values| == i && forall k | 0 <= k < i :: values[k] == Spelled(range.value, k)
    {
      values := values + [Spelled(range.value, i)];
    }
    assert values == RangeWords(range.value);
    return Some(Reading(Some(values), end.value, budget.work - before));
  }

  /** Expands a word: exactly what it stands for, if the budget holds the work of it. */
  method ExpandAtoms(atoms: Word, budget: ShellBudget) returns (r: Option<seq<Word>>)
    requires budget.work <= budget.limit
    modifies budget
    ensures r.Some? <==> old(budget.work) + Expand(atoms).work <= budget.limit
    ensures r.Some? ==> r.value == Expand(atoms).words && budget.work == old(budget.work) + Expand(atoms).work
    decreases Opens(atoms), 0, 2
  {
    hide ReadGroup, FirstGroup, Shrink;
    ghost var before := budget.work;
    var index := 0;
    while index < |atoms|
      invariant index <= |atoms| && before <= budget.work <= budget.limit
      invariant var first, rest := FirstGroup(atoms, 0), FirstGroup(atoms, index);
                && first.reading == rest.reading && first.work == budget.work - before + rest.work
                && (first.reading.Some? ==> first.start == rest.start)
    {
      FirstTurn(atoms, index);
      if atoms[index] == OPEN {
        var group := TakeGroup(atoms, index, budget);
        if group.None? { return None; }
        if group.value.alternatives.Some? {
          AllShrink(atoms, index);
          r := ExpandGroup(atoms, index, group.value.end, group.value.alternatives.value, budget);
          return;
        }
      }
      index := index + 1;
    }
    FirstOver(atoms);
    return Some([atoms]);
  }

  lemma FirstTurn(atoms: Word, index: nat)
    requires index < |atoms|
    ensures var first, rest := FirstGroup(atoms, index), FirstGroup(atoms, index + 1);
            if atoms[index] != OPEN then first == rest
            else
              var reading := ReadGroup(atoms, index);
              if reading.alternatives.Some? then first == First(index, Some(reading), reading.work)
              else first == rest.(work := reading.work + rest.work)
  {
    hide ReadGroup;
  }

  lemma FirstOver(atoms: Word)
    ensures FirstGroup(atoms, |atoms|) == First(0, None, 0)
  {}

  /** Expands every alternative in its place. */
  method ExpandGroup(atoms: Word, start: nat, end: nat, alternatives: seq<Word>, budget: ShellBudget) returns (r: Option<seq<Word>>)
    requires Shrink(atoms, start, end, alternatives) && budget.work <= budget.limit
    modifies budget
    ensures var e := ExpandEach(atoms, start, end, alternatives);
            && (r.Some? <==> old(budget.work) + e.work <= budget.limit)
            && (r.Some? ==> r.value == e.words && budget.work == old(budget.work) + e.work)
    decreases Opens(atoms), 0, 0
  {
    hide Expand;
    var output: seq<Word> := [];
    assert alternatives[..|alternatives|] == alternatives;
    for k := 0 to |alternatives|
      invariant budget.work <= budget.limit && Shrink(atoms, start, end, alternatives[..k])
      invariant var e := ExpandEach(atoms, start, end, alternatives[..k]);
                output == e.words && budget.work == old(budget.work) + e.work
    {
      assert alternatives[..k + 1][..k] == alternatives[..k];
      EachGrows(atoms, start, end, alternatives, k + 1);
      var words := ExpandAtoms(atoms[..start] + alternatives[k] + atoms[end + 1..], budget);
      if words.None? { return None; }
      output := output + words.value;
    }
    return Some(output);
  }

  /** More alternatives are more work. */
  lemma {:induction false} EachGrows(atoms: Word, start: nat, end: nat, alternatives: seq<Word>, k: nat)
    requires Shrink(atoms, start, end, alternatives) && k <= |alternatives|
    ensures ExpandEach(atoms, start, end, alternatives[..k]).work <= ExpandEach(atoms, start, end, alternatives).work
    decreases |alternatives|
  {
    hide Expand;
    if k < |alternatives| {
      var init := alternatives[..|alternatives| - 1];
      EachGrows(atoms, start, end, init, k);
      assert init[..k] == alternatives[..k];
    } else {
      assert alternatives[..k] == alternatives;
    }
  }

  /** A part of a word as the parser leaves it. */
  datatype WordPart = Plain(text: seq<int>) | Kept(part: Part)

  /** `flatten`: every unquoted code point by itself. */
  function Flattened(parts: seq<WordPart>): Word {
    if parts == [] then []
    else
      var last := parts[|parts| - 1];
      Flattened(parts[..|parts| - 1]) + match last case Plain(text) => Chars(text) case Kept(part) => [Opaque(part)]
  }

  method Flatten(parts: seq<WordPart>) returns (atoms: Word)
    ensures atoms == Flattened(parts)
  {
    atoms := [];
    for i := 0 to |parts|
      invariant atoms == Flattened(parts[..i])
    {
      assert parts[..i + 1][..i] == parts[..i];
      if parts[i].Kept? {
        atoms := atoms + [Opaque(parts[i].part)];
      } else {
        ghost var before := atoms;
        for k := 0 to |parts[i].text|
          invariant atoms == before + Chars(parts[i].text[..k])
        {
          assert Chars(parts[i].text[..k + 1]) == Chars(parts[i].text[..k]) + [Char(parts[i].text[k])];
          atoms := atoms + [Char(parts[i].text[k])];
        }
        assert parts[i].text[..|parts[i].text|] == parts[i].text;
      }
    }
    assert parts[..|parts|] == parts;
  }

  /** Plain text stands together, and there is no empty piece of it. */
  predicate Merged(parts: seq<WordPart>) {
    && (forall i | 0 <= i < |parts| :: parts[i].Plain? ==> parts[i].text != [])
    && forall i | 0 <= i < |parts| - 1 :: parts[i].Kept? || parts[i + 1].Kept?
  }

  /** A word put together again has the same atoms, with plain text merged. */
  method Rebuild(atoms: Word) returns (parts: seq<WordPart>)
    ensures Flattened(parts) == atoms && Merged(parts)
  {
    hide Flattened, Merged;
    parts := [];
    var literal: seq<int> := [];
    NothingFlat();
    for i := 0 to |atoms|
      invariant Flattened(parts) + Chars(literal) == atoms[..i]
      invariant Merged(parts) && (parts != [] ==> parts[|parts| - 1].Kept?)
    {
      if atoms[i].Char? {
        assert Chars(literal + [atoms[i].code]) == Chars(literal) + [atoms[i]];
        literal := literal + [atoms[i].code];
      } else {
        FlattenedMore(parts, literal, atoms[i].part);
        MergedMore(parts, literal, atoms[i].part);
        if literal != [] { parts := parts + [Plain(literal)]; }
        literal := [];
        parts := parts + [Kept(atoms[i].part)];
      }
    }
    assert atoms[..|atoms|] == atoms;
    if literal != [] {
      FlattenedLast(parts, literal);
      parts := parts + [Plain(literal)];
    }
  }

  lemma FlattenedMore(parts: seq<WordPart>, literal: seq<int>, part: Part)
    ensures var more := if literal == [] then parts else parts + [Plain(literal)];
            Flattened(more + [Kept(part)]) == Flattened(parts) + Chars(literal) + [Opaque(part)]
  {
    hide Flattened;
    var more := if literal == [] then parts else parts + [Plain(literal)];
    FlattenedOne(more, Kept(part));
    if literal != [] { FlattenedOne(parts, Plain(literal)); }
  }

  lemma NothingFlat()
    ensures Flattened([]) + Chars([]) == [] && Merged([])
  {}

  lemma FlattenedLast(parts: seq<WordPart>, literal: seq<int>)
    requires Merged(parts) && (parts != [] ==> parts[|parts| - 1].Kept?) && literal != []
    ensures Flattened(parts + [Plain(literal)]) == Flattened(parts) + Chars(literal) && Merged(parts + [Plain(literal)])
  {
    FlattenedOne(parts, Plain(literal));
    hide Flattened;
  }

  lemma FlattenedOne(parts: seq<WordPart>, part: WordPart)
    ensures Flattened(parts + [part]) == Flattened(parts) + match part case Plain(text) => Chars(text) case Kept(kept) => [Opaque(kept)]
  {
    assert (parts + [part])[..|parts|] == parts;
  }

  lemma MergedMore(parts: seq<WordPart>, literal: seq<int>, part: Part)
    requires Merged(parts) && (parts != [] ==> parts[|parts| - 1].Kept?)
    ensures Merged((if literal == [] then parts else parts + [Plain(literal)]) + [Kept(part)])
  {}

  predicate HasBrace(parts: seq<WordPart>) {
    exists i | 0 <= i < |parts| :: parts[i].Plain? && OPEN.code in parts[i].text
  }

  function NonEmpty(words: seq<Word>): seq<Word> {
    if words == [] then []
    else NonEmpty(words[..|words| - 1]) + if words[|words| - 1] == [] then [] else [words[|words| - 1]]
  }

  method DropEmpty(words: seq<Word>) returns (kept: seq<Word>)
    ensures kept == NonEmpty(words)
  {
    kept := [];
    for i := 0 to |words|
      invariant kept == NonEmpty(words[..i])
    {
      assert words[..i + 1][..i] == words[..i];
      if words[i] != [] { kept := kept + [words[i]]; }
    }
    assert words[..|words|] == words;
  }

  method RebuildAll(words: seq<Word>) returns (results: seq<seq<WordPart>>)
    ensures |results| == |words|
    ensures forall i | 0 <= i < |words| :: Flattened(results[i]) == words[i] && Merged(results[i])
  {
    hide Flattened, Merged;
    results := [];
    for i := 0 to |words|
      invariant |results| == i && forall k | 0 <= k < i :: Flattened(results[k]) == words[k] && Merged(results[k])
    {
      var rebuilt := Rebuild(words[i]);
      results := results + [rebuilt];
    }
  }

  /** The work of a whole word: more than one result is charged for again. */
  function WordWork(atoms: Word): nat {
    var kept := NonEmpty(Expand(atoms).words);
    Expand(atoms).work + if |kept| > 1 then |kept| else 0
  }

  /** A word without braces is left alone; any other becomes the words it stands for, without the empty ones. */
  method ExpandBraces(parts: seq<WordPart>, budget: ShellBudget) returns (r: Option<seq<seq<WordPart>>>)
    requires budget.work <= budget.limit
    modifies budget
    ensures r.Some? <==> !HasBrace(parts) || old(budget.work) + WordWork(Flattened(parts)) <= budget.limit
    ensures r.Some? && !HasBrace(parts) ==> r.value == [parts] && budget.work == old(budget.work)
    ensures r.Some? && HasBrace(parts) ==>
              var kept := NonEmpty(Expand(Flattened(parts)).words);
              && |r.value| == |kept| && budget.work == old(budget.work) + WordWork(Flattened(parts))
              && forall i | 0 <= i < |kept| :: Flattened(r.value[i]) == kept[i] && Merged(r.value[i])
  {
    hide Expand, Merged, HasBrace, NonEmpty, Flattened;
    if !HasBrace(parts) { return Some([parts]); }
    var atoms := Flatten(parts);
    var words := ExpandAtoms(atoms, budget);
    if words.None? { return None; }
    var kept := DropEmpty(words.value);
    if |kept| > 1 {
      var ok := budget.ExpansionWork(|kept|);
      if !ok { return None; }
    }
    var results := RebuildAll(kept);
    return Some(results);
  }
}
