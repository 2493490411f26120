/** What is read between braces: where a group ends, which commas part it, and which range it writes. */
module BraceReading {
  import opened Sequences
  import opened Utf16
  import opened DecimalText
  import opened BraceGroups
  import opened BraceExpansion

  /** How many braces more are opened than closed between two places. */
  ghost function Level(atoms: Word, from: nat, to: nat): int
    requires from <= to <= |atoms|
    decreases |atoms| - from
  {
    if from == to then 0
    else
      var change: int := if atoms[from] == OPEN then 1 else if atoms[from] == CLOSE then -1 else 0;
      change + Level(atoms, from + 1, to)
  }

  /** The brace that closes what is open `depth` deep at `from`. */
  ghost predicate ClosesAt(atoms: Word, from: nat, depth: nat, k: nat) {
    from <= k < |atoms| && atoms[k] == CLOSE && depth + Level(atoms, from, k) == 1
  }

  ghost predicate PartsAt(atoms: Word, from: nat, depth: nat, end: nat, k: nat) {
    from <= k < end <= |atoms| && atoms[k] == COMMA && depth + Level(atoms, from, k) == 1
  }

  lemma LevelOn(atoms: Word, from: nat, depth: nat, inner: nat, end: nat, k: nat)
    requires from < |atoms|
    requires inner == if atoms[from] == OPEN then depth + 1 else if atoms[from] == CLOSE then depth - 1 else depth
    ensures ClosesAt(atoms, from, depth, k) <==> (k == from && atoms[k] == CLOSE && depth == 1) || ClosesAt(atoms, from + 1, inner, k)
    ensures PartsAt(atoms, from, depth, end, k)
       <==> (k == from < end <= |atoms| && atoms[k] == COMMA && depth == 1) || PartsAt(atoms, from + 1, inner, end, k)
  {}

  /** A group ends at the first brace that closes it, and its commas are those before it inside no other braces. */
  lemma {:induction false} ScanFinds(atoms: Word, from: nat, depth: nat, separators: seq<nat>)
    requires depth > 0 && from <= |atoms|
    ensures var s := ScanGroup(atoms, from, depth, separators);
            var end := if s.end.Some? then s.end.value else |atoms|;
            && (s.end.Some? ==> ClosesAt(atoms, from, depth, end))
            && (forall k: nat | from <= k < end :: !ClosesAt(atoms, from, depth, k))
            && forall k: nat :: k in s.separators <==> k in separators || PartsAt(atoms, from, depth, end, k)
    decreases |atoms| - from
  {
    if from < |atoms| && !(atoms[from] == CLOSE && depth == 1) {
      hide ClosesAt, PartsAt;
      var inner := if atoms[from] == OPEN then depth + 1 else if atoms[from] == CLOSE then depth - 1 else depth;
      var more := if atoms[from] == COMMA && depth == 1 then separators + [from] else separators;
      var s := ScanGroup(atoms, from, depth, separators);
      var rest := ScanGroup(atoms, from + 1, inner, more);
      assert s.end == rest.end && s.separators == rest.separators;
      var end := if s.end.Some? then s.end.value else |atoms|;
      ScanFinds(atoms, from + 1, inner, more);
      EndsLater(atoms, from + 1, inner, s.end);
      forall k: nat
        ensures ClosesAt(atoms, from, depth, k) <==> ClosesAt(atoms, from + 1, inner, k)
        ensures k in s.separators <==> k in separators || PartsAt(atoms, from, depth, end, k)
      {
        LevelOn(atoms, from, depth, inner, end, k);
      }
    }
  }

  lemma EndsLater(atoms: Word, from: nat, depth: nat, end: Option<nat>)
    ensures end.Some? && ClosesAt(atoms, from, depth, end.value) ==> from <= end.value < |atoms|
  {}

  ghost predicate Dotless(text: seq<int>) { forall i | 0 <= i < |text| :: text[i] != '.' as int }

  const DOTS: seq<int> := ['.' as int, '.' as int]

  /** Two dots are found where they stand, if none stands before them. */
  lemma {:induction false} DotsFound(before: seq<int>, after: seq<int>)
    requires Dotless(before)
    ensures FindDots(before + DOTS + after) == Some(|before|)
    decreases |before|
  {
    var text := before + DOTS + after;
    if before == [] {
      assert text[0] == DOTS[0] && text[1] == DOTS[1];
    } else {
      assert text[0] == before[0] && text[1..] == before[1..] + DOTS + after;
      DotsFound(before[1..], after);
    }
  }

  lemma {:induction false} NoDots(text: seq<int>)
    requires Dotless(text)
    ensures FindDots(text) == None
    decreases |text|
  {
    if |text| >= 2 { NoDots(text[1..]); }
  }

  /** A number as it is written without padding. */
  ghost function Plain(value: int): seq<int> { (if value < 0 then ['-' as int] else []) + Decimal(Abs(value)) }

  lemma {:induction false} NoLeadingZero(n: nat)
    ensures |Decimal(n)| > 1 ==> Decimal(n)[0] != '0' as int
    ensures n > 0 ==> Decimal(n)[0] != '0' as int
  {
    if n >= 10 { NoLeadingZero(n / 10); }
  }

  lemma PlainReads(value: int)
    ensures ReadInteger(Plain(value)) == Some(Written(value, |Plain(value)|, false)) && Dotless(Plain(value))
  {
    hide Number, Decimal;
    var digits: seq<int> := Decimal(Abs(value));
    NoLeadingZero(Abs(value));
    NumberOfDecimal(Abs(value));
    if value < 0 { assert (['-' as int] + digits)[1..] == digits; } else { assert [] + digits == digits; }
  }

  /** `x..y` runs from x to y in steps of one. */
  lemma RangeReads(x: int, y: int)
    requires -0x1F_FFFF_FFFF_FFFF <= x <= 0x1F_FFFF_FFFF_FFFF && -0x1F_FFFF_FFFF_FFFF <= y <= 0x1F_FFFF_FFFF_FFFF
    ensures ReadRange(Plain(x) + DOTS + Plain(y)) == Some(Range(false, x, y, 1, 0))
  {
    hide ReadInteger, FindDots, Plain;
    var a, b := Plain(x), Plain(y);
    PlainReads(x);
    PlainReads(y);
    DotsFound(a, b);
    NoDots(b);
    assert (a + DOTS + b)[..|a|] == a && (a + DOTS + b)[|a| + 2..] == b;
  }

  /** `x..y..s` runs in steps of the size of s, of one if s is zero. */
  lemma SteppedReads(x: int, y: int, s: int)
    requires -0x1F_FFFF_FFFF_FFFF <= x <= 0x1F_FFFF_FFFF_FFFF && -0x1F_FFFF_FFFF_FFFF <= y <= 0x1F_FFFF_FFFF_FFFF
    requires -0x8000_0000_0000_0000 <= s < 0x8000_0000_0000_0000
    ensures ReadRange(Plain(x) + DOTS + (Plain(y) + DOTS + Plain(s)))
         == Some(Range(false, x, y, if s == 0 then 1 else if s < 0 then -s else s, 0))
  {
    hide ReadInteger, FindDots, Plain;
    var a, b, c := Plain(x), Plain(y), Plain(s);
    var rest := b + DOTS + c;
    PlainReads(x);
    PlainReads(y);
    PlainReads(s);
    DotsFound(a, rest);
    DotsFound(b, c);
    assert (a + DOTS + rest)[..|a|] == a && (a + DOTS + rest)[|a| + 2..] == rest;
    assert rest[..|b|] == b && rest[|b| + 2..] == c;
  }

  /** Letters run from the one to the other; an end with a leading zero pads the values to the wider end. */
  lemma LettersRead(x: int, y: int)
    requires IsLetter(x) && IsLetter(y)
    ensures ReadRange([x] + DOTS + [y]) == Some(Range(true, x, y, 1, 0))
  {
    hide FindDots;
    DotsFound([x], [y]);
    NoDots([y]);
    assert ([x] + DOTS + [y])[..1] == [x] && ([x] + DOTS + [y])[3..] == [y];
  }

  /** A range of letters that crosses the signs between capitals and small ones leaves its backslash empty. */
  lemma CrossingLetters()
    ensures Count(Range(true, 'Z' as int, 'a' as int, 1, 0)) == 8
    ensures Spelled(Range(true, 'Z' as int, 'a' as int, 1, 0), 1) == [Char('[' as int)]
    ensures Spelled(Range(true, 'Z' as int, 'a' as int, 1, 0), 2) == [Opaque(Quoted([]))]
  {}

  lemma TwoDigits(a: nat, b: nat)
    requires a < 10 && b < 10
    ensures ReadInteger(['0' as int + a, '0' as int + b]) == Some(Written(10 * a + b, 2, a == 0))
  {
    var text := ['0' as int + a, '0' as int + b];
    var one := ['0' as int + a];
    assert text[..1] == one && one[..0] == [] && Number([]) == 0;
    assert Number(one) == a && Number(text) == 10 * a + b;
  }

  lemma PaddedReads()
    ensures ReadRange(Ascii("08..10")) == Some(Range(false, 8, 10, 1, 2))
  {
    hide ReadInteger, FindDots;
    var a, b := Ascii("08"), Ascii("10");
    assert Ascii("08..10") == a + DOTS + b;
    TwoDigits(0, 8);
    TwoDigits(1, 0);
    DotsFound(a, b);
    NoDots(b);
    assert (a + DOTS + b)[..2] == a && (a + DOTS + b)[4..] == b;
    assert a == ['0' as int, '8' as int] && b == ['1' as int, '0' as int];
  }

  lemma PaddedSpells()
    ensures Spelling(8, 2) == Ascii("08") && Spelling(10, 2) == Ascii("10") && Spelling(-8, 4) == Ascii("-008")
  {
    assert Decimal(8) == Ascii("8") && Decimal(10) == Ascii("10");
    assert Zeros(1) == ['0' as int] && Zeros(2) == ['0' as int, '0' as int];
  }

  lemma PlainSettles(word: Word)
    requires forall i | 0 <= i < |word| :: word[i] != OPEN
    ensures Expand(word).words == [word]
  {
    NoneOpens(word, 0);
  }

  lemma {:induction false} NoneOpens(word: Word, index: nat)
    requires index <= |word| && forall i | index <= i < |word| :: word[i] != OPEN
    ensures FirstGroup(word, index).reading.None?
    decreases |word| - index
  {
    if index < |word| { NoneOpens(word, index + 1); }
  }

  /** Atoms that neither open, close nor part a group. */
  ghost predicate Ordinary(atoms: Word, from: nat, to: nat) {
    to <= |atoms| && forall i | from <= i < to :: atoms[i] != OPEN && atoms[i] != CLOSE && atoms[i] != COMMA
  }

  lemma {:induction false} ScanPasses(atoms: Word, from: nat, to: nat, separators: seq<nat>)
    requires from <= to && Ordinary(atoms, from, to)
    ensures ScanGroup(atoms, from, 1, separators).end == ScanGroup(atoms, to, 1, separators).end
    ensures ScanGroup(atoms, from, 1, separators).separators == ScanGroup(atoms, to, 1, separators).separators
    decreases |atoms| - from
  {
    if from < to { ScanPasses(atoms, from + 1, to, separators); }
  }

  lemma TwoPieces(atoms: Word, from: nat, comma: nat, end: nat)
    requires from <= comma < end <= |atoms| && Inside([comma], from - 1, end)
    ensures Pieces(atoms, from, [comma], end) == [atoms[from..comma], atoms[comma + 1..end]]
  {
    assert [comma][1..] == [] && Inside([], comma, end);
    assert Pieces(atoms, comma + 1, [], end) == [atoms[comma + 1..end]];
  }

  lemma GroupScanned(atoms: Word, start: nat, comma: nat, end: nat)
    requires start < comma < end < |atoms| && atoms[comma] == COMMA && atoms[end] == CLOSE
    requires Ordinary(atoms, start + 1, comma) && Ordinary(atoms, comma + 1, end)
    ensures var s := ScanGroup(atoms, start + 1, 1, []); s.end == Some(end) && s.separators == [comma]
  {
    ScanPasses(atoms, start + 1, comma, []);
    ScanPasses(atoms, comma + 1, end, [comma]);
    assert [] + [comma] == [comma];
  }

  lemma GroupFound(atoms: Word, start: nat, comma: nat, end: nat)
    requires start < comma < end < |atoms| && atoms[start] == OPEN && atoms[comma] == COMMA && atoms[end] == CLOSE
    requires Ordinary(atoms, start + 1, comma) && Ordinary(atoms, comma + 1, end)
    ensures var r := ReadGroup(atoms, start);
            r.alternatives == Some([atoms[start + 1..comma], atoms[comma + 1..end]]) && r.end == end
  {
    hide ScanGroup, Pieces, Ordinary;
    GroupScanned(atoms, start, comma, end);
    ScanMeans(atoms, start, start + 1, 1, []);
    TwoPieces(atoms, start + 1, comma, end);
  }

  lemma {:induction false} SkipsTo(atoms: Word, index: nat, start: nat)
    requires index <= start < |atoms| && atoms[start] == OPEN && ReadGroup(atoms, start).alternatives.Some?
    requires forall i | index <= i < start :: atoms[i] != OPEN
    ensures FirstGroup(atoms, index).reading == Some(ReadGroup(atoms, start)) && FirstGroup(atoms, index).start == start
    decreases |atoms| - index
  {
    if index < start { SkipsTo(atoms, index + 1, start); }
  }

  lemma EachMore(atoms: Word, start: nat, end: nat, alternatives: seq<Word>, last: Word)
    requires Shrink(atoms, start, end, alternatives + [last])
    ensures Shrink(atoms, start, end, alternatives)
    ensures ExpandEach(atoms, start, end, alternatives + [last]).words
         == ExpandEach(atoms, start, end, alternatives).words + Expand(Replaced(atoms, start, end, last)).words
  {
    hide Expand, Opens, Replaced;
    var all := alternatives + [last];
    assert all[..|all| - 1] == alternatives;
    forall i | 0 <= i < |alternatives| ensures Opens(Replaced(atoms, start, end, alternatives[i])) < Opens(atoms) {
      assert all[i] == alternatives[i];
    }
  }

  lemma EachOfTwo(atoms: Word, start: nat, end: nat, left: Word, right: Word)
    requires Shrink(atoms, start, end, [left, right])
    ensures ExpandEach(atoms, start, end, [left, right]).words
         == Expand(Replaced(atoms, start, end, left)).words + Expand(Replaced(atoms, start, end, right)).words
  {
    hide Expand, Replaced, Shrink;
    assert [left] + [right] == [left, right] && [] + [left] == [left];
    EachMore(atoms, start, end, [left], right);
    EachMore(atoms, start, end, [], left);
    assert ExpandEach(atoms, start, end, []).words == [];
  }

  lemma GroupExpands(atoms: Word, start: nat, comma: nat, end: nat)
    requires start < comma < end < |atoms| && atoms[start] == OPEN && atoms[comma] == COMMA && atoms[end] == CLOSE
    requires Ordinary(atoms, 0, start) && Ordinary(atoms, start + 1, comma) && Ordinary(atoms, comma + 1, end)
    ensures Expand(atoms).words == Expand(Replaced(atoms, start, end, atoms[start + 1..comma])).words
                                   + Expand(Replaced(atoms, start, end, atoms[comma + 1..end])).words
  {
    hide FirstGroup, ReadGroup, ExpandEach, Shrink, Replaced, Opens;
    GroupFound(atoms, start, comma, end);
    SkipsTo(atoms, 0, start);
    AllShrink(atoms, start);
    EachOfTwo(atoms, start, end, atoms[start + 1..comma], atoms[comma + 1..end]);
  }

  /** What is left without the group's braces stands for itself. */
  lemma ReplacedSettles(atoms: Word, start: nat, end: nat, from: nat, to: nat)
    requires start < from <= to <= end < |atoms| && Ordinary(atoms, 0, start) && Ordinary(atoms, from, to) && Ordinary(atoms, end + 1, |atoms|)
    ensures var word := Replaced(atoms, start, end, atoms[from..to]); Expand(word).words == [word]
  {
    hide Expand;
    var word := Replaced(atoms, start, end, atoms[from..to]);
    forall i | 0 <= i < |word| ensures word[i] != OPEN {
      var n := to - from;
      assert word[i] == if i < start then atoms[i] else if i < start + n then atoms[i - start + from] else atoms[i - start - n + end + 1];
    }
    PlainSettles(word);
  }

  /** A group with one comma stands for its left piece and then for its right one, each in the group's place. */
  lemma TwoWords(atoms: Word, start: nat, comma: nat, end: nat)
    requires start < comma < end < |atoms| && atoms[start] == OPEN && atoms[comma] == COMMA && atoms[end] == CLOSE
    requires Ordinary(atoms, 0, start) && Ordinary(atoms, start + 1, comma) && Ordinary(atoms, comma + 1, end) && Ordinary(atoms, end + 1, |atoms|)
    ensures Expand(atoms).words == [atoms[..start] + atoms[start + 1..comma] + atoms[end + 1..],
                                    atoms[..start] + atoms[comma + 1..end] + atoms[end + 1..]]
  {
    hide Expand, Ordinary;
    GroupExpands(atoms, start, comma, end);
    ReplacedSettles(atoms, start, end, start + 1, comma);
    ReplacedSettles(atoms, start, end, comma + 1, end);
  }
}
