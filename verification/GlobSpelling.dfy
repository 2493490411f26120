/** Every glob pattern can be written, and what is written is read as that pattern. */
module GlobSpelling {
  import opened Sequences
  import opened Utf16
  import opened GlobMatch
  import opened GlobParser

  ghost predicate Forwards(range: Range) { range.start <= range.end }

  ghost function OnlyForwards(ranges: seq<Range>): seq<Range> {
    if ranges == [] then [] else (if Forwards(ranges[0]) then [ranges[0]] else []) + OnlyForwards(ranges[1..])
  }

  /** The ranges to write for some that run forwards: a backwards one stands for none at all. */
  ghost function Shown(ranges: seq<Range>): seq<Range> {
    if ranges == [] then [Range('1' as int, '0' as int)] else ranges
  }

  /** A range with both ends escaped. */
  ghost function RangeText(range: Range): Value { [BACKSLASH, range.start, DASH, BACKSLASH, range.end] }

  ghost function RangesText(ranges: seq<Range>): Value {
    if ranges == [] then [] else RangeText(ranges[0]) + RangesText(ranges[1..])
  }

  ghost predicate Special(character: Character) {
    character == '\\' as int || character == '*' as int || character == '?' as int || character == '[' as int
  }

  ghost function ElementText(element: Element): Value {
    match element
    case Star => ['*' as int]
    case Fixed(Any) => ['?' as int]
    case Fixed(Literal(character)) => if Special(character) then ['\\' as int, character] else [character]
    case Fixed(Bracket(negated, ranges)) =>
      ['[' as int] + (if negated then ['!' as int] else []) + RangesText(Shown(ranges)) + [']' as int]
  }

  ghost function PatternText(pattern: seq<Element>): Value {
    if pattern == [] then [] else ElementText(pattern[0]) + PatternText(pattern[1..])
  }

  /** Bracket expressions hold ranges that run forwards, as any that is read does. */
  ghost predicate Readable(element: Element) {
    element.Fixed? && element.item.Bracket? ==> forall i | 0 <= i < |element.item.ranges| :: Forwards(element.item.ranges[i])
  }

  /** What a bracket expression with written ranges holds. */
  ghost function Elements(ranges: seq<Range>): seq<BracketElement> {
    if ranges == [] then []
    else [BracketElement(ranges[0].start, true), BracketElement(DASH, false), BracketElement(ranges[0].end, true)] + Elements(ranges[1..])
  }

  lemma {:induction false} ElementsLength(ranges: seq<Range>)
    ensures |Elements(ranges)| == 3 * |ranges|
    decreases |ranges|
  {
    if ranges != [] { ElementsLength(ranges[1..]); }
  }

  /** A range that runs backwards matches nothing; any other is read as it is written. */
  lemma {:induction false} RangesRead(before: seq<BracketElement>, ranges: seq<Range>)
    ensures RangesFrom(before + Elements(ranges), |before|) == OnlyForwards(ranges)
    decreases |ranges|
  {
    if ranges != [] {
      var three := [BracketElement(ranges[0].start, true), BracketElement(DASH, false), BracketElement(ranges[0].end, true)];
      assert before + Elements(ranges) == before + three + Elements(ranges[1..]);
      RangesRead(before + three, ranges[1..]);
      var elements, at := before + Elements(ranges), |before|;
      assert elements[at] == three[0] && elements[at + 1] == three[1] && elements[at + 2] == three[2];
    }
  }

  lemma {:induction false} ForwardsStay(ranges: seq<Range>)
    requires forall i | 0 <= i < |ranges| :: Forwards(ranges[i])
    ensures OnlyForwards(ranges) == ranges
    decreases |ranges|
  {
    if ranges != [] { ForwardsStay(ranges[1..]); }
  }

  lemma ShownForwards(ranges: seq<Range>)
    requires forall i | 0 <= i < |ranges| :: Forwards(ranges[i])
    ensures OnlyForwards(Shown(ranges)) == ranges && Shown(ranges) != []
  {
    if ranges == [] {
      assert Shown(ranges)[1..] == [];
    } else {
      ForwardsStay(ranges);
    }
  }

  lemma {:induction false} ScanReads(before: Value, ranges: seq<Range>, after: Value, elements: seq<BracketElement>)
    requires after != [] && after[0] == CLOSE && (ranges != [] || elements != [])
    ensures ScanElements(before + RangesText(ranges) + after, |before|, elements)
         == Some((|before| + |RangesText(ranges)|, elements + Elements(ranges)))
    decreases |ranges|
  {
    var chars, at := before + RangesText(ranges) + after, |before|;
    if ranges == [] {
      assert chars[at] == CLOSE && elements + [] == elements;
    } else {
      var r := ranges[0];
      var one := RangeText(r);
      var e0, e1, e2 := BracketElement(r.start, true), BracketElement(DASH, false), BracketElement(r.end, true);
      assert chars == before + one + RangesText(ranges[1..]) + after;
      assert chars[at] == one[0] && chars[at + 1] == one[1] && chars[at + 2] == one[2] && chars[at + 3] == one[3] && chars[at + 4] == one[4];
      ScanReads(before + one, ranges[1..], after, elements + [e0] + [e1] + [e2]);
      assert elements + [e0] + [e1] + [e2] + Elements(ranges[1..]) == elements + Elements(ranges);
      assert ScanElements(chars, at + 2, elements + [e0]) == ScanElements(chars, at + 3, elements + [e0] + [e1]);
      assert ScanElements(chars, at + 3, elements + [e0] + [e1]) == ScanElements(chars, at + 5, elements + [e0] + [e1] + [e2]);
    }
  }

  lemma BracketReads(before: Value, negated: bool, ranges: seq<Range>, after: Value)
    requires forall i | 0 <= i < |ranges| :: Forwards(ranges[i])
    ensures var text := ElementText(Fixed(Bracket(negated, ranges)));
            BracketAt(before + text + after, |before|) == Some(BracketExpression(|before| + |text| - 1, negated, ranges))
  {
    hide OnlyForwards, RangesFrom, ScanElements;
    var text := ElementText(Fixed(Bracket(negated, ranges)));
    var open := ['[' as int] + if negated then ['!' as int] else [];
    var shown := Shown(ranges);
    var chars := before + text + after;
    ShownForwards(ranges);
    ScanReads(before + open, shown, [']' as int] + after, []);
    assert chars == before + open + RangesText(shown) + ([']' as int] + after);
    RangesRead([], shown);
    assert [] + Elements(shown) == Elements(shown);
    assert RangesText(shown)[0] == BACKSLASH;
    assert chars[|before| + |open|] == RangesText(shown)[0];
    if negated { assert chars[|before| + 1] == '!' as int; }
  }

  lemma OneCharacter(chars: Value, at: nat)
    requires at < |chars| && !Special(chars[at])
    ensures PatternFrom(chars, at) == [Fixed(Literal(chars[at]))] + PatternFrom(chars, at + 1)
  {}

  lemma OneEscape(chars: Value, at: nat)
    requires at + 1 < |chars| && chars[at] == '\\' as int
    ensures PatternFrom(chars, at) == [Fixed(Literal(chars[at + 1]))] + PatternFrom(chars, at + 2)
  {}

  lemma OneSign(chars: Value, at: nat)
    requires at < |chars|
    ensures chars[at] == '*' as int ==> PatternFrom(chars, at) == [Star] + PatternFrom(chars, at + 1)
    ensures chars[at] == '?' as int ==> PatternFrom(chars, at) == [Fixed(Any)] + PatternFrom(chars, at + 1)
  {}

  lemma OneBracket(chars: Value, at: nat, bracket: BracketExpression)
    requires at < |chars| && chars[at] == '[' as int && BracketAt(chars, at) == Some(bracket)
    ensures PatternFrom(chars, at) == [Fixed(Bracket(bracket.negated, bracket.ranges))] + PatternFrom(chars, bracket.close + 1)
  {}

  lemma Standing(before: Value, text: Value, after: Value)
    ensures text != [] ==> |before| < |before + text + after| && (before + text + after)[|before|] == text[0]
    ensures |text| > 1 ==> |before| + 1 < |before + text + after| && (before + text + after)[|before| + 1] == text[1]
  {}

  lemma BracketElementReads(before: Value, text: Value, element: Element, after: Value)
    requires text == ElementText(element) && element.Fixed? && element.item.Bracket? && Readable(element)
    ensures var chars := before + text + after; PatternFrom(chars, |before|) == [element] + PatternFrom(chars, |before| + |text|)
  {
    hide BracketAt, RangesText, Shown, PatternFrom, ElementText, Forwards;
    var negated, ranges := element.item.negated, element.item.ranges;
    assert element == Fixed(Bracket(negated, ranges));
    OpensBracket(negated, ranges);
    Standing(before, text, after);
    BracketReads(before, negated, ranges, after);
    OneBracket(before + text + after, |before|, BracketExpression(|before| + |text| - 1, negated, ranges));
  }

  lemma OpensBracket(negated: bool, ranges: seq<Range>)
    ensures var text := ElementText(Fixed(Bracket(negated, ranges))); text != [] && text[0] == '[' as int
  {}

  lemma PlainText(element: Element)
    ensures element.Star? ==> ElementText(element) == ['*' as int]
    ensures element.Fixed? && element.item.Any? ==> ElementText(element) == ['?' as int]
    ensures element.Fixed? && element.item.Literal? ==>
              ElementText(element) == if Special(element.item.character) then ['\\' as int, element.item.character] else [element.item.character]
  {}

  lemma PlainElementReads(before: Value, text: Value, element: Element, after: Value)
    requires text == ElementText(element) && (element.Star? || !element.item.Bracket?)
    ensures var chars := before + text + after; PatternFrom(chars, |before|) == [element] + PatternFrom(chars, |before| + |text|)
  {
    hide PatternFrom, ElementText;
    var chars := before + text + after;
    PlainText(element);
    Standing(before, text, after);
    if |text| > 1 {
      OneEscape(chars, |before|);
    } else if element.Star? || element.item.Any? {
      OneSign(chars, |before|);
    } else {
      OneCharacter(chars, |before|);
    }
  }

  /** An element and what is read behind it, in one text. */
  lemma Glued(before: Value, text: Value, more: Value, element: Element, rest: seq<Element>)
    requires PatternFrom(before + text + more, |before|) == [element] + PatternFrom(before + text + more, |before| + |text|)
    requires PatternFrom(before + text + more, |before + text|) == rest
    ensures PatternFrom(before + (text + more), |before|) == [element] + rest
  {
    hide PatternFrom;
    assert before + text + more == before + (text + more);
  }

  /** Every pattern, written with escapes where they are needed, is read back as it is. */
  lemma {:induction false} PatternReads(before: Value, pattern: seq<Element>)
    requires forall i | 0 <= i < |pattern| :: Readable(pattern[i])
    ensures PatternFrom(before + PatternText(pattern), |before|) == pattern
    decreases |pattern|
  {
    if pattern != [] {
      hide PatternFrom, ElementText, Readable;
      var first, rest := pattern[0], pattern[1..];
      var text, more := ElementText(first), PatternText(rest);
      assert [first] + rest == pattern;
      PatternReads(before + text, rest);
      if first.Fixed? && first.item.Bracket? {
        BracketElementReads(before, text, first, more);
      } else {
        PlainElementReads(before, text, first, more);
      }
      Glued(before, text, more, first, rest);
    }
  }

  lemma PatternReadsBack(pattern: seq<Element>)
    requires forall i | 0 <= i < |pattern| :: Readable(pattern[i])
    ensures PatternFrom(PatternText(pattern), 0) == pattern
  {
    assert [] + PatternText(pattern) == PatternText(pattern);
    PatternReads([], pattern);
  }

  /** What is read where nothing closes a bracket, where a bracket starts with its closing one, and after a last backslash. */
  lemma OddPatterns()
    ensures PatternFrom(Ascii("[a"), 0) == [Fixed(Literal('[' as int)), Fixed(Literal('a' as int))]
    ensures PatternFrom(Ascii("[]]"), 0) == [Fixed(Bracket(false, [Range(']' as int, ']' as int)]))]
    ensures PatternFrom(Ascii("\\"), 0) == [Fixed(Literal('\\' as int))]
  {
    var closes := [BracketElement(']' as int, false)];
    assert ScanElements(Ascii("[]]"), 2, closes) == Some((2, closes));
    assert RangesFrom(closes, 1) == [] && RangesFrom(closes, 0) == [Range(']' as int, ']' as int)];
    assert BracketAt(Ascii("[]]"), 0) == Some(BracketExpression(2, false, [Range(']' as int, ']' as int)]));
    assert BracketAt(Ascii("[a"), 0) == None;
    assert PatternFrom(Ascii("[a"), 1) == [Fixed(Literal('a' as int))];
  }

  /** A bracket expression without escapes; a caret negates it, and a dash at its end is one. */
  lemma CaretPattern()
    ensures BracketAt(Ascii("[^a-c-]"), 0)
         == Some(BracketExpression(6, true, [Range('a' as int, 'c' as int), Range('-' as int, '-' as int)]))
  {
    var chars := Ascii("[^a-c-]");
    var e := [BracketElement('a' as int, false), BracketElement('-' as int, false), BracketElement('c' as int, false), BracketElement('-' as int, false)];
    assert ScanElements(chars, 6, e) == Some((6, e));
    assert e[..3] + [e[3]] == e && e[..2] + [e[2]] == e[..3] && e[..1] + [e[1]] == e[..2] && [] + [e[0]] == e[..1];
    assert ScanElements(chars, 5, e[..3]) == Some((6, e));
    assert ScanElements(chars, 4, e[..2]) == Some((6, e));
    assert ScanElements(chars, 3, e[..1]) == Some((6, e));
    assert ScanElements(chars, 2, []) == Some((6, e));
    CaretRanges(e);
  }

  lemma CaretRanges(e: seq<BracketElement>)
    requires |e| == 4 && e[0].value == 'a' as int && e[2].value == 'c' as int
    requires e[1] == e[3] == BracketElement('-' as int, false)
    ensures RangesFrom(e, 0) == [Range('a' as int, 'c' as int), Range('-' as int, '-' as int)]
  {
    assert RangesFrom(e, 4) == [];
    assert RangesFrom(e, 3) == [Range('-' as int, '-' as int)] + [];
    assert RangesFrom(e, 0) == [Range('a' as int, 'c' as int)] + RangesFrom(e, 3);
  }

  /** The units that characters stand for, one after another. */
  ghost function Respelled(chars: Value): Text {
    if chars == [] then []
    else
      var c := chars[0];
      (if 0xffff < c <= 0x10ffff then [0xd800 + (c - 0x10000) / 0x400, 0xdc00 + (c - 0x10000) % 0x400]
       else if 0 <= c <= 0xffff then [c] else []) + Respelled(chars[1..])
  }

  lemma FirstCharacter(t: Text, i: nat)
    requires i < |t|
    ensures var c := CodePointAt(t, i);
            t[i..Next(t, i)] == if c > 0xffff then [0xd800 + (c - 0x10000) / 0x400, 0xdc00 + (c - 0x10000) % 0x400] else [c]
  {}

  /** The characters of a text are its units in order, a surrogate pair being one of them. */
  lemma {:induction false} CharactersSpell(t: Text, i: nat)
    requires i <= |t|
    ensures Respelled(Characters(t, i)) == t[i..]
    decreases |t| - i
  {
    if i < |t| {
      hide CodePointAt;
      var next := Next(t, i);
      FirstCharacter(t, i);
      CharactersSpell(t, next);
      var rest := Characters(t, next);
      assert Characters(t, i) == [CodePointAt(t, i)] + rest && Characters(t, i)[1..] == rest;
      assert Respelled(Characters(t, i)) == t[i..next] + Respelled(rest);
      assert t[i..] == t[i..next] + t[next..];
    }
  }

  /** A slash is matched by a slash alone; a question mark takes any other character, a bracket one in its ranges or, negated, out of them. */
  lemma WhatFits(item: Item, character: Character)
    ensures Fits(item, '/' as int) <==> item == Literal('/' as int)
    ensures Fits(Any, character) <==> character != '/' as int
    ensures item.Bracket? && character != '/' as int ==>
              (Fits(item, character) <==> item.negated != (exists r :: r in item.ranges && r.start <= character <= r.end))
  {
    if item.Bracket? && exists r :: r in item.ranges && r.start <= character <= r.end {
      var r :| r in item.ranges && r.start <= character <= r.end;
      var i :| 0 <= i < |item.ranges| && item.ranges[i] == r;
    }
  }
}
