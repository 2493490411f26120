/** src/core/bracket.ts and src/core/glob.ts:21-51, 68-70: reading a glob pattern. */
module GlobParser {
  import opened Sequences
  import opened Utf16
  import opened GlobMatch

  /** The longest pattern that is read, in UTF-16 units. */
  const MAX_PATTERN: nat := 16_384

  const BACKSLASH: Character := '\\' as int
  const STAR: Character := '*' as int
  const QUESTION: Character := '?' as int
  const OPEN: Character := '[' as int
  const CLOSE: Character := ']' as int
  const BANG: Character := '!' as int
  const CARET: Character := '^' as int
  const DASH: Character := '-' as int

  datatype BracketElement = BracketElement(value: Character, escaped: bool)

  /** What a bracket expression holds and where it closes. */
  datatype BracketExpression = BracketExpression(close: nat, negated: bool, ranges: seq<Range>)

  datatype Outcome<+T> = Ok(value: T) | TooBig

  /** The characters of a text: its code points, an unpaired surrogate being one of its own. */
  function Characters(t: Text, i: nat): Value
    requires i <= |t|
    decreases |t| - i
  {
    if i == |t| then [] else [CodePointAt(t, i)] + Characters(t, Next(t, i))
  }

  /** The elements up to the closing bracket, and where it is. */
  function ScanElements(chars: Value, index: nat, elements: seq<BracketElement>): Option<(nat, seq<BracketElement>)>
    decreases |chars| - index
  {
    if index >= |chars| then None
    else if chars[index] == CLOSE then if elements == [] then None else Some((index, elements))
    else if chars[index] == BACKSLASH && index + 1 < |chars| then
      ScanElements(chars, index + 2, elements + [BracketElement(chars[index + 1], true)])
    else ScanElements(chars, index + 1, elements + [BracketElement(chars[index], false)])
  }

  /** The ranges of the elements from `at` on; a range that runs backwards matches nothing. */
  function RangesFrom(elements: seq<BracketElement>, at: nat): (ranges: seq<Range>)
    ensures forall i | 0 <= i < |ranges| :: ranges[i].start <= ranges[i].end
    decreases |elements| - at
  {
    if at >= |elements| then []
    else if at + 2 < |elements| && elements[at + 1] == BracketElement(DASH, false) then
      var left, right := elements[at].value, elements[at + 2].value;
      (if left <= right then [Range(left, right)] else []) + RangesFrom(elements, at + 3)
    else [Range(elements[at].value, elements[at].value)] + RangesFrom(elements, at + 1)
  }

  /** The bracket expression that opens at `open`, if it closes. */
  function BracketAt(chars: Value, open: nat): (r: Option<BracketExpression>)
    ensures r.Some? ==> open < r.value.close < |chars| && chars[r.value.close] == CLOSE
    ensures r.Some? ==> forall i | 0 <= i < |r.value.ranges| :: r.value.ranges[i].start <= r.value.ranges[i].end
  {
    var negated := open + 1 < |chars| && (chars[open + 1] == BANG || chars[open + 1] == CARET);
    var first := if negated then open + 2 else open + 1;
    var closes := first < |chars| && chars[first] == CLOSE;
    var scanned :=
      if closes then ScanElements(chars, first + 1, [BracketElement(CLOSE, false)]) else ScanElements(chars, first, []);
    ScanCloses(chars, if closes then first + 1 else first, if closes then [BracketElement(CLOSE, false)] else []);
    match scanned
    case None => None
    case Some((close, elements)) => Some(BracketExpression(close, negated, RangesFrom(elements, 0)))
  }

  lemma {:induction false} ScanCloses(chars: Value, index: nat, elements: seq<BracketElement>)
    ensures var r := ScanElements(chars, index, elements);
            r.Some? ==> index <= r.value.0 < |chars| && chars[r.value.0] == CLOSE
    decreases |chars| - index
  {
    if index < |chars| && chars[index] != CLOSE {
      if chars[index] == BACKSLASH && index + 1 < |chars| {
        ScanCloses(chars, index + 2, elements + [BracketElement(chars[index + 1], true)]);
      } else {
        ScanCloses(chars, index + 1, elements + [BracketElement(chars[index], false)]);
      }
    }
  }

  /** The pattern from `index` on. */
  function PatternFrom(chars: Value, index: nat): seq<Element>
    decreases |chars| - index
  {
    if index >= |chars| then []
    else
      var character := chars[index];
      if character == BACKSLASH then
        [Fixed(Literal(if index + 1 < |chars| then chars[index + 1] else BACKSLASH))] + PatternFrom(chars, index + 2)
      else if character == STAR then [Star] + PatternFrom(chars, index + 1)
      else if character == QUESTION then [Fixed(Any)] + PatternFrom(chars, index + 1)
      else if character == OPEN then
        match BracketAt(chars, index)
        case None => [Fixed(Literal(OPEN))] + PatternFrom(chars, index + 1)
        case Some(bracket) => [Fixed(Bracket(bracket.negated, bracket.ranges))] + PatternFrom(chars, bracket.close + 1)
      else [Fixed(Literal(character))] + PatternFrom(chars, index + 1)
  }

  method BracketRanges(elements: seq<BracketElement>) returns (ranges: seq<Range>)
    ensures ranges == RangesFrom(elements, 0)
  {
    ranges := [];
    var offset: nat := 0;
    while offset < |elements|
      invariant ranges + RangesFrom(elements, offset) == RangesFrom(elements, 0)
      decreases |elements| - offset
    {
      var start := elements[offset];
      if offset + 2 < |elements| && elements[offset + 1].value == DASH && !elements[offset + 1].escaped {
        var left, right := start.value, elements[offset + 2].value;
        if left <= right {
          Assoc(ranges, [Range(left, right)], RangesFrom(elements, offset + 3));
          ranges := ranges + [Range(left, right)];
        } else {
          assert [] + RangesFrom(elements, offset + 3) == RangesFrom(elements, offset + 3);
        }
        offset := offset + 3;
      } else {
        Assoc(ranges, [Range(start.value, start.value)], RangesFrom(elements, offset + 1));
        ranges := ranges + [Range(start.value, start.value)];
        offset := offset + 1;
      }
    }
  }

  method ParseBracketExpression(chars: Value, open: nat) returns (r: Option<BracketExpression>)
    ensures r == BracketAt(chars, open)
  {
    var index := open + 1;
    var negated := false;
    if index < |chars| && (chars[index] == BANG || chars[index] == CARET) {
      negated := true;
      index := index + 1;
    }
    var elements: seq<BracketElement> := [];
    if index < |chars| && chars[index] == CLOSE {
      elements := [BracketElement(CLOSE, false)];
      index := index + 1;
    }
    ghost var whole := ScanElements(chars, index, elements);
    assert BracketAt(chars, open).None? <==> whole.None?;
    while index < |chars|
      invariant ScanElements(chars, index, elements) == whole
      decreases |chars| - index
    {
      var value := chars[index];
      if value == CLOSE {
        if elements == [] { return None; }
        var ranges := BracketRanges(elements);
        return Some(BracketExpression(index, negated, ranges));
      }
      if value == BACKSLASH && index + 1 < |chars| {
        elements := elements + [BracketElement(chars[index + 1], true)];
        index := index + 2;
      } else {
        elements := elements + [BracketElement(value, false)];
        index := index + 1;
      }
    }
    return None;
  }

  /** The parts of a pattern, or a refusal of one that is too long. */
  method GlobParts(pattern: Text) returns (r: Outcome<seq<Part>>)
    ensures r == if |pattern| > MAX_PATTERN then TooBig else Ok(PartsOf(PatternFrom(Characters(pattern, 0), 0)))
  {
    hide Split, DropEmpty, Characters, BracketAt;
    if |pattern| > MAX_PATTERN { return TooBig; }
    var chars := Characters(pattern, 0);
    var parts: seq<Part> := [];
    var source: Part := [];
    var index: nat := 0;
    ghost var whole := Split(PatternFrom(chars, 0), []);
    assert [] + whole == whole;
    while index < |chars|
      invariant parts + Split(PatternFrom(chars, index), source) == whole
      decreases |chars| - index
    {
      var character := chars[index];
      if character == BACKSLASH {
        var item := Literal(if index + 1 < |chars| then chars[index + 1] else BACKSLASH);
        SplitItem(item, PatternFrom(chars, index + 2), source);
        source := source + [item];
        index := index + 2;
      } else if character == STAR {
        SplitStar(parts, PatternFrom(chars, index + 1), source);
        parts := parts + [source];
        source := [];
        index := index + 1;
      } else if character == QUESTION {
        SplitItem(Any, PatternFrom(chars, index + 1), source);
        source := source + [Any];
        index := index + 1;
      } else if character == OPEN {
        var expression := ParseBracketExpression(chars, index);
        if expression.None? {
          SplitItem(Literal(OPEN), PatternFrom(chars, index + 1), source);
          source := source + [Literal(OPEN)];
          index := index + 1;
        } else {
          var item := Bracket(expression.value.negated, expression.value.ranges);
          SplitItem(item, PatternFrom(chars, expression.value.close + 1), source);
          source := source + [item];
          index := expression.value.close + 1;
        }
      } else {
        SplitItem(Literal(character), PatternFrom(chars, index + 1), source);
        source := source + [Literal(character)];
        index := index + 1;
      }
    }
    SplitNone(source);
    assert parts + [source] == whole;
    parts := parts + [source];
    var kept := KeepParts(parts);
    return Ok(kept);
  }

  lemma SplitItem(item: Item, rest: seq<Element>, source: Part)
    ensures Split([Fixed(item)] + rest, source) == Split(rest, source + [item])
  {
    assert ([Fixed(item)] + rest)[1..] == rest;
  }

  lemma SplitNone(source: Part)
    ensures Split([], source) == [source]
  {}

  lemma SplitStar(parts: seq<Part>, rest: seq<Element>, source: Part)
    ensures parts + Split([Star] + rest, source) == parts + [source] + Split(rest, [])
  {
    assert ([Star] + rest)[1..] == rest;
  }

  /** The filter over all parts: the first and the last stay, and what is not empty. */
  method KeepParts(parts: seq<Part>) returns (kept: seq<Part>)
    requires parts != []
    ensures kept == [parts[0]] + DropEmpty(parts[1..])
  {
    kept := [];
    var index := 0;
    while index < |parts|
      invariant index <= |parts|
      invariant index == 0 ==> kept == []
      invariant index > 0 ==> kept + DropEmpty(parts[index..]) == [parts[0]] + DropEmpty(parts[1..])
    {
      var part := parts[index];
      ghost var rest := parts[index..];
      assert rest[0] == part && rest[1..] == parts[index + 1..];
      if index == 0 || part != [] || index == |parts| - 1 { kept := kept + [part]; }
      index := index + 1;
    }
    assert kept + [] == kept;
  }

  /** Whether a value matches a glob; no pattern matches everything. */
  method MatchesGlob(value: Text, pattern: Option<Text>) returns (r: Outcome<bool>)
    ensures r == if pattern.None? then Ok(true)
                 else if |pattern.value| > MAX_PATTERN then TooBig
                 else Ok(Means(PatternFrom(Characters(pattern.value, 0), 0), Characters(value, 0), 0))
  {
    if pattern.None? { return Ok(true); }
    var parts := GlobParts(pattern.value);
    if parts.TooBig? { return TooBig; }
    AcceptsMeaning(PatternFrom(Characters(pattern.value, 0), 0), Characters(value, 0));
    return Ok(Accepts(parts.value, Characters(value, 0)));
  }
}
