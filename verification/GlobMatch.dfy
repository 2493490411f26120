/** src/core/glob.ts:53-66: matching a glob by committing the earliest place for each fixed part. */
module GlobMatch {

  type Character = int

  const SLASH: Character := '/' as int

  datatype Range = Range(start: Character, end: Character)

  /** What one fixed character of a pattern matches; only a literal slash ever matches a slash. */
  datatype Item = Literal(character: Character) | Any | Bracket(negated: bool, ranges: seq<Range>)

  /** A pattern as written: items and stars. */
  datatype Element = Fixed(item: Item) | Star

  type Value = seq<Character>

  predicate InRanges(character: Character, ranges: seq<Range>) {
    exists i | 0 <= i < |ranges| :: ranges[i].start <= character <= ranges[i].end
  }

  predicate Fits(item: Item, character: Character) {
    match item
    case Literal(literal) => character == literal
    case Any => character != SLASH
    case Bracket(negated, ranges) => character != SLASH && (InRanges(character, ranges) != negated)
  }

  predicate SlashFree(value: Value, from: nat, to: nat)
    requires to <= |value|
  {
    forall i | from <= i < to :: value[i] != SLASH
  }

  /** What a pattern means: every item takes one character, and every star any run without a slash. */
  predicate Means(pattern: seq<Element>, value: Value, at: nat)
    requires at <= |value|
    decreases |pattern|
  {
    if pattern == [] then at == |value|
    else
      match pattern[0]
      case Fixed(item) => at < |value| && Fits(item, value[at]) && Means(pattern[1..], value, at + 1)
      case Star => exists to | at <= to <= |value| :: SlashFree(value, at, to) && Means(pattern[1..], value, to)
  }

  type Part = seq<Item>

  /** A fixed part stands at an offset. */
  predicate At(part: Part, value: Value, at: nat) {
    at + |part| <= |value| && forall i | 0 <= i < |part| :: Fits(part[i], value[at + i])
  }

  /** The parts between stars, the first of which follows `part`. */
  function Split(pattern: seq<Element>, part: Part): (parts: seq<Part>)
    ensures parts != []
    decreases |pattern|
  {
    if pattern == [] then [part]
    else
      match pattern[0]
      case Fixed(item) => Split(pattern[1..], part + [item])
      case Star => [part] + Split(pattern[1..], [])
  }

  /** Parts placed in order from `at`, each after a run without a slash, the last one at the end. */
  predicate Placed(parts: seq<Part>, value: Value, at: nat)
    requires at <= |value|
    decreases |parts|
  {
    if parts == [] then at == |value|
    else exists to | at <= to <= |value| ::
           SlashFree(value, at, to) && At(parts[0], value, to) && Placed(parts[1..], value, to + |parts[0]|)
  }

  /** The earliest place for a part after a run without a slash. */
  predicate Earliest(part: Part, value: Value, at: nat, to: nat) {
    && at <= to <= |value| && SlashFree(value, at, to) && At(part, value, to)
    && forall s | at <= s < to :: !At(part, value, s)
  }

  /** The first place from `from` on, looking no further than the next slash. */
  function Search(part: Part, value: Value, from: nat): (place: int)
    requires from <= |value|
    ensures -1 <= place <= |value|
    decreases |value| - from
  {
    if At(part, value, from) then from
    else if from == |value| || value[from] == SLASH then -1
    else Search(part, value, from + 1)
  }

  /**
   * What the expression accepts: the earliest place is committed for every part but the last, which
   * must end the value.
   */
  predicate Commits(parts: seq<Part>, value: Value, at: nat)
    requires at <= |value|
    decreases |parts|
  {
    if parts == [] then at == |value|
    else if |parts| == 1 then
      at + |parts[0]| <= |value| && SlashFree(value, at, |value| - |parts[0]|) && At(parts[0], value, |value| - |parts[0]|)
    else
      var place := Search(parts[0], value, at);
      place >= 0 && At(parts[0], value, place) && Commits(parts[1..], value, place + |parts[0]|)
  }

  /** Acceptance from the start: the first part stands at the start of the value. */
  predicate Accepts(parts: seq<Part>, value: Value)
    requires parts != []
  {
    At(parts[0], value, 0) && Commits(parts[1..], value, |parts[0]|)
  }

  lemma {:induction false} SearchFinds(part: Part, value: Value, from: nat)
    requires from <= |value|
    ensures var place := Search(part, value, from);
            if place >= 0 then Earliest(part, value, from, place)
            else forall to | from <= to <= |value| && SlashFree(value, from, to) :: !At(part, value, to)
    decreases |value| - from
  {
    if !At(part, value, from) && from < |value| && value[from] != SLASH {
      SearchFinds(part, value, from + 1);
    }
  }

  /** Whether a part has to match a slash. */
  predicate HasSlash(part: Part) { exists i | 0 <= i < |part| :: part[i] == Literal(SLASH) }

  /** A part without a slash stands on text without one. */
  lemma SlashFreePart(part: Part, value: Value, at: nat)
    requires At(part, value, at) && !HasSlash(part)
    ensures SlashFree(value, at, at + |part|)
  {
    forall i | at <= i < at + |part| ensures value[i] != SLASH {
      assert Fits(part[i - at], value[at + (i - at)]);
    }
  }

  /** Where the first slash of a part is. */
  lemma {:induction false} FirstSlash(part: Part, from: nat) returns (first: nat)
    requires exists i | from <= i < |part| :: part[i] == Literal(SLASH)
    requires forall i | 0 <= i < from :: part[i] != Literal(SLASH)
    ensures first < |part| && part[first] == Literal(SLASH) && forall i | 0 <= i < first :: part[i] != Literal(SLASH)
    decreases |part| - from
  {
    if part[from] == Literal(SLASH) { first := from; } else { first := FirstSlash(part, from + 1); }
  }

  /** A part with a slash has only one place after a run without one. */
  lemma SlashFixesPlace(part: Part, value: Value, at: nat, a: nat, b: nat)
    requires at <= a <= b <= |value| && SlashFree(value, at, b) && At(part, value, a) && At(part, value, b) && HasSlash(part)
    ensures a == b
  {
    var first := FirstSlash(part, 0);
    assert Fits(part[first], value[a + first]);
    assert a + first >= b;
    var k := a + first - b;
    assert Fits(part[k], value[b + k]);
  }

  /** Parts placed from `from` are also placed from an earlier point, across text without a slash. */
  lemma PlacedEarlier(parts: seq<Part>, value: Value, at: nat, from: nat)
    requires at <= from <= |value| && SlashFree(value, at, from) && parts != [] && Placed(parts, value, from)
    ensures Placed(parts, value, at)
  {
    var to :| from <= to <= |value| && SlashFree(value, from, to) && At(parts[0], value, to)
              && Placed(parts[1..], value, to + |parts[0]|);
    assert SlashFree(value, at, to);
  }

  /** Committing the earliest place of a part that is not the last loses no match. */
  lemma CommitLosesNothing(parts: seq<Part>, value: Value, at: nat, place: nat)
    requires at <= |value| && |parts| > 1 && Placed(parts, value, at) && Earliest(parts[0], value, at, place)
    ensures Placed(parts[1..], value, place + |parts[0]|)
  {
    var part := parts[0];
    var to :| at <= to <= |value| && SlashFree(value, at, to) && At(part, value, to) && Placed(parts[1..], value, to + |part|);
    assert place <= to;
    if HasSlash(part) {
      SlashFixesPlace(part, value, at, place, to);
    } else {
      SlashFreePart(part, value, place);
      SlashFreePart(part, value, to);
      assert SlashFree(value, place + |part|, to + |part|);
      PlacedEarlier(parts[1..], value, place + |part|, to + |part|);
    }
  }

  /** Committing finds a placement exactly when there is one. */
  lemma {:induction false} CommitsIffPlaced(parts: seq<Part>, value: Value, at: nat)
    requires at <= |value|
    ensures Commits(parts, value, at) <==> Placed(parts, value, at)
    decreases |parts|
  {
    if parts == [] {
    } else if |parts| == 1 {
      LastPlaced(parts, value, at);
    } else {
      var place := Search(parts[0], value, at);
      SearchFinds(parts[0], value, at);
      if place >= 0 {
        CommitsIffPlaced(parts[1..], value, place + |parts[0]|);
        if Placed(parts, value, at) { CommitLosesNothing(parts, value, at, place); }
        if Placed(parts[1..], value, place + |parts[0]|) { assert SlashFree(value, at, place) && At(parts[0], value, place); }
      }
    }
  }

  lemma LastPlaced(parts: seq<Part>, value: Value, at: nat)
    requires at <= |value| && |parts| == 1
    ensures Commits(parts, value, at) <==> Placed(parts, value, at)
  {
    assert parts[1..] == [];
    if Commits(parts, value, at) {
      var to := |value| - |parts[0]|;
      assert Placed([], value, to + |parts[0]|);
      assert SlashFree(value, at, to) && At(parts[0], value, to);
    }
  }

  /** The first part stands at `at`, and the others follow. */
  predicate PlacedFirst(parts: seq<Part>, value: Value, at: nat)
    requires parts != []
  {
    At(parts[0], value, at) && Placed(parts[1..], value, at + |parts[0]|)
  }

  lemma OneMoreItem(part: Part, item: Item, value: Value, at: nat)
    ensures At(part + [item], value, at) <==> At(part, value, at) && at + |part| < |value| && Fits(item, value[at + |part|])
  {
    var more := part + [item];
    if At(more, value, at) {
      assert Fits(more[|part|], value[at + |part|]);
      forall i | 0 <= i < |part| ensures Fits(part[i], value[at + i]) { assert more[i] == part[i]; }
    }
  }

  /** Splitting a pattern at its stars keeps what it means. */
  lemma {:induction false} SplitMeans(pattern: seq<Element>, part: Part, value: Value, at: nat)
    requires at + |part| <= |value|
    ensures At(part, value, at) && Means(pattern, value, at + |part|) <==> PlacedFirst(Split(pattern, part), value, at)
    decreases |pattern|
  {
    if pattern == [] {
    } else {
      match pattern[0] {
        case Fixed(item) =>
          OneMoreItem(part, item, value, at);
          if at + |part| < |value| {
            SplitMeans(pattern[1..], part + [item], value, at);
          } else {
            SplitNeeds(pattern[1..], part + [item]);
          }
        case Star =>
          var rest := Split(pattern[1..], []);
          assert Split(pattern, part) == [part] + rest && ([part] + rest)[1..] == rest;
          forall to | at + |part| <= to <= |value|
            ensures Means(pattern[1..], value, to) <==> PlacedFirst(rest, value, to)
          {
            SplitMeans(pattern[1..], [], value, to);
          }
          StarPlaces(pattern[1..], rest, value, at + |part|);
      }
    }
  }

  /** The first part of a split starts with what was there already. */
  lemma {:induction false} SplitNeeds(pattern: seq<Element>, part: Part)
    ensures |Split(pattern, part)[0]| >= |part|
    decreases |pattern|
  {
    if pattern != [] && pattern[0].Fixed? { SplitNeeds(pattern[1..], part + [pattern[0].item]); }
  }

  /** A star is a run without a slash, and then the first part of the rest. */
  lemma StarPlaces(pattern: seq<Element>, rest: seq<Part>, value: Value, at: nat)
    requires at <= |value| && rest != []
    requires forall to | at <= to <= |value| :: Means(pattern, value, to) <==> PlacedFirst(rest, value, to)
    ensures (exists to | at <= to <= |value| :: SlashFree(value, at, to) && Means(pattern, value, to)) <==> Placed(rest, value, at)
  {
    if Placed(rest, value, at) {
      var to :| at <= to <= |value| && SlashFree(value, at, to) && At(rest[0], value, to) && Placed(rest[1..], value, to + |rest[0]|);
      assert PlacedFirst(rest, value, to);
    }
  }

  /** The parts that are kept of those after the first: all but empty ones before the last. */
  function DropEmpty(parts: seq<Part>): (kept: seq<Part>)
    ensures parts != [] ==> kept != []
  {
    if |parts| <= 1 then parts
    else (if parts[0] == [] then [] else [parts[0]]) + DropEmpty(parts[1..])
  }

  /** Stars in a row are one star. */
  lemma {:induction false} DropEmptyPlaces(parts: seq<Part>, value: Value, at: nat)
    requires at <= |value|
    ensures Placed(DropEmpty(parts), value, at) <==> Placed(parts, value, at)
    decreases |parts|
  {
    if |parts| > 1 {
      var kept := DropEmpty(parts[1..]);
      if parts[0] == [] {
        assert DropEmpty(parts) == kept;
        DropEmptyPlaces(parts[1..], value, at);
        if Placed(parts, value, at) {
          var to :| at <= to <= |value| && SlashFree(value, at, to) && At([], value, to) && Placed(parts[1..], value, to + 0);
          PlacedEarlier(parts[1..], value, at, to);
        }
        if Placed(parts[1..], value, at) { assert SlashFree(value, at, at) && At([], value, at); }
      } else {
        forall end | 0 <= end <= |value| ensures Placed(kept, value, end) <==> Placed(parts[1..], value, end) {
          DropEmptyPlaces(parts[1..], value, end);
        }
        SamePlaces(parts[0], kept, parts[1..], value, at);
        assert parts == [parts[0]] + parts[1..];
      }
    }
  }

  lemma SamePlaces(part: Part, a: seq<Part>, b: seq<Part>, value: Value, at: nat)
    requires at <= |value| && forall end | 0 <= end <= |value| :: Placed(a, value, end) <==> Placed(b, value, end)
    ensures Placed([part] + a, value, at) <==> Placed([part] + b, value, at)
  {
    var pa, pb := [part] + a, [part] + b;
    assert pa[1..] == a && pb[1..] == b;
    if Placed(pa, value, at) {
      var to :| at <= to <= |value| && SlashFree(value, at, to) && At(pa[0], value, to) && Placed(pa[1..], value, to + |part|);
      assert SlashFree(value, at, to) && At(pb[0], value, to) && Placed(pb[1..], value, to + |pb[0]|);
    }
    if Placed(pb, value, at) {
      var to :| at <= to <= |value| && SlashFree(value, at, to) && At(pb[0], value, to) && Placed(pb[1..], value, to + |part|);
      assert SlashFree(value, at, to) && At(pa[0], value, to) && Placed(pa[1..], value, to + |pa[0]|);
    }
  }

  /** The parts an expression is built from. */
  function PartsOf(pattern: seq<Element>): (parts: seq<Part>)
    ensures parts != []
  {
    var parts := Split(pattern, []);
    [parts[0]] + DropEmpty(parts[1..])
  }

  /** The expression with committed places accepts exactly the values the pattern means. */
  lemma AcceptsMeaning(pattern: seq<Element>, value: Value)
    ensures Accepts(PartsOf(pattern), value) <==> Means(pattern, value, 0)
  {
    var parts := Split(pattern, []);
    SplitMeans(pattern, [], value, 0);
    var kept := PartsOf(pattern);
    assert kept[0] == parts[0] && kept[1..] == DropEmpty(parts[1..]);
    if At(parts[0], value, 0) {
      CommitsIffPlaced(kept[1..], value, |parts[0]|);
      DropEmptyPlaces(parts[1..], value, |parts[0]|);
    }
  }
}
