/** `PosixRegex` of src/core/posix-regex.ts: `test` and `exec` over a compiled pattern. */
module PosixRegex {
  import opened Sequences
  import opened Utf16
  import opened PosixProgram
  import opened PosixSearch
  import opened PosixSteps
  import opened PosixMatcher
  import opened PosixLiteral
  import S = PosixSyntax
  import opened PosixCompiler
  import opened PosixMeaning
  import opened PosixPreference
  import opened PosixPreferenceProof

  /** `String.prototype.slice` for bounds that are not negative. */
  function Slice(t: Text, from: nat, to: nat): Text {
    var high := if to < |t| then to else |t|;
    if from < high then t[from..high] else []
  }

  /** A capture slot; slots never written hold -1. */
  function SlotAt(captures: Captures, slot: nat): int {
    if slot < |captures| then captures[slot] else -1
  }

  function GroupText(t: Text, captures: Captures, group: nat): Option<Text> {
    var open, close := SlotAt(captures, group * 2), SlotAt(captures, group * 2 + 1);
    if open < 0 || close < 0 then None else Some(Slice(t, open, close))
  }

  datatype PosixMatch = PosixMatch(index: int, end: int, groups: seq<Option<Text>>)

  datatype Answer<+T> = Refused | Answered(value: T)

  /** The first offset a search may start at: never inside a surrogate pair. */
  function StartingOffset(t: Text, from: int): (offset: nat)
    ensures offset <= |t| ==> Boundary(t, offset)
    ensures from <= offset
    ensures forall i: nat | from <= i && Boundary(t, i) :: offset <= i
  {
    var offset := if from < 0 then 0 else from;
    if 1 <= offset < |t| && Low(t[offset]) && High(t[offset - 1]) then offset + 1 else offset
  }

  /**
   * What `exec` answers, told from the tree: nothing if the tree matches nowhere at or after `from`, and otherwise
   * the match it prefers at the first offset where it matches at all.
   */
  ghost predicate IsExec(node: S.Node, slots: nat, t: Text, from: int, result: Option<PosixMatch>) {
    match result
    case None => forall i: nat | from <= i && Boundary(t, i) :: !MatchesAt(node, t, i)
    case Some(found) =>
      && from <= found.index && 0 <= found.index <= |t| && Boundary(t, found.index) && 0 <= found.end
      && S.Denotes(node, t, found.index, found.end)
      && (forall i: nat | from <= i < found.index && Boundary(t, i) :: !MatchesAt(node, t, i))
      && var preferred := Preferred(node, t, found.index, seq(slots, _ => -1));
      && preferred.Some? && found.end == preferred.value.end
      && |found.groups| * 2 == slots
      && forall g | 0 <= g < |found.groups| :: found.groups[g] == GroupText(t, preferred.value.captures, g)
  }

  /** The answer that reports a hit of the search. */
  ghost predicate Reports(slots: nat, t: Text, first: Option<(nat, Hit)>, result: Option<PosixMatch>) {
    match first
    case None => result.None?
    case Some((index, hit)) =>
      && result.Some? && result.value.index == index && result.value.end == hit.end
      && |result.value.groups| * 2 == slots
      && forall g | 0 <= g < |result.value.groups| :: result.value.groups[g] == GroupText(t, hit.captures, g)
  }

  /** Reporting the engine's hit answers what the tree says. */
  lemma ReportsIsExec(program: Program, node: S.Node, slots: nat, t: Text, from: int, result: Option<PosixMatch>)
    requires S.WellFormed(node) && Compiled(program, node) && StartingOffset(t, from) <= |t|
    requires Reports(slots, t, FirstHit(Machine(program, t, true), seq(slots, _ => -1), StartingOffset(t, from)), result)
    ensures IsExec(node, slots, t, from, result)
  {
    hide FirstHit, S.WellFormed, Compiled, Preferred, GroupText, S.Denotes, Boundary, MatchesAt, StartingOffset;
    var m, empty, start := Machine(program, t, true), seq(slots, _ => -1), StartingOffset(t, from);
    FirstHitIsLeftmost(m, node, empty, start);
    if FirstHit(m, empty, start).Some? { FirstHitIsPreferred(m, node, empty, start); }
  }

  /** Past the end of the text nothing matches. */
  lemma NothingPast(node: S.Node, slots: nat, t: Text, from: int)
    requires StartingOffset(t, from) > |t|
    ensures IsExec(node, slots, t, from, None)
  {}

  class PosixRegex {
    const program: Program
    const slots: nat
    const literal: Option<Text>
    const prefix: Text
    ghost const node: S.Node

    ghost predicate Valid() {
      && S.WellFormed(node) && Compiled(program, node)
      && prefix == Prefix(program) && slots % 2 == 0 && slots >= 2
      && (literal.Some? <==> slots == 2 && IsLiteral(program)) && (literal.Some? ==> literal.value == prefix)
    }

    constructor (program: Program, groups: nat, ghost node: S.Node)
      requires S.WellFormed(node) && Compiled(program, node)
      ensures Valid() && this.node == node && this.program == program && slots == (groups + 1) * 2
    {
      this.program, this.node := program, node;
      slots := (groups + 1) * 2;
      var literal: Option<Text> := None;
      if groups == 0 { literal := Literal(program); }
      this.literal := literal;
      var prefix := LiteralPrefix(program);
      this.prefix := prefix;
    }

    /** Whether the tree matches anywhere; refused exactly when the search costs more than the limit. A literal costs nothing. */
    method Test(text: Text) returns (answer: Answer<bool>)
      requires Valid()
      ensures answer.Refused? <==>
                !(slots == 2 && IsLiteral(program)) && SearchCost(Machine(program, text, false), Prefix(program), [], 0) > MAX_STEPS
      ensures answer.Answered? ==> (answer.value <==> exists i: nat :: Boundary(text, i) && MatchesAt(node, text, i))
    {
      ghost var m := Machine(program, text, false);
      ghost var first := FirstHit(m, [], 0);
      FirstHitIsLeftmost(m, node, [], 0);
      if literal.Some? {
        LiteralSearch(m, [], 0);
        answer := Answered(IndexOf(text, literal.value, 0).Some?);
      } else {
        var matcher := new Matcher(program, text, false, prefix);
        assert seq(0, _ => -1) == [];
        var found := matcher.Search(0, 0);
        answer := match found
          case TooExpensive => Refused
          case NoMatch => Answered(false)
          case Found(_) => Answered(true);
      }
      if first.Some? { assert MatchesAt(node, text, first.value.0); }
    }

    method CapturedGroups(text: Text, captures: Captures) returns (groups: seq<Option<Text>>)
      ensures slots % 2 == 0 ==> |groups| * 2 == slots
      ensures forall g | 0 <= g < |groups| :: groups[g] == GroupText(text, captures, g)
    {
      groups := [];
      var group := 0;
      while group * 2 < slots
        invariant |groups| == group && group * 2 <= slots + 1
        invariant forall g | 0 <= g < group :: groups[g] == GroupText(text, captures, g)
      {
        groups := groups + [GroupText(text, captures, group)];
        group := group + 1;
      }
    }

    /** A program that is one literal is found with `indexOf`. */
    method ExecLiteral(text: Text, start: nat) returns (result: Option<PosixMatch>)
      requires Valid() && literal.Some? && start <= |text| && Boundary(text, start)
      ensures var first := FirstHit(Machine(program, text, true), seq(slots, _ => -1), start);
              result == if first.None? then None
                        else Some(PosixMatch(first.value.0, first.value.1.end, [GroupText(text, first.value.1.captures, 0)]))
    {
      var at := IndexOf(text, literal.value, start);
      LiteralSearch(Machine(program, text, true), seq(slots, _ => -1), start);
      if at.None? { return None; }
      LiteralGroup(text, at.value, literal.value);
      return Some(PosixMatch(at.value, at.value + |literal.value|, [Some(literal.value)]));
    }

    /** The leftmost match at or after `from`; refused exactly when the search costs more than the limit. */
    method Exec(text: Text, from: int) returns (answer: Answer<Option<PosixMatch>>)
      requires Valid()
      ensures answer.Refused? <==>
                var start := StartingOffset(text, from);
                && !(slots == 2 && IsLiteral(program)) && start <= |text|
                && SearchCost(Machine(program, text, true), Prefix(program), seq(slots, _ => -1), start) > MAX_STEPS
      ensures answer.Answered? ==> IsExec(node, slots, text, from, answer.value)
    {
      hide IsExec, FirstHit, SearchCost, Compiled, S.WellFormed, GroupText, Prefix, IsLiteral, Boundary, MatchesAt;
      var start := StartingOffset(text, from);
      if start > |text| {
        NothingPast(node, slots, text, from);
        return Answered(None);
      }
      ghost var m := Machine(program, text, true);
      ghost var empty := seq(slots, _ => -1);
      if literal.Some? {
        var found := ExecLiteral(text, start);
        ReportsIsExec(program, node, slots, text, from, found);
        return Answered(found);
      }
      var matcher := new Matcher(program, text, true, prefix);
      var found := matcher.Search(start, slots);
      match found {
        case TooExpensive => return Refused;
        case NoMatch =>
          ReportsIsExec(program, node, slots, text, from, None);
          return Answered(None);
        case Found(captures) =>
          CompiledIsShaped(program, node);
          FirstHitBounds(m, empty, start);
          var groups := CapturedGroups(text, captures);
          var found := PosixMatch(SlotAt(captures, 0), SlotAt(captures, 1), groups);
          ReportsIsExec(program, node, slots, text, from, Some(found));
          return Answered(Some(found));
      }
    }

    /** The only group of a literal match is the literal. */
    lemma LiteralGroup(text: Text, at: nat, literal: Text)
      requires StartsWith(text, at, literal)
      ensures var captures := Store(Store(seq(2, _ => -1), 0, at), 1, at + |literal|);
              GroupText(text, captures, 0) == Some(literal)
    {
      assert Slice(text, at, at + |literal|) == literal;
    }
  }

  /** Parses are compiled and wrapped; a tree too large for the program limit is refused. */
  method CompilePattern(node: S.Node, groups: nat) returns (regex: Option<PosixRegex>)
    requires S.WellFormed(node)
    ensures regex.Some? <==> S.Size(node) + 3 <= MAX_PROGRAM
    ensures regex.Some? ==> fresh(regex.value) && regex.value.Valid() && regex.value.node == node
                            && regex.value.slots == (groups + 1) * 2
  {
    var program := Compiler.Compile(node);
    match program {
      case None => return None;
      case Some(code) =>
        var r := new PosixRegex(code, groups, node);
        return Some(r);
    }
  }
}
