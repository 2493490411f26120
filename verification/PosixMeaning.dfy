/** What a search of a compiled program returns, in terms of the syntax tree it came from. */
module PosixMeaning {
  import opened Sequences
  import opened Utf16
  import opened PosixCharset
  import opened PosixProgram
  import opened PosixBacktrack
  import opened PosixSearch
  import S = PosixSyntax
  import opened PosixCode
  import opened PosixCompileProof
  import opened PosixCompiler

  /** Where an instruction of a tree's code may lead: only inside that code or to its end. */
  ghost predicate Tame(i: Instruction, base: nat, end: nat) {
    match i
    case Jmp(to) => base <= to <= end
    case Split(x, y) => base <= x <= end && base <= y <= end
    case Save(slot) => slot >= 2
    case Match => false
    case _ => true
  }

  ghost predicate AllTame(program: Program, from: nat, to: nat, base: nat, end: nat) {
    to <= |program| && forall k: nat | from <= k < to :: Tame(program[k], base, end)
  }

  /** The code of a tree branches only within itself and writes no outermost capture. */
  lemma {:induction false} PlacedIsTame(program: Program, node: S.Node, base: nat, end: nat)
    requires S.WellFormed(node) && Placed(program, node, base, end)
    ensures AllTame(program, base, end, base, end)
    decreases node, 1, 0
  {
    match node
    case Cat(left, right) =>
      var mid: nat :| Placed(program, left, base, mid) && Placed(program, right, mid, end);
      PlacedIsTame(program, left, base, mid);
      PlacedIsTame(program, right, mid, end);
    case Alt(left, right) =>
      var y: nat :| && base + 1 < y <= |program| && program[base] == Split(base + 1, y)
                    && Placed(program, left, base + 1, y - 1) && program[y - 1] == Jmp(end) && Placed(program, right, y, end);
      PlacedIsTame(program, left, base + 1, y - 1);
      PlacedIsTame(program, right, y, end);
    case Group(body, index) => PlacedIsTame(program, body, base + 1, end - 1);
    case Repeat(body, min, max) => RepeatIsTame(program, body, min, max, base, end);
    case _ =>
  }

  lemma {:induction false} RepeatIsTame(program: Program, body: S.Node, min: nat, max: Option<nat>, base: nat, end: nat)
    requires S.WellFormed(S.Repeat(body, min, max)) && Placed(program, S.Repeat(body, min, max), base, end)
    ensures AllTame(program, base, end, base, end)
    decreases body, 3, 0
  {
    if max.None? {
      var tail: nat :| PlacedCopies(program, body, min, base, tail) && PlacedStar(program, body, tail, end);
      CopiesAreTame(program, body, min, base, tail);
      PlacedIsTame(program, body, tail + 1, end - 1);
    } else {
      var n := max.value - min;
      var tail: nat :| PlacedCopies(program, body, min, base, tail) && PlacedOptional(program, body, n, tail, end);
      CopiesAreTame(program, body, min, base, tail);
      OptionalIsTame(program, body, n, tail, end);
    }
  }

  lemma {:induction false} CopiesAreTame(program: Program, body: S.Node, n: nat, base: nat, end: nat)
    requires S.WellFormed(body) && PlacedCopies(program, body, n, base, end) && end <= |program|
    ensures AllTame(program, base, end, base, end)
    decreases body, 2, n
  {
    if n > 0 {
      var mid: nat :| Placed(program, body, base, mid) && PlacedCopies(program, body, n - 1, mid, end);
      PlacedIsTame(program, body, base, mid);
      CopiesAreTame(program, body, n - 1, mid, end);
    }
  }

  lemma {:induction false} OptionalIsTame(program: Program, body: S.Node, n: nat, base: nat, end: nat)
    requires S.WellFormed(body) && PlacedOptional(program, body, n, base, end) && end <= |program|
    ensures AllTame(program, base, end, base, end)
    decreases body, 2, n
  {
    if n > 0 {
      var mid: nat :| Placed(program, body, base + 1, mid) && PlacedOptional(program, body, n - 1, mid, end);
      PlacedIsTame(program, body, base + 1, mid);
      OptionalIsTame(program, body, n - 1, mid, end);
    }
  }

  /** Two outermost saves and a final `match` around instructions that keep to themselves. */
  ghost predicate Shaped(program: Program) {
    && |program| >= 3
    && program[0] == Save(0) && program[|program| - 2] == Save(1) && program[|program| - 1] == Match
    && AllTame(program, 1, |program| - 2, 1, |program| - 2)
  }

  lemma CompiledIsShaped(program: Program, node: S.Node)
    requires S.WellFormed(node) && Compiled(program, node)
    ensures Shaped(program)
  {
    PlacedIsTame(program, node, 1, |program| - 2);
  }

  /** The only `match` is the last instruction. */
  lemma MatchIsLast(m: Machine, q: nat)
    requires Shaped(m.program)
    ensures AtMatch(m, q) ==> q == |m.program| - 1
  {
    if 1 <= q < |m.program| - 2 { assert Tame(m.program[q], 1, |m.program| - 2); }
  }

  /** A run ends where it reaches `match`. */
  lemma MatchStops(m: Machine, run: seq<State>, k: nat)
    requires IsRun(m, run) && k < |run|
    ensures AtMatch(m, run[k].pc) ==> k == |run| - 1
  {
    if k + 1 < |run| { assert StepAt(m, run, k); }
  }

  /** An accepting run of the compiled program crosses the tree's code. */
  lemma AcceptedIsDenoted(m: Machine, node: S.Node, i: nat, e: nat)
    requires S.WellFormed(node) && Compiled(m.program, node) && Accepts(m, 0, i, e)
    ensures S.Denotes(node, m.text, i, e)
  {
    var last := |m.program| - 1;
    var q: nat :| AtMatch(m, q) && Leads(m, 0, i, q, e);
    CompiledIsShaped(m.program, node);
    MatchIsLast(m, q);
    var run: seq<State> :| IsRun(m, run) && run[0] == State(0, i) && run[|run| - 1] == State(q, e);
    DepartsSave(m, run, 0, 0);
    var l := Exits(m, node, 1, last - 1, run, 1);
    DepartsSave(m, run, l, last - 1);
    MatchStops(m, run, l + 1);
  }

  /** The compiled program accepts from `i` up to `e` exactly when the tree matches that stretch. */
  lemma CompiledMeans(m: Machine, node: S.Node, i: nat, e: nat)
    requires S.WellFormed(node) && Compiled(m.program, node) && i <= |m.text|
    ensures Accepts(m, 0, i, e) <==> S.Denotes(node, m.text, i, e)
  {
    if Accepts(m, 0, i, e) { AcceptedIsDenoted(m, node, i, e); }
    if S.Denotes(node, m.text, i, e) {
      var last := |m.program| - 1;
      DenotesForward(node, m.text, i, e);
      Crosses(m, node, 1, last - 1, i, e);
      LeadsNowhere(m, last, e);
      LeadsSave(m, last - 1, e, last, e);
      LeadsThen(m, 1, i, last - 1, e, last, e);
      LeadsSave(m, 0, i, last, e);
    }
  }

  /** In a hit of a compiled program, slots 0 and 1 hold where it starts and ends. */
  lemma {:induction false} BoundsCaptured(m: Machine, start: nat, pc: nat, at: nat, captures: Captures, visited: Visited)
    requires Shaped(m.program) && m.capture
    requires m.Valid(at, visited) && 1 <= pc && 2 <= |captures| && captures[0] == start
    requires pc == |m.program| - 1 ==> captures[1] == at
    requires Backtrack(m, pc, at, captures, visited).found.Some?
    ensures var hit := Backtrack(m, pc, at, captures, visited).found.value;
            |hit.captures| >= 2 && hit.captures[0] == start && hit.captures[1] == hit.end
    decreases |m.text| - at, |m.Unvisited(visited[at])|
  {
    var last := |m.program| - 1;
    var entered := visited[at := visited[at] + {pc}];
    FewerUnvisited(m, pc, visited[at], entered[at]);
    if pc < last - 1 { assert Tame(m.program[pc], 1, last - 1); }
    match m.program[pc]
    case Jmp(to) => BoundsCaptured(m, start, to, at, captures, entered);
    case Split(x, y) =>
      var first := Backtrack(m, x, at, captures, entered);
      if first.found.Some? {
        BoundsCaptured(m, start, x, at, captures, entered);
      } else {
        FewerUnvisited(m, pc, visited[at], first.visited[at]);
        BoundsCaptured(m, start, y, at, captures, first.visited);
      }
    case Save(slot) => BoundsCaptured(m, start, pc + 1, at, m.After(slot, captures, at), entered);
    case Bol => BoundsCaptured(m, start, pc + 1, at, captures, entered);
    case Eol => BoundsCaptured(m, start, pc + 1, at, captures, entered);
    case Match =>
    case _ => BoundsCaptured(m, start, pc + 1, Next(m.text, at), captures, entered);
  }

  /** Some match of the tree starts at `i`. */
  ghost predicate MatchesAt(node: S.Node, t: Text, i: nat) {
    exists e: nat :: S.Denotes(node, t, i, e)
  }

  /** `hit` is a match at the first offset at or after `from` where the tree matches at all. */
  ghost predicate IsLeftmost(node: S.Node, t: Text, from: nat, hit: Option<(nat, Hit)>) {
    match hit
    case None => forall i: nat | from <= i && Boundary(t, i) :: !MatchesAt(node, t, i)
    case Some((start, h)) =>
      && from <= start && Boundary(t, start) && S.Denotes(node, t, start, h.end)
      && forall i: nat | from <= i < start && Boundary(t, i) :: !MatchesAt(node, t, i)
  }

  /** A start hits exactly where the tree matches, and what it hits is a match. */
  lemma StartMeans(m: Machine, node: S.Node, empty: Captures, i: nat)
    requires S.WellFormed(node) && Compiled(m.program, node) && i <= |m.text|
    ensures var found := Backtrack(m, 0, i, empty, m.Fresh()).found;
            && (found.Some? <==> MatchesAt(node, m.text, i))
            && (found.Some? ==> S.Denotes(node, m.text, i, found.value.end))
  {
    var found := Backtrack(m, 0, i, empty, m.Fresh()).found;
    BacktrackDecides(m, 0, i, empty);
    forall e: nat ensures Accepts(m, 0, i, e) <==> S.Denotes(node, m.text, i, e) { CompiledMeans(m, node, i, e); }
    if found.Some? { BacktrackSound(m, 0, i, empty, m.Fresh()); }
  }

  /** The search finds the leftmost place the tree matches, and a match there. */
  lemma {:induction false} FirstHitIsLeftmost(m: Machine, node: S.Node, empty: Captures, from: nat)
    requires S.WellFormed(node) && Compiled(m.program, node) && from <= |m.text| && Boundary(m.text, from)
    ensures IsLeftmost(node, m.text, from, FirstHit(m, empty, from))
    decreases |m.text| - from
  {
    StartMeans(m, node, empty, from);
    if Backtrack(m, 0, from, empty, m.Fresh()).found.None? && from < |m.text| {
      var n := Next(m.text, from);
      NextIsBoundary(m.text, from);
      FirstHitIsLeftmost(m, node, empty, n);
      forall i: nat | from < i < n && Boundary(m.text, i) ensures false { NextIsLeast(m.text, from, i); }
    }
  }

  /** The captured bounds of the leftmost hit are its bounds. */
  lemma {:induction false} FirstHitBounds(m: Machine, empty: Captures, from: nat)
    requires Shaped(m.program) && m.capture && |empty| >= 2
    requires from <= |m.text| && FirstHit(m, empty, from).Some?
    ensures var (start, hit) := FirstHit(m, empty, from).value;
            |hit.captures| >= 2 && hit.captures[0] == start && hit.captures[1] == hit.end
    decreases |m.text| - from
  {
    if Backtrack(m, 0, from, empty, m.Fresh()).found.Some? {
      var entered := m.Fresh()[from := {0}];
      assert m.Fresh()[from] + {0} == {0};
      BoundsCaptured(m, from, 1, from, Store(empty, 0, from), entered);
    } else {
      FirstHitBounds(m, empty, Next(m.text, from));
    }
  }

  /** `test` is true exactly when `exec` finds a match. */
  lemma TestIffExec(program: Program, node: S.Node, t: Text, slots: nat)
    requires S.WellFormed(node) && Compiled(program, node)
    ensures FirstHit(Machine(program, t, false), [], 0).Some?
       <==> FirstHit(Machine(program, t, true), seq(slots, _ => -1), 0).Some?
  {
    FirstHitIsLeftmost(Machine(program, t, false), node, [], 0);
    FirstHitIsLeftmost(Machine(program, t, true), node, seq(slots, _ => -1), 0);
    var a := FirstHit(Machine(program, t, false), [], 0);
    var b := FirstHit(Machine(program, t, true), seq(slots, _ => -1), 0);
    if a.Some? { assert MatchesAt(node, t, a.value.0); }
    if b.Some? { assert MatchesAt(node, t, b.value.0); }
  }
}
