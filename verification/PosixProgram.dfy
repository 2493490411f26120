/**
 * Programs of src/core/posix-regex-matcher.ts and what running one means:
 * a prioritised backtracker that enters each (instruction, offset) at most once.
 */
module PosixProgram {
  import opened Sequences
  import opened Utf16
  import opened PosixCharset

  datatype Instruction =
    | Set(chars: CharSet)
    | Any
    | Split(x: nat, y: nat)
    | Jmp(to: nat)
    | Save(slot: nat)
    | Bol
    | Eol
    | Match

  type Program = seq<Instruction>
  type Captures = seq<int>

  /** One search: the program, the text, and whether captures are kept. */
  datatype Machine = Machine(program: Program, text: Text, capture: bool) {

    ghost predicate Valid(at: nat, visited: Visited) {
      at <= |text| && |visited| == |text| + 1
    }

    /** No instruction has been entered anywhere. */
    ghost function Fresh(): (v: Visited)
      ensures |v| == |text| + 1
    {
      seq(|text| + 1, _ => {})
    }

    /** The program counters not yet entered. */
    ghost function Unvisited(seen: set<nat>): set<int> {
      set pc | 0 <= pc < |program| && pc !in seen
    }

    predicate Consumes(pc: nat, at: nat) {
      && pc < |program| && at < |text|
      && (program[pc].Any? || (program[pc].Set? && InSet(program[pc].chars, CodePointAt(text, at))))
    }

    function After(slot: nat, captures: Captures, at: nat): Captures {
      if capture then Store(captures, slot, at) else captures
    }
  }

  /** An assignment to an array element; slots beyond the end are created, unset ones read as -1. */
  function Store(captures: Captures, slot: nat, at: int): (r: Captures)
    ensures |r| > slot && r[slot] == at && |r| >= |captures|
    ensures forall k | 0 <= k < |captures| && k != slot :: r[k] == captures[k]
  {
    if slot < |captures| then captures[slot := at]
    else captures + seq(slot - |captures|, _ => -1) + [at]
  }

  /** A successful run: the captures and the offset at which `match` was reached. */
  datatype Hit = Hit(captures: Captures, end: nat)

  /** For every offset of the text, the program counters entered there. */
  type Visited = seq<set<nat>>

  datatype Outcome = Outcome(found: Option<Hit>, visited: Visited)

  lemma FewerUnvisited(m: Machine, pc: nat, small: set<nat>, large: set<nat>)
    requires pc < |m.program| && pc !in small && small + {pc} <= large
    ensures |m.Unvisited(large)| < |m.Unvisited(small)|
  {
    assert m.Unvisited(large) <= m.Unvisited(small) - {pc};
    Cardinality(m.Unvisited(large), m.Unvisited(small) - {pc});
  }

  lemma Cardinality<T>(a: set<T>, b: set<T>)
    requires a <= b
    ensures |a| <= |b|
  {
    assert b == a + (b - a);
  }

  /** The reference meaning: depth first, `split.x` before `split.y`, no state entered twice. */
  ghost function Backtrack(m: Machine, pc: nat, at: nat, captures: Captures, visited: Visited): (r: Outcome)
    requires m.Valid(at, visited)
    ensures |r.visited| == |visited|
    ensures forall p | 0 <= p < |visited| :: visited[p] <= r.visited[p]
    ensures forall p | 0 <= p < at :: r.visited[p] == visited[p]
    decreases |m.text| - at, |m.Unvisited(visited[at])|
  {
    if pc >= |m.program| || pc in visited[at] then Outcome(None, visited)
    else
      var entered := visited[at := visited[at] + {pc}];
      FewerUnvisited(m, pc, visited[at], entered[at]);
      match m.program[pc]
      case Jmp(to) => Backtrack(m, to, at, captures, entered)
      case Split(x, y) =>
        var first := Backtrack(m, x, at, captures, entered);
        if first.found.Some? then first
        else
          FewerUnvisited(m, pc, visited[at], first.visited[at]);
          Backtrack(m, y, at, captures, first.visited)
      case Save(slot) => Backtrack(m, pc + 1, at, m.After(slot, captures, at), entered)
      case Bol => if at == 0 then Backtrack(m, pc + 1, at, captures, entered) else Outcome(None, entered)
      case Eol => if at == |m.text| then Backtrack(m, pc + 1, at, captures, entered) else Outcome(None, entered)
      case Match => Outcome(Some(Hit(captures, at)), entered)
      case _ =>
        if m.Consumes(pc, at) then Backtrack(m, pc + 1, Next(m.text, at), captures, entered)
        else Outcome(None, entered)
  }

  /** The first start at or after `at` from which a fresh backtracking run succeeds. */
  ghost function FirstHit(m: Machine, empty: Captures, at: nat): Option<(nat, Hit)>
    requires at <= |m.text|
    decreases |m.text| - at
  {
    var run := Backtrack(m, 0, at, empty, m.Fresh());
    if run.found.Some? then Some((at, run.found.value))
    else if at == |m.text| then None
    else FirstHit(m, empty, Next(m.text, at))
  }
}
