/** src/core/posix-regex-matcher.ts:118-239: what a search is charged, whether or not it may go that far. */
module PosixSteps {
  import opened Sequences
  import opened Utf16
  import opened PosixProgram
  import opened PosixBacktrack
  import opened PosixThreads

  /** The steps that entering `pc` takes: one for each call, to a state already entered as well. */
  ghost function ClosureSteps(m: Machine, pc: nat, captures: Captures, at: nat, seen: set<nat>): (n: nat)
    ensures n >= 1
    decreases |m.Unvisited(seen)|
  {
    if pc >= |m.program| || pc in seen then 1
    else
      var marked := seen + {pc};
      FewerUnvisited(m, pc, seen, marked);
      match m.program[pc]
      case Jmp(to) => 1 + ClosureSteps(m, to, captures, at, marked)
      case Split(x, y) =>
        var first := Closure(m, x, captures, at, marked);
        FewerUnvisited(m, pc, seen, first.seen);
        1 + ClosureSteps(m, x, captures, at, marked) + ClosureSteps(m, y, captures, at, first.seen)
      case Save(slot) => 1 + ClosureSteps(m, pc + 1, m.After(slot, captures, at), at, marked)
      case Bol => if at == 0 then 1 + ClosureSteps(m, pc + 1, captures, at, marked) else 1
      case Eol => if at == |m.text| then 1 + ClosureSteps(m, pc + 1, captures, at, marked) else 1
      case _ => 1
  }

  /** The steps of one pass over a list: one for each thread reached, and those of what it enters. */
  ghost function AdvanceSteps(m: Machine, list: seq<Thread>, at: nat, seen: set<nat>): nat
    decreases |list|
  {
    if list == [] then 0
    else if AtMatch(m, list[0].pc) then 1
    else if m.Consumes(list[0].pc, at) then
      var next := Next(m.text, at);
      var c := Closure(m, list[0].pc + 1, list[0].captures, next, seen);
      1 + ClosureSteps(m, list[0].pc + 1, list[0].captures, next, seen) + AdvanceSteps(m, list[1..], at, c.seen)
    else 1 + AdvanceSteps(m, list[1..], at, seen)
  }

  /** The search is over: it has a match, and needs no better one. */
  ghost predicate Stops(m: Machine, list: seq<Thread>, matched: bool) { matched && (!m.capture || list == []) }

  /** Where the next thread starts. */
  ghost function Start(m: Machine, prefix: Text, list: seq<Thread>, at: nat): (start: Option<nat>)
    requires at <= |m.text|
    ensures start.Some? ==> at <= start.value <= |m.text|
  {
    if list != [] || prefix == [] then Some(at) else IndexOf(m.text, prefix, at)
  }

  /** The marks a new thread finds. */
  ghost function Marks(list: seq<Thread>, seen: set<nat>): set<nat> { if list == [] then {} else seen }

  /** The steps still to be taken at the top of a turn. */
  ghost function SearchSteps(m: Machine, prefix: Text, empty: Captures, list: seq<Thread>, seen: set<nat>, matched: bool, at: nat): nat
    requires at <= |m.text|
    decreases |m.text| - at, 1
  {
    if Stops(m, list, matched) then 0
    else if matched then SweepSteps(m, prefix, empty, list, matched, at)
    else
      match Start(m, prefix, list, at)
      case None => 0
      case Some(start) =>
        var c := Closure(m, 0, empty, start, Marks(list, seen));
        ClosureSteps(m, 0, empty, start, Marks(list, seen)) + SweepSteps(m, prefix, empty, list + c.list, matched, start)
  }

  /** The steps still to be taken once this turn's thread has started. */
  ghost function SweepSteps(m: Machine, prefix: Text, empty: Captures, list: seq<Thread>, matched: bool, at: nat): nat
    requires at <= |m.text|
    decreases |m.text| - at, 0
  {
    var a := Advance(m, list, at, {});
    AdvanceSteps(m, list, at, {})
    + if at == |m.text| then 0 else SearchSteps(m, prefix, empty, a.list, a.seen, matched || a.matched.Some?, Next(m.text, at))
  }

  /** The steps of a whole search. */
  ghost function SearchCost(m: Machine, prefix: Text, empty: Captures, from: nat): nat
    requires from <= |m.text|
  {
    SearchSteps(m, prefix, empty, [], {}, false, from)
  }

  /** The most a search may take over `k` offsets: four steps for each instruction and one more, at each. */
  ghost function StepBound(program: Program, k: nat): nat {
    if k == 0 then 0 else StepBound(program, k - 1) + 4 * |program| + 1
  }

  lemma {:induction false} StepBoundIsLinear(program: Program, k: nat)
    ensures StepBound(program, k) == (4 * |program| + 1) * k
  {
    if k > 0 { StepBoundIsLinear(program, k - 1); }
  }

  lemma {:induction false} StepBoundMonotone(program: Program, k: nat, l: nat)
    requires k <= l
    ensures StepBound(program, k) <= StepBound(program, l)
    decreases l
  {
    if k < l { StepBoundMonotone(program, k, l - 1); }
  }

  ghost predicate Bounded(m: Machine, s: set<nat>) { forall k <- s :: k < |m.program| }

  lemma BoundedSet(s: set<nat>, n: nat)
    requires forall k <- s :: k < n
    ensures |s| <= n
  {
    if n == 0 {
      assert s == {};
    } else {
      BoundedSet(s - {n - 1}, n - 1);
      if n - 1 !in s { assert s - {n - 1} == s; }
    }
  }

  /** A state is entered once: the steps are paid for by the states marked, and so are those that the threads will take. */
  lemma {:induction false} ClosureIsPaid(m: Machine, pc: nat, captures: Captures, at: nat, seen: set<nat>)
    requires Bounded(m, seen)
    ensures var c := Closure(m, pc, captures, at, seen);
            Bounded(m, c.seen) && ClosureSteps(m, pc, captures, at, seen) + 2 * |c.list| + 2 * |seen| <= 1 + 2 * |c.seen|
    decreases |m.Unvisited(seen)|
  {
    if pc < |m.program| && pc !in seen {
      var marked := seen + {pc};
      FewerUnvisited(m, pc, seen, marked);
      assert |marked| == |seen| + 1;
      match m.program[pc]
      case Jmp(to) => ClosureIsPaid(m, to, captures, at, marked);
      case Split(x, y) =>
        var first := Closure(m, x, captures, at, marked);
        FewerUnvisited(m, pc, seen, first.seen);
        ClosureIsPaid(m, x, captures, at, marked);
        ClosureIsPaid(m, y, captures, at, first.seen);
      case Save(slot) => ClosureIsPaid(m, pc + 1, m.After(slot, captures, at), at, marked);
      case Bol => if at == 0 { ClosureIsPaid(m, pc + 1, captures, at, marked); }
      case Eol => if at == |m.text| { ClosureIsPaid(m, pc + 1, captures, at, marked); }
      case Set(_) =>
      case Any =>
      case Match =>
    }
  }

  lemma {:induction false} AdvanceIsPaid(m: Machine, list: seq<Thread>, at: nat, seen: set<nat>)
    requires Bounded(m, seen)
    ensures var a := Advance(m, list, at, seen);
            Bounded(m, a.seen) && AdvanceSteps(m, list, at, seen) + 2 * |a.list| + 2 * |seen| <= 2 * |list| + 2 * |a.seen|
    decreases |list|
  {
    hide Closure, ClosureSteps;
    if list != [] && !AtMatch(m, list[0].pc) {
      if m.Consumes(list[0].pc, at) {
        ClosureIsPaid(m, list[0].pc + 1, list[0].captures, Next(m.text, at), seen);
        AdvanceIsPaid(m, list[1..], at, Closure(m, list[0].pc + 1, list[0].captures, Next(m.text, at), seen).seen);
      } else {
        AdvanceIsPaid(m, list[1..], at, seen);
      }
    }
  }

  lemma {:induction false} SweepIsLinear(m: Machine, prefix: Text, empty: Captures, list: seq<Thread>, matched: bool, at: nat)
    requires at <= |m.text|
    ensures SweepSteps(m, prefix, empty, list, matched, at) <= 2 * |list| + 2 * |m.program| + StepBound(m.program, |m.text| - at)
    decreases |m.text| - at, 0
  {
    hide Advance, AdvanceSteps, SearchSteps, StepBound;
    var a := Advance(m, list, at, {});
    AdvanceIsPaid(m, list, at, {});
    BoundedSet(a.seen, |m.program|);
    if at < |m.text| {
      var next := Next(m.text, at);
      SearchIsLinear(m, prefix, empty, a.list, a.seen, matched || a.matched.Some?, next);
      StepBoundMonotone(m.program, |m.text| - next + 1, |m.text| - at);
    }
  }

  /** Over all of its turns a search pays for what its threads and marks have not paid for yet. */
  lemma {:induction false} SearchIsLinear(m: Machine, prefix: Text, empty: Captures, list: seq<Thread>, seen: set<nat>, matched: bool, at: nat)
    requires at <= |m.text| && Bounded(m, seen)
    ensures SearchSteps(m, prefix, empty, list, seen, matched, at) + 2 * |Marks(list, seen)|
         <= 2 * |list| + StepBound(m.program, |m.text| - at + 1)
    decreases |m.text| - at, 1
  {
    hide Closure, ClosureSteps, SweepSteps;
    var marks := Marks(list, seen);
    BoundedSet(marks, |m.program|);
    if matched {
      SweepIsLinear(m, prefix, empty, list, matched, at);
    } else if Start(m, prefix, list, at).Some? {
      var start := Start(m, prefix, list, at).value;
      var c := Closure(m, 0, empty, start, marks);
      ClosureIsPaid(m, 0, empty, start, marks);
      BoundedSet(c.seen, |m.program|);
      SweepIsLinear(m, prefix, empty, list + c.list, matched, start);
      StepBoundMonotone(m.program, |m.text| - start, |m.text| - at);
    }
  }

  /** A search takes at most `4n + 1` steps at each offset, whatever the pattern and the text. */
  lemma CostIsLinear(m: Machine, prefix: Text, empty: Captures, from: nat)
    requires from <= |m.text|
    ensures SearchCost(m, prefix, empty, from) <= (4 * |m.program| + 1) * (|m.text| - from + 1)
  {
    hide SearchSteps, StepBound;
    SearchIsLinear(m, prefix, empty, [], {}, false, from);
    StepBoundIsLinear(m.program, |m.text| - from + 1);
  }
}
