/**
 * The answer a search still owes, given the threads alive at one offset: how seeding a new
 * start, stepping the list, and skipping to the literal prefix each preserve it.
 */
module PosixSearch {
  import opened Sequences
  import opened Utf16
  import opened PosixCharset
  import opened PosixProgram
  import opened PosixBacktrack
  import opened PosixThreads

  ghost predicate Holds(list: seq<Thread>, pc: nat) {
    exists i :: 0 <= i < |list| && list[i].pc == pc
  }

  ghost predicate Marked(m: Machine, seen: set<nat>, pc: nat) {
    pc >= |m.program| || pc in seen
  }

  /** A marked counter whose successors are marked, or which waits in the list. */
  ghost predicate CoveredAt(m: Machine, pc: nat, at: nat, seen: set<nat>, list: seq<Thread>) {
    && pc < |m.program|
    && match m.program[pc]
       case Jmp(to) => Marked(m, seen, to)
       case Split(x, y) => Marked(m, seen, x) && Marked(m, seen, y)
       case Save(_) => Marked(m, seen, pc + 1)
       case Bol => at == 0 ==> Marked(m, seen, pc + 1)
       case Eol => at == |m.text| ==> Marked(m, seen, pc + 1)
       case _ => Holds(list, pc)
  }

  /** Everything marked since `before` is covered: the list forgets nothing that could still match. */
  ghost predicate CoveredSince(m: Machine, before: set<nat>, t: Threads, at: nat) {
    forall pc: nat | pc in t.seen && pc !in before :: CoveredAt(m, pc, at, t.seen, t.list)
  }

  lemma HoldsAppend(a: seq<Thread>, b: seq<Thread>, pc: nat)
    ensures Holds(a + b, pc) <==> Holds(a, pc) || Holds(b, pc)
  {
    if Holds(a + b, pc) {
      var i :| 0 <= i < |a + b| && (a + b)[i].pc == pc;
      assert if i < |a| then a[i].pc == pc else b[i - |a|].pc == pc;
    }
    if Holds(a, pc) {
      var i :| 0 <= i < |a| && a[i].pc == pc;
      assert (a + b)[i].pc == pc;
    }
    if Holds(b, pc) {
      var i :| 0 <= i < |b| && b[i].pc == pc;
      assert (a + b)[|a| + i].pc == pc;
    }
  }

  lemma CoveredThen(m: Machine, before: set<nat>, a: Threads, b: Threads, at: nat)
    requires CoveredSince(m, before, a, at) && CoveredSince(m, a.seen, b, at) && a.seen <= b.seen
    ensures CoveredSince(m, before, Threads(a.list + b.list, b.seen), at)
  {
    forall pc: nat | pc in b.seen && pc !in before
      ensures CoveredAt(m, pc, at, b.seen, a.list + b.list)
    {
      HoldsAppend(a.list, b.list, pc);
      if pc in a.seen { assert CoveredAt(m, pc, at, a.seen, a.list); }
      else { assert CoveredAt(m, pc, at, b.seen, b.list); }
    }
  }

  lemma {:induction false} ClosureCovers(m: Machine, pc: nat, captures: Captures, at: nat, seen: set<nat>)
    ensures Marked(m, Closure(m, pc, captures, at, seen).seen, pc)
    ensures CoveredSince(m, seen, Closure(m, pc, captures, at, seen), at)
    decreases |m.Unvisited(seen)|
  {
    if pc < |m.program| && pc !in seen {
      var marked := seen + {pc};
      FewerUnvisited(m, pc, seen, marked);
      var c := Closure(m, pc, captures, at, seen);
      match m.program[pc]
      case Jmp(to) => ClosureCovers(m, to, captures, at, marked);
      case Split(x, y) =>
        ClosureCovers(m, x, captures, at, marked);
        var first := Closure(m, x, captures, at, marked);
        FewerUnvisited(m, pc, seen, first.seen);
        ClosureCovers(m, y, captures, at, first.seen);
        CoveredThen(m, marked, first, Closure(m, y, captures, at, first.seen), at);
      case Save(slot) => ClosureCovers(m, pc + 1, m.After(slot, captures, at), at, marked);
      case Bol => if at == 0 { ClosureCovers(m, pc + 1, captures, at, marked); }
      case Eol => if at == |m.text| { ClosureCovers(m, pc + 1, captures, at, marked); }
      case _ => assert c.list[0].pc == pc;
    }
  }

  lemma {:induction false} AdvanceCovers(m: Machine, list: seq<Thread>, at: nat, seen: set<nat>)
    requires at < |m.text| && Advance(m, list, at, seen).matched.None?
    ensures var a := Advance(m, list, at, seen);
            seen <= a.seen && CoveredSince(m, seen, Threads(a.list, a.seen), Next(m.text, at))
    decreases |list|
  {
    if list != [] {
      if m.Consumes(list[0].pc, at) {
        var c := Closure(m, list[0].pc + 1, list[0].captures, Next(m.text, at), seen);
        ClosureCovers(m, list[0].pc + 1, list[0].captures, Next(m.text, at), seen);
        AdvanceCovers(m, list[1..], at, c.seen);
        var rest := Advance(m, list[1..], at, c.seen);
        CoveredThen(m, seen, c, Threads(rest.list, rest.seen), Next(m.text, at));
      } else {
        AdvanceCovers(m, list[1..], at, seen);
      }
    }
  }

  /** A list that fails settles all it entered, and every thread in it was followed. */
  lemma {:induction false} RunThreadsSettles(m: Machine, list: seq<Thread>, at: nat, visited: Visited)
    requires m.Valid(at, visited) && RunThreads(m, list, at, visited).found.None?
    ensures SettledSince(m, visited, RunThreads(m, list, at, visited).visited)
    ensures forall i | 0 <= i < |list| ::
              && !AtMatch(m, list[i].pc)
              && (m.Consumes(list[i].pc, at) ==>
                    Seen(m, RunThreads(m, list, at, visited).visited, list[i].pc + 1, Next(m.text, at)))
    decreases |list|
  {
    if list != [] {
      var th := list[0];
      var first := RunThread(m, th, at, visited);
      if m.Consumes(th.pc, at) {
        BacktrackSettles(m, th.pc + 1, Next(m.text, at), th.captures, visited);
      }
      RunThreadsSettles(m, list[1..], at, first.visited);
      var last := RunThreads(m, list, at, visited).visited;
      SettledSinceThen(m, visited, first.visited, last);
      forall i | 0 <= i < |list|
        ensures !AtMatch(m, list[i].pc)
        ensures m.Consumes(list[i].pc, at) ==> Seen(m, last, list[i].pc + 1, Next(m.text, at))
      {
        if i > 0 { assert list[i] == list[1..][i - 1]; }
      }
    }
  }

  /** Where the list is complete, its failure leaves only hopeless states behind. */
  lemma FailureIsSettled(m: Machine, t: Threads, at: nat)
    requires at <= |m.text| && CoveredSince(m, {}, t, at)
    requires RunThreads(m, t.list, at, m.Fresh()[at := t.seen]).found.None?
    ensures SettledSince(m, m.Fresh(), RunThreads(m, t.list, at, m.Fresh()[at := t.seen]).visited)
  {
    hide RunThreads;
    var start := m.Fresh()[at := t.seen];
    var v := RunThreads(m, t.list, at, start).visited;
    RunThreadsSettles(m, t.list, at, start);
    forall p: nat, pc: nat | p < |v| && pc in v[p] && pc !in m.Fresh()[p]
      ensures Settled(m, v, pc, p)
    {
      if p == at {
        assert CoveredAt(m, pc, at, t.seen, t.list);
        if Waits(m, pc) {
          var i :| 0 <= i < |t.list| && t.list[i].pc == pc;
        }
      }
    }
  }

  ghost function Captured(hit: Option<(nat, Hit)>): Option<Captures> {
    if hit.Some? then Some(hit.value.1.captures) else None
  }

  /** What is still to be found after offset `at`, once its own start has failed. */
  ghost function Later(m: Machine, empty: Captures, at: nat): Option<Captures>
    requires at <= |m.text|
  {
    if at == |m.text| then None else Captured(FirstHit(m, empty, Next(m.text, at)))
  }

  ghost function OrElse(a: Option<Captures>, b: Option<Captures>): Option<Captures> {
    if a.Some? then a else b
  }

  ghost function Hits(m: Machine, t: Threads, at: nat): Option<Captures>
    requires at <= |m.text|
  {
    var found := RunThreads(m, t.list, at, m.Fresh()[at := t.seen]).found;
    if found.Some? then Some(found.value.captures) else None
  }

  /** The result a search owes at `at`: its threads first, then an earlier match, then later starts. */
  ghost function Answer(m: Machine, empty: Captures, t: Threads, at: nat, matched: Option<Captures>): Option<Captures>
    requires at <= |m.text|
  {
    OrElse(Hits(m, t, at), if matched.Some? then matched else Captured(FirstHit(m, empty, at)))
  }

  /** A start succeeds on its own exactly when its closure does after hopeless threads have run. */
  lemma StartAmongHopeless(m: Machine, empty: Captures, at: nat, dead: Visited)
    requires m.Valid(at, dead) && SettledSince(m, m.Fresh(), dead)
    ensures Backtrack(m, 0, at, empty, m.Fresh()).found
         == RunThreads(m, Closure(m, 0, empty, at, dead[at]).list, at, dead).found
  {
    HopelessIsIgnored(m, 0, at, empty, m.Fresh(), dead);
    assert forall p | 0 <= p < |dead| :: Union(m.Fresh(), dead)[p] == dead[p];
    assert Union(m.Fresh(), dead) == dead;
    BacktrackIsClosure(m, 0, at, empty, dead);
  }

  /** Marking more counters at the list's own offset does not change what it finds. */
  lemma HitsIgnoreSeen(m: Machine, list: seq<Thread>, at: nat, seen: set<nat>, seen': set<nat>)
    requires at <= |m.text|
    ensures Hits(m, Threads(list, seen), at) == Hits(m, Threads(list, seen'), at)
  {
    RunThreadsFrame(m, list, at, m.Fresh(), at, seen);
    RunThreadsFrame(m, list, at, m.Fresh(), at, seen');
  }

  /** Starting a thread here, behind those already alive, covers this start. */
  lemma SeedKeepsAnswer(m: Machine, empty: Captures, t: Threads, at: nat)
    requires at <= |m.text| && CoveredSince(m, {}, t, at)
    ensures var c := Closure(m, 0, empty, at, t.seen);
            var all := Threads(t.list + c.list, c.seen);
            && Answer(m, empty, t, at, None) == OrElse(Hits(m, all, at), Later(m, empty, at))
            && CoveredSince(m, {}, all, at)
  {
    var c := Closure(m, 0, empty, at, t.seen);
    ClosureCovers(m, 0, empty, at, t.seen);
    CoveredThen(m, {}, t, c, at);
    var start := m.Fresh()[at := t.seen];
    RunThreadsAppend(m, t.list, c.list, at, start);
    HitsIgnoreSeen(m, t.list + c.list, at, t.seen, c.seen);
    var run := RunThreads(m, t.list, at, start);
    if run.found.None? {
      FailureIsSettled(m, t, at);
      StartAmongHopeless(m, empty, at, run.visited);
      assert run.visited[at] == t.seen;
    }
  }

  /** Stepping the list keeps the answer; a thread at `match` replaces any earlier match. */
  lemma StepKeepsAnswer(m: Machine, empty: Captures, t: Threads, at: nat, matched: Option<Captures>)
    requires at < |m.text|
    ensures var a := Advance(m, t.list, at, {});
            OrElse(Hits(m, t, at), if matched.Some? then matched else Later(m, empty, at))
            == Answer(m, empty, Threads(a.list, a.seen), Next(m.text, at), OrElse(a.matched, matched))
  {
    var n := Next(m.text, at);
    var a := Advance(m, t.list, at, {});
    var start := m.Fresh()[at := t.seen];
    AdvanceIsRun(m, t.list, at, start);
    RunThreadsFrame(m, a.list, n, m.Fresh(), at, t.seen);
    RunThreadsFrame(m, a.list, n, m.Fresh(), n, a.seen);
  }

  /** At the end of the text nothing can be consumed, so only a thread at `match` counts. */
  lemma {:induction false} LastStep(m: Machine, list: seq<Thread>, visited: Visited, seen: set<nat>)
    requires m.Valid(|m.text|, visited)
    ensures var a := Advance(m, list, |m.text|, seen);
            var found := RunThreads(m, list, |m.text|, visited).found;
            && a.list == [] && a.seen == seen
            && a.matched == (if found.Some? then Some(found.value.captures) else None)
    decreases |list|
  {
    if list != [] { LastStep(m, list[1..], visited, seen); }
  }

  /** The one code point an instruction accepts, unless it is half a surrogate pair. */
  function LiteralPoint(instruction: Instruction): (point: Option<int>)
    ensures point.Some? ==> Scalar(point.value)
  {
    if !instruction.Set? || instruction.chars.negated || |instruction.chars.ranges| != 1 then None
    else
      var r := instruction.chars.ranges[0];
      if r.0 != r.1 || 0xd800 <= r.0 <= 0xdfff then None else Some(r.0)
  }

  /** The code points every match from `pc` must begin with. */
  function PrefixPoints(program: Program, pc: nat): (points: seq<int>)
    ensures forall p <- points :: Scalar(p)
    decreases |program| - pc
  {
    if pc >= |program| then []
    else if program[pc].Save? then PrefixPoints(program, pc + 1)
    else
      var point := LiteralPoint(program[pc]);
      if point.None? then [] else [point.value] + PrefixPoints(program, pc + 1)
  }

  function Prefix(program: Program): Text { Encode(PrefixPoints(program, 0)) }

  lemma LiteralConsumes(m: Machine, pc: nat, at: nat)
    requires pc < |m.program| && LiteralPoint(m.program[pc]).Some?
    ensures m.Consumes(pc, at) <==> at < |m.text| && CodePointAt(m.text, at) == LiteralPoint(m.program[pc]).value
  {
    var r := m.program[pc].chars.ranges[0];
    assert r in m.program[pc].chars.ranges;
  }

  lemma {:induction false} PrefixIsNeeded(m: Machine, pc: nat, at: nat, captures: Captures, visited: Visited)
    requires m.Valid(at, visited) && Backtrack(m, pc, at, captures, visited).found.Some?
    ensures StartsWith(m.text, at, Encode(PrefixPoints(m.program, pc)))
    decreases |m.program| - pc
  {
    var entered := visited[at := visited[at] + {pc}];
    if m.program[pc].Save? {
      PrefixIsNeeded(m, pc + 1, at, m.After(m.program[pc].slot, captures, at), entered);
    } else if LiteralPoint(m.program[pc]).Some? {
      LiteralConsumes(m, pc, at);
      PrefixIsNeeded(m, pc + 1, Next(m.text, at), captures, entered);
      var points := PrefixPoints(m.program, pc);
      assert points[1..] == PrefixPoints(m.program, pc + 1);
      StartsWithSplit(m.text, at, points);
    }
  }

  /** Starts where the prefix does not occur can be passed over. */
  lemma {:induction false} SkipToPrefix(m: Machine, empty: Captures, at: nat)
    requires at <= |m.text| && Boundary(m.text, at) && Prefix(m.program) != []
    ensures var next := IndexOf(m.text, Prefix(m.program), at);
            if next.None? then FirstHit(m, empty, at).None?
            else Boundary(m.text, next.value) && FirstHit(m, empty, at) == FirstHit(m, empty, next.value)
    decreases |m.text| - at
  {
    var points := PrefixPoints(m.program, 0);
    var next := IndexOf(m.text, Prefix(m.program), at);
    if next.Some? { OccurrenceIsBoundary(m.text, next.value, points); }
    if !StartsWith(m.text, at, Prefix(m.program)) {
      if Backtrack(m, 0, at, empty, m.Fresh()).found.Some? { PrefixIsNeeded(m, 0, at, empty, m.Fresh()); }
      if at < |m.text| {
        var n := Next(m.text, at);
        NextIsBoundary(m.text, at);
        if next.Some? { NextIsLeast(m.text, at, next.value); }
        SkipToPrefix(m, empty, n);
        IndexOfAgrees(m.text, Prefix(m.program), at, n);
      }
    }
  }

  lemma IndexOfAgrees(t: Text, pattern: Text, at: nat, n: nat)
    requires at <= n <= |t|
    requires IndexOf(t, pattern, at).Some? ==> n <= IndexOf(t, pattern, at).value
    ensures IndexOf(t, pattern, n) == IndexOf(t, pattern, at)
  {}
}
