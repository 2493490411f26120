/**
 * Prioritised thread lists as values: the closure that fills a list, one advance of a
 * list over a code point, and why running lists in step is running the backtracker.
 */
module PosixThreads {
  import opened Sequences
  import opened Utf16
  import opened PosixCharset
  import opened PosixProgram
  import opened PosixBacktrack

  datatype Thread = Thread(pc: nat, captures: Captures)

  datatype Threads = Threads(list: seq<Thread>, seen: set<nat>)

  /** The threads that entering `pc` adds at one offset, best first, and the counters then marked. */
  ghost function Closure(m: Machine, pc: nat, captures: Captures, at: nat, seen: set<nat>): (r: Threads)
    ensures seen <= r.seen
    decreases |m.Unvisited(seen)|
  {
    if pc >= |m.program| || pc in seen then Threads([], seen)
    else
      var marked := seen + {pc};
      FewerUnvisited(m, pc, seen, marked);
      match m.program[pc]
      case Jmp(to) => Closure(m, to, captures, at, marked)
      case Split(x, y) =>
        var first := Closure(m, x, captures, at, marked);
        FewerUnvisited(m, pc, seen, first.seen);
        var second := Closure(m, y, captures, at, first.seen);
        Threads(first.list + second.list, second.seen)
      case Save(slot) => Closure(m, pc + 1, m.After(slot, captures, at), at, marked)
      case Bol => if at == 0 then Closure(m, pc + 1, captures, at, marked) else Threads([], marked)
      case Eol => if at == |m.text| then Closure(m, pc + 1, captures, at, marked) else Threads([], marked)
      case _ => Threads([Thread(pc, captures)], marked)
  }

  /** Threads only ever wait at an instruction that consumes input or accepts. */
  ghost predicate Waits(m: Machine, pc: nat) {
    pc < |m.program| && (m.program[pc].Set? || m.program[pc].Any? || m.program[pc].Match?)
  }

  datatype Advanced = Advanced(list: seq<Thread>, seen: set<nat>, matched: Option<Captures>)

  /** One pass over a list: threads that accept the code point move on; the first at `match` cuts the rest. */
  ghost function Advance(m: Machine, list: seq<Thread>, at: nat, seen: set<nat>): Advanced
    decreases |list|
  {
    if list == [] then Advanced([], seen, None)
    else if AtMatch(m, list[0].pc) then Advanced([], seen, Some(list[0].captures))
    else if m.Consumes(list[0].pc, at) then
      var c := Closure(m, list[0].pc + 1, list[0].captures, Next(m.text, at), seen);
      var rest := Advance(m, list[1..], at, c.seen);
      Advanced(c.list + rest.list, rest.seen, rest.matched)
    else Advance(m, list[1..], at, seen)
  }

  /** Backtracking from one waiting thread. */
  ghost function RunThread(m: Machine, thread: Thread, at: nat, visited: Visited): (r: Outcome)
    requires m.Valid(at, visited)
    ensures m.Valid(at, r.visited)
    ensures forall p | 0 <= p <= at :: r.visited[p] == visited[p]
    ensures Within(visited, r.visited)
  {
    if AtMatch(m, thread.pc) then Outcome(Some(Hit(thread.captures, at)), visited)
    else if m.Consumes(thread.pc, at) then
      Backtrack(m, thread.pc + 1, Next(m.text, at), thread.captures, visited)
    else Outcome(None, visited)
  }

  /** Backtracking from each thread in turn until one succeeds. */
  ghost function RunThreads(m: Machine, list: seq<Thread>, at: nat, visited: Visited): (r: Outcome)
    requires m.Valid(at, visited)
    ensures m.Valid(at, r.visited)
    ensures forall p | 0 <= p <= at :: r.visited[p] == visited[p]
    ensures Within(visited, r.visited)
    decreases |list|
  {
    if list == [] then Outcome(None, visited)
    else
      var first := RunThread(m, list[0], at, visited);
      if first.found.Some? then first else RunThreads(m, list[1..], at, first.visited)
  }

  lemma {:induction false} RunThreadsAppend(m: Machine, a: seq<Thread>, b: seq<Thread>, at: nat, visited: Visited)
    requires m.Valid(at, visited)
    ensures RunThreads(m, a + b, at, visited)
         == var first := RunThreads(m, a, at, visited);
            if first.found.Some? then first else RunThreads(m, b, at, first.visited)
    decreases |a|
  {
    if a == [] {
      assert a + b == b;
    } else {
      assert (a + b)[1..] == a[1..] + b;
      RunThreadsAppend(m, a[1..], b, at, RunThread(m, a[0], at, visited).visited);
    }
  }

  /** A run from `at` on neither reads nor writes what was entered before `at`. */
  lemma {:induction false} BacktrackFrame(m: Machine, pc: nat, at: nat, captures: Captures, visited: Visited, p: nat, s: set<nat>)
    requires m.Valid(at, visited) && p < at
    ensures Backtrack(m, pc, at, captures, visited[p := s])
         == var r := Backtrack(m, pc, at, captures, visited); Outcome(r.found, r.visited[p := s])
    decreases |m.text| - at, |m.Unvisited(visited[at])|
  {
    if pc < |m.program| && pc !in visited[at] {
      var entered := visited[at := visited[at] + {pc}];
      FewerUnvisited(m, pc, visited[at], entered[at]);
      assert visited[p := s][at := visited[at] + {pc}] == entered[p := s];
      match m.program[pc]
      case Jmp(to) => BacktrackFrame(m, to, at, captures, entered, p, s);
      case Split(x, y) =>
        BacktrackFrame(m, x, at, captures, entered, p, s);
        var first := Backtrack(m, x, at, captures, entered);
        FewerUnvisited(m, pc, visited[at], first.visited[at]);
        BacktrackFrame(m, y, at, captures, first.visited, p, s);
      case Save(slot) => BacktrackFrame(m, pc + 1, at, m.After(slot, captures, at), entered, p, s);
      case Bol =>
      case Eol => if at == |m.text| { BacktrackFrame(m, pc + 1, at, captures, entered, p, s); }
      case Match =>
      case _ => if m.Consumes(pc, at) { BacktrackFrame(m, pc + 1, Next(m.text, at), captures, entered, p, s); }
    }
  }

  lemma {:induction false} RunThreadsFrame(m: Machine, list: seq<Thread>, at: nat, visited: Visited, p: nat, s: set<nat>)
    requires m.Valid(at, visited) && p <= at
    ensures RunThreads(m, list, at, visited[p := s])
         == var r := RunThreads(m, list, at, visited); Outcome(r.found, r.visited[p := s])
    decreases |list|
  {
    if list != [] {
      var th := list[0];
      if !AtMatch(m, th.pc) && m.Consumes(th.pc, at) {
        BacktrackFrame(m, th.pc + 1, Next(m.text, at), th.captures, visited, p, s);
      }
      RunThreadsFrame(m, list[1..], at, RunThread(m, th, at, visited).visited, p, s);
    }
  }

  /**
   * Backtracking from a state is building its closure and backtracking from each thread in order:
   * exploring later offsets cannot disturb what has been entered at this one.
   */
  lemma {:induction false} BacktrackIsClosure(m: Machine, pc: nat, at: nat, captures: Captures, visited: Visited)
    requires m.Valid(at, visited)
    ensures var c := Closure(m, pc, captures, at, visited[at]);
            var direct := Backtrack(m, pc, at, captures, visited);
            var staged := RunThreads(m, c.list, at, visited);
            && direct.found == staged.found
            && (direct.found.None? ==> direct.visited == staged.visited[at := c.seen])
    decreases |m.Unvisited(visited[at])|
  {
    if pc >= |m.program| || pc in visited[at] {
      assert visited[at := visited[at]] == visited;
    } else {
      var entered := visited[at := visited[at] + {pc}];
      FewerUnvisited(m, pc, visited[at], entered[at]);
      var c := Closure(m, pc, captures, at, visited[at]);
      RunThreadsFrame(m, c.list, at, visited, at, entered[at]);
      var staged := RunThreads(m, c.list, at, visited);
      assert staged.visited[at := entered[at]][at := c.seen] == staged.visited[at := c.seen];
      match m.program[pc]
      case Jmp(to) => BacktrackIsClosure(m, to, at, captures, entered);
      case Split(x, y) => SplitIsClosure(m, pc, x, y, at, captures, visited);
      case Save(slot) => BacktrackIsClosure(m, pc + 1, at, m.After(slot, captures, at), entered);
      case Bol => if at == 0 { BacktrackIsClosure(m, pc + 1, at, captures, entered); }
      case Eol => if at == |m.text| { BacktrackIsClosure(m, pc + 1, at, captures, entered); }
      case Match =>
      case _ =>
        assert [Thread(pc, captures)][1..] == [];
        if m.Consumes(pc, at) { BacktrackFrame(m, pc + 1, Next(m.text, at), captures, visited, at, entered[at]); }
    }
  }

  lemma {:induction false} SplitIsClosure(m: Machine, pc: nat, x: nat, y: nat, at: nat, captures: Captures, visited: Visited)
    requires m.Valid(at, visited) && pc < |m.program| && pc !in visited[at]
    requires m.program[pc] == Split(x, y)
    ensures var c := Closure(m, pc, captures, at, visited[at]);
            var direct := Backtrack(m, pc, at, captures, visited);
            var staged := RunThreads(m, c.list, at, visited);
            && direct.found == staged.found
            && (direct.found.None? ==> direct.visited == staged.visited[at := c.seen])
    decreases |m.Unvisited(visited[at])|, 0
  {
    var entered := visited[at := visited[at] + {pc}];
    FewerUnvisited(m, pc, visited[at], entered[at]);
    var c1 := Closure(m, x, captures, at, entered[at]);
    FewerUnvisited(m, pc, visited[at], c1.seen);
    var c2 := Closure(m, y, captures, at, c1.seen);
    var direct1 := Backtrack(m, x, at, captures, entered);
    BacktrackIsClosure(m, x, at, captures, entered);
    RunThreadsFrame(m, c1.list, at, visited, at, entered[at]);
    RunThreadsAppend(m, c1.list, c2.list, at, visited);
    if direct1.found.None? {
      var staged1 := RunThreads(m, c1.list, at, visited);
      assert direct1.visited == staged1.visited[at := c1.seen];
      BacktrackIsClosure(m, y, at, captures, direct1.visited);
      RunThreadsFrame(m, c2.list, at, staged1.visited, at, c1.seen);
    }
  }

  /** Stepping the list over one code point keeps what backtracking from it would find. */
  lemma {:induction false} AdvanceIsRun(m: Machine, list: seq<Thread>, at: nat, visited: Visited)
    requires m.Valid(at, visited) && at < |m.text|
    ensures var a := Advance(m, list, at, visited[Next(m.text, at)]);
            var direct := RunThreads(m, list, at, visited);
            var staged := RunThreads(m, a.list, Next(m.text, at), visited);
            && direct.found == (if staged.found.Some? then staged.found
                                else if a.matched.Some? then Some(Hit(a.matched.value, at)) else None)
            && (direct.found.None? ==> direct.visited == staged.visited[Next(m.text, at) := a.seen])
    decreases |list|
  {
    var n := Next(m.text, at);
    if list == [] {
      assert visited[n := visited[n]] == visited;
    } else if AtMatch(m, list[0].pc) {
    } else if m.Consumes(list[0].pc, at) {
      var th := list[0];
      var c := Closure(m, th.pc + 1, th.captures, n, visited[n]);
      var rest := Advance(m, list[1..], at, c.seen);
      BacktrackIsClosure(m, th.pc + 1, n, th.captures, visited);
      RunThreadsAppend(m, c.list, rest.list, n, visited);
      var staged1 := RunThreads(m, c.list, n, visited);
      if staged1.found.None? {
        var v1 := staged1.visited[n := c.seen];
        AdvanceIsRun(m, list[1..], at, v1);
        RunThreadsFrame(m, rest.list, n, staged1.visited, n, c.seen);
      }
    } else {
      AdvanceIsRun(m, list[1..], at, visited);
    }
  }
}
