/**
 * What the memoised backtracker decides: it finds a hit exactly when some run of the
 * program reaches `match`, and states already proved hopeless never change its answer.
 */
module PosixBacktrack {
  import opened Sequences
  import opened Utf16
  import opened PosixCharset
  import opened PosixProgram

  /** One step of the unprioritised machine. */
  ghost predicate Step(m: Machine, pc: nat, at: nat, pc': nat, at': nat) {
    && pc < |m.program| && at <= |m.text|
    && match m.program[pc]
       case Jmp(to) => pc' == to && at' == at
       case Split(x, y) => (pc' == x || pc' == y) && at' == at
       case Save(_) => pc' == pc + 1 && at' == at
       case Bol => at == 0 && pc' == pc + 1 && at' == at
       case Eol => at == |m.text| && pc' == pc + 1 && at' == at
       case Match => false
       case _ => m.Consumes(pc, at) && pc' == pc + 1 && at' == Next(m.text, at)
  }

  /** Where a run is: at an instruction, at an offset. */
  datatype State = State(pc: nat, at: nat)

  ghost predicate StepAt(m: Machine, run: seq<State>, k: nat)
    requires k + 1 < |run|
  {
    Step(m, run[k].pc, run[k].at, run[k + 1].pc, run[k + 1].at)
  }

  ghost predicate IsRun(m: Machine, run: seq<State>) {
    run != [] && forall k: nat | k + 1 < |run| :: StepAt(m, run, k)
  }

  /** Some run leads from (pc, at) to (pc', at'). */
  ghost predicate Leads(m: Machine, pc: nat, at: nat, pc': nat, at': nat) {
    exists run: seq<State> :: IsRun(m, run) && run[0] == State(pc, at) && run[|run| - 1] == State(pc', at')
  }

  lemma LeadsNowhere(m: Machine, pc: nat, at: nat)
    ensures Leads(m, pc, at, pc, at)
  {
    assert IsRun(m, [State(pc, at)]);
  }

  lemma LeadsThen(m: Machine, a: nat, i: nat, b: nat, j: nat, c: nat, k: nat)
    requires Leads(m, a, i, b, j) && Leads(m, b, j, c, k)
    ensures Leads(m, a, i, c, k)
  {
    var first: seq<State> :| IsRun(m, first) && first[0] == State(a, i) && first[|first| - 1] == State(b, j);
    var second: seq<State> :| IsRun(m, second) && second[0] == State(b, j) && second[|second| - 1] == State(c, k);
    var run := first + second[1..];
    var last := |first| - 1;
    forall n: nat | n + 1 < |run| ensures StepAt(m, run, n) {
      if n < last { assert StepAt(m, first, n); } else { assert StepAt(m, second, n - last); }
    }
    assert IsRun(m, run);
  }

  lemma LeadsStep(m: Machine, a: nat, i: nat, b: nat, j: nat, c: nat, k: nat)
    requires Step(m, a, i, b, j) && Leads(m, b, j, c, k)
    ensures Leads(m, a, i, c, k)
  {
    var run := [State(a, i), State(b, j)];
    assert IsRun(m, run);
    LeadsThen(m, a, i, b, j, c, k);
  }

  ghost predicate AtMatch(m: Machine, pc: nat) {
    pc < |m.program| && m.program[pc].Match?
  }

  /** Some run from (pc, at) ends at a `match` reached at offset `end`. */
  ghost predicate Accepts(m: Machine, pc: nat, at: nat, end: nat) {
    exists q: nat :: AtMatch(m, q) && Leads(m, pc, at, q, end)
  }

  lemma AcceptsStep(m: Machine, pc: nat, at: nat, q: nat, p: nat, end: nat)
    requires Step(m, pc, at, q, p) && Accepts(m, q, p, end)
    ensures Accepts(m, pc, at, end)
  {
    var last: nat :| AtMatch(m, last) && Leads(m, q, p, last, end);
    LeadsStep(m, pc, at, q, p, last, end);
  }

  /** A hit is a run: the backtracker never invents a match. */
  lemma {:induction false} BacktrackSound(m: Machine, pc: nat, at: nat, captures: Captures, visited: Visited)
    requires m.Valid(at, visited)
    requires Backtrack(m, pc, at, captures, visited).found.Some?
    ensures Accepts(m, pc, at, Backtrack(m, pc, at, captures, visited).found.value.end)
    decreases |m.text| - at, |m.Unvisited(visited[at])|
  {
    var end := Backtrack(m, pc, at, captures, visited).found.value.end;
    var entered := visited[at := visited[at] + {pc}];
    FewerUnvisited(m, pc, visited[at], entered[at]);
    match m.program[pc]
    case Jmp(to) =>
      BacktrackSound(m, to, at, captures, entered);
      AcceptsStep(m, pc, at, to, at, end);
    case Split(x, y) =>
      var first := Backtrack(m, x, at, captures, entered);
      if first.found.Some? {
        BacktrackSound(m, x, at, captures, entered);
        AcceptsStep(m, pc, at, x, at, end);
      } else {
        FewerUnvisited(m, pc, visited[at], first.visited[at]);
        BacktrackSound(m, y, at, captures, first.visited);
        AcceptsStep(m, pc, at, y, at, end);
      }
    case Save(slot) =>
      BacktrackSound(m, pc + 1, at, m.After(slot, captures, at), entered);
      AcceptsStep(m, pc, at, pc + 1, at, end);
    case Match =>
      LeadsNowhere(m, pc, at);
    case Bol =>
      BacktrackSound(m, pc + 1, at, captures, entered);
      AcceptsStep(m, pc, at, pc + 1, at, end);
    case Eol =>
      BacktrackSound(m, pc + 1, at, captures, entered);
      AcceptsStep(m, pc, at, pc + 1, at, end);
    case _ =>
      BacktrackSound(m, pc + 1, Next(m.text, at), captures, entered);
      AcceptsStep(m, pc, at, pc + 1, Next(m.text, at), end);
  }

  ghost predicate Seen(m: Machine, v: Visited, pc: nat, at: nat)
    requires m.Valid(at, v)
  {
    pc >= |m.program| || pc in v[at]
  }

  /** A state that is not `match` and whose successors have all been entered. */
  ghost predicate Settled(m: Machine, v: Visited, pc: nat, at: nat)
    requires m.Valid(at, v)
  {
    && pc < |m.program|
    && match m.program[pc]
       case Jmp(to) => Seen(m, v, to, at)
       case Split(x, y) => Seen(m, v, x, at) && Seen(m, v, y, at)
       case Save(_) => Seen(m, v, pc + 1, at)
       case Bol => at == 0 ==> Seen(m, v, pc + 1, at)
       case Eol => at == |m.text| ==> Seen(m, v, pc + 1, at)
       case Match => false
       case _ => m.Consumes(pc, at) ==> Seen(m, v, pc + 1, Next(m.text, at))
  }

  /** Everything entered since `before` is settled. */
  ghost predicate SettledSince(m: Machine, before: Visited, v: Visited)
    requires |before| == |v| == |m.text| + 1
  {
    forall p: nat, pc: nat | p < |v| && pc in v[p] && pc !in before[p] :: Settled(m, v, pc, p)
  }

  ghost predicate Within(a: Visited, b: Visited) {
    |a| == |b| && forall p | 0 <= p < |a| :: a[p] <= b[p]
  }

  lemma SettledSinceThen(m: Machine, a: Visited, b: Visited, c: Visited)
    requires |a| == |b| == |c| == |m.text| + 1
    requires SettledSince(m, a, b) && SettledSince(m, b, c) && Within(b, c)
    ensures SettledSince(m, a, c)
  {
    forall p: nat, pc: nat | p < |c| && pc in c[p] && pc !in a[p]
      ensures Settled(m, c, pc, p)
    {
      if pc in b[p] { assert Settled(m, b, pc, p); }
    }
  }

  /** A failed run leaves everything it entered settled. */
  lemma {:induction false} BacktrackSettles(m: Machine, pc: nat, at: nat, captures: Captures, visited: Visited)
    requires m.Valid(at, visited)
    requires Backtrack(m, pc, at, captures, visited).found.None?
    ensures Seen(m, Backtrack(m, pc, at, captures, visited).visited, pc, at)
    ensures SettledSince(m, visited, Backtrack(m, pc, at, captures, visited).visited)
    decreases |m.text| - at, |m.Unvisited(visited[at])|
  {
    if pc < |m.program| && pc !in visited[at] {
      var entered := visited[at := visited[at] + {pc}];
      FewerUnvisited(m, pc, visited[at], entered[at]);
      var last := Backtrack(m, pc, at, captures, visited).visited;
      match m.program[pc]
      case Jmp(to) =>
        BacktrackSettles(m, to, at, captures, entered);
      case Split(x, y) =>
        BacktrackSettles(m, x, at, captures, entered);
        var first := Backtrack(m, x, at, captures, entered).visited;
        FewerUnvisited(m, pc, visited[at], first[at]);
        BacktrackSettles(m, y, at, captures, first);
        SettledSinceThen(m, entered, first, last);
      case Save(slot) =>
        BacktrackSettles(m, pc + 1, at, m.After(slot, captures, at), entered);
      case Bol =>
        if at == 0 { BacktrackSettles(m, pc + 1, at, captures, entered); }
      case Eol =>
        if at == |m.text| { BacktrackSettles(m, pc + 1, at, captures, entered); }
      case Match =>
      case _ =>
        if m.Consumes(pc, at) { BacktrackSettles(m, pc + 1, Next(m.text, at), captures, entered); }
      assert Settled(m, last, pc, at);
    }
  }

  /** A run that enters a settled set of states stays in it and never stands at `match`. */
  lemma {:induction false} SettledHolds(m: Machine, v: Visited, run: seq<State>, k: nat)
    requires IsRun(m, run) && k < |run| && m.Valid(run[0].at, v) && Seen(m, v, run[0].pc, run[0].at)
    requires SettledSince(m, m.Fresh(), v)
    ensures run[k].at <= |m.text| && Seen(m, v, run[k].pc, run[k].at) && !AtMatch(m, run[k].pc)
    decreases k
  {
    if k > 0 {
      SettledHolds(m, v, run, k - 1);
      assert StepAt(m, run, k - 1);
      assert Settled(m, v, run[k - 1].pc, run[k - 1].at);
    }
    if run[k].pc < |m.program| { assert Settled(m, v, run[k].pc, run[k].at); }
  }

  /** The backtracker finds a hit exactly when some run of the program reaches `match`. */
  lemma BacktrackDecides(m: Machine, pc: nat, at: nat, captures: Captures)
    requires at <= |m.text|
    ensures Backtrack(m, pc, at, captures, m.Fresh()).found.Some? <==> exists end: nat :: Accepts(m, pc, at, end)
  {
    var run := Backtrack(m, pc, at, captures, m.Fresh());
    if run.found.Some? {
      BacktrackSound(m, pc, at, captures, m.Fresh());
    } else {
      BacktrackSettles(m, pc, at, captures, m.Fresh());
      forall end: nat, q: nat | Leads(m, pc, at, q, end) ensures !AtMatch(m, q) {
        var path: seq<State> :| IsRun(m, path) && path[0] == State(pc, at) && path[|path| - 1] == State(q, end);
        SettledHolds(m, run.visited, path, |path| - 1);
      }
    }
  }

  ghost function Union(a: Visited, b: Visited): Visited
    requires |a| == |b|
  {
    seq(|a|, p requires 0 <= p < |a| => a[p] + b[p])
  }

  /** A run that starts inside a settled set fails and stays inside it. */
  lemma {:induction false} HopelessRun(m: Machine, pc: nat, at: nat, captures: Captures, visited: Visited, dead: Visited)
    requires m.Valid(at, visited) && m.Valid(at, dead)
    requires SettledSince(m, m.Fresh(), dead) && Seen(m, dead, pc, at)
    ensures Backtrack(m, pc, at, captures, visited).found.None?
    ensures Within(Backtrack(m, pc, at, captures, visited).visited, Union(visited, dead))
    decreases |m.text| - at, |m.Unvisited(visited[at])|
  {
    if pc < |m.program| && pc !in visited[at] {
      assert Settled(m, dead, pc, at);
      var entered := visited[at := visited[at] + {pc}];
      FewerUnvisited(m, pc, visited[at], entered[at]);
      match m.program[pc]
      case Jmp(to) => HopelessRun(m, to, at, captures, entered, dead);
      case Split(x, y) =>
        HopelessRun(m, x, at, captures, entered, dead);
        var first := Backtrack(m, x, at, captures, entered).visited;
        FewerUnvisited(m, pc, visited[at], first[at]);
        HopelessRun(m, y, at, captures, first, dead);
      case Save(slot) => HopelessRun(m, pc + 1, at, m.After(slot, captures, at), entered, dead);
      case Bol => if at == 0 { HopelessRun(m, pc + 1, at, captures, entered, dead); }
      case Eol => if at == |m.text| { HopelessRun(m, pc + 1, at, captures, entered, dead); }
      case Match =>
      case _ => if m.Consumes(pc, at) { HopelessRun(m, pc + 1, Next(m.text, at), captures, entered, dead); }
    }
  }

  /** Marking hopeless states in advance changes neither the answer nor the captures. */
  lemma {:induction false} HopelessIsIgnored(m: Machine, pc: nat, at: nat, captures: Captures, visited: Visited, dead: Visited)
    requires m.Valid(at, visited) && m.Valid(at, dead)
    requires SettledSince(m, m.Fresh(), dead)
    ensures Backtrack(m, pc, at, captures, Union(visited, dead)).found == Backtrack(m, pc, at, captures, visited).found
    ensures Backtrack(m, pc, at, captures, visited).found.None? ==>
              Backtrack(m, pc, at, captures, Union(visited, dead)).visited
              == Union(Backtrack(m, pc, at, captures, visited).visited, dead)
    decreases |m.text| - at, |m.Unvisited(visited[at])|
  {
    if pc >= |m.program| || pc in visited[at] {
    } else if pc in dead[at] {
      HopelessRun(m, pc, at, captures, visited, dead);
      var after := Backtrack(m, pc, at, captures, visited).visited;
      forall p | 0 <= p < |visited| ensures visited[p] + dead[p] == after[p] + dead[p] {
        assert after[p] <= Union(visited, dead)[p];
      }
      assert Union(visited, dead) == Union(after, dead);
    } else {
      var entered := visited[at := visited[at] + {pc}];
      FewerUnvisited(m, pc, visited[at], entered[at]);
      assert visited[at] + dead[at] + {pc} == entered[at] + dead[at];
      assert Union(visited, dead)[at := Union(visited, dead)[at] + {pc}] == Union(entered, dead);
      match m.program[pc]
      case Jmp(to) => HopelessIsIgnored(m, to, at, captures, entered, dead);
      case Split(x, y) =>
        HopelessIsIgnored(m, x, at, captures, entered, dead);
        var first := Backtrack(m, x, at, captures, entered);
        if first.found.None? {
          FewerUnvisited(m, pc, visited[at], first.visited[at]);
          HopelessIsIgnored(m, y, at, captures, first.visited, dead);
        }
      case Save(slot) => HopelessIsIgnored(m, pc + 1, at, m.After(slot, captures, at), entered, dead);
      case Bol => if at == 0 { HopelessIsIgnored(m, pc + 1, at, captures, entered, dead); }
      case Eol => if at == |m.text| { HopelessIsIgnored(m, pc + 1, at, captures, entered, dead); }
      case Match =>
      case _ => if m.Consumes(pc, at) { HopelessIsIgnored(m, pc + 1, Next(m.text, at), captures, entered, dead); }
    }
  }
}
