/** src/core/posix-regex-matcher.ts: the Thompson simulation, with its thread lists, marks and step meter. */
module PosixMatcher {
  import opened Sequences
  import opened Utf16
  import opened PosixCharset
  import opened PosixProgram
  import PosixThreads
  import opened PosixSteps
  import opened PosixBacktrack
  import opened PosixSearch

  const MAX_STEPS := 20_000_000

  /** The elements of an Int32Array. */
  newtype int32 = x: int | -0x8000_0000 <= x < 0x8000_0000

  type Thread = PosixThreads.Thread
  type Threads = PosixThreads.Threads

  /** Slots past `length` are stale threads kept for reuse. */
  class ThreadList {
    var threads: seq<Thread>
    var length: nat

    ghost predicate Valid()
      reads this
    {
      length <= |threads|
    }

    ghost function Items(): seq<Thread>
      reads this
      requires Valid()
    {
      threads[..length]
    }

    constructor ()
      ensures Valid() && length == 0
    {
      threads, length := [], 0;
    }

    method Add(pc: nat, captures: Captures)
      requires Valid()
      modifies this
      ensures Valid() && length == old(length) + 1
      ensures Items() == old(Items()) + [PosixThreads.Thread(pc, captures)]
    {
      var thread := PosixThreads.Thread(pc, captures);
      if length == |threads| {
        threads := threads + [thread];
      } else {
        threads := threads[length := thread];
      }
      length := length + 1;
    }
  }

  datatype SearchResult = TooExpensive | NoMatch | Found(captures: Captures)

  /** The meter after `cost` more steps; it stops at the first one past the limit. */
  ghost function Spent(steps: nat, cost: nat): nat {
    if steps + cost <= MAX_STEPS then steps + cost else MAX_STEPS + 1
  }

  /** Threads before `index` have been advanced, leaving `t`. */
  ghost predicate Swept(m: Machine, list: seq<Thread>, index: nat, at: nat, t: Threads) {
    && index <= |list|
    && var rest := PosixThreads.Advance(m, list[index..], at, t.seen);
       PosixThreads.Advance(m, list, at, {}) == PosixThreads.Advanced(t.list + rest.list, rest.seen, rest.matched)
  }

  lemma SweptNone(m: Machine, list: seq<Thread>, at: nat)
    ensures Swept(m, list, 0, at, PosixThreads.Threads([], {}))
  {
    assert list[0..] == list;
    var rest := PosixThreads.Advance(m, list, at, {});
    assert [] + rest.list == rest.list;
  }

  lemma SweptOne(m: Machine, list: seq<Thread>, index: nat, at: nat, before: Threads, after: Threads)
    requires Swept(m, list, index, at, before) && index < |list| && !AtMatch(m, list[index].pc)
    requires var c := if m.Consumes(list[index].pc, at)
                      then PosixThreads.Closure(m, list[index].pc + 1, list[index].captures, Next(m.text, at), before.seen)
                      else PosixThreads.Threads([], before.seen);
             after == PosixThreads.Threads(before.list + c.list, c.seen)
    ensures Swept(m, list, index + 1, at, after)
  {
    assert list[index..][1..] == list[index + 1..];
    if m.Consumes(list[index].pc, at) {
      var c := PosixThreads.Closure(m, list[index].pc + 1, list[index].captures, Next(m.text, at), before.seen);
      var rest := PosixThreads.Advance(m, list[index + 1..], at, c.seen);
      assert before.list + (c.list + rest.list) == (before.list + c.list) + rest.list;
    }
  }

  lemma SweptAll(m: Machine, list: seq<Thread>, index: nat, at: nat, t: Threads)
    requires Swept(m, list, index, at, t)
    requires index == |list| || AtMatch(m, list[index].pc)
    ensures PosixThreads.Advance(m, list, at, {})
         == PosixThreads.Advanced(t.list, t.seen, if index == |list| then None else Some(list[index].captures))
  {
    assert t.list + [] == t.list;
  }

  /** With no thread alive, only later starts can match. */
  lemma NoThreads(m: Machine, empty: Captures, t: Threads, at: nat)
    requires at <= |m.text| && t.list == []
    ensures Answer(m, empty, t, at, None) == Captured(FirstHit(m, empty, at))
  {}

  /** What a list and its mark held at one moment. */
  datatype Snap = Snap(items: seq<Thread>, marked: set<nat>, steps: nat) {

    ghost function Threads(): Threads { PosixThreads.Threads(items, marked) }

    /** `after` follows this by adding `c` at a cost; only a search past its step limit may stop part-way. */
    ghost predicate Adds(c: Threads, cost: nat, after: Snap) {
      && after.steps == Spent(steps, cost)
      && (after.steps <= MAX_STEPS ==> after.marked == c.seen && after.items == items + c.list)
    }
  }

  lemma AddsThen(s0: Snap, s1: Snap, s2: Snap, a: Threads, b: Threads, j: nat, k: nat)
    requires s0.steps <= MAX_STEPS && s0.Adds(a, j, s1) && s1.Adds(b, k, s2) && s1.steps <= MAX_STEPS
    ensures s0.Adds(PosixThreads.Threads(a.list + b.list, b.seen), j + k, s2)
  {
    if s2.steps <= MAX_STEPS {
      assert s2.items == s0.items + a.list + b.list == s0.items + (a.list + b.list);
    }
  }

  class Matcher {
    const program: Program
    const text: Text
    const capture: bool
    const prefix: Text
    const seen: array<int32>
    var current: ThreadList
    var next: ThreadList
    var generation: nat
    var steps: nat

    ghost function Run(): Machine { Machine(program, text, capture) }

    /** The prefix is the program's own, or none is used. */
    ghost predicate OwnPrefix() { prefix == [] || prefix == Prefix(program) }

    ghost predicate Valid()
      reads this, seen, current, next
    {
      && seen.Length == |program|
      && current != next && current.Valid() && next.Valid()
      && steps <= MAX_STEPS + 1
      && (forall pc | 0 <= pc < seen.Length :: seen[pc] as int <= generation)
    }

    /** The counters carrying `mark`. */
    ghost function Marked(mark: int): set<nat>
      reads seen
    {
      set pc: nat | pc < seen.Length && seen[pc] as int == mark
    }

    ghost function Now(list: ThreadList, mark: int): Snap
      reads this, list, seen
      requires list.Valid()
    {
      Snap(list.Items(), Marked(mark), steps)
    }

    constructor (program: Program, text: Text, capture: bool, prefix: Text)
      requires prefix == [] || prefix == Prefix(program)
      ensures Valid() && OwnPrefix() && fresh(this) && fresh(seen) && fresh(current) && fresh(next)
      ensures this.program == program && this.text == text && this.capture == capture && this.prefix == prefix
      ensures steps == 0 && generation == 0 && current.length == 0 && next.length == 0
      ensures Marked(0) == {}
    {
      this.program, this.text, this.capture, this.prefix := program, text, capture, prefix;
      generation, steps := 0, 0;
      seen := new int32[|program|](_ => -1);
      current := new ThreadList();
      next := new ThreadList();
    }

    method Charge() returns (ok: bool)
      requires steps <= MAX_STEPS
      modifies this`steps
      ensures steps == old(steps) + 1 && ok == (steps <= MAX_STEPS)
    {
      steps := steps + 1;
      ok := steps <= MAX_STEPS;
    }

    /** A mark no counter carries yet; it fits an Int32 because steps are capped. */
    method Mark() returns (mark: int)
      requires Valid()
      modifies this`generation
      ensures Valid() && generation == old(generation) + 1 == mark
      ensures Marked(mark) == {}
    {
      generation := generation + 1;
      mark := generation;
    }

    method Add(list: ThreadList, mark: int, pc: nat, captures: Captures, at: nat) returns (ok: bool)
      requires Valid() && (list == current || list == next)
      requires steps <= MAX_STEPS && 0 < mark <= generation < 0x8000_0000
      modifies this`steps, seen, list
      ensures Valid() && ok == (steps <= MAX_STEPS)
      ensures old(Now(list, mark)).Adds(PosixThreads.Closure(Run(), pc, captures, at, old(Marked(mark))),
                                        ClosureSteps(Run(), pc, captures, at, old(Marked(mark))), Now(list, mark))
      decreases |Run().Unvisited(Marked(mark))|, 2
    {
      assert list.Items() + [] == list.Items();
      ghost var before := Marked(mark);
      ok := Charge();
      assert Marked(mark) == before;
      if !ok { return; }
      if pc < |program| && seen[pc] as int == mark { return; }
      if pc >= |program| { return; }
      seen[pc] := mark as int32;
      assert Marked(mark) == before + {pc};
      FewerUnvisited(Run(), pc, before, Marked(mark));
      ok := Follow(list, mark, pc, captures, at, before);
    }

    /** The switch on the instruction just marked. */
    method Follow(list: ThreadList, mark: int, pc: nat, captures: Captures, at: nat, ghost before: set<nat>)
      returns (ok: bool)
      requires Valid() && (list == current || list == next)
      requires steps <= MAX_STEPS && 0 < mark <= generation < 0x8000_0000
      requires pc < |program| && pc !in before && Marked(mark) == before + {pc}
      modifies this`steps, seen, list
      ensures Valid() && ok == (steps <= MAX_STEPS)
      ensures old(Now(list, mark)).Adds(PosixThreads.Closure(Run(), pc, captures, at, before),
                                        ClosureSteps(Run(), pc, captures, at, before) - 1, Now(list, mark))
      decreases |Run().Unvisited(before)|, 1
    {
      hide PosixThreads.Closure, ClosureSteps;
      assert list.Items() + [] == list.Items();
      FewerUnvisited(Run(), pc, before, Marked(mark));
      WaitingIsClosure(pc, captures, at, before);
      ok := true;
      match program[pc]
      case Split(x, y) => ok := AddBoth(list, mark, pc, x, y, captures, at, before);
      case Set(_) => list.Add(pc, captures);
      case Any => list.Add(pc, captures);
      case Match => list.Add(pc, captures);
      case _ =>
        var onward := Onward(pc, captures, at);
        OnwardIsClosure(pc, captures, at, before);
        if onward.Some? { ok := Add(list, mark, onward.value.pc, onward.value.captures, at); }
    }

    /** Where an instruction that neither waits nor branches leads, if its assertion holds. */
    function Onward(pc: nat, captures: Captures, at: nat): Option<Thread>
      requires pc < |program| && !program[pc].Split?
    {
      match program[pc]
      case Jmp(to) => Some(PosixThreads.Thread(to, captures))
      case Save(slot) => Some(PosixThreads.Thread(pc + 1, if !capture then captures else Store(captures, slot, at)))
      case Bol => if at == 0 then Some(PosixThreads.Thread(pc + 1, captures)) else None
      case Eol => if at == |text| then Some(PosixThreads.Thread(pc + 1, captures)) else None
      case _ => None
    }

    lemma WaitingIsClosure(pc: nat, captures: Captures, at: nat, before: set<nat>)
      requires pc < |program| && pc !in before
      ensures PosixThreads.Waits(Run(), pc) ==>
                && PosixThreads.Closure(Run(), pc, captures, at, before) == PosixThreads.Threads([PosixThreads.Thread.Thread(pc, captures)], before + {pc})
                && ClosureSteps(Run(), pc, captures, at, before) == 1
    {}

    lemma OnwardIsClosure(pc: nat, captures: Captures, at: nat, before: set<nat>)
      requires pc < |program| && pc !in before && !program[pc].Split? && !PosixThreads.Waits(Run(), pc)
      ensures var onward := Onward(pc, captures, at);
              PosixThreads.Closure(Run(), pc, captures, at, before)
              == if onward.None? then PosixThreads.Threads([], before + {pc})
                 else PosixThreads.Closure(Run(), onward.value.pc, onward.value.captures, at, before + {pc})
      ensures var onward := Onward(pc, captures, at);
              ClosureSteps(Run(), pc, captures, at, before)
              == 1 + if onward.None? then 0 else ClosureSteps(Run(), onward.value.pc, onward.value.captures, at, before + {pc})
    {}

    /** `split` tries `x` before `y`. */
    method AddBoth(list: ThreadList, mark: int, pc: nat, x: nat, y: nat, captures: Captures, at: nat,
                   ghost before: set<nat>)
      returns (ok: bool)
      requires Valid() && (list == current || list == next)
      requires steps <= MAX_STEPS && 0 < mark <= generation < 0x8000_0000
      requires pc < |program| && pc !in before && Marked(mark) == before + {pc} && program[pc] == Split(x, y)
      modifies this`steps, seen, list
      ensures Valid() && ok == (steps <= MAX_STEPS)
      ensures old(Now(list, mark)).Adds(PosixThreads.Closure(Run(), pc, captures, at, before),
                                        ClosureSteps(Run(), pc, captures, at, before) - 1, Now(list, mark))
      decreases |Run().Unvisited(before)|, 0
    {
      FewerUnvisited(Run(), pc, before, Marked(mark));
      ghost var s0 := Now(list, mark);
      ok := Add(list, mark, x, captures, at);
      if ok {
        FewerUnvisited(Run(), pc, before, Marked(mark));
        ghost var s1 := Now(list, mark);
        ok := Add(list, mark, y, captures, at);
        ghost var first := PosixThreads.Closure(Run(), x, captures, at, s0.marked);
        ghost var second := PosixThreads.Closure(Run(), y, captures, at, s1.marked);
        AddsThen(s0, s1, Now(list, mark), first, second, ClosureSteps(Run(), x, captures, at, s0.marked),
                 ClosureSteps(Run(), y, captures, at, s1.marked));
      }
    }
 
    /** The part of `advance` after the test for `match`: a thread that accepts `code` moves on. */
    method AdvanceThread(thread: Thread, ghost at: nat, code: int, nextPosition: nat, mark: int) returns (ok: bool)
      requires Valid() && steps <= MAX_STEPS && 0 < mark <= generation < 0x8000_0000
      requires at <= |text|
      requires if at == |text| then code == -1
               else code == CodePointAt(text, at) && nextPosition == Next(text, at)
      modifies this`steps, seen, next
      ensures Valid() && ok == (steps <= MAX_STEPS)
      ensures var c := if Run().Consumes(thread.pc, at)
                       then PosixThreads.Closure(Run(), thread.pc + 1, thread.captures, Next(text, at), old(Marked(mark)))
                       else PosixThreads.Threads([], old(Marked(mark)));
              var cost := if Run().Consumes(thread.pc, at)
                          then ClosureSteps(Run(), thread.pc + 1, thread.captures, Next(text, at), old(Marked(mark))) else 0;
              old(Now(next, mark)).Adds(c, cost, Now(next, mark))
      ensures at == |text| ==> Marked(mark) == old(Marked(mark))
    {
      assert next.Items() + [] == next.Items();
      ok := true;
      if code >= 0 && thread.pc < |program| {
        var accepts := program[thread.pc].Any?;
        if program[thread.pc].Set? {
          accepts := InPosixSet(program[thread.pc].chars, code);
        }
        if accepts {
          ok := Add(next, mark, thread.pc + 1, thread.captures, nextPosition);
        }
      }
    }

    /** Moves every thread over one code point, in priority order, up to the first that accepts. */
    method Advance(ghost at: nat, code: int, nextPosition: nat, mark: int)
      returns (ok: bool, matched: Option<Captures>)
      requires Valid() && steps <= MAX_STEPS && 0 < mark <= generation < 0x8000_0000
      requires at <= |text| && next.length == 0 && Marked(mark) == {}
      requires if at == |text| then code == -1
               else code == CodePointAt(text, at) && nextPosition == Next(text, at)
      modifies this`steps, seen, next
      ensures Valid() && ok == (steps <= MAX_STEPS) && current.Items() == old(current.Items())
      ensures steps == Spent(old(steps), AdvanceSteps(Run(), current.Items(), at, {}))
      ensures current.length > 0 ==> steps > old(steps)
      ensures at == |text| ==> Marked(mark) == {}
      ensures ok ==> (PosixThreads.Advanced(next.Items(), Marked(mark), matched)
                      == PosixThreads.Advance(Run(), current.Items(), at, {}))
    {
      hide Swept, PosixThreads.Closure, PosixThreads.Advance, Next, CodePointAt, ClosureSteps, AdvanceSteps;
      ghost var list := current.Items();
      ok, matched := true, None;
      var index := 0;
      SweptNone(Run(), list, at);
      AdvanceOver(list, at, {});
      while index < current.length
        invariant index <= current.length && Valid() && matched == None
        invariant current.Items() == list && ok && steps <= MAX_STEPS
        invariant steps >= old(steps) && (index > 0 ==> steps > old(steps))
        invariant steps + AdvanceSteps(Run(), list[index..], at, Marked(mark)) == old(steps) + AdvanceSteps(Run(), list, at, {})
        invariant at == |text| ==> Marked(mark) == {}
        invariant Swept(Run(), list, index, at, Now(next, mark).Threads())
      {
        var thread := current.threads[index];
        assert thread == list[index];
        ghost var before := Now(next, mark);
        AdvanceTurn(list, index, at, Marked(mark));
        ok := Charge();
        assert Marked(mark) == before.marked;
        if !ok { return; }
        if thread.pc < |program| && program[thread.pc].Match? {
          SweptAll(Run(), list, index, at, before.Threads());
          matched := Some(thread.captures);
          return;
        }
        ok := AdvanceThread(thread, at, code, nextPosition, mark);
        if !ok { return; }
        SweptOne(Run(), list, index, at, before.Threads(), Now(next, mark).Threads());
        index := index + 1;
      }
      AdvanceOver(list, at, Marked(mark));
      SweptAll(Run(), list, index, at, Now(next, mark).Threads());
    }

    lemma AdvanceTurn(list: seq<Thread>, index: nat, at: nat, seen: set<nat>)
      requires index < |list|
      ensures AdvanceSteps(Run(), list[index..], at, seen)
           == if AtMatch(Run(), list[index].pc) then 1
              else if Run().Consumes(list[index].pc, at) then
                1 + ClosureSteps(Run(), list[index].pc + 1, list[index].captures, Next(text, at), seen)
                + AdvanceSteps(Run(), list[index + 1..], at,
                               PosixThreads.Closure(Run(), list[index].pc + 1, list[index].captures, Next(text, at), seen).seen)
              else 1 + AdvanceSteps(Run(), list[index + 1..], at, seen)
    {
      hide ClosureSteps, PosixThreads.Closure;
      assert list[index..][1..] == list[index + 1..];
    }

    lemma AdvanceOver(list: seq<Thread>, at: nat, seen: set<nat>)
      ensures AdvanceSteps(Run(), list[|list|..], at, seen) == 0 && list[0..] == list
    {}

    method SwapLists()
      requires Valid()
      modifies this`current, this`next, current
      ensures Valid() && current == old(next) && next == old(current)
      ensures next.length == 0 && current.Items() == old(next.Items())
    {
      var previous := current;
      current := next;
      next := previous;
      next.length := 0;
    }

    /** Where the next thread may be started: here, or without threads at the next occurrence of the prefix, if any. */
    method StartAt(position: nat) returns (start: Option<nat>)
      requires Valid() && position <= |text|
      ensures current.length > 0 || prefix == [] ==> start == Some(position)
      ensures current.length == 0 && prefix != [] ==> start == IndexOf(text, prefix, position)
    {
      if current.length > 0 || prefix == [] { return Some(position); }
      return IndexOf(text, prefix, position);
    }
 
    /** Adds the closure of the program's start to the list, among the marks of the threads already in it. */
    method Seed(mark: int, empty: Captures, position: nat) returns (ok: bool, used: int)
      requires Valid() && steps <= MAX_STEPS && position <= |text|
      requires 0 <= mark <= generation <= 2 * steps && (current.length > 0 ==> mark > 0)
      modifies this`steps, this`generation, seen, current
      ensures Valid() && ok == (steps <= MAX_STEPS) && steps > old(steps)
      ensures 0 < used <= generation <= old(generation) + 1
      ensures next.length == old(next.length)
      ensures var marked := if old(current.length) == 0 then {} else old(Marked(mark));
              && Snap(old(current.Items()), marked, old(steps))
                 .Adds(PosixThreads.Closure(Run(), 0, empty, position, marked), ClosureSteps(Run(), 0, empty, position, marked),
                       Now(current, used))
    {
      used := mark;
      if current.length == 0 { used := Mark(); }
      ok := Add(current, used, 0, empty, position);
    }
 
    ghost function Live(mark: int): Threads
      reads this, current, seen
      requires current.Valid()
    {
      PosixThreads.Threads(current.Items(), Marked(mark))
    }

    /** What holds wherever the search loop pauses; the steps taken keep every mark below 2^31. */
    ghost predicate Paused(position: nat, mark: int)
      reads this, seen, current, next
    {
      && Valid() && position <= |text| && Boundary(text, position)
      && next.length == 0 && steps <= MAX_STEPS
      && 0 <= mark <= generation <= 2 * steps && (current.length > 0 ==> mark > 0)
    }

    /** The top of a turn: the threads here, an earlier match and later starts still owe `target`, and steps up to `cost`. */
    ghost predicate Turn(position: nat, mark: int, empty: Captures, matched: Option<Captures>, target: Option<Captures>, cost: nat)
      reads this, seen, current, next
    {
      && Paused(position, mark)
      && (matched.None? && current.length > 0 ==> CoveredSince(Run(), {}, Live(mark), position))
      && target == Answer(Run(), empty, Live(mark), position, matched)
      && cost == steps + SearchSteps(Run(), prefix, empty, current.Items(), Marked(mark), matched.Some?, position)
    }

    /** The middle of a turn: without a match yet, this start is among the threads. */
    ghost predicate Seeded(position: nat, mark: int, empty: Captures, matched: Option<Captures>, target: Option<Captures>, cost: nat)
      reads this, seen, current, next
    {
      && Paused(position, mark) && (generation < 2 * steps || current.length > 0)
      && (matched.None? ==> CoveredSince(Run(), {}, Live(mark), position))
      && target == OrElse(Hits(Run(), Live(mark), position), if matched.Some? then matched else Later(Run(), empty, position))
      && cost == steps + SweepSteps(Run(), prefix, empty, current.Items(), matched.Some?, position)
    }

    /** Seeding as the search accounts for it. */
    method SeedHere(position: nat, mark: int, empty: Captures, ghost target: Option<Captures>, ghost cost: nat)
      returns (ok: bool, used: int)
      requires Turn(position, mark, empty, None, target, cost)
      requires Start(Run(), prefix, current.Items(), position) == Some(position)
      modifies this`steps, this`generation, seen, current
      ensures Valid() && ok == (steps <= MAX_STEPS)
      ensures ok ==> Seeded(position, used, empty, None, target, cost)
      ensures !ok ==> cost > MAX_STEPS
    {
      hide SweepSteps, ClosureSteps, PosixThreads.Closure, FirstHit, Start;
      SeedKeepsAnswer(Run(), empty, if current.length == 0 then PosixThreads.Threads([], {}) else Live(mark), position);
      ok, used := Seed(mark, empty, position);
    }

    /** A search without threads owes the same at the next occurrence of the prefix. */
    lemma SkipTurn(position: nat, mark: int, empty: Captures, target: Option<Captures>, cost: nat)
      requires OwnPrefix() && Turn(position, mark, empty, None, target, cost)
      requires current.length == 0 && prefix != []
      ensures var next := IndexOf(text, prefix, position);
              if next.None? then target.None? && cost == steps
              else Turn(next.value, mark, empty, None, target, cost)
                   && Start(Run(), prefix, current.Items(), next.value) == next
    {
      hide FirstHit, Marked, SweepSteps, PosixThreads.Closure, ClosureSteps;
      SkipToPrefix(Run(), empty, position);
      NoThreads(Run(), empty, Live(mark), position);
      var next := IndexOf(text, prefix, position);
      if next.Some? { NoThreads(Run(), empty, Live(mark), next.value); }
    }

    /** Moves a search without threads to the next place the prefix occurs. */
    method Skip(position: nat, mark: int, ghost empty: Captures, ghost target: Option<Captures>, ghost cost: nat)
      returns (start: Option<nat>)
      requires OwnPrefix() && Turn(position, mark, empty, None, target, cost)
      ensures start.None? ==> target.None? && cost == steps
      ensures start.Some? ==> position <= start.value && Turn(start.value, mark, empty, None, target, cost)
                              && Start(Run(), prefix, current.Items(), start.value) == start
    {
      hide FirstHit, SearchSteps, CoveredSince, IndexOf;
      start := StartAt(position);
      if current.length == 0 && prefix != [] { SkipTurn(position, mark, empty, target, cost); }
    }

    /** The first half of a turn without a match yet: skip to the prefix, then start a thread there. */
    method Begin(position: nat, mark: int, empty: Captures, ghost target: Option<Captures>, ghost cost: nat)
      returns (ok: bool, start: Option<nat>, used: int)
      requires OwnPrefix() && Turn(position, mark, empty, None, target, cost)
      modifies this`steps, this`generation, seen, current
      ensures Valid() && ok == (steps <= MAX_STEPS)
      ensures start.None? ==> ok && target.None? && cost == steps
      ensures !ok ==> cost > MAX_STEPS
      ensures ok && start.Some? ==> position <= start.value && Seeded(start.value, used, empty, None, target, cost)
    {
      ok, used := true, mark;
      start := Skip(position, mark, empty, target, cost);
      if start.Some? { ok, used := SeedHere(start.value, mark, empty, target, cost); }
    }

    /** One pass of the threads over the code point at `position`, and the exchange of the lists. */
    method Sweep(position: nat)
      returns (ok: bool, candidate: Option<Captures>, nextMark: int, nextPosition: nat)
      requires Valid() && steps <= MAX_STEPS && position <= |text| && next.length == 0
      requires generation < 2 * steps || (current.length > 0 && generation <= 2 * steps)
      modifies this, seen, current, next
      ensures {current, next} == old({current, next})
      ensures Valid() && ok == (steps <= MAX_STEPS) && next.length == 0
      ensures steps == Spent(old(steps), AdvanceSteps(Run(), old(current.Items()), position, {}))
      ensures 0 < nextMark <= generation <= 2 * steps
      ensures position < |text| ==> nextPosition == Next(text, position)
      ensures ok ==> (PosixThreads.Advanced(current.Items(), Marked(nextMark), candidate)
                      == PosixThreads.Advance(Run(), old(current.Items()), position, {}))
    {
      hide PosixThreads.Advance, PosixThreads.Closure, AdvanceSteps;
      nextMark := Mark();
      var code := if position < |text| then CodePointAt(text, position) else -1;
      nextPosition := position + Width(code);
      ok, candidate := Advance(position, code, nextPosition, nextMark);
      SwapLists();
    }

    /** After a sweep inside the text, the next turn owes what this one did. */
    lemma SweepKeepsTurn(position: nat, mark: int, empty: Captures, t: Threads, matched: Option<Captures>,
                         candidate: Option<Captures>, target: Option<Captures>, cost: nat)
      requires position < |text| && Paused(Next(text, position), mark)
      requires target == OrElse(Hits(Run(), t, position), if matched.Some? then matched else Later(Run(), empty, position))
      requires PosixThreads.Advanced(current.Items(), Marked(mark), candidate)
            == PosixThreads.Advance(Run(), t.list, position, {})
      requires cost + AdvanceSteps(Run(), t.list, position, {})
            == steps + SweepSteps(Run(), prefix, empty, t.list, matched.Some?, position)
      ensures Turn(Next(text, position), mark, empty, OrElse(candidate, matched), target, cost)
    {
      hide SearchSteps, AdvanceSteps;
      StepKeepsAnswer(Run(), empty, t, position, matched);
      if candidate.None? { AdvanceCovers(Run(), t.list, position, {}); }
    }

    /** After a sweep at the end of the text no thread is left and the answer is at hand. */
    lemma SweepEndsSearch(mark: int, empty: Captures, t: Threads, matched: Option<Captures>, candidate: Option<Captures>)
      requires current.Valid()
      requires PosixThreads.Advanced(current.Items(), Marked(mark), candidate)
            == PosixThreads.Advance(Run(), t.list, |text|, {})
      ensures current.length == 0
      ensures OrElse(Hits(Run(), t, |text|), if matched.Some? then matched else Later(Run(), empty, |text|))
           == OrElse(candidate, matched)
    {
      LastStep(Run(), t.list, Run().Fresh()[|text| := t.seen], {});
    }

    /** The steps of a sweep, and those after it. */
    lemma SweepOwes(empty: Captures, list: seq<Thread>, matched: bool, position: nat)
      requires position <= |text|
      ensures SweepSteps(Run(), prefix, empty, list, matched, position) >= AdvanceSteps(Run(), list, position, {})
      ensures position == |text| ==>
                SweepSteps(Run(), prefix, empty, list, matched, position) == AdvanceSteps(Run(), list, position, {})
    {
      hide AdvanceSteps, SearchSteps, PosixThreads.Advance;
    }

    /** The second half: step every thread over one code point into the other list. */
    method StepOver(position: nat, mark: int, ghost empty: Captures, matched: Option<Captures>, ghost target: Option<Captures>, ghost cost: nat)
      returns (ok: bool, found: Option<Captures>, nextMark: int, nextPosition: nat)
      requires Seeded(position, mark, empty, matched, target, cost)
      modifies this, seen, current, next
      ensures {current, next} == old({current, next})
      ensures Valid() && ok == (steps <= MAX_STEPS) && (!ok ==> cost > MAX_STEPS)
      ensures (found.None? ==> matched.None?) && position <= |text|
      ensures ok && position == |text| ==> current.length == 0 && target == found && cost == steps
      ensures ok && position < |text| ==>
                nextPosition == Next(text, position) && Turn(nextPosition, nextMark, empty, found, target, cost)
    {
      hide PosixThreads.Advance, PosixThreads.Closure, CoveredSince, Later, Hits, Turn, AdvanceSteps, SweepSteps;
      ghost var t := Live(mark);
      SweepOwes(empty, t.list, matched.Some?, position);
      var candidate;
      ok, candidate, nextMark, nextPosition := Sweep(position);
      found := if candidate.Some? then candidate else matched;
      if !ok { return; }
      if position < |text| {
        NextIsBoundary(text, position);
        SweepKeepsTurn(position, nextMark, empty, t, matched, candidate, target, cost);
      } else {
        SweepEndsSearch(nextMark, empty, t, matched, candidate);
      }
    }

    /** A search starts with everything still to be found. */
    lemma FirstTurn(from: nat, empty: Captures)
      requires Valid() && from <= |text| && Boundary(text, from) && steps == 0 && generation == 0
      requires current.length == 0 && next.length == 0 && Marked(0) == {}
      ensures Turn(from, 0, empty, None, Captured(FirstHit(Run(), empty, from)), SearchCost(Run(), prefix, empty, from))
    {
      hide SearchSteps, FirstHit;
      assert current.Items() == [];
    }

    /** A match found in a turn answers the search, and is the answer once no thread is left. */
    lemma FoundInTurn(position: nat, mark: int, empty: Captures, matched: Option<Captures>, target: Option<Captures>, cost: nat)
      requires Turn(position, mark, empty, matched, target, cost)
      ensures Valid() && position <= |text|
      ensures matched.Some? ==> target.Some? && (current.length == 0 ==> target == matched)
      ensures matched.Some? && (!capture || current.length == 0) ==> cost == steps
    {
      hide FirstHit, CoveredSince, SweepSteps, PosixThreads.Closure, ClosureSteps;
    }

    /** With a match found and threads alive, no new thread is started. */
    lemma TurnGoesOn(position: nat, mark: int, empty: Captures, matched: Option<Captures>, target: Option<Captures>, cost: nat)
      requires Turn(position, mark, empty, matched, target, cost) && matched.Some? && capture && current.length > 0
      ensures Seeded(position, mark, empty, matched, target, cost)
    {
      hide FirstHit, CoveredSince, SweepSteps, PosixThreads.Closure, ClosureSteps;
    }

    /** `undefined` is no match. */
    function Result(matched: Option<Captures>): SearchResult {
      match matched case None => NoMatch case Some(captures) => Found(captures)
    }

    method Search(from: nat, slots: nat) returns (result: SearchResult)
      requires Valid() && OwnPrefix() && from <= |text| && Boundary(text, from)
      requires steps == 0 && generation == 0 && current.length == 0 && next.length == 0 && Marked(0) == {}
      requires capture || slots == 0
      modifies this, seen, current, next
      ensures var cost := SearchCost(Run(), prefix, seq(slots, _ => -1), from);
              steps == Spent(0, cost) && (result.TooExpensive? <==> cost > MAX_STEPS)
      ensures var first := FirstHit(Run(), seq(slots, _ => -1), from);
              && (result.NoMatch? ==> first.None?)
              && (result.Found? ==> first.Some? && (capture ==> result.captures == first.value.1.captures))
    {
      hide Turn, Seeded, FirstHit, CoveredSince, Later, Hits, Marked, OwnPrefix, SearchCost;
      var empty := seq(slots, _ => -1);
      ghost var target, cost := Captured(FirstHit(Run(), empty, from)), SearchCost(Run(), prefix, empty, from);
      var currentMark, position := 0, from;
      FirstTurn(from, empty);
      var matched: Option<Captures> := None;
      while true
        invariant {current, next} == old({current, next}) && empty == seq(slots, _ => -1)
        invariant Turn(position, currentMark, empty, matched, target, cost)
        invariant matched.Some? ==> capture && current.length > 0
        invariant position <= |text|
        decreases |text| - position
      {
        var ok, nextPosition;
        if matched.None? {
          var start;
          ok, start, currentMark := Begin(position, currentMark, empty, target, cost);
          if start.None? { return NoMatch; }
          if !ok { return TooExpensive; }
          position := start.value;
        } else {
          TurnGoesOn(position, currentMark, empty, matched, target, cost);
        }
        assert Seeded(position, currentMark, empty, matched, target, cost);
        ok, matched, currentMark, nextPosition := StepOver(position, currentMark, empty, matched, target, cost);
        if !ok { return TooExpensive; }
        if position < |text| { FoundInTurn(nextPosition, currentMark, empty, matched, target, cost); }
        if matched.Some? && (!capture || current.length == 0) { break; }
        if position >= |text| { break; }
        position := nextPosition;
      }
      result := Result(matched);
    }
  }
}
