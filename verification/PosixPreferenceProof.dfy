/** Plain backtracking on a compiled program finds the match that its tree prefers. */
module PosixPreferenceProof {
  import opened Sequences
  import opened Utf16
  import opened PosixCharset
  import opened P = PosixProgram
  import opened PosixBacktrack
  import opened PosixPriority
  import S = PosixSyntax
  import opened PosixCode
  import opened PosixCompiler
  import opened PosixMeaning
  import opened PosixPreference

  /** The code of a tree holds one instruction for each of its places. */
  lemma {:induction false} PlacedIsSized(program: Program, node: S.Node, base: nat, end: nat)
    requires Placed(program, node, base, end)
    ensures end == base + S.Size(node)
    decreases node, 0, 0
  {
    match node
    case Cat(left, right) =>
      var mid: nat :| Placed(program, left, base, mid) && Placed(program, right, mid, end);
      PlacedIsSized(program, left, base, mid);
      PlacedIsSized(program, right, mid, end);
    case Alt(left, right) =>
      var y: nat :| && base + 1 < y <= |program| && program[base] == Split(base + 1, y)
                    && Placed(program, left, base + 1, y - 1) && program[y - 1] == Jmp(end) && Placed(program, right, y, end);
      PlacedIsSized(program, left, base + 1, y - 1);
      PlacedIsSized(program, right, y, end);
    case Group(body, index) => PlacedIsSized(program, body, base + 1, end - 1);
    case Repeat(body, min, None) =>
      var tail: nat :| PlacedCopies(program, body, min, base, tail) && PlacedStar(program, body, tail, end);
      CopiesAreSized(program, body, min, base, tail);
      PlacedIsSized(program, body, tail + 1, end - 1);
    case Repeat(body, min, Some(most)) =>
      var n := if most < min then 0 else most - min;
      var tail: nat :| PlacedCopies(program, body, min, base, tail) && PlacedOptional(program, body, n, tail, end);
      CopiesAreSized(program, body, min, base, tail);
      OptionalIsSized(program, body, n, tail, end);
    case _ =>
  }

  lemma {:induction false} CopiesAreSized(program: Program, body: S.Node, n: nat, base: nat, end: nat)
    requires PlacedCopies(program, body, n, base, end)
    ensures end == base + S.Times(n, S.Size(body))
    decreases body, 1, n
  {
    if n > 0 {
      var mid: nat :| Placed(program, body, base, mid) && PlacedCopies(program, body, n - 1, mid, end);
      PlacedIsSized(program, body, base, mid);
      CopiesAreSized(program, body, n - 1, mid, end);
    }
  }

  lemma {:induction false} OptionalIsSized(program: Program, body: S.Node, n: nat, base: nat, end: nat)
    requires PlacedOptional(program, body, n, base, end)
    ensures end == base + S.Times(n, 1 + S.Size(body))
    decreases body, 1, n
  {
    if n > 0 {
      var mid: nat :| Placed(program, body, base + 1, mid) && PlacedOptional(program, body, n - 1, mid, end);
      PlacedIsSized(program, body, base + 1, mid);
      OptionalIsSized(program, body, n - 1, mid, end);
    }
  }

  /** The code of one task, whose first place is the instruction at `pc`. */
  ghost predicate Fits(program: Program, task: Task, pc: nat, end: nat) {
    match task
    case Do(node, place) => place + 1 == pc && Placed(program, node, pc, end)
    case Close(index) => pc < |program| && end == pc + 1 && program[pc] == Save(index * 2 + 1)
    case Copies(body, n, place) => place + 1 == pc && PlacedCopies(program, body, n, pc, end)
    case Turns(body, place) => place + 1 == pc && PlacedStar(program, body, pc, end)
    case UpTo(body, n, place) => place + 1 == pc && PlacedOptional(program, body, n, pc, end)
  }

  /** After `jumps` jumps the program at `pc` is the code of the work. */
  ghost predicate Runs(program: Program, work: Work, pc: nat, jumps: nat)
    decreases work, jumps
  {
    && pc < |program|
    && if jumps > 0 then program[pc].Jmp? && Runs(program, work, program[pc].to, jumps - 1)
       else
         match work
         case Done => pc == |program| - 2
         case Then(task, rest) => exists end: nat, more: nat :: Fits(program, task, pc, end) && Runs(program, rest, end, more)
  }

  /** The code of a task, and that of what follows it. */
  lemma RunsApart(program: Program, task: Task, rest: Work, pc: nat) returns (end: nat, more: nat)
    requires Runs(program, Then(task, rest), pc, 0)
    ensures pc < |program| && end < |program| && Fits(program, task, pc, end) && Runs(program, rest, end, more)
  {
    end, more :| Fits(program, task, pc, end) && Runs(program, rest, end, more);
  }

  lemma RunsTogether(program: Program, task: Task, rest: Work, pc: nat, end: nat, more: nat)
    requires Fits(program, task, pc, end) && Runs(program, rest, end, more)
    ensures Runs(program, Then(task, rest), pc, 0)
  {
    assert pc <= end by { hide Placed, PlacedStar, PlacedCopies, PlacedOptional; FitsForward(program, task, pc, end); }
  }

  lemma FitsForward(program: Program, task: Task, pc: nat, end: nat)
    requires Fits(program, task, pc, end)
    ensures pc <= end
  {}

  /** The code of two tasks in a row. */
  lemma RunsBoth(program: Program, first: Task, second: Task, rest: Work, pc: nat, mid: nat, end: nat, more: nat)
    requires Fits(program, first, pc, mid) && Fits(program, second, mid, end) && Runs(program, rest, end, more)
    ensures Runs(program, Both(first, second, rest), pc, 0)
  {
    hide Runs, Fits;
    RunsTogether(program, second, rest, mid, end, more);
    RunsTogether(program, first, Then(second, rest), pc, mid, 0);
  }

  lemma CatParts(program: Program, left: S.Node, right: S.Node, base: nat, end: nat) returns (mid: nat)
    requires Placed(program, S.Cat(left, right), base, end)
    ensures Placed(program, left, base, mid) && Placed(program, right, mid, end) && mid == base + S.Size(left)
  {
    mid :| Placed(program, left, base, mid) && Placed(program, right, mid, end);
    PlacedIsSized(program, left, base, mid);
  }

  lemma RunsCat(program: Program, left: S.Node, right: S.Node, place: nat, rest: Work, pc: nat)
    requires Runs(program, Then(Do(S.Cat(left, right), place), rest), pc, 0)
    ensures Runs(program, Both(Do(left, place), Do(right, place + S.Size(left)), rest), pc, 0)
  {
    hide Runs, Placed, S.Size;
    var end, more := RunsApart(program, Do(S.Cat(left, right), place), rest, pc);
    var mid := CatParts(program, left, right, pc, end);
    RunsBoth(program, Do(left, place), Do(right, place + S.Size(left)), rest, pc, mid, end, more);
  }

  lemma AltParts(program: Program, left: S.Node, right: S.Node, base: nat, end: nat) returns (y: nat)
    requires Placed(program, S.Alt(left, right), base, end)
    ensures base + 1 < y <= end && y <= |program| && program[base] == Split(base + 1, y) && program[y - 1] == Jmp(end)
    ensures Placed(program, left, base + 1, y - 1) && Placed(program, right, y, end)
    ensures y == base + 2 + S.Size(left)
  {
    y :| && base + 1 < y <= |program| && program[base] == Split(base + 1, y)
         && Placed(program, left, base + 1, y - 1) && program[y - 1] == Jmp(end) && Placed(program, right, y, end);
    PlacedIsSized(program, left, base + 1, y - 1);
  }

  lemma RunsAlt(program: Program, left: S.Node, right: S.Node, place: nat, rest: Work, pc: nat)
    requires Runs(program, Then(Do(S.Alt(left, right), place), rest), pc, 0)
    ensures place + 1 == pc < |program| && program[pc].Split?
    ensures Runs(program, Then(Do(left, place + 1), rest), program[pc].x, 0)
    ensures Runs(program, Then(Do(right, place + 2 + S.Size(left)), rest), program[pc].y, 0)
  {
    hide Runs, Placed, S.Size;
    var end, more := RunsApart(program, Do(S.Alt(left, right), place), rest, pc);
    var y := AltParts(program, left, right, pc, end);
    RunsJump(program, rest, y - 1, more);
    RunsTogether(program, Do(left, place + 1), rest, pc + 1, y - 1, more + 1);
    RunsTogether(program, Do(right, place + 2 + S.Size(left)), rest, y, end, more);
  }

  lemma RunsJump(program: Program, work: Work, pc: nat, more: nat)
    requires pc < |program| && program[pc].Jmp? && Runs(program, work, program[pc].to, more)
    ensures Runs(program, work, pc, more + 1)
  {}

  lemma RunsGroup(program: Program, body: S.Node, index: nat, place: nat, rest: Work, pc: nat)
    requires Runs(program, Then(Do(S.Group(body, index), place), rest), pc, 0)
    ensures pc < |program| && program[pc] == Save(index * 2)
    ensures Runs(program, Both(Do(body, place + 1), Close(index), rest), pc + 1, 0)
  {
    hide Runs;
    var end, more := RunsApart(program, Do(S.Group(body, index), place), rest, pc);
    RunsBoth(program, Do(body, place + 1), Close(index), rest, pc + 1, end - 1, end, more);
  }

  lemma CopyParts(program: Program, body: S.Node, n: nat, base: nat, end: nat) returns (mid: nat)
    requires n > 0 && PlacedCopies(program, body, n, base, end)
    ensures Placed(program, body, base, mid) && PlacedCopies(program, body, n - 1, mid, end) && mid == base + S.Size(body)
  {
    mid :| Placed(program, body, base, mid) && PlacedCopies(program, body, n - 1, mid, end);
    PlacedIsSized(program, body, base, mid);
  }

  lemma RunsCopies(program: Program, body: S.Node, n: nat, place: nat, rest: Work, pc: nat)
    requires n > 0 && Runs(program, Then(Copies(body, n, place), rest), pc, 0)
    ensures Runs(program, Both(Do(body, place), Copies(body, n - 1, place + S.Size(body)), rest), pc, 0)
  {
    hide Runs, Placed, PlacedCopies, S.Size;
    var end, more := RunsApart(program, Copies(body, n, place), rest, pc);
    var mid := CopyParts(program, body, n, pc, end);
    RunsBoth(program, Do(body, place), Copies(body, n - 1, place + S.Size(body)), rest, pc, mid, end, more);
  }

  lemma RunsTurns(program: Program, body: S.Node, place: nat, rest: Work, pc: nat) returns (more: nat)
    requires Runs(program, Then(Turns(body, place), rest), pc, 0)
    ensures place + 1 == pc < |program| && program[pc].Split?
    ensures Runs(program, Both(Do(body, place + 1), Turns(body, place), rest), program[pc].x, 0)
    ensures Runs(program, rest, program[pc].y, more)
  {
    hide Runs, Placed;
    var end, last := RunsApart(program, Turns(body, place), rest, pc);
    more := last;
    RunsJump(program, Then(Turns(body, place), rest), end - 1, 0);
    RunsTogether(program, Do(body, place + 1), Then(Turns(body, place), rest), pc + 1, end - 1, 1);
  }

  lemma OptionalParts(program: Program, body: S.Node, n: nat, base: nat, end: nat) returns (mid: nat)
    requires n > 0 && PlacedOptional(program, body, n, base, end)
    ensures base < |program| && program[base] == Split(base + 1, end)
    ensures Placed(program, body, base + 1, mid) && PlacedOptional(program, body, n - 1, mid, end) && mid == base + 1 + S.Size(body)
  {
    mid :| Placed(program, body, base + 1, mid) && PlacedOptional(program, body, n - 1, mid, end);
    PlacedIsSized(program, body, base + 1, mid);
  }

  lemma RunsUpTo(program: Program, body: S.Node, n: nat, place: nat, rest: Work, pc: nat) returns (more: nat)
    requires n > 0 && Runs(program, Then(UpTo(body, n, place), rest), pc, 0)
    ensures place + 1 == pc < |program| && program[pc].Split?
    ensures Runs(program, Both(Do(body, place + 1), UpTo(body, n - 1, place + 1 + S.Size(body)), rest), program[pc].x, 0)
    ensures Runs(program, rest, program[pc].y, more)
  {
    hide Runs, Placed, PlacedOptional, S.Size;
    var end, last := RunsApart(program, UpTo(body, n, place), rest, pc);
    more := last;
    var mid := OptionalParts(program, body, n, pc, end);
    RunsBoth(program, Do(body, place + 1), UpTo(body, n - 1, place + 1 + S.Size(body)), rest, pc + 1, mid, end, more);
  }

  lemma RepeatParts(program: Program, body: S.Node, min: nat, max: Option<nat>, base: nat, end: nat) returns (mid: nat)
    requires Placed(program, S.Repeat(body, min, max), base, end)
    ensures PlacedCopies(program, body, min, base, mid) && mid == base + S.Times(min, S.Size(body))
    ensures match max
            case None => PlacedStar(program, body, mid, end)
            case Some(most) => PlacedOptional(program, body, if most < min then 0 else most - min, mid, end)
  {
    mid :| && PlacedCopies(program, body, min, base, mid)
           && match max
              case None => PlacedStar(program, body, mid, end)
              case Some(most) => PlacedOptional(program, body, if most < min then 0 else most - min, mid, end);
    CopiesAreSized(program, body, min, base, mid);
  }

  lemma RunsRepeat(program: Program, body: S.Node, min: nat, max: Option<nat>, place: nat, rest: Work, pc: nat)
    requires Runs(program, Then(Do(S.Repeat(body, min, max), place), rest), pc, 0)
    ensures var tail := Tail(body, min, max, place + S.Times(min, S.Size(body)));
            Runs(program, Both(Copies(body, min, place), tail, rest), pc, 0)
  {
    hide Runs, Placed, PlacedCopies, PlacedStar, PlacedOptional, S.Times, S.Size;
    var end, more := RunsApart(program, Do(S.Repeat(body, min, max), place), rest, pc);
    var mid := RepeatParts(program, body, min, max, pc, end);
    var tail := Tail(body, min, max, place + S.Times(min, S.Size(body)));
    RunsBoth(program, Copies(body, min, place), tail, rest, pc, mid, end, more);
  }

  /** A task without code is followed by the rest at once. */
  lemma RunsNothing(program: Program, task: Task, rest: Work, pc: nat) returns (more: nat)
    requires Runs(program, Then(task, rest), pc, 0)
    requires (task.Do? && task.node.Empty?) || ((task.Copies? || task.UpTo?) && task.n == 0)
    ensures Runs(program, rest, pc, more)
  {
    hide Runs;
    var end, last := RunsApart(program, task, rest, pc);
    more := last;
    assert end == pc;
  }

  /** A task of one instruction is followed by the rest at the next. */
  lemma RunsOne(program: Program, task: Task, rest: Work, pc: nat) returns (more: nat)
    requires Runs(program, Then(task, rest), pc, 0)
    requires task.Close? || (task.Do? && (task.node.Set? || task.node.Any? || task.node.Bol? || task.node.Eol?))
    ensures task.Close? ==> program[pc] == Save(task.index * 2 + 1)
    ensures task.Do? && task.node.Set? ==> program[pc] == P.Set(task.node.chars)
    ensures task.Do? && task.node.Any? ==> program[pc] == P.Any
    ensures task.Do? && task.node.Bol? ==> program[pc] == P.Bol
    ensures task.Do? && task.node.Eol? ==> program[pc] == P.Eol
    ensures Runs(program, rest, pc + 1, more)
  {
    hide Runs;
    var end, last := RunsApart(program, task, rest, pc);
    more := last;
    if task.Do? { assert Placed(program, task.node, pc, end); }
    assert end == pc + 1;
  }

  /** Where an instruction that neither branches nor reads goes on. */
  ghost function Onward(m: Machine, pc: nat, at: nat): Option<nat> {
    if pc >= |m.program| then None
    else
      match m.program[pc]
      case Jmp(to) => Some(to)
      case Save(_) => Some(pc + 1)
      case Bol => if at == 0 then Some(pc + 1) else None
      case Eol => if at == |m.text| then Some(pc + 1) else None
      case _ => None
  }

  /** The instructions entered at an offset are choices or have gone on, the last of them to `pc`. */
  ghost predicate Followed(m: Machine, entered: set<nat>, pc: nat, at: nat) {
    forall q: nat | q in entered ::
      && q < |m.program|
      && (m.program[q].Split? || (Onward(m, q, at).Some? && Onward(m, q, at).value in entered + {pc}))
  }

  /** The choices still free are the branches not entered. */
  ghost predicate Tells(m: Machine, entered: set<nat>, free: set<nat>) {
    && |m.program| >= 3
    && (forall p: nat | p in free :: p < |m.program| - 3)
    && forall p: nat | p < |m.program| - 3 && m.program[p + 1].Split? :: p in free <==> p + 1 !in entered
  }

  /** An instruction entered at an offset is never a `match` and leads to instructions entered there. */
  lemma EnteredGoesOn(m: Machine, entered: set<nat>, pc: nat, at: nat)
    requires Followed(m, entered, pc, at) && pc in entered
    ensures pc < |m.program| && (m.program[pc].Split? || (Onward(m, pc, at).Some? && Onward(m, pc, at).value in entered))
    ensures forall q: nat | q in entered :: Followed(m, entered, q, at)
  {
    forall q: nat | q in entered ensures Followed(m, entered, q, at) { assert entered + {pc} == entered == entered + {q}; }
  }

  lemma NotLast(m: Machine, entered: set<nat>, pc: nat, at: nat)
    requires Shaped(m.program) && Followed(m, entered, pc, at) && pc in entered
    ensures pc != |m.program| - 2
  {
    var last: nat := |m.program| - 1;
    assert last !in entered;
    EnteredGoesOn(m, entered, pc, at);
  }

  lemma ChoiceTold(m: Machine, entered: set<nat>, free: set<nat>, place: nat)
    requires Shaped(m.program) && Tells(m, entered, free) && place + 1 < |m.program| && m.program[place + 1].Split?
    ensures place in free <==> place + 1 !in entered
  {}

  /** What an instruction that neither branches nor reads does to the captures. */
  ghost function Stored(m: Machine, pc: nat, at: nat, captures: Captures): Captures
    requires pc < |m.program|
  {
    if m.program[pc].Save? then Store(captures, m.program[pc].slot, at) else captures
  }

  /** The code of a task does what the task does next; a move without code leaves the machine where it is. */
  ghost predicate Follows(m: Machine, move: Move, rest: Work, pc: nat, at: nat, captures: Captures, silent: bool, more: nat)
    requires pc < |m.program|
  {
    match move
    case Stuck => !m.program[pc].Split? && !m.program[pc].Match? && Onward(m, pc, at).None? && !m.Consumes(pc, at)
    case Takes => m.Consumes(pc, at) && Runs(m.program, rest, pc + 1, more)
    case Faces(place, first, second) =>
      && m.program[pc].Split? && place + 1 == pc
      && Runs(m.program, first, m.program[pc].x, 0) && Runs(m.program, second, m.program[pc].y, more)
    case Goes(work, after) =>
      if silent then after == captures && Runs(m.program, work, pc, more)
      else Onward(m, pc, at) == Some(pc + 1) && after == Stored(m, pc, at, captures) && Runs(m.program, work, pc + 1, more)
  }

  lemma CodeFollowsInside(m: Machine, node: S.Node, place: nat, rest: Work, pc: nat, at: nat, captures: Captures)
    returns (silent: bool, more: nat)
    requires at <= |m.text| && Runs(m.program, Then(Do(node, place), rest), pc, 0)
    ensures pc < |m.program|
    ensures Follows(m, Inside(node, place, rest, m.text, at, captures), rest, pc, at, captures, silent, more)
  {
    hide Placed, PlacedCopies, PlacedStar, PlacedOptional, Fits, InSet, CodePointAt, Runs, Store, Load, Weight, Burden;
    silent, more := false, 0;
    var _, _ := RunsApart(m.program, Do(node, place), rest, pc);
    match node
    case Empty =>
      silent := true;
      more := RunsNothing(m.program, Do(node, place), rest, pc);
    case Cat(left, right) =>
      silent := true;
      RunsCat(m.program, left, right, place, rest, pc);
    case Alt(left, right) => RunsAlt(m.program, left, right, place, rest, pc);
    case Group(body, index) => RunsGroup(m.program, body, index, place, rest, pc);
    case Repeat(body, min, max) =>
      silent := true;
      RunsRepeat(m.program, body, min, max, place, rest, pc);
    case _ => more := RunsOne(m.program, Do(node, place), rest, pc);
  }

  lemma CodeFollows(m: Machine, task: Task, rest: Work, pc: nat, at: nat, captures: Captures) returns (silent: bool, more: nat)
    requires at <= |m.text| && Runs(m.program, Then(task, rest), pc, 0)
    ensures pc < |m.program| && Follows(m, Ahead(task, rest, m.text, at, captures), rest, pc, at, captures, silent, more)
  {
    hide Placed, PlacedCopies, PlacedStar, PlacedOptional, Fits, Inside, Runs, Store, Load, Weight, Burden;
    silent, more := false, 0;
    var _, _ := RunsApart(m.program, task, rest, pc);
    match task
    case Do(node, place) => silent, more := CodeFollowsInside(m, node, place, rest, pc, at, captures);
    case Close(_) => more := RunsOne(m.program, task, rest, pc);
    case Copies(body, n, place) =>
      silent := true;
      if n == 0 {
        more := RunsNothing(m.program, task, rest, pc);
      } else {
        RunsCopies(m.program, body, n, place, rest, pc);
      }
    case Turns(body, place) => more := RunsTurns(m.program, body, place, rest, pc);
    case UpTo(body, n, place) =>
      if n == 0 {
        silent := true;
        more := RunsNothing(m.program, task, rest, pc);
      } else {
        more := RunsUpTo(m.program, body, n, place, rest, pc);
      }
  }

  /** Nothing is to be had from instructions that lead only back to choices already faced. */
  lemma {:induction false} Dead(m: Machine, work: Work, pc: nat, jumps: nat, at: nat, captures: Captures, entered: set<nat>,
                                free: set<nat>, all: set<nat>)
    requires at <= |m.text| && Shaped(m.program) && Runs(m.program, work, pc, jumps)
    requires Followed(m, entered, pc, at) && pc in entered && Tells(m, entered, free)
    ensures Prefer(work, m.text, at, captures, free, all).None?
    decreases Load(work), jumps
  {
    hide Shaped, Tells, Followed, Fits, Ahead;
    EnteredGoesOn(m, entered, pc, at);
    if jumps > 0 {
      Dead(m, work, m.program[pc].to, jumps - 1, at, captures, entered, free, all);
    } else {
      match work
      case Done => NotLast(m, entered, pc, at);
      case Then(task, rest) =>
        var silent, more := CodeFollows(m, task, rest, pc, at, captures);
        match Ahead(task, rest, m.text, at, captures)
        case Stuck =>
        case Takes =>
        case Faces(place, first, second) => ChoiceTold(m, entered, free, place);
        case Goes(onward, after) => Dead(m, onward, if silent then pc else pc + 1, more, at, after, entered, free, all);
    }
  }

  /** Nothing has been entered beyond the offset. */
  ghost predicate Untouched(path: Visited, at: nat) {
    forall p: nat | at < p < |path| :: path[p] == {}
  }

  /** A hit with its end in slot 1. */
  ghost function Ended(hit: Option<Hit>): Option<Hit> {
    if hit.Some? then Some(Hit(Store(hit.value.captures, 1, hit.value.end), hit.value.end)) else None
  }

  /** Where plain backtracking and the tree's preference stand side by side. */
  ghost predicate Abreast(m: Machine, work: Work, pc: nat, jumps: nat, at: nat, path: Visited, free: set<nat>) {
    && m.capture && Shaped(m.program) && m.Valid(at, path) && Untouched(path, at)
    && Runs(m.program, work, pc, jumps) && Followed(m, path[at], pc, at) && Tells(m, path[at], free)
  }

  /** Entering an instruction that neither branches nor reads. */
  lemma Passes(m: Machine, pc: nat, at: nat, path: Visited, free: set<nat>) returns (onward: Visited)
    requires m.Valid(at, path) && Untouched(path, at) && Followed(m, path[at], pc, at) && Tells(m, path[at], free)
    requires pc !in path[at] && Onward(m, pc, at).Some?
    ensures onward == path[at := path[at] + {pc}]
    ensures m.Valid(at, onward) && Untouched(onward, at) && Tells(m, onward[at], free)
    ensures Followed(m, onward[at], Onward(m, pc, at).value, at)
    ensures |m.Unvisited(onward[at])| < |m.Unvisited(path[at])|
  {
    onward := path[at := path[at] + {pc}];
    FewerUnvisited(m, pc, path[at], onward[at]);
  }

  /** Entering a branch. */
  lemma Branches(m: Machine, pc: nat, at: nat, path: Visited, free: set<nat>) returns (onward: Visited)
    requires m.Valid(at, path) && Untouched(path, at) && Followed(m, path[at], pc, at) && Tells(m, path[at], free)
    requires 0 < pc < |m.program| && pc !in path[at] && m.program[pc].Split?
    ensures onward == path[at := path[at] + {pc}]
    ensures m.Valid(at, onward) && Untouched(onward, at) && Tells(m, onward[at], free - {pc - 1})
    ensures forall q: nat :: Followed(m, onward[at], q, at)
    ensures |m.Unvisited(onward[at])| < |m.Unvisited(path[at])|
  {
    onward := path[at := path[at] + {pc}];
    FewerUnvisited(m, pc, path[at], onward[at]);
  }

  /** Consuming input leaves every choice open. */
  lemma Consumed(m: Machine, pc: nat, at: nat, path: Visited, to: nat, all: set<nat>)
    requires m.Valid(at, path) && Untouched(path, at) && at < |m.text| && to == Next(m.text, at)
    requires Shaped(m.program) && all == Below(|m.program| - 3)
    ensures var onward := path[at := path[at] + {pc}];
            m.Valid(to, onward) && Untouched(onward, to) && onward[to] == {} && Tells(m, {}, all)
    ensures forall q: nat :: Followed(m, {}, q, to)
  {}

  /** Both end the match: the outer save, then `match`. */
  lemma Ends(m: Machine, pc: nat, at: nat, captures: Captures, path: Visited, free: set<nat>)
    requires Abreast(m, Done, pc, 0, at, path, free) && pc !in path[at]
    ensures Plain(m, pc, at, captures, path) == Some(Hit(Store(captures, 1, at), at))
  {
    var onward := Passes(m, pc, at, path, free);
    var last: nat := |m.program| - 1;
    assert m.program[pc] == Save(1) && m.program[last] == Match;
    assert last !in path[at];
    assert last !in onward[at];
    assert Plain(m, last, at, Store(captures, 1, at), onward) == Some(Hit(Store(captures, 1, at), at));
  }

  /** Plain backtracking finds what the tree prefers. */
  lemma {:induction false} Simulates(m: Machine, work: Work, pc: nat, jumps: nat, at: nat, captures: Captures, path: Visited,
                                     free: set<nat>, all: set<nat>)
    requires Abreast(m, work, pc, jumps, at, path, free) && all == Below(|m.program| - 3)
    ensures Plain(m, pc, at, captures, path) == Ended(Prefer(work, m.text, at, captures, free, all))
    decreases |m.text| - at, |m.Unvisited(path[at])|, Load(work), jumps, 1
  {
    hide Shaped, Tells, Followed, Untouched, Fits, Below, Ahead;
    if pc in path[at] {
      Dead(m, work, pc, jumps, at, captures, path[at], free, all);
    } else if jumps > 0 {
      var onward := Passes(m, pc, at, path, free);
      Simulates(m, work, m.program[pc].to, jumps - 1, at, captures, onward, free, all);
    } else {
      match work
      case Done => Ends(m, pc, at, captures, path, free);
      case Then(task, rest) => SimulatesTask(m, task, rest, pc, at, captures, path, free, all);
    }
  }

  lemma {:induction false} SimulatesTask(m: Machine, task: Task, rest: Work, pc: nat, at: nat, captures: Captures, path: Visited,
                                         free: set<nat>, all: set<nat>)
    requires Abreast(m, Then(task, rest), pc, 0, at, path, free) && all == Below(|m.program| - 3)
    requires pc !in path[at]
    ensures Plain(m, pc, at, captures, path) == Ended(Prefer(Then(task, rest), m.text, at, captures, free, all))
    decreases |m.text| - at, |m.Unvisited(path[at])|, Load(Then(task, rest)), 0, 0
  {
    hide Shaped, Tells, Followed, Untouched, Fits, Below, Ahead, Load, Runs;
    var silent, more := CodeFollows(m, task, rest, pc, at, captures);
    match Ahead(task, rest, m.text, at, captures)
    case Stuck =>
    case Takes =>
      var to := Next(m.text, at);
      Consumed(m, pc, at, path, to, all);
      Simulates(m, rest, pc + 1, more, to, captures, path[at := path[at] + {pc}], all, all);
    case Faces(place, first, second) =>
      ChoiceTold(m, path[at], free, place);
      var onward := Branches(m, pc, at, path, free);
      Simulates(m, first, m.program[pc].x, 0, at, captures, onward, free - {place}, all);
      Simulates(m, second, m.program[pc].y, more, at, captures, onward, free - {place}, all);
    case Goes(next, after) =>
      if silent {
        Simulates(m, next, pc, more, at, captures, path, free, all);
      } else {
        var onward := Passes(m, pc, at, path, free);
        Simulates(m, next, pc + 1, more, at, after, onward, free, all);
      }
  }

  lemma StartRuns(program: Program, node: S.Node)
    requires Compiled(program, node)
    ensures |program| - 3 == S.Size(node) && Runs(program, Then(Do(node, 0), Done), 1, 0)
  {
    hide Placed;
    PlacedIsSized(program, node, 1, |program| - 2);
    assert Fits(program, Do(node, 0), 1, |program| - 2);
    assert Runs(program, Done, |program| - 2, 0);
  }

  lemma StartTells(m: Machine, at: nat)
    requires |m.program| >= 3 && m.program[0].Save?
    ensures Tells(m, {0}, Below(|m.program| - 3)) && Followed(m, {0}, 1, at)
  {
    assert 1 in {0} + {1};
  }

  /** After the outer save the two stand side by side. */
  lemma Starts(m: Machine, node: S.Node, at: nat)
    requires S.WellFormed(node) && Compiled(m.program, node) && m.capture && at <= |m.text|
    ensures |m.program| - 3 == S.Size(node)
    ensures Abreast(m, Then(Do(node, 0), Done), 1, 0, at, m.Fresh()[at := {0}], Below(S.Size(node)))
  {
    hide Placed, AllTame, Runs, S.WellFormed, Tells, Followed, Below;
    CompiledIsShaped(m.program, node);
    StartRuns(m.program, node);
    StartTells(m, at);
  }

  /** What the search finds from an offset is the match its tree prefers there. */
  lemma FindsPreferred(m: Machine, node: S.Node, at: nat, empty: Captures)
    requires S.WellFormed(node) && Compiled(m.program, node) && m.capture && at <= |m.text|
    ensures Backtrack(m, 0, at, empty, m.Fresh()).found == Preferred(node, m.text, at, empty)
  {
    hide Prefer, Abreast, S.WellFormed, Placed, Backtrack;
    Starts(m, node, at);
    LeftmostFirst(m, at, empty);
    var path, all := m.Fresh()[at := {0}], Below(S.Size(node));
    assert m.Fresh()[at] + {0} == {0};
    Simulates(m, Then(Do(node, 0), Done), 1, 0, at, Store(empty, 0, at), path, all, all);
  }

  /** The search's hit is the preferred match at the offset where it stops. */
  lemma {:induction false} FirstHitIsPreferred(m: Machine, node: S.Node, empty: Captures, from: nat)
    requires S.WellFormed(node) && Compiled(m.program, node) && m.capture
    requires from <= |m.text| && FirstHit(m, empty, from).Some?
    ensures var (start, hit) := FirstHit(m, empty, from).value;
            from <= start <= |m.text| && Preferred(node, m.text, start, empty) == Some(hit)
    decreases |m.text| - from
  {
    hide Preferred, Backtrack, Compiled, S.WellFormed;
    FindsPreferred(m, node, from, empty);
    if Backtrack(m, 0, from, empty, m.Fresh()).found.None? { FirstHitIsPreferred(m, node, empty, Next(m.text, from)); }
  }
}
