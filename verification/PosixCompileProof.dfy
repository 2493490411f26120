/** Compiler correctness: the runs of a tree's code are exactly the tree's matches. */
module PosixCompileProof {
  import opened Sequences
  import opened Utf16
  import opened PosixCharset
  import P = PosixProgram
  import opened PosixBacktrack
  import opened PosixSyntax
  import opened PosixCode

  ghost function LastPc(run: seq<State>): nat
    requires run != []
  {
    run[|run| - 1].pc
  }

  /** At step `k` the run stands at `base`, and it does not end between there and `end`. */
  ghost predicate Enters(m: P.Machine, run: seq<State>, k: nat, base: nat, end: nat) {
    IsRun(m, run) && k < |run| && run[k].pc == base && (LastPc(run) < base || end <= LastPc(run))
  }

  /** A run that is not over yet takes another step. */
  lemma DepartsSave(m: P.Machine, run: seq<State>, k: nat, pc: nat)
    requires IsRun(m, run) && k < |run| && run[k].pc == pc != LastPc(run)
    requires pc < |m.program| && m.program[pc].Save?
    ensures k + 1 < |run| && run[k + 1] == State(pc + 1, run[k].at)
  {
    assert StepAt(m, run, k);
  }

  lemma DepartsJmp(m: P.Machine, run: seq<State>, k: nat, pc: nat, to: nat)
    requires IsRun(m, run) && k < |run| && run[k].pc == pc != LastPc(run)
    requires pc < |m.program| && m.program[pc] == P.Jmp(to)
    ensures k + 1 < |run| && run[k + 1] == State(to, run[k].at)
  {
    assert StepAt(m, run, k);
  }

  lemma DepartsSplit(m: P.Machine, run: seq<State>, k: nat, pc: nat, x: nat, y: nat)
    requires IsRun(m, run) && k < |run| && run[k].pc == pc != LastPc(run)
    requires pc < |m.program| && m.program[pc] == P.Split(x, y)
    ensures k + 1 < |run| && (run[k + 1] == State(x, run[k].at) || run[k + 1] == State(y, run[k].at))
  {
    assert StepAt(m, run, k);
  }

  lemma ExitsAtom(m: P.Machine, node: Node, base: nat, end: nat, run: seq<State>, k: nat)
    requires node.Set? || node.Any? || node.Bol? || node.Eol?
    requires Placed(m.program, node, base, end) && Enters(m, run, k, base, end)
    ensures k + 1 < |run| && run[k + 1].pc == end && Denotes(node, m.text, run[k].at, run[k + 1].at)
  {
    assert StepAt(m, run, k);
  }

  /** A run that enters the code of a tree and ends outside it leaves at its end, after a match. */
  lemma {:induction false} Exits(m: P.Machine, node: Node, base: nat, end: nat, run: seq<State>, k: nat) returns (l: nat)
    requires WellFormed(node) && Placed(m.program, node, base, end) && Enters(m, run, k, base, end)
    ensures k <= l < |run| && run[l].pc == end && Denotes(node, m.text, run[k].at, run[l].at)
    decreases node, 1, 0
  {
    match node
    case Empty => l := k;
    case Cat(left, right) =>
      var mid: nat :| Placed(m.program, left, base, mid) && Placed(m.program, right, mid, end);
      var l1 := Exits(m, left, base, mid, run, k);
      l := Exits(m, right, mid, end, run, l1);
    case Alt(left, right) => l := ExitsAlt(m, left, right, base, end, run, k);
    case Group(body, index) =>
      DepartsSave(m, run, k, base);
      var l1 := Exits(m, body, base + 1, end - 1, run, k + 1);
      DepartsSave(m, run, l1, end - 1);
      l := l1 + 1;
    case Repeat(body, min, max) => l := ExitsRepeat(m, body, min, max, base, end, run, k);
    case _ =>
      ExitsAtom(m, node, base, end, run, k);
      l := k + 1;
  }

  /** Where the second branch of an alternation starts. */
  lemma AltParts(program: P.Program, left: Node, right: Node, base: nat, end: nat) returns (y: nat)
    requires Placed(program, Alt(left, right), base, end)
    ensures base + 1 < y <= |program| && program[base] == P.Split(base + 1, y) && program[y - 1] == P.Jmp(end)
    ensures Placed(program, left, base + 1, y - 1) && Placed(program, right, y, end)
    ensures base < y - 1 && y <= end
  {
    y :| && base + 1 < y <= |program|
         && program[base] == P.Split(base + 1, y) && Placed(program, left, base + 1, y - 1)
         && program[y - 1] == P.Jmp(end) && Placed(program, right, y, end);
  }

  lemma DenotesAlt(left: Node, right: Node, t: Text, i: nat, j: nat)
    requires Denotes(left, t, i, j) || Denotes(right, t, i, j)
    ensures Denotes(Alt(left, right), t, i, j)
  {}

  lemma {:induction false} ExitsAlt(m: P.Machine, left: Node, right: Node, base: nat, end: nat, run: seq<State>, k: nat)
    returns (l: nat)
    requires WellFormed(Alt(left, right)) && Placed(m.program, Alt(left, right), base, end)
    requires Enters(m, run, k, base, end)
    ensures k <= l < |run| && run[l].pc == end && Denotes(Alt(left, right), m.text, run[k].at, run[l].at)
    decreases Alt(left, right), 0
  {
    hide Placed, Denotes, IsRun;
    var y := AltParts(m.program, left, right, base, end);
    DepartsSplit(m, run, k, base, base + 1, y);
    if run[k + 1].pc == base + 1 {
      var l1 := Exits(m, left, base + 1, y - 1, run, k + 1);
      DepartsJmp(m, run, l1, y - 1, end);
      l := l1 + 1;
    } else {
      l := Exits(m, right, y, end, run, k + 1);
    }
    DenotesAlt(left, right, m.text, run[k].at, run[l].at);
  }

  lemma {:induction false} ExitsRepeat(m: P.Machine, body: Node, min: nat, max: Option<nat>, base: nat, end: nat,
                                       run: seq<State>, k: nat)
    returns (l: nat)
    requires WellFormed(Repeat(body, min, max)) && Placed(m.program, Repeat(body, min, max), base, end)
    requires Enters(m, run, k, base, end)
    ensures k <= l < |run| && run[l].pc == end && Denotes(Repeat(body, min, max), m.text, run[k].at, run[l].at)
    decreases body, 3, 0
  {
    var n := 0;
    if max.None? {
      var tail: nat :| PlacedCopies(m.program, body, min, base, tail) && PlacedStar(m.program, body, tail, end);
      var l1 := ExitsCopies(m, body, min, base, tail, run, k);
      l, n := ExitsStar(m, body, tail, end, run, l1);
      PowerAdd(body, min, n, m.text, run[k].at, run[l1].at, run[l].at);
    } else {
      var most := max.value - min;
      var tail: nat :| PlacedCopies(m.program, body, min, base, tail) && PlacedOptional(m.program, body, most, tail, end);
      var l1 := ExitsCopies(m, body, min, base, tail, run, k);
      l, n := ExitsOptional(m, body, most, tail, end, run, l1);
      PowerAdd(body, min, n, m.text, run[k].at, run[l1].at, run[l].at);
    }
  }

  lemma {:induction false} ExitsCopies(m: P.Machine, body: Node, n: nat, base: nat, end: nat, run: seq<State>, k: nat)
    returns (l: nat)
    requires WellFormed(body) && PlacedCopies(m.program, body, n, base, end) && Enters(m, run, k, base, end)
    ensures k <= l < |run| && run[l].pc == end && Power(body, n, m.text, run[k].at, run[l].at)
    decreases body, 2, n
  {
    l := k;
    if n > 0 {
      var mid: nat :| Placed(m.program, body, base, mid) && PlacedCopies(m.program, body, n - 1, mid, end);
      var l1 := Exits(m, body, base, mid, run, k);
      l := ExitsCopies(m, body, n - 1, mid, end, run, l1);
      PowerCons(body, n - 1, m.text, run[k].at, run[l1].at, run[l].at);
    }
  }

  /** Each turn of the loop leaves less of the run to go, even when the body matches nothing. */
  lemma {:induction false} ExitsStar(m: P.Machine, body: Node, base: nat, end: nat, run: seq<State>, k: nat)
    returns (l: nat, n: nat)
    requires WellFormed(body) && PlacedStar(m.program, body, base, end) && Enters(m, run, k, base, end)
    ensures k <= l < |run| && run[l].pc == end && Power(body, n, m.text, run[k].at, run[l].at)
    decreases body, 2, |run| - k
  {
    DepartsSplit(m, run, k, base, base + 1, end);
    l, n := k + 1, 0;
    if run[k + 1].pc == base + 1 {
      var l1 := Exits(m, body, base + 1, end - 1, run, k + 1);
      DepartsJmp(m, run, l1, end - 1, base);
      l, n := ExitsStar(m, body, base, end, run, l1 + 1);
      PowerCons(body, n, m.text, run[k].at, run[l1].at, run[l].at);
      n := n + 1;
    }
  }

  lemma {:induction false} ExitsOptional(m: P.Machine, body: Node, n: nat, base: nat, end: nat, run: seq<State>, k: nat)
    returns (l: nat, count: nat)
    requires WellFormed(body) && PlacedOptional(m.program, body, n, base, end) && Enters(m, run, k, base, end)
    ensures k <= l < |run| && run[l].pc == end
    ensures count <= n && Power(body, count, m.text, run[k].at, run[l].at)
    decreases body, 2, n
  {
    l, count := k, 0;
    if n > 0 {
      DepartsSplit(m, run, k, base, base + 1, end);
      l := k + 1;
      if run[k + 1].pc == base + 1 {
        var mid: nat :| Placed(m.program, body, base + 1, mid) && PlacedOptional(m.program, body, n - 1, mid, end);
        var l1 := Exits(m, body, base + 1, mid, run, k + 1);
        l, count := ExitsOptional(m, body, n - 1, mid, end, run, l1);
        PowerCons(body, count, m.text, run[k].at, run[l1].at, run[l].at);
        count := count + 1;
      }
    }
  }

  lemma LeadsJmp(m: P.Machine, pc: nat, to: nat, at: nat, c: nat, k: nat)
    requires pc < |m.program| && m.program[pc] == P.Jmp(to) && at <= |m.text| && Leads(m, to, at, c, k)
    ensures Leads(m, pc, at, c, k)
  {
    LeadsStep(m, pc, at, to, at, c, k);
  }

  lemma LeadsSave(m: P.Machine, pc: nat, at: nat, c: nat, k: nat)
    requires pc < |m.program| && m.program[pc].Save? && at <= |m.text| && Leads(m, pc + 1, at, c, k)
    ensures Leads(m, pc, at, c, k)
  {
    LeadsStep(m, pc, at, pc + 1, at, c, k);
  }

  lemma LeadsSplit(m: P.Machine, pc: nat, x: nat, y: nat, at: nat, c: nat, k: nat)
    requires pc < |m.program| && m.program[pc] == P.Split(x, y) && at <= |m.text|
    requires Leads(m, x, at, c, k) || Leads(m, y, at, c, k)
    ensures Leads(m, pc, at, c, k)
  {
    if Leads(m, x, at, c, k) { LeadsStep(m, pc, at, x, at, c, k); } else { LeadsStep(m, pc, at, y, at, c, k); }
  }

  /** A match stays inside the text. */
  lemma {:induction false} DenotesForward(node: Node, t: Text, i: nat, j: nat)
    requires i <= |t| && Denotes(node, t, i, j)
    ensures i <= j <= |t|
    decreases node, 0
  {
    match node
    case Cat(left, right) =>
      var k: nat :| Denotes(left, t, i, k) && Denotes(right, t, k, j);
      DenotesForward(left, t, i, k);
      DenotesForward(right, t, k, j);
    case Alt(left, right) =>
      if Denotes(left, t, i, j) { DenotesForward(left, t, i, j); } else { DenotesForward(right, t, i, j); }
    case Group(body, _) => DenotesForward(body, t, i, j);
    case Repeat(body, min, max) =>
      var n: nat :| min <= n && (max.Some? ==> n <= max.value) && Power(body, n, t, i, j);
      PowerForward(body, n, t, i, j);
    case _ =>
  }

  lemma {:induction false} PowerForward(body: Node, n: nat, t: Text, i: nat, j: nat)
    requires i <= |t| && Power(body, n, t, i, j)
    ensures i <= j <= |t|
    decreases body, n + 1
  {
    if n > 0 {
      var k: nat :| Denotes(body, t, i, k) && Power(body, n - 1, t, k, j);
      DenotesForward(body, t, i, k);
      PowerForward(body, n - 1, t, k, j);
    }
  }

  /** Every match of a tree is a run of its code from start to end. */
  lemma {:induction false} Crosses(m: P.Machine, node: Node, base: nat, end: nat, i: nat, j: nat)
    requires Placed(m.program, node, base, end) && i <= |m.text| && Denotes(node, m.text, i, j)
    ensures Leads(m, base, i, end, j)
    decreases node, 1, 0
  {
    match node
    case Empty => LeadsNowhere(m, base, i);
    case Cat(left, right) =>
      var mid: nat :| Placed(m.program, left, base, mid) && Placed(m.program, right, mid, end);
      var k: nat :| Denotes(left, m.text, i, k) && Denotes(right, m.text, k, j);
      DenotesForward(left, m.text, i, k);
      Crosses(m, left, base, mid, i, k);
      Crosses(m, right, mid, end, k, j);
      LeadsThen(m, base, i, mid, k, end, j);
    case Alt(left, right) => CrossesAlt(m, left, right, base, end, i, j);
    case Group(body, index) =>
      DenotesForward(body, m.text, i, j);
      LeadsNowhere(m, end, j);
      LeadsSave(m, end - 1, j, end, j);
      Crosses(m, body, base + 1, end - 1, i, j);
      LeadsThen(m, base + 1, i, end - 1, j, end, j);
      LeadsSave(m, base, i, end, j);
    case Repeat(body, min, max) => CrossesRepeat(m, body, min, max, base, end, i, j);
    case _ =>
      LeadsNowhere(m, end, j);
      LeadsStep(m, base, i, end, j, end, j);
  }

  lemma {:induction false} CrossesAlt(m: P.Machine, left: Node, right: Node, base: nat, end: nat, i: nat, j: nat)
    requires Placed(m.program, Alt(left, right), base, end) && i <= |m.text|
    requires Denotes(Alt(left, right), m.text, i, j)
    ensures Leads(m, base, i, end, j)
    decreases Alt(left, right), 0
  {
    var y := AltParts(m.program, left, right, base, end);
    if Denotes(left, m.text, i, j) {
      DenotesForward(left, m.text, i, j);
      LeadsNowhere(m, end, j);
      LeadsJmp(m, y - 1, end, j, end, j);
      Crosses(m, left, base + 1, y - 1, i, j);
      LeadsThen(m, base + 1, i, y - 1, j, end, j);
    } else {
      Crosses(m, right, y, end, i, j);
    }
    LeadsSplit(m, base, base + 1, y, i, end, j);
  }

  lemma {:induction false} CrossesRepeat(m: P.Machine, body: Node, min: nat, max: Option<nat>, base: nat, end: nat,
                                         i: nat, j: nat)
    requires Placed(m.program, Repeat(body, min, max), base, end) && i <= |m.text|
    requires Denotes(Repeat(body, min, max), m.text, i, j)
    ensures Leads(m, base, i, end, j)
    decreases body, 3, 0
  {
    var n: nat :| min <= n && (max.Some? ==> n <= max.value) && Power(body, n, m.text, i, j);
    var k := PowerSplit(body, min, n - min, m.text, i, j);
    PowerForward(body, min, m.text, i, k);
    if max.None? {
      var tail: nat :| PlacedCopies(m.program, body, min, base, tail) && PlacedStar(m.program, body, tail, end);
      CrossesCopies(m, body, min, base, tail, i, k);
      CrossesStar(m, body, tail, end, n - min, k, j);
      LeadsThen(m, base, i, tail, k, end, j);
    } else {
      var most := max.value - min;
      var tail: nat :| PlacedCopies(m.program, body, min, base, tail) && PlacedOptional(m.program, body, most, tail, end);
      CrossesCopies(m, body, min, base, tail, i, k);
      CrossesOptional(m, body, most, tail, end, n - min, k, j);
      LeadsThen(m, base, i, tail, k, end, j);
    }
  }

  lemma {:induction false} CrossesCopies(m: P.Machine, body: Node, n: nat, base: nat, end: nat, i: nat, j: nat)
    requires PlacedCopies(m.program, body, n, base, end) && i <= |m.text| && Power(body, n, m.text, i, j)
    ensures Leads(m, base, i, end, j)
    decreases body, 2, n
  {
    if n == 0 {
      LeadsNowhere(m, base, i);
    } else {
      var mid: nat :| Placed(m.program, body, base, mid) && PlacedCopies(m.program, body, n - 1, mid, end);
      var k: nat :| Denotes(body, m.text, i, k) && Power(body, n - 1, m.text, k, j);
      DenotesForward(body, m.text, i, k);
      Crosses(m, body, base, mid, i, k);
      CrossesCopies(m, body, n - 1, mid, end, k, j);
      LeadsThen(m, base, i, mid, k, end, j);
    }
  }

  lemma {:induction false} CrossesStar(m: P.Machine, body: Node, base: nat, end: nat, n: nat, i: nat, j: nat)
    requires PlacedStar(m.program, body, base, end) && i <= |m.text| && Power(body, n, m.text, i, j)
    ensures Leads(m, base, i, end, j)
    decreases body, 2, n
  {
    if n == 0 {
      LeadsNowhere(m, end, i);
    } else {
      var k: nat :| Denotes(body, m.text, i, k) && Power(body, n - 1, m.text, k, j);
      DenotesForward(body, m.text, i, k);
      CrossesStar(m, body, base, end, n - 1, k, j);
      LeadsJmp(m, end - 1, base, k, end, j);
      Crosses(m, body, base + 1, end - 1, i, k);
      LeadsThen(m, base + 1, i, end - 1, k, end, j);
    }
    LeadsSplit(m, base, base + 1, end, i, end, j);
  }

  lemma {:induction false} CrossesOptional(m: P.Machine, body: Node, n: nat, base: nat, end: nat, count: nat, i: nat, j: nat)
    requires PlacedOptional(m.program, body, n, base, end) && count <= n
    requires i <= |m.text| && Power(body, count, m.text, i, j)
    ensures Leads(m, base, i, end, j)
    decreases body, 2, n
  {
    if count == 0 {
      LeadsNowhere(m, end, i);
    } else {
      var mid: nat :| Placed(m.program, body, base + 1, mid) && PlacedOptional(m.program, body, n - 1, mid, end);
      var k: nat :| Denotes(body, m.text, i, k) && Power(body, count - 1, m.text, k, j);
      DenotesForward(body, m.text, i, k);
      Crosses(m, body, base + 1, mid, i, k);
      CrossesOptional(m, body, n - 1, mid, end, count - 1, k, j);
      LeadsThen(m, base + 1, i, mid, k, end, j);
    }
    if n > 0 { LeadsSplit(m, base, base + 1, end, i, end, j); }
  }
}
