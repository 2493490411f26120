/**
 * Merging threads loses nothing: the memoised backtracker finds the very hit, captures included,
 * that an exponential one finds which remembers only the states of its current path.
 */
module PosixPriority {
  import opened Sequences
  import opened Utf16
  import opened PosixProgram
  import opened PosixBacktrack

  /** Leftmost-first backtracking with no memory of failed states; `path` only cuts empty loops. */
  ghost function Plain(m: Machine, pc: nat, at: nat, captures: Captures, path: Visited): Option<Hit>
    requires m.Valid(at, path)
    decreases |m.text| - at, |m.Unvisited(path[at])|
  {
    if pc >= |m.program| || pc in path[at] then None
    else
      var onward := path[at := path[at] + {pc}];
      FewerUnvisited(m, pc, path[at], onward[at]);
      match m.program[pc]
      case Jmp(to) => Plain(m, to, at, captures, onward)
      case Split(x, y) =>
        var first := Plain(m, x, at, captures, onward);
        if first.Some? then first else Plain(m, y, at, captures, onward)
      case Save(slot) => Plain(m, pc + 1, at, m.After(slot, captures, at), onward)
      case Bol => if at == 0 then Plain(m, pc + 1, at, captures, onward) else None
      case Eol => if at == |m.text| then Plain(m, pc + 1, at, captures, onward) else None
      case Match => Some(Hit(captures, at))
      case _ => if m.Consumes(pc, at) then Plain(m, pc + 1, Next(m.text, at), captures, onward) else None
  }

  /** The states entered but not on the path have failed: all they lead to has been entered. */
  ghost predicate FailedOff(m: Machine, visited: Visited, path: Visited) {
    && |visited| == |path| == |m.text| + 1 && Within(path, visited)
    && SettledSince(m, path, visited)
  }

  /** From a state already entered, plain backtracking finds nothing either. */
  lemma {:induction false} EnteredFails(m: Machine, pc: nat, at: nat, captures: Captures, visited: Visited, path: Visited, longer: Visited)
    requires FailedOff(m, visited, path) && m.Valid(at, longer) && Within(path, longer)
    requires Seen(m, visited, pc, at)
    ensures Plain(m, pc, at, captures, longer).None?
    decreases |m.text| - at, |m.Unvisited(longer[at])|
  {
    if pc < |m.program| && pc !in longer[at] {
      assert Settled(m, visited, pc, at);
      var onward := longer[at := longer[at] + {pc}];
      FewerUnvisited(m, pc, longer[at], onward[at]);
      match m.program[pc]
      case Jmp(to) => EnteredFails(m, to, at, captures, visited, path, onward);
      case Split(x, y) =>
        EnteredFails(m, x, at, captures, visited, path, onward);
        EnteredFails(m, y, at, captures, visited, path, onward);
      case Save(slot) => EnteredFails(m, pc + 1, at, m.After(slot, captures, at), visited, path, onward);
      case Bol => if at == 0 { EnteredFails(m, pc + 1, at, captures, visited, path, onward); }
      case Eol => if at == |m.text| { EnteredFails(m, pc + 1, at, captures, visited, path, onward); }
      case Match =>
      case _ => if m.Consumes(pc, at) { EnteredFails(m, pc + 1, Next(m.text, at), captures, visited, path, onward); }
    }
  }

  /** Stepping onto a state puts it on both records. */
  lemma FailedOffStep(m: Machine, visited: Visited, path: Visited, pc: nat, at: nat)
    requires FailedOff(m, visited, path) && m.Valid(at, visited)
    ensures FailedOff(m, visited[at := visited[at] + {pc}], path[at := path[at] + {pc}])
  {
    var v, s := visited[at := visited[at] + {pc}], path[at := path[at] + {pc}];
    forall p: nat, q: nat | p < |v| && q in v[p] && q !in s[p] ensures Settled(m, v, q, p) {
      assert Settled(m, visited, q, p);
    }
  }

  /** The two backtrackers agree whenever everything the memo skips has already failed. */
  lemma {:induction false} MemoAgrees(m: Machine, pc: nat, at: nat, captures: Captures, visited: Visited, path: Visited)
    requires m.Valid(at, visited) && FailedOff(m, visited, path)
    ensures Backtrack(m, pc, at, captures, visited).found == Plain(m, pc, at, captures, path)
    decreases |m.text| - at, |m.Unvisited(visited[at])|
  {
    if pc >= |m.program| {
    } else if pc in visited[at] {
      EnteredFails(m, pc, at, captures, visited, path, path);
    } else {
      var entered, onward := visited[at := visited[at] + {pc}], path[at := path[at] + {pc}];
      FewerUnvisited(m, pc, visited[at], entered[at]);
      FailedOffStep(m, visited, path, pc, at);
      match m.program[pc]
      case Jmp(to) => MemoAgrees(m, to, at, captures, entered, onward);
      case Split(x, y) =>
        MemoAgrees(m, x, at, captures, entered, onward);
        var first := Backtrack(m, x, at, captures, entered);
        if first.found.None? {
          FewerUnvisited(m, pc, visited[at], first.visited[at]);
          BacktrackSettles(m, x, at, captures, entered);
          SettledSinceThen(m, onward, entered, first.visited);
          MemoAgrees(m, y, at, captures, first.visited, onward);
        }
      case Save(slot) => MemoAgrees(m, pc + 1, at, m.After(slot, captures, at), entered, onward);
      case Bol => if at == 0 { MemoAgrees(m, pc + 1, at, captures, entered, onward); }
      case Eol => if at == |m.text| { MemoAgrees(m, pc + 1, at, captures, entered, onward); }
      case Match =>
      case _ => if m.Consumes(pc, at) { MemoAgrees(m, pc + 1, Next(m.text, at), captures, entered, onward); }
    }
  }

  /** From any start, the linear-time engine's hit is the plain leftmost-first one. */
  lemma LeftmostFirst(m: Machine, at: nat, empty: Captures)
    requires at <= |m.text|
    ensures Backtrack(m, 0, at, empty, m.Fresh()).found == Plain(m, 0, at, empty, m.Fresh())
  {
    MemoAgrees(m, 0, at, empty, m.Fresh(), m.Fresh());
  }
}
