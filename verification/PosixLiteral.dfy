/** The two literal fast paths of src/core/posix-regex-matcher.ts, and why neither changes a result. */
module PosixLiteral {
  import opened Sequences
  import opened Utf16
  import opened PosixCharset
  import opened PosixProgram
  import opened PosixSearch

  lemma {:induction false} EncodeAppend(a: seq<int>, b: seq<int>)
    requires forall p <- a + b :: Scalar(p)
    requires forall p <- a :: Scalar(p)
    requires forall p <- b :: Scalar(p)
    ensures Encode(a + b) == Encode(a) + Encode(b)
    decreases |a|
  {
    if a == [] {
      assert a + b == b;
    } else {
      assert (a + b)[1..] == a[1..] + b;
      EncodeAppend(a[1..], b);
      assert EncodePoint(a[0]) + (Encode(a[1..]) + Encode(b)) == EncodePoint(a[0]) + Encode(a[1..]) + Encode(b);
    }
  }

  /** A program that is one literal between its outermost saves. */
  predicate IsLiteral(program: Program) {
    && |program| >= 3
    && program[0] == Save(0) && program[|program| - 2] == Save(1) && program[|program| - 1].Match?
    && forall k | 1 <= k < |program| - 2 :: LiteralPoint(program[k]).Some?
  }

  ghost function PointsFrom(program: Program, k: nat): Text { Encode(PrefixPoints(program, k)) }

  /** One literal instruction contributes its own code point in front. */
  lemma PointsStep(program: Program, k: nat)
    requires k < |program| && !program[k].Save? && LiteralPoint(program[k]).Some?
    ensures PointsFrom(program, k) == EncodePoint(LiteralPoint(program[k]).value) + PointsFrom(program, k + 1)
  {
    var points := PrefixPoints(program, k);
    assert points[1..] == PrefixPoints(program, k + 1);
  }

  /** The outermost saves add nothing to a literal. */
  lemma LiteralBounds(program: Program)
    requires |program| >= 3
    requires program[0] == Save(0) && program[|program| - 2] == Save(1) && program[|program| - 1].Match?
    ensures PointsFrom(program, 1) == Prefix(program) && PointsFrom(program, |program| - 2) == []
  {
    var last := |program| - 2;
    assert PrefixPoints(program, last) == PrefixPoints(program, last + 1) == [];
  }

  method Literal(program: Program) returns (literal: Option<Text>)
    ensures literal.Some? <==> IsLiteral(program)
    ensures literal.Some? ==> literal.value == Prefix(program)
  {
    hide PointsFrom, PrefixPoints, Prefix, EncodePoint;
    if |program| < 3 || program[0] != Save(0) || program[|program| - 2] != Save(1) { return None; }
    if !program[|program| - 1].Match? { return None; }
    var text: Text := [];
    var index := 1;
    LiteralBounds(program);
    assert [] + PointsFrom(program, 1) == PointsFrom(program, 1);
    while index < |program| - 2
      invariant 1 <= index <= |program| - 2
      invariant forall k | 1 <= k < index :: LiteralPoint(program[k]).Some?
      invariant Prefix(program) == text + PointsFrom(program, index)
    {
      var point := LiteralPoint(program[index]);
      if point.None? { return None; }
      PointsStep(program, index);
      ghost var before := text;
      text := text + EncodePoint(point.value);
      assert before + (EncodePoint(point.value) + PointsFrom(program, index + 1)) == text + PointsFrom(program, index + 1);
      index := index + 1;
    }
    return Some(text);
  }

  method LiteralPrefix(program: Program) returns (prefix: Text)
    ensures prefix == Prefix(program)
  {
    prefix := [];
    var k := 0;
    assert [] + PointsFrom(program, 0) == PointsFrom(program, 0);
    while k < |program|
      invariant k <= |program|
      invariant Prefix(program) == prefix + PointsFrom(program, k)
    {
      if !program[k].Save? {
        var point := LiteralPoint(program[k]);
        if point.None? { break; }
        PointsStep(program, k);
        ghost var before := prefix;
        prefix := prefix + EncodePoint(point.value);
        assert before + (EncodePoint(point.value) + PointsFrom(program, k + 1)) == prefix + PointsFrom(program, k + 1);
      }
      k := k + 1;
    }
    assert PrefixPoints(program, k) == [];
  }

  /** Nothing at or after these counters has been entered at or after this offset. */
  ghost predicate Untouched(m: Machine, visited: Visited, pc: nat, at: nat)
    requires |visited| == |m.text| + 1
  {
    forall p: nat, q: nat | at <= p < |visited| && pc <= q :: q !in visited[p]
  }

  /** The text goes on with the literal exactly when its next code point does and then the rest. */
  lemma LiteralStep(m: Machine, pc: nat, at: nat)
    requires pc < |m.program| && !m.program[pc].Save? && LiteralPoint(m.program[pc]).Some?
    ensures StartsWith(m.text, at, PointsFrom(m.program, pc))
      <==> m.Consumes(pc, at) && StartsWith(m.text, Next(m.text, at), PointsFrom(m.program, pc + 1))
    ensures m.Consumes(pc, at) ==>
              at + |PointsFrom(m.program, pc)| == Next(m.text, at) + |PointsFrom(m.program, pc + 1)|
  {
    var points := PrefixPoints(m.program, pc);
    assert points[1..] == PrefixPoints(m.program, pc + 1);
    LiteralConsumes(m, pc, at);
    StartsWithSplit(m.text, at, points);
    PointsStep(m.program, pc);
    PointIsEncoding(m.text, at, points[0]);
  }

  lemma LiteralEnd(m: Machine, at: nat, captures: Captures, visited: Visited)
    requires IsLiteral(m.program) && m.Valid(at, visited) && Untouched(m, visited, |m.program| - 2, at)
    ensures PointsFrom(m.program, |m.program| - 2) == [] && StartsWith(m.text, at, [])
    ensures Backtrack(m, |m.program| - 2, at, captures, visited).found == Some(Hit(m.After(1, captures, at), at))
  {
    var pc := |m.program| - 2;
    assert PrefixPoints(m.program, pc) == PrefixPoints(m.program, pc + 1) == [];
    var entered := visited[at := visited[at] + {pc}];
    assert Backtrack(m, pc + 1, at, m.After(1, captures, at), entered).found.Some?;
  }

  /** One turn of a literal program. */
  lemma LiteralTurn(m: Machine, pc: nat, at: nat, captures: Captures, visited: Visited)
    requires IsLiteral(m.program) && 1 <= pc < |m.program| - 2
    requires m.Valid(at, visited) && Untouched(m, visited, pc, at)
    ensures !m.program[pc].Save? && LiteralPoint(m.program[pc]).Some?
    ensures var entered := visited[at := visited[at] + {pc}];
            if m.Consumes(pc, at) then
              var next := Next(m.text, at);
              && m.Valid(next, entered) && Untouched(m, entered, pc + 1, next)
              && Backtrack(m, pc, at, captures, visited).found == Backtrack(m, pc + 1, next, captures, entered).found
            else Backtrack(m, pc, at, captures, visited).found == None
  {}

  /** Running a literal program is comparing text. */
  lemma {:induction false} LiteralRun(m: Machine, pc: nat, at: nat, captures: Captures, visited: Visited)
    requires IsLiteral(m.program) && 1 <= pc <= |m.program| - 2
    requires m.Valid(at, visited) && Untouched(m, visited, pc, at)
    ensures var rest := PointsFrom(m.program, pc);
            var end := at + |rest|;
            Backtrack(m, pc, at, captures, visited).found
            == if StartsWith(m.text, at, rest) then Some(Hit(m.After(1, captures, end), end)) else None
    decreases |m.program| - pc
  {
    hide PointsFrom, StartsWith, Untouched, IsLiteral, Machine.Consumes, Backtrack, Machine.After, Next;
    if pc == |m.program| - 2 {
      LiteralEnd(m, at, captures, visited);
    } else {
      LiteralTurn(m, pc, at, captures, visited);
      LiteralStep(m, pc, at);
      if m.Consumes(pc, at) {
        LiteralRun(m, pc + 1, Next(m.text, at), captures, visited[at := visited[at] + {pc}]);
      }
    }
  }

  /** One start of a literal program. */
  lemma LiteralStart(m: Machine, empty: Captures, i: nat)
    requires IsLiteral(m.program) && i <= |m.text|
    ensures var end := i + |Prefix(m.program)|;
            Backtrack(m, 0, i, empty, m.Fresh()).found
            == if StartsWith(m.text, i, Prefix(m.program)) then Some(Hit(m.After(1, m.After(0, empty, i), end), end)) else None
  {
    assert m.Fresh()[i] + {0} == {0};
    assert PointsFrom(m.program, 1) == Prefix(m.program);
    LiteralRun(m, 1, i, m.After(0, empty, i), m.Fresh()[i := {0}]);
  }

  /** Searching a literal program is `indexOf`. */
  lemma LiteralSearch(m: Machine, empty: Captures, from: nat)
    requires IsLiteral(m.program) && from <= |m.text| && Boundary(m.text, from)
    ensures var at := IndexOf(m.text, Prefix(m.program), from);
            var size := |Prefix(m.program)|;
            FirstHit(m, empty, from)
            == if at.None? then None
               else Some((at.value, Hit(m.After(1, m.After(0, empty, at.value), at.value + size), at.value + size)))
  {
    hide IsLiteral, Prefix, Machine.After;
    var prefix := Prefix(m.program);
    var at := IndexOf(m.text, prefix, from);
    if prefix != [] { SkipToPrefix(m, empty, from); }
    if at.Some? { LiteralStart(m, empty, at.value); }
  }
}
