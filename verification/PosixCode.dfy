/** The code each syntax tree of src/core/posix-regex.ts compiles to. */
module PosixCode {
  import opened Sequences
  import opened Utf16
  import opened PosixCharset
  import P = PosixProgram
  import opened PosixSyntax

  /** The code of a tree fills the program from `base` up to `end`. */
  ghost predicate Placed(program: P.Program, node: Node, base: nat, end: nat)
    decreases node, 0, 0
  {
    && base <= end <= |program|
    && match node
       case Empty => base == end
       case Set(chars) => base + 1 == end && program[base] == P.Set(chars)
       case Any => base + 1 == end && program[base] == P.Any
       case Bol => base + 1 == end && program[base] == P.Bol
       case Eol => base + 1 == end && program[base] == P.Eol
       case Cat(left, right) =>
         exists mid: nat :: Placed(program, left, base, mid) && Placed(program, right, mid, end)
       case Alt(left, right) =>
         exists y: nat ::
           && base + 1 < y <= |program|
           && program[base] == P.Split(base + 1, y) && Placed(program, left, base + 1, y - 1)
           && program[y - 1] == P.Jmp(end) && Placed(program, right, y, end)
       case Group(body, index) =>
         && base + 1 < end
         && program[base] == P.Save(index * 2) && Placed(program, body, base + 1, end - 1)
         && program[end - 1] == P.Save(index * 2 + 1)
       case Repeat(body, min, max) =>
         exists tail: nat ::
           && PlacedCopies(program, body, min, base, tail)
           && match max
              case None => PlacedStar(program, body, tail, end)
              case Some(most) => PlacedOptional(program, body, if most < min then 0 else most - min, tail, end)
  }

  /** The required copies of a repeated body. */
  ghost predicate PlacedCopies(program: P.Program, body: Node, n: nat, base: nat, end: nat)
    decreases body, 1, n
  {
    && base <= end
    && if n == 0 then base == end
       else exists mid: nat :: Placed(program, body, base, mid) && PlacedCopies(program, body, n - 1, mid, end)
  }

  /** An unbounded tail: a split in front of the body and a jump back to it. */
  ghost predicate PlacedStar(program: P.Program, body: Node, base: nat, end: nat)
    decreases body, 1, 0
  {
    && base + 1 < end <= |program|
    && program[base] == P.Split(base + 1, end)
    && Placed(program, body, base + 1, end - 1)
    && program[end - 1] == P.Jmp(base)
  }

  /** Nested optional copies, each of which can leave for the end of them all. */
  ghost predicate PlacedOptional(program: P.Program, body: Node, n: nat, base: nat, end: nat)
    decreases body, 1, n
  {
    && base <= end
    && if n == 0 then base == end
       else
         var inner := base + 1;
         && base < |program| && program[base] == P.Split(inner, end)
         && exists mid: nat :: Placed(program, body, inner, mid) && PlacedOptional(program, body, n - 1, mid, end)
  }

  ghost predicate Same(p: P.Program, q: P.Program, base: nat, end: nat) {
    end <= |p| && end <= |q| && forall k | base <= k < end :: p[k] == q[k]
  }

  /** Code stays placed when only instructions outside it change. */
  lemma {:induction false} PlacedKeeps(p: P.Program, q: P.Program, node: Node, base: nat, end: nat)
    requires Placed(p, node, base, end) && Same(p, q, base, end)
    ensures Placed(q, node, base, end)
    decreases node, 0, 0
  {
    match node
    case Cat(left, right) =>
      var mid: nat :| Placed(p, left, base, mid) && Placed(p, right, mid, end);
      PlacedKeeps(p, q, left, base, mid);
      PlacedKeeps(p, q, right, mid, end);
    case Alt(left, right) =>
      var y: nat :| && base + 1 < y <= |p| && p[base] == P.Split(base + 1, y) && Placed(p, left, base + 1, y - 1)
                    && p[y - 1] == P.Jmp(end) && Placed(p, right, y, end);
      PlacedKeeps(p, q, left, base + 1, y - 1);
      PlacedKeeps(p, q, right, y, end);
    case Group(body, index) => PlacedKeeps(p, q, body, base + 1, end - 1);
    case Repeat(body, min, None) =>
      var tail: nat :| PlacedCopies(p, body, min, base, tail) && PlacedStar(p, body, tail, end);
      CopiesKeep(p, q, body, min, base, tail);
      PlacedKeeps(p, q, body, tail + 1, end - 1);
    case Repeat(body, min, Some(most)) =>
      var n := if most < min then 0 else most - min;
      var tail: nat :| PlacedCopies(p, body, min, base, tail) && PlacedOptional(p, body, n, tail, end);
      CopiesKeep(p, q, body, min, base, tail);
      OptionalKeeps(p, q, body, n, tail, end);
    case _ =>
  }

  lemma {:induction false} CopiesKeep(p: P.Program, q: P.Program, body: Node, n: nat, base: nat, end: nat)
    requires PlacedCopies(p, body, n, base, end) && Same(p, q, base, end)
    ensures PlacedCopies(q, body, n, base, end)
    decreases body, 1, n
  {
    if n > 0 {
      var mid: nat :| Placed(p, body, base, mid) && PlacedCopies(p, body, n - 1, mid, end);
      PlacedKeeps(p, q, body, base, mid);
      CopiesKeep(p, q, body, n - 1, mid, end);
    }
  }

  lemma {:induction false} OptionalKeeps(p: P.Program, q: P.Program, body: Node, n: nat, base: nat, end: nat)
    requires PlacedOptional(p, body, n, base, end) && Same(p, q, base, end)
    ensures PlacedOptional(q, body, n, base, end)
    decreases body, 1, n
  {
    if n > 0 {
      var mid: nat :| Placed(p, body, base + 1, mid) && PlacedOptional(p, body, n - 1, mid, end);
      PlacedKeeps(p, q, body, base + 1, mid);
      OptionalKeeps(p, q, body, n - 1, mid, end);
    }
  }
}
