/** `compile` of src/core/posix-regex.ts: instructions are pushed in order and branch targets patched afterwards. */
module PosixCompiler {
  import opened Sequences
  import opened Utf16
  import P = PosixProgram
  import opened PosixSyntax
  import opened PosixCode

  const MAX_PROGRAM := 2048

  /** A whole program: the tree's code between the two outermost saves, then `match`. */
  ghost predicate Compiled(program: P.Program, node: Node) {
    && |program| >= 3
    && program[0] == P.Save(0) && program[|program| - 2] == P.Save(1) && program[|program| - 1] == P.Match
    && Placed(program, node, 1, |program| - 2)
  }

  /** The concatenation whose right operands, outermost first, are `rights`. */
  ghost function Spine(left: Node, rights: seq<Node>): Node {
    if rights == [] then left else Cat(Spine(left, rights[1..]), rights[0])
  }

  lemma {:induction false} SpineExtend(left: Node, right: Node, rights: seq<Node>)
    ensures Spine(left, rights + [right]) == Spine(Cat(left, right), rights)
    decreases |rights|
  {
    if rights == [] {
      assert (rights + [right])[1..] == [];
    } else {
      assert (rights + [right])[1..] == rights[1..] + [right];
      SpineExtend(left, right, rights[1..]);
    }
  }

  lemma {:induction false} SpineSize(left: Node, rights: seq<Node>, k: nat)
    requires k <= |rights|
    ensures Size(Spine(left, rights[k..])) <= Size(Spine(left, rights))
    decreases k
  {
    if k == 0 {
      assert rights[0..] == rights;
    } else {
      assert rights[1..][k - 1..] == rights[k..];
      SpineSize(left, rights[1..], k - 1);
    }
  }

  lemma {:induction false} TimesMonotone(a: nat, b: nat, size: nat)
    requires a <= b
    ensures Times(a, size) <= Times(b, size)
    decreases b
  {
    if a < b { TimesMonotone(a, b - 1, size); }
  }

  lemma TimesOne(n: nat, size: nat)
    ensures Times(n + 1, size) == size + Times(n, size) && Times(0, size) == 0
  {}

  lemma PendingNone(p: P.Program, body: Node)
    ensures Pending(p, body, [], 0, 0, |p|, |p|)
  {}

  /** The code of a longer spine: that of the shorter one, and its right operand after it. */
  lemma SpinePlaced(p: P.Program, q: P.Program, left: Node, rights: seq<Node>, k: nat, base: nat)
    requires k < |rights| && Placed(p, Spine(left, rights[k + 1..]), base, |p|) && p <= q
    requires Placed(q, rights[k], |p|, |q|)
    ensures Placed(q, Spine(left, rights[k..]), base, |q|)
  {
    assert rights[k..][1..] == rights[k + 1..];
    PlacedKeeps(p, q, Spine(left, rights[k + 1..]), base, |p|);
  }

  lemma SpineSizes(left: Node, rights: seq<Node>, k: nat)
    requires k < |rights|
    ensures Size(Spine(left, rights[k..])) == Size(Spine(left, rights[k + 1..])) + Size(rights[k])
  {
    assert rights[k..][1..] == rights[k + 1..];
  }

  /** One more copy at the end. */
  lemma {:induction false} CopiesSnoc(p: P.Program, body: Node, n: nat, base: nat, mid: nat, end: nat)
    requires PlacedCopies(p, body, n, base, mid) && Placed(p, body, mid, end)
    ensures PlacedCopies(p, body, n + 1, base, end)
    decreases n
  {
    if n == 0 {
      assert PlacedCopies(p, body, 0, end, end);
    } else {
      var first: nat :| Placed(p, body, base, first) && PlacedCopies(p, body, n - 1, first, mid);
      CopiesSnoc(p, body, n - 1, first, mid, end);
    }
  }

  /** Optional copies whose splits stand at `frames`; the first `patched` of them leave for `limit`. */
  ghost predicate Pending(p: P.Program, body: Node, frames: seq<nat>, patched: nat, limit: nat, base: nat, end: nat)
    decreases |frames|
  {
    && base <= end <= |p|
    && if frames == [] then base == end
       else
         var inner := base + 1;
         && frames[0] == base < |p| && p[base].Split? && p[base].x == inner && (patched > 0 ==> p[base].y == limit)
         && exists mid: nat ::
              && Placed(p, body, inner, mid)
              && Pending(p, body, frames[1..], if patched > 0 then patched - 1 else 0, limit, mid, end)
  }

  lemma {:induction false} PendingKeeps(p: P.Program, q: P.Program, body: Node, frames: seq<nat>, patched: nat, limit: nat,
                                        base: nat, end: nat)
    requires Pending(p, body, frames, patched, limit, base, end) && Same(p, q, base, end)
    ensures Pending(q, body, frames, patched, limit, base, end)
    decreases |frames|
  {
    if frames != [] {
      var less := if patched > 0 then patched - 1 else 0;
      var mid: nat :| Placed(p, body, base + 1, mid) && Pending(p, body, frames[1..], less, limit, mid, end);
      PlacedKeeps(p, q, body, base + 1, mid);
      PendingKeeps(p, q, body, frames[1..], less, limit, mid, end);
    }
  }

  /** Before any split is patched, where they will lead does not matter. */
  lemma {:induction false} PendingLimit(p: P.Program, body: Node, frames: seq<nat>, a: nat, b: nat, base: nat, end: nat)
    requires Pending(p, body, frames, 0, a, base, end)
    ensures Pending(p, body, frames, 0, b, base, end)
    decreases |frames|
  {
    if frames != [] {
      var mid: nat :| Placed(p, body, base + 1, mid) && Pending(p, body, frames[1..], 0, a, mid, end);
      PendingLimit(p, body, frames[1..], a, b, mid, end);
    }
  }

  /** One more split and body at the end. */
  lemma {:induction false} PendingSnoc(p: P.Program, body: Node, frames: seq<nat>, limit: nat, base: nat, mid: nat, end: nat)
    requires Pending(p, body, frames, 0, limit, base, mid)
    requires mid < end <= |p| && p[mid].Split? && p[mid].x == mid + 1 && Placed(p, body, mid + 1, end)
    ensures Pending(p, body, frames + [mid], 0, limit, base, end)
    decreases |frames|
  {
    if frames == [] {
      assert ([] + [mid])[1..] == [];
      assert Pending(p, body, [], 0, limit, end, end);
    } else {
      var m: nat :| Placed(p, body, base + 1, m) && Pending(p, body, frames[1..], 0, limit, m, mid);
      PendingSnoc(p, body, frames[1..], limit, m, mid, end);
      assert (frames + [mid])[1..] == frames[1..] + [mid];
    }
  }

  /** The splits lie inside the code. */
  lemma {:induction false} PendingInside(p: P.Program, body: Node, frames: seq<nat>, patched: nat, limit: nat,
                                         base: nat, end: nat, k: nat)
    requires Pending(p, body, frames, patched, limit, base, end) && k < |frames|
    ensures base <= frames[k] < end && p[frames[k]].Split? && p[frames[k]].x == frames[k] + 1
    decreases |frames|
  {
    var less := if patched > 0 then patched - 1 else 0;
    var mid: nat :| Placed(p, body, base + 1, mid) && Pending(p, body, frames[1..], less, limit, mid, end);
    if k > 0 { PendingInside(p, body, frames[1..], less, limit, mid, end, k - 1); }
  }

  /** Patching the next split moves no body and no other split. */
  lemma {:induction false} PendingPatch(p: P.Program, q: P.Program, body: Node, frames: seq<nat>, k: nat, limit: nat,
                                        base: nat, end: nat)
    requires Pending(p, body, frames, k, limit, base, end) && k < |frames| && frames[k] < |p|
    requires q == p[frames[k] := P.Split(frames[k] + 1, limit)]
    ensures Pending(q, body, frames, k + 1, limit, base, end)
    decreases k
  {
    var less := if k > 0 then k - 1 else 0;
    var mid: nat :| Placed(p, body, base + 1, mid) && Pending(p, body, frames[1..], less, limit, mid, end);
    if k == 0 {
      PendingKeeps(p, q, body, frames[1..], 0, limit, mid, end);
    } else {
      PendingInside(p, body, frames[1..], less, limit, mid, end, k - 1);
      PendingPatch(p, q, body, frames[1..], k - 1, limit, mid, end);
    }
    PlacedKeeps(p, q, body, base + 1, mid);
    assert Pending(q, body, frames[1..], k, limit, mid, end);
  }

  /** With every split patched to the end, the copies are the nested optional ones. */
  lemma {:induction false} PendingDone(p: P.Program, body: Node, frames: seq<nat>, base: nat, end: nat)
    requires Pending(p, body, frames, |frames|, end, base, end)
    ensures PlacedOptional(p, body, |frames|, base, end)
    decreases |frames|
  {
    if frames != [] {
      var mid: nat :| Placed(p, body, base + 1, mid) && Pending(p, body, frames[1..], |frames| - 1, end, mid, end);
      PendingDone(p, body, frames[1..], mid, end);
    }
  }

  /** Both branches of an alternation and the patched split and jump around them. */
  lemma AltAssembled(a: P.Program, b: P.Program, q: P.Program, left: Node, right: Node, frame: nat, jump: nat)
    requires Placed(a, left, frame + 1, jump) && Same(a, b, frame + 1, jump) && jump < |b|
    requires Placed(b, right, jump + 1, |b|) && b[frame] == P.Split(frame + 1, jump + 1)
    requires q == b[jump := P.Jmp(|b|)]
    ensures Placed(q, Alt(left, right), frame, |q|)
  {
    var y := jump + 1;
    PlacedKeeps(a, q, left, frame + 1, jump);
    PlacedKeeps(b, q, right, y, |q|);
    assert Placed(q, left, frame + 1, y - 1) && q[y - 1] == P.Jmp(|q|);
  }

  /** The required copies, then the tail. */
  lemma RepeatAssembled(p: P.Program, q: P.Program, body: Node, min: nat, max: Option<nat>, base: nat, tail: nat)
    requires PlacedCopies(p, body, min, base, tail) && Same(p, q, base, tail)
    requires match max
             case None => PlacedStar(q, body, tail, |q|)
             case Some(most) => PlacedOptional(q, body, if most < min then 0 else most - min, tail, |q|)
    ensures Placed(q, Repeat(body, min, max), base, |q|)
  {
    CopiesKeep(p, q, body, min, base, tail);
  }

  class Compiler {
    var program: P.Program

    constructor ()
      ensures program == []
    {
      program := [];
    }

    /** Refuses an instruction past the program limit. */
    method Push(instruction: P.Instruction) returns (ok: bool)
      requires |program| <= MAX_PROGRAM
      modifies this
      ensures ok == (old(|program|) < MAX_PROGRAM)
      ensures program == if ok then old(program) + [instruction] else old(program)
    {
      if |program| >= MAX_PROGRAM { return false; }
      program := program + [instruction];
      return true;
    }

    /** Appends the code of `node`, or stops because it does not fit. */
    method Emit(node: Node) returns (ok: bool)
      requires |program| <= MAX_PROGRAM
      modifies this
      ensures |program| <= MAX_PROGRAM && old(program) <= program
      ensures ok <==> old(|program|) + Size(node) <= MAX_PROGRAM
      ensures ok ==> |program| == old(|program|) + Size(node) && Placed(program, node, old(|program|), |program|)
      decreases node, 1
    {
      match node
      case Empty => ok := true;
      case Set(chars) => ok := Push(P.Set(chars));
      case Any => ok := Push(P.Any);
      case Bol => ok := Push(P.Bol);
      case Eol => ok := Push(P.Eol);
      case Cat(_, _) => ok := EmitCat(node);
      case Alt(left, right) => ok := EmitAlt(left, right);
      case Group(body, index) => ok := EmitGroup(body, index);
      case Repeat(body, min, max) => ok := EmitRepeat(body, min, max);
    }

    /** Concatenations are left-associated; their spine is walked without recursion. */
    method EmitCat(node: Node) returns (ok: bool)
      requires |program| <= MAX_PROGRAM && node.Cat?
      modifies this
      ensures |program| <= MAX_PROGRAM && old(program) <= program
      ensures ok <==> old(|program|) + Size(node) <= MAX_PROGRAM
      ensures ok ==> |program| == old(|program|) + Size(node) && Placed(program, node, old(|program|), |program|)
      decreases node, 0
    {
      hide Placed, Size;
      var base := |program|;
      var right: seq<Node> := [];
      var left := node;
      while left.Cat?
        invariant program == old(program)
        invariant Spine(left, right) == node
        invariant right == [] ==> left == node
        invariant right != [] ==> left < node
        invariant forall k | 0 <= k < |right| :: right[k] < node
        decreases left
      {
        SpineExtend(left.left, left.right, right);
        right := right + [left.right];
        left := left.left;
      }
      ok := Emit(left);
      assert right[|right|..] == [];
      SpineSize(left, right, |right|);
      var index := |right|;
      while ok && index > 0
        invariant 0 <= index <= |right| && |program| <= MAX_PROGRAM && old(program) <= program
        invariant ok ==> |program| == base + Size(Spine(left, right[index..]))
        invariant ok ==> Placed(program, Spine(left, right[index..]), base, |program|)
        invariant !ok ==> base + Size(node) > MAX_PROGRAM
      {
        index := index - 1;
        ghost var before := program;
        SpineSize(left, right, index);
        SpineSizes(left, right, index);
        ok := Emit(right[index]);
        if ok { SpinePlaced(before, program, left, right, index, base); }
      }
      assert right[0..] == right;
    }

    /** A split, pointed at the body that follows it. */
    method EmitFramed(body: Node) returns (ok: bool, frame: nat)
      requires |program| <= MAX_PROGRAM
      modifies this
      ensures |program| <= MAX_PROGRAM && old(program) <= program && frame == old(|program|)
      ensures ok <==> frame + 1 + Size(body) <= MAX_PROGRAM
      ensures ok ==> |program| == frame + 1 + Size(body) && program[frame] == P.Split(frame + 1, 0)
                     && Placed(program, body, frame + 1, |program|)
      decreases body, 2
    {
      frame := |program|;
      ok := Push(P.Split(0, 0));
      if !ok { return; }
      program := program[frame := P.Split(|program|, 0)];
      ghost var before := program;
      ok := Emit(body);
      assert program[frame] == before[frame];
    }

    method EmitAlt(left: Node, right: Node) returns (ok: bool)
      requires |program| <= MAX_PROGRAM
      modifies this
      ensures |program| <= MAX_PROGRAM && old(program) <= program
      ensures ok <==> old(|program|) + Size(Alt(left, right)) <= MAX_PROGRAM
      ensures ok ==> |program| == old(|program|) + Size(Alt(left, right))
                     && Placed(program, Alt(left, right), old(|program|), |program|)
      decreases Alt(left, right), 0
    {
      hide Placed;
      var frame;
      ok, frame := EmitFramed(left);
      if !ok { return; }
      ghost var leftCode := program;
      var jump := |program|;
      ok := Push(P.Jmp(0));
      if !ok { return; }
      program := program[frame := P.Split(frame + 1, |program|)];
      ok := Emit(right);
      if !ok { return; }
      ghost var rightCode := program;
      program := program[jump := P.Jmp(|program|)];
      AltAssembled(leftCode, rightCode, program, left, right, frame, jump);
    }

    method EmitGroup(body: Node, index: nat) returns (ok: bool)
      requires |program| <= MAX_PROGRAM
      modifies this
      ensures |program| <= MAX_PROGRAM && old(program) <= program
      ensures ok <==> old(|program|) + Size(Group(body, index)) <= MAX_PROGRAM
      ensures ok ==> |program| == old(|program|) + Size(Group(body, index))
                     && Placed(program, Group(body, index), old(|program|), |program|)
      decreases body, 2
    {
      ok := Push(P.Save(index * 2));
      if !ok { return; }
      ok := Emit(body);
      if !ok { return; }
      ghost var bodyCode := program;
      ok := Push(P.Save(index * 2 + 1));
      if ok { PlacedKeeps(bodyCode, program, body, old(|program|) + 1, |bodyCode|); }
    }

    /** `x{2,}` is `x x x*`, and the optional copies of a bounded interval nest. */
    method EmitRepeat(body: Node, min: nat, max: Option<nat>) returns (ok: bool)
      requires |program| <= MAX_PROGRAM
      modifies this
      ensures |program| <= MAX_PROGRAM && old(program) <= program
      ensures ok <==> old(|program|) + Size(Repeat(body, min, max)) <= MAX_PROGRAM
      ensures ok ==> |program| == old(|program|) + Size(Repeat(body, min, max))
                     && Placed(program, Repeat(body, min, max), old(|program|), |program|)
      decreases body, 4
    {
      ghost var base := |program|;
      assert Size(Repeat(body, min, max)) == Times(min, Size(body))
        + (if max.None? then 2 + Size(body) else Times(if max.value < min then 0 else max.value - min, 1 + Size(body)));
      ok := EmitCopies(body, min);
      if !ok { return; }
      ghost var required, tail := program, |program|;
      if max.None? {
        ok := EmitStar(body);
      } else {
        ok := EmitOptional(body, if max.value < min then 0 else max.value - min);
      }
      if ok { RepeatAssembled(required, program, body, min, max, base, tail); }
    }

    method EmitCopies(body: Node, min: nat) returns (ok: bool)
      requires |program| <= MAX_PROGRAM
      modifies this
      ensures |program| <= MAX_PROGRAM && old(program) <= program
      ensures ok <==> old(|program|) + Times(min, Size(body)) <= MAX_PROGRAM
      ensures ok ==> |program| == old(|program|) + Times(min, Size(body))
                     && PlacedCopies(program, body, min, old(|program|), |program|)
      decreases body, 3
    {
      ghost var base := |program|;
      ok := true;
      var count := 0;
      while count < min
        invariant count <= min && ok && |program| <= MAX_PROGRAM && old(program) <= program
        invariant |program| == base + Times(count, Size(body))
        invariant PlacedCopies(program, body, count, base, |program|)
      {
        ghost var before := program;
        TimesMonotone(count + 1, min, Size(body));
        ok := Emit(body);
        if !ok { return; }
        CopiesKeep(before, program, body, count, base, |before|);
        CopiesSnoc(program, body, count, base, |before|, |program|);
        count := count + 1;
      }
    }

    method EmitStar(body: Node) returns (ok: bool)
      requires |program| <= MAX_PROGRAM
      modifies this
      ensures |program| <= MAX_PROGRAM && old(program) <= program
      ensures ok <==> old(|program|) + 2 + Size(body) <= MAX_PROGRAM
      ensures ok ==> |program| == old(|program|) + 2 + Size(body)
                     && PlacedStar(program, body, old(|program|), |program|)
      decreases body, 3
    {
      var at;
      ok, at := EmitFramed(body);
      if !ok { return; }
      ghost var bodyCode := program;
      ok := Push(P.Jmp(at));
      if !ok { return; }
      program := program[at := P.Split(at + 1, |program|)];
      PlacedKeeps(bodyCode, program, body, at + 1, |bodyCode|);
    }

    method EmitOptional(body: Node, n: nat) returns (ok: bool)
      requires |program| <= MAX_PROGRAM
      modifies this
      ensures |program| <= MAX_PROGRAM && old(program) <= program
      ensures ok <==> old(|program|) + Times(n, 1 + Size(body)) <= MAX_PROGRAM
      ensures ok ==> |program| == old(|program|) + Times(n, 1 + Size(body))
                     && PlacedOptional(program, body, n, old(|program|), |program|)
      decreases body, 3
    {
      hide Placed, PlacedOptional, Pending, Times, Size;
      ghost var base := |program|;
      var frames: seq<nat> := [];
      var count := 0;
      TimesOne(0, 1 + Size(body));
      PendingNone(program, body);
      while count < n
        invariant count == |frames| <= n && |program| <= MAX_PROGRAM && old(program) <= program
        invariant |program| == base + Times(count, 1 + Size(body))
        invariant Pending(program, body, frames, 0, 0, base, |program|)
      {
        ghost var before := program;
        TimesOne(count, 1 + Size(body));
        TimesMonotone(count + 1, n, 1 + Size(body));
        var frame;
        ok, frame := EmitFramed(body);
        if !ok { return; }
        PendingKeeps(before, program, body, frames, 0, 0, base, frame);
        PendingSnoc(program, body, frames, 0, base, frame, |program|);
        frames := frames + [frame];
        count := count + 1;
      }
      PatchAll(body, frames, base);
      ok := true;
    }

    /** Points every split at the instruction after the last copy. */
    method PatchAll(ghost body: Node, frames: seq<nat>, ghost base: nat)
      requires Pending(program, body, frames, 0, 0, base, |program|)
      modifies this
      ensures |program| == old(|program|) && Same(program, old(program), 0, base)
      ensures PlacedOptional(program, body, |frames|, base, |program|)
    {
      var end := |program|;
      PendingLimit(program, body, frames, 0, end, base, end);
      var i := 0;
      while i < |frames|
        invariant i <= |frames| && |program| == end && Same(program, old(program), 0, base)
        invariant Pending(program, body, frames, i, end, base, end)
      {
        PendingInside(program, body, frames, i, end, base, end, i);
        ghost var before := program;
        program := program[frames[i] := P.Split(frames[i] + 1, end)];
        PendingPatch(before, program, body, frames, i, end, base, end);
        i := i + 1;
      }
      PendingDone(program, body, frames, base, end);
    }

    /** Compiles a pattern, refusing exactly those whose program would pass the limit. */
    static method Compile(node: Node) returns (result: Option<P.Program>)
      ensures result.Some? <==> Size(node) + 3 <= MAX_PROGRAM
      ensures result.Some? ==> |result.value| == Size(node) + 3 && Compiled(result.value, node)
    {
      hide Placed, Size;
      var c := new Compiler();
      var ok := c.Push(P.Save(0));
      ok := c.Emit(node);
      if !ok { return None; }
      ghost var code := c.program;
      ok := c.Push(P.Save(1));
      if !ok { return None; }
      ok := c.Push(P.Match);
      if !ok { return None; }
      PlacedKeeps(code, c.program, node, 1, |code|);
      return Some(c.program);
    }
  }
}
