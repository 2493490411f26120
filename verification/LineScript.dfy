/** Edit scripts over lines, and how short one can be (src/core/line-diff.ts). */
module LineScript {
  import opened Sequences
  import opened Utf16

  datatype Kind = Equal | Delete | Insert

  datatype Operation = Operation(kind: Kind, text: Text, oldLine: nat, newLine: nat)

  type Script = seq<Operation>

  /** The lines one operation takes from the old text. */
  function OldPart(op: Operation): seq<Text> { if op.kind == Insert then [] else [op.text] }

  /** The lines one operation gives to the new text. */
  function NewPart(op: Operation): seq<Text> { if op.kind == Delete then [] else [op.text] }

  function Old(ops: Script): seq<Text> {
    if ops == [] then [] else Old(ops[..|ops| - 1]) + OldPart(ops[|ops| - 1])
  }

  function New(ops: Script): seq<Text> {
    if ops == [] then [] else New(ops[..|ops| - 1]) + NewPart(ops[|ops| - 1])
  }

  function Count(ops: Script, kind: Kind): nat {
    if ops == [] then 0 else Count(ops[..|ops| - 1], kind) + if ops[|ops| - 1].kind == kind then 1 else 0
  }

  /** Additions plus deletions. */
  function Changes(ops: Script): nat { Count(ops, Delete) + Count(ops, Insert) }

  ghost predicate IsScript(ops: Script, before: seq<Text>, after: seq<Text>) {
    Old(ops) == before && New(ops) == after
  }

  /** Each operation carries the next line number of either side. */
  ghost predicate NumberedAt(ops: Script, i: nat, oldOffset: nat, newOffset: nat)
    requires i < |ops|
  {
    ops[i].oldLine == oldOffset + |Old(ops[..i])| + 1 && ops[i].newLine == newOffset + |New(ops[..i])| + 1
  }

  ghost predicate Numbered(ops: Script, oldOffset: nat, newOffset: nat) {
    forall i | 0 <= i < |ops| :: NumberedAt(ops, i, oldOffset, newOffset)
  }

  lemma Snoc(ops: Script, op: Operation)
    ensures Old(ops + [op]) == Old(ops) + OldPart(op) && New(ops + [op]) == New(ops) + NewPart(op)
    ensures forall kind :: Count(ops + [op], kind) == Count(ops, kind) + if op.kind == kind then 1 else 0
  {
    assert (ops + [op])[..|ops|] == ops;
  }

  /** The script `b` continues `a` to give `whole`. */
  ghost predicate Continues(a: Script, b: Script, whole: Script) {
    && Old(whole) == Old(a) + Old(b) && New(whole) == New(a) + New(b)
    && forall kind :: Count(whole, kind) == Count(a, kind) + Count(b, kind)
  }

  lemma ContinuesSnoc(a: Script, b: Script, whole: Script, op: Operation)
    requires Continues(a, b, whole)
    ensures Continues(a, b + [op], whole + [op])
  {
    Snoc(b, op);
    Snoc(whole, op);
    Assoc(Old(a), Old(b), OldPart(op));
    Assoc(New(a), New(b), NewPart(op));
  }

  lemma ContinuesNothing(a: Script)
    ensures Continues(a, [], a)
  {}

  lemma {:induction false} Append(a: Script, b: Script)
    ensures Continues(a, b, a + b)
  {
    hide Continues;
    if b == [] {
      ContinuesNothing(a);
      assert a + b == a;
    } else {
      var init, last := b[..|b| - 1], b[|b| - 1];
      Append(a, init);
      ContinuesSnoc(a, init, a + init, last);
      assert a + b == (a + init) + [last] && b == init + [last];
    }
  }

  lemma NumberedSnoc(ops: Script, op: Operation, oldOffset: nat, newOffset: nat)
    requires Numbered(ops, oldOffset, newOffset)
    requires op.oldLine == oldOffset + |Old(ops)| + 1 && op.newLine == newOffset + |New(ops)| + 1
    ensures Numbered(ops + [op], oldOffset, newOffset)
  {
    forall i | 0 <= i < |ops + [op]| ensures NumberedAt(ops + [op], i, oldOffset, newOffset) {
      if i < |ops| {
        assert (ops + [op])[..i] == ops[..i];
        assert NumberedAt(ops, i, oldOffset, newOffset);
      } else {
        assert (ops + [op])[..i] == ops;
      }
    }
  }

  /** The length of the longest common subsequence. */
  function Lcs(a: seq<Text>, b: seq<Text>): nat
    decreases |a| + |b|
  {
    if a == [] || b == [] then 0
    else if a[0] == b[0] then 1 + Lcs(a[1..], b[1..])
    else Max(Lcs(a[1..], b), Lcs(a, b[1..]))
  }

  function Max(a: int, b: int): int { if a < b then b else a }

  lemma {:induction false} LcsSymmetric(a: seq<Text>, b: seq<Text>)
    ensures Lcs(a, b) == Lcs(b, a)
    decreases |a| + |b|
  {
    if a == [] || b == [] {
    } else if a[0] == b[0] {
      LcsSymmetric(a[1..], b[1..]);
    } else {
      LcsSymmetric(a[1..], b);
      LcsSymmetric(a, b[1..]);
    }
  }

  lemma {:induction false} LcsGrows(a: seq<Text>, b: seq<Text>, x: Text)
    ensures Lcs(a, b) <= Lcs(a + [x], b)
    decreases |a| + |b|
  {
    if a == [] || b == [] {
    } else {
      assert (a + [x])[1..] == a[1..] + [x] && (a + [x])[0] == a[0];
      if a[0] == b[0] {
        LcsGrows(a[1..], b[1..], x);
      } else {
        LcsGrows(a[1..], b, x);
        LcsGrows(a, b[1..], x);
      }
    }
  }

  lemma {:induction false} LcsFinds(b: seq<Text>, x: Text)
    ensures Lcs([x], b + [x]) == 1
    decreases |b|
  {
    var c := b + [x];
    assert [x][1..] == [];
    if b == [] || b[0] == x {
    } else {
      assert c[1..] == b[1..] + [x];
      LcsFinds(b[1..], x);
    }
  }

  /** A common last line is never worth leaving out. */
  lemma {:induction false} LcsSnoc(a: seq<Text>, b: seq<Text>, x: Text)
    ensures Lcs(a + [x], b + [x]) == Lcs(a, b) + 1
    decreases |a| + |b|
  {
    if a == [] {
      LcsFinds(b, x);
      assert a + [x] == [x];
    } else if b == [] {
      LcsFinds(a, x);
      LcsSymmetric(a + [x], b + [x]);
      assert b + [x] == [x];
    } else {
      assert (a + [x])[1..] == a[1..] + [x] && (b + [x])[1..] == b[1..] + [x];
      if a[0] == b[0] {
        LcsSnoc(a[1..], b[1..], x);
      } else {
        LcsSnoc(a[1..], b, x);
        LcsSnoc(a, b[1..], x);
      }
    }
  }

  lemma {:induction false} LcsSuffix(a: seq<Text>, b: seq<Text>, s: seq<Text>)
    ensures Lcs(a + s, b + s) == Lcs(a, b) + |s|
  {
    if s == [] {
      assert a + s == a && b + s == b;
    } else {
      var init, last := s[..|s| - 1], s[|s| - 1];
      LcsSuffix(a, b, init);
      LcsSnoc(a + init, b + init, last);
      assert a + s == (a + init) + [last] && b + s == (b + init) + [last];
    }
  }

  lemma {:induction false} LcsPrefix(p: seq<Text>, a: seq<Text>, b: seq<Text>)
    ensures Lcs(p + a, p + b) == |p| + Lcs(a, b)
  {
    if p == [] {
      assert p + a == a && p + b == b;
    } else {
      LcsPrefix(p[1..], a, b);
      assert (p + a)[1..] == p[1..] + a && (p + b)[1..] == p[1..] + b;
    }
  }

  /** No script keeps more lines than the longest common subsequence. */
  lemma {:induction false} EqualsAtMostLcs(ops: Script)
    ensures Count(ops, Equal) <= Lcs(Old(ops), New(ops))
  {
    if ops != [] {
      var init, last := ops[..|ops| - 1], ops[|ops| - 1];
      EqualsAtMostLcs(init);
      var a, b := Old(init), New(init);
      match last.kind {
        case Equal => LcsSnoc(a, b, last.text);
        case Delete =>
          LcsGrows(a, b, last.text);
          assert b + [] == b;
        case Insert =>
          LcsGrows(b, a, last.text);
          LcsSymmetric(a, b);
          LcsSymmetric(a, b + [last.text]);
          assert a + [] == a;
      }
    }
  }

  lemma {:induction false} Counts(ops: Script)
    ensures |Old(ops)| == Count(ops, Equal) + Count(ops, Delete)
    ensures |New(ops)| == Count(ops, Equal) + Count(ops, Insert)
  {
    if ops != [] { Counts(ops[..|ops| - 1]); }
  }

  /** A script that keeps a longest common subsequence changes no more lines than any other script. */
  lemma Minimal(ops: Script, other: Script, before: seq<Text>, after: seq<Text>)
    requires IsScript(ops, before, after) && IsScript(other, before, after)
    requires Count(ops, Equal) == Lcs(before, after)
    ensures Changes(ops) == |before| + |after| - 2 * Lcs(before, after)
    ensures Changes(ops) <= Changes(other)
  {
    Counts(ops);
    Counts(other);
    EqualsAtMostLcs(other);
  }

  lemma NumberedAppend(a: Script, b: Script)
    requires Numbered(a, 0, 0) && Numbered(b, |Old(a)|, |New(a)|)
    ensures Numbered(a + b, 0, 0)
  {
    forall i | 0 <= i < |a + b| ensures NumberedAt(a + b, i, 0, 0) {
      if i < |a| {
        assert (a + b)[..i] == a[..i];
        assert NumberedAt(a, i, 0, 0);
      } else {
        var j := i - |a|;
        assert (a + b)[..i] == a + b[..j];
        Append(a, b[..j]);
        assert NumberedAt(b, j, |Old(a)|, |New(a)|);
      }
    }
  }

  /** A run of kept lines. */
  ghost predicate Kept(ops: Script, lines: seq<Text>, oldStart: nat, newStart: nat) {
    |ops| == |lines| && forall i | 0 <= i < |ops| :: ops[i] == Operation(Equal, lines[i], oldStart + i + 1, newStart + i + 1)
  }

  lemma {:induction false} KeptIsScript(ops: Script, lines: seq<Text>, oldStart: nat, newStart: nat)
    requires Kept(ops, lines, oldStart, newStart)
    ensures IsScript(ops, lines, lines) && Count(ops, Equal) == |lines| && Numbered(ops, oldStart, newStart)
    decreases |ops|
  {
    hide Old, New, Count, Numbered, Kept;
    if ops == [] {
      KeptNone(lines, oldStart, newStart);
    } else {
      var init, last := ops[..|ops| - 1], ops[|ops| - 1];
      KeptInit(ops, lines, oldStart, newStart);
      var before := lines[..|ops| - 1];
      KeptIsScript(init, before, oldStart, newStart);
      KeptLast(init, before, last, oldStart, newStart);
      assert ops == init + [last] && lines == before + [last.text];
    }
  }

  lemma KeptNone(lines: seq<Text>, oldStart: nat, newStart: nat)
    requires Kept([], lines, oldStart, newStart)
    ensures lines == [] && IsScript([], [], []) && Count([], Equal) == 0 && Numbered([], oldStart, newStart)
  {}

  /** One more line kept. */
  lemma KeptLast(init: Script, lines: seq<Text>, last: Operation, oldStart: nat, newStart: nat)
    requires IsScript(init, lines, lines) && Count(init, Equal) == |lines| && Numbered(init, oldStart, newStart)
    requires last == Operation(Equal, last.text, oldStart + |lines| + 1, newStart + |lines| + 1)
    ensures IsScript(init + [last], lines + [last.text], lines + [last.text])
    ensures Count(init + [last], Equal) == |lines| + 1 && Numbered(init + [last], oldStart, newStart)
  {
    hide Old, New, Count, Numbered;
    Snoc(init, last);
    NumberedSnoc(init, last, oldStart, newStart);
  }

  lemma KeptInit(ops: Script, lines: seq<Text>, oldStart: nat, newStart: nat)
    requires Kept(ops, lines, oldStart, newStart) && ops != []
    ensures |lines| == |ops| && Kept(ops[..|ops| - 1], lines[..|ops| - 1], oldStart, newStart)
    ensures ops[|ops| - 1] == Operation(Equal, lines[|ops| - 1], oldStart + |ops|, newStart + |ops|)
  {}

  /** The old text up to an operation, with that operation and with the rest. */
  lemma Split(ops: Script, k: nat)
    requires k <= |ops|
    ensures Old(ops) == Old(ops[..k]) + Old(ops[k..]) && New(ops) == New(ops[..k]) + New(ops[k..])
    ensures forall kind :: Count(ops, kind) == Count(ops[..k], kind) + Count(ops[k..], kind)
  {
    hide Old, New, Count;
    Append(ops[..k], ops[k..]);
    assert ops[..k] + ops[k..] == ops;
  }

  lemma OneMore(ops: Script, k: nat)
    requires k < |ops|
    ensures Old(ops[..k + 1]) == Old(ops[..k]) + OldPart(ops[k]) && New(ops[..k + 1]) == New(ops[..k]) + NewPart(ops[k])
    ensures forall kind :: Count(ops[..k + 1], kind) == Count(ops[..k], kind) + if ops[k].kind == kind then 1 else 0
  {
    Snoc(ops[..k], ops[k]);
    assert ops[..k] + [ops[k]] == ops[..k + 1];
  }

  /** An operation that is not an insertion is the next old line. */
  lemma NextOld(ops: Script, k: nat)
    requires k < |ops| && ops[k].kind != Insert
    ensures |Old(ops[..k])| < |Old(ops)| && Old(ops)[|Old(ops[..k])|] == ops[k].text
  {
    OneMore(ops, k);
    Split(ops, k + 1);
  }

  lemma NextNew(ops: Script, k: nat)
    requires k < |ops| && ops[k].kind != Delete
    ensures |New(ops[..k])| < |New(ops)| && New(ops)[|New(ops[..k])|] == ops[k].text
  {
    OneMore(ops, k);
    Split(ops, k + 1);
  }
}
