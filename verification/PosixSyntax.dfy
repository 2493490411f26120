/** The syntax tree of src/core/posix-regex.ts and what each tree matches. */
module PosixSyntax {
  import opened Sequences
  import opened Utf16
  import opened PosixCharset

  datatype Node =
    | Empty
    | Set(chars: CharSet)
    | Any
    | Bol
    | Eol
    | Cat(left: Node, right: Node)
    | Alt(left: Node, right: Node)
    | Group(body: Node, index: nat)
    | Repeat(body: Node, min: nat, max: Option<nat>)

  /** `n` pieces of `size` each. */
  function Times(n: nat, size: nat): nat { if n == 0 then 0 else size + Times(n - 1, size) }

  /** The places of a tree, which are the instructions of its code. */
  function Size(node: Node): nat {
    match node
    case Empty => 0
    case Cat(left, right) => Size(left) + Size(right)
    case Alt(left, right) => 2 + Size(left) + Size(right)
    case Group(body, _) => 2 + Size(body)
    case Repeat(body, min, None) => Times(min, Size(body)) + 2 + Size(body)
    case Repeat(body, min, Some(max)) => Times(min, Size(body)) + Times(if max < min then 0 else max - min, 1 + Size(body))
    case _ => 1
  }

  /** What the parser guarantees: groups are numbered from one and no interval runs backwards. */
  predicate WellFormed(node: Node) {
    match node
    case Cat(left, right) => WellFormed(left) && WellFormed(right)
    case Alt(left, right) => WellFormed(left) && WellFormed(right)
    case Group(body, index) => index >= 1 && WellFormed(body)
    case Repeat(body, min, max) => (max.Some? ==> min <= max.value) && WellFormed(body)
    case _ => true
  }

  /** The tree matches the code points of `t` from offset `i` to offset `j`. */
  ghost predicate Denotes(node: Node, t: Text, i: nat, j: nat)
    decreases node, 0
  {
    match node
    case Empty => i == j
    case Set(chars) => i < |t| && InSet(chars, CodePointAt(t, i)) && j == Next(t, i)
    case Any => i < |t| && j == Next(t, i)
    case Bol => i == j == 0
    case Eol => i == j == |t|
    case Cat(left, right) => exists k: nat :: Denotes(left, t, i, k) && Denotes(right, t, k, j)
    case Alt(left, right) => Denotes(left, t, i, j) || Denotes(right, t, i, j)
    case Group(body, _) => Denotes(body, t, i, j)
    case Repeat(body, min, max) =>
      exists n: nat :: min <= n && (max.Some? ==> n <= max.value) && Power(body, n, t, i, j)
  }

  /** `n` matches of the body in a row. */
  ghost predicate Power(body: Node, n: nat, t: Text, i: nat, j: nat)
    decreases body, n + 1
  {
    if n == 0 then i == j
    else exists k: nat :: Denotes(body, t, i, k) && Power(body, n - 1, t, k, j)
  }

  lemma PowerCons(body: Node, n: nat, t: Text, i: nat, k: nat, j: nat)
    requires Denotes(body, t, i, k) && Power(body, n, t, k, j)
    ensures Power(body, n + 1, t, i, j)
  {}

  lemma {:induction false} PowerAdd(body: Node, a: nat, b: nat, t: Text, i: nat, k: nat, j: nat)
    requires Power(body, a, t, i, k) && Power(body, b, t, k, j)
    ensures Power(body, a + b, t, i, j)
    decreases a
  {
    if a > 0 {
      var l: nat :| Denotes(body, t, i, l) && Power(body, a - 1, t, l, k);
      PowerAdd(body, a - 1, b, t, l, k, j);
    }
  }

  lemma {:induction false} PowerSplit(body: Node, a: nat, b: nat, t: Text, i: nat, j: nat) returns (k: nat)
    requires Power(body, a + b, t, i, j)
    ensures Power(body, a, t, i, k) && Power(body, b, t, k, j)
    decreases a
  {
    if a == 0 {
      k := i;
    } else {
      var l: nat :| Denotes(body, t, i, l) && Power(body, a + b - 1, t, l, j);
      k := PowerSplit(body, a - 1, b, t, l, j);
    }
  }
}
