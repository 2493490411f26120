/**
 * Which of its matches a tree prefers, told from the tree alone: the left alternative before the right, another turn
 * of a repeat before leaving it, and no choice faced twice at one offset.
 */
module PosixPreference {
  import opened Sequences
  import opened Utf16
  import opened PosixCharset
  import opened PosixProgram
  import opened S = PosixSyntax

  /** Something left to match. Every node and every copy of it has a place of its own, by which its choices are told apart. */
  datatype Task =
    | Do(node: Node, place: nat)
    | Close(index: nat)
    | Copies(body: Node, n: nat, place: nat)
    | Turns(body: Node, place: nat)
    | UpTo(body: Node, n: nat, place: nat)

  /** What is left of a match, nearest first. */
  datatype Work = Done | Then(task: Task, rest: Work)

  /** The most steps a node takes before it consumes input or faces a choice. */
  ghost function Weight(node: Node): nat {
    match node
    case Cat(left, right) => 1 + Weight(left) + Weight(right)
    case Group(body, _) => 2 + Weight(body)
    case Repeat(body, min, _) => 3 + Times(min, 1 + Weight(body))
    case _ => 1
  }

  ghost function Burden(task: Task): nat {
    match task
    case Do(node, _) => Weight(node)
    case Copies(body, n, _) => 1 + Times(n, 1 + Weight(body))
    case _ => 1
  }

  ghost function Load(work: Work): nat {
    match work
    case Done => 0
    case Then(task, rest) => Burden(task) + Load(rest)
  }

  /** Two tasks in front of the rest. */
  ghost function Both(first: Task, second: Task, rest: Work): (work: Work)
    ensures Load(work) == Burden(first) + Burden(second) + Load(rest)
  {
    Then(first, Then(second, rest))
  }

  /** The tail of a repeat, after its required copies. */
  ghost function Tail(body: Node, min: nat, max: Option<nat>, place: nat): (tail: Task)
    ensures Burden(tail) == 1
  {
    match max
    case None => Turns(body, place)
    case Some(most) => UpTo(body, if most < min then 0 else most - min, place)
  }

  predicate Reads(node: Node, t: Text, at: nat) {
    at < |t| && (node.Any? || (node.Set? && InSet(node.chars, CodePointAt(t, at))))
  }

  /** What comes next: no way on, more work at this offset, a choice, or a code point to read. */
  datatype Move =
    | Stuck
    | Goes(work: Work, captures: Captures)
    | Faces(place: nat, first: Work, second: Work)
    | Takes

  ghost function Inside(node: Node, place: nat, rest: Work, t: Text, at: nat, captures: Captures): (move: Move)
    requires at <= |t|
    ensures move.Goes? ==> Load(move.work) < Weight(node) + Load(rest)
    ensures move.Takes? ==> at < |t|
  {
    match node
    case Empty => Goes(rest, captures)
    case Bol => if at == 0 then Goes(rest, captures) else Stuck
    case Eol => if at == |t| then Goes(rest, captures) else Stuck
    case Cat(left, right) => Goes(Both(Do(left, place), Do(right, place + Size(left)), rest), captures)
    case Alt(left, right) => Faces(place, Then(Do(left, place + 1), rest), Then(Do(right, place + 2 + Size(left)), rest))
    case Group(body, index) => Goes(Both(Do(body, place + 1), Close(index), rest), Store(captures, index * 2, at))
    case Repeat(body, min, max) =>
      Goes(Both(Copies(body, min, place), Tail(body, min, max, place + Times(min, Size(body))), rest), captures)
    case _ => if Reads(node, t, at) then Takes else Stuck
  }

  ghost function Ahead(task: Task, rest: Work, t: Text, at: nat, captures: Captures): (move: Move)
    requires at <= |t|
    ensures move.Goes? ==> Load(move.work) < Load(Then(task, rest))
    ensures move.Takes? ==> at < |t|
  {
    match task
    case Do(node, place) => Inside(node, place, rest, t, at, captures)
    case Close(index) => Goes(rest, Store(captures, index * 2 + 1, at))
    case Copies(body, n, place) =>
      Goes(if n == 0 then rest else Both(Do(body, place), Copies(body, n - 1, place + Size(body)), rest), captures)
    case Turns(body, place) => Faces(place, Both(Do(body, place + 1), task, rest), rest)
    case UpTo(body, n, place) =>
      if n == 0 then Goes(rest, captures)
      else Faces(place, Both(Do(body, place + 1), UpTo(body, n - 1, place + 1 + Size(body)), rest), rest)
  }

  /** The preferred way to finish. The choices in `free` have not been faced at this offset; `all` are the tree's. */
  ghost function Prefer(work: Work, t: Text, at: nat, captures: Captures, free: set<nat>, all: set<nat>): Option<Hit>
    requires at <= |t|
    decreases |t| - at, |free|, Load(work)
  {
    match work
    case Done => Some(Hit(captures, at))
    case Then(task, rest) =>
      match Ahead(task, rest, t, at, captures)
      case Stuck => None
      case Goes(onward, c) => Prefer(onward, t, at, c, free, all)
      case Takes => Prefer(rest, t, Next(t, at), captures, all, all)
      case Faces(place, first, second) =>
        if place !in free then None
        else
          var preferred := Prefer(first, t, at, captures, free - {place}, all);
          if preferred.Some? then preferred else Prefer(second, t, at, captures, free - {place}, all)
  }

  ghost function Below(n: nat): (places: set<nat>)
    ensures forall p: nat :: p in places <==> p < n
  {
    if n == 0 then {} else Below(n - 1) + {n - 1}
  }

  /** The preferred match of a tree from an offset; slots 0 and 1 hold its bounds. */
  ghost function Preferred(node: Node, t: Text, at: nat, empty: Captures): Option<Hit>
    requires at <= |t|
  {
    var hit := Prefer(Then(Do(node, 0), Done), t, at, Store(empty, 0, at), Below(Size(node)), Below(Size(node)));
    if hit.Some? then Some(Hit(Store(hit.value.captures, 1, hit.value.end), hit.value.end)) else None
  }
}
