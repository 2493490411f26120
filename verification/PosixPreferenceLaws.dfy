/** What the preference of a tree amounts to: the left alternative first, repeats as long as they go, groups that hold their match. */
module PosixPreferenceLaws {
  import opened Sequences
  import opened Utf16
  import opened PosixCharset
  import opened PosixProgram
  import opened S = PosixSyntax
  import opened PosixPreference

  // The places of a tree only tell its choices apart: numbering them from elsewhere changes nothing.

  ghost function Renumber(task: Task, shift: nat): (r: Task)
    ensures Burden(r) == Burden(task)
  {
    match task
    case Do(node, place) => Do(node, place + shift)
    case Close(index) => Close(index)
    case Copies(body, n, place) => Copies(body, n, place + shift)
    case Turns(body, place) => Turns(body, place + shift)
    case UpTo(body, n, place) => UpTo(body, n, place + shift)
  }

  ghost function RenumberAll(work: Work, shift: nat): (r: Work)
    ensures Load(r) == Load(work)
  {
    match work
    case Done => Done
    case Then(task, rest) => Then(Renumber(task, shift), RenumberAll(rest, shift))
  }

  /** Every choice the task can face is below `n`. */
  ghost predicate TaskUnder(task: Task, n: nat) {
    match task
    case Do(node, place) => place + Size(node) <= n
    case Close(_) => true
    case Copies(body, count, place) => place + Times(count, Size(body)) <= n
    case Turns(body, place) => place + 2 + Size(body) <= n
    case UpTo(body, count, place) => place + Times(count, 1 + Size(body)) <= n
  }

  ghost predicate Under(work: Work, n: nat) {
    match work
    case Done => true
    case Then(task, rest) => TaskUnder(task, n) && Under(rest, n)
  }

  lemma BothRenumbered(first: Task, second: Task, rest: Work, n: nat, shift: nat)
    ensures RenumberAll(Both(first, second, rest), shift) == Both(Renumber(first, shift), Renumber(second, shift), RenumberAll(rest, shift))
    ensures Under(Both(first, second, rest), n) <==> TaskUnder(first, n) && TaskUnder(second, n) && Under(rest, n)
  {
    assert Under(Then(second, rest), n) <==> TaskUnder(second, n) && Under(rest, n);
  }

  ghost predicate Matched(free: set<nat>, other: set<nat>, n: nat, shift: nat) {
    forall p: nat | p < n :: p in free <==> p + shift in other
  }

  ghost function RenumberMove(move: Move, shift: nat): Move {
    match move
    case Goes(work, captures) => Goes(RenumberAll(work, shift), captures)
    case Faces(place, first, second) => Faces(place + shift, RenumberAll(first, shift), RenumberAll(second, shift))
    case _ => move
  }

  ghost predicate MoveUnder(move: Move, n: nat) {
    match move
    case Goes(work, _) => Under(work, n)
    case Faces(place, first, second) => place < n && Under(first, n) && Under(second, n)
    case _ => true
  }

  lemma ThenRenumbered(task: Task, rest: Work, n: nat, shift: nat)
    ensures RenumberAll(Then(task, rest), shift) == Then(Renumber(task, shift), RenumberAll(rest, shift))
    ensures Under(Then(task, rest), n) <==> TaskUnder(task, n) && Under(rest, n)
  {}

  lemma InsideRenumbered(node: Node, place: nat, rest: Work, t: Text, at: nat, captures: Captures, n: nat, shift: nat)
    requires at <= |t| && TaskUnder(Do(node, place), n) && Under(rest, n)
    ensures var move := Inside(node, place, rest, t, at, captures);
            MoveUnder(move, n) && Inside(node, place + shift, RenumberAll(rest, shift), t, at, captures) == RenumberMove(move, shift)
  {
    hide InSet, CodePointAt, Store, Both, Load, Weight, Burden, Under, RenumberAll;
    var move := Inside(node, place, rest, t, at, captures);
    if node.Cat? {
      BothRenumbered(Do(node.left, place), Do(node.right, place + Size(node.left)), rest, n, shift);
    } else if node.Alt? {
      ThenRenumbered(Do(node.left, place + 1), rest, n, shift);
      ThenRenumbered(Do(node.right, place + 2 + Size(node.left)), rest, n, shift);
    } else if node.Group? {
      BothRenumbered(Do(node.body, place + 1), Close(node.index), rest, n, shift);
    } else if node.Repeat? {
      var tail := Tail(node.body, node.min, node.max, place + Times(node.min, Size(node.body)));
      BothRenumbered(Copies(node.body, node.min, place), tail, rest, n, shift);
    }
  }

  lemma AheadRenumbered(task: Task, rest: Work, t: Text, at: nat, captures: Captures, n: nat, shift: nat)
    requires at <= |t| && TaskUnder(task, n) && Under(rest, n)
    ensures var move := Ahead(task, rest, t, at, captures);
            MoveUnder(move, n) && Ahead(Renumber(task, shift), RenumberAll(rest, shift), t, at, captures) == RenumberMove(move, shift)
  {
    hide Inside, Store, Both, Load, Weight, Burden, Under, RenumberAll;
    var move := Ahead(task, rest, t, at, captures);
    if task.Do? {
      InsideRenumbered(task.node, task.place, rest, t, at, captures, n, shift);
    } else if task.Copies? && task.n > 0 {
      BothRenumbered(Do(task.body, task.place), Copies(task.body, task.n - 1, task.place + Size(task.body)), rest, n, shift);
    } else if task.Turns? {
      BothRenumbered(Do(task.body, task.place + 1), task, rest, n, shift);
    } else if task.UpTo? && task.n > 0 {
      BothRenumbered(Do(task.body, task.place + 1), UpTo(task.body, task.n - 1, task.place + 1 + Size(task.body)), rest, n, shift);
    }
  }

  lemma {:induction false} RenumberedSame(work: Work, t: Text, at: nat, captures: Captures, free: set<nat>, all: set<nat>,
                                          other: set<nat>, others: set<nat>, n: nat, shift: nat)
    requires at <= |t| && Under(work, n) && Matched(free, other, n, shift) && Matched(all, others, n, shift)
    ensures Prefer(RenumberAll(work, shift), t, at, captures, other, others) == Prefer(work, t, at, captures, free, all)
    decreases |t| - at, |free|, Load(work)
  {
    hide Ahead;
    match work
    case Done =>
    case Then(task, rest) =>
      AheadRenumbered(task, rest, t, at, captures, n, shift);
      match Ahead(task, rest, t, at, captures)
      case Stuck =>
      case Goes(onward, c) => RenumberedSame(onward, t, at, c, free, all, other, others, n, shift);
      case Takes => RenumberedSame(rest, t, Next(t, at), captures, all, all, others, others, n, shift);
      case Faces(place, first, second) =>
        if place in free {
          RenumberedSame(first, t, at, captures, free - {place}, all, other - {place + shift}, others, n, shift);
          RenumberedSame(second, t, at, captures, free - {place}, all, other - {place + shift}, others, n, shift);
        }
  }

  /** A whole tree, numbered from zero or from elsewhere. */
  lemma TreeRenumbered(node: Node, t: Text, at: nat, captures: Captures, other: set<nat>, others: set<nat>, shift: nat)
    requires at <= |t| && forall p: nat | shift <= p < shift + Size(node) :: p in other && p in others
    ensures Prefer(Then(Do(node, shift), Done), t, at, captures, other, others)
         == Prefer(Then(Do(node, 0), Done), t, at, captures, Below(Size(node)), Below(Size(node)))
  {
    hide Prefer, Size, Below;
    var work, own := Then(Do(node, 0), Done), Below(Size(node));
    assert RenumberAll(work, shift) == Then(Do(node, shift), Done) by { assert RenumberAll(Done, shift) == Done; }
    assert Under(work, Size(node)) by { assert Under(Done, Size(node)); }
    RenumberedSame(work, t, at, captures, own, own, other, others, Size(node), shift);
  }

  /** The left alternative comes first; the right one is taken only if nothing comes of the left. */
  lemma LeftBeforeRight(left: Node, right: Node, t: Text, at: nat, empty: Captures)
    requires at <= |t|
    ensures Preferred(Alt(left, right), t, at, empty)
         == if Preferred(left, t, at, empty).Some? then Preferred(left, t, at, empty) else Preferred(right, t, at, empty)
  {
    hide Store, Below, Reads, Load, Weight, Burden, Times, Tail;
    var all, captures := Below(Size(Alt(left, right))), Store(empty, 0, at);
    TreeRenumbered(left, t, at, captures, all - {0}, all, 1);
    TreeRenumbered(right, t, at, captures, all - {0}, all, 2 + Size(left));
    var first, second := Then(Do(left, 1), Done), Then(Do(right, 2 + Size(left)), Done);
    assert Ahead(Do(Alt(left, right), 0), Done, t, at, captures) == Faces(0, first, second);
  }

  /** The groups a tree captures. */
  ghost function Groups(node: Node): set<nat> {
    match node
    case Cat(left, right) => Groups(left) + Groups(right)
    case Alt(left, right) => Groups(left) + Groups(right)
    case Group(body, index) => {index} + Groups(body)
    case Repeat(body, _, _) => Groups(body)
    case _ => {}
  }

  ghost predicate Spares(task: Task, index: nat) {
    match task
    case Do(node, _) => index !in Groups(node)
    case Close(_) => true
    case Copies(body, _, _) => index !in Groups(body)
    case Turns(body, _) => index !in Groups(body)
    case UpTo(body, _, _) => index !in Groups(body)
  }

  ghost predicate SparesAll(work: Work, index: nat) {
    match work
    case Done => true
    case Then(task, rest) => Spares(task, index) && SparesAll(rest, index)
  }

  ghost predicate HasSlot(captures: Captures, slot: nat, value: int) { slot < |captures| && captures[slot] == value }

  lemma TailSpares(body: Node, min: nat, max: Option<nat>, place: nat, index: nat)
    requires index !in Groups(body)
    ensures Spares(Tail(body, min, max, place), index)
  {}

  lemma ThenSpares(task: Task, rest: Work, index: nat)
    ensures SparesAll(Then(task, rest), index) <==> Spares(task, index) && SparesAll(rest, index)
  {}

  lemma BothSpare(first: Task, second: Task, rest: Work, index: nat)
    ensures SparesAll(Both(first, second, rest), index) <==> Spares(first, index) && Spares(second, index) && SparesAll(rest, index)
  {
    assert SparesAll(Then(second, rest), index) <==> Spares(second, index) && SparesAll(rest, index);
  }

  ghost predicate MoveSpares(move: Move, index: nat, value: int) {
    match move
    case Goes(work, captures) => SparesAll(work, index) && HasSlot(captures, index * 2, value)
    case Faces(_, first, second) => SparesAll(first, index) && SparesAll(second, index)
    case _ => true
  }

  lemma InsideSpares(node: Node, place: nat, rest: Work, t: Text, at: nat, captures: Captures, index: nat, value: int)
    requires at <= |t| && index !in Groups(node) && SparesAll(rest, index) && HasSlot(captures, index * 2, value)
    ensures MoveSpares(Inside(node, place, rest, t, at, captures), index, value)
  {
    hide Reads, Tail, Load, Weight, Burden, Size, Times, Both, SparesAll;
    var move := Inside(node, place, rest, t, at, captures);
    if node.Cat? {
      BothSpare(Do(node.left, place), Do(node.right, place + Size(node.left)), rest, index);
    } else if node.Alt? {
      ThenSpares(Do(node.left, place + 1), rest, index);
      ThenSpares(Do(node.right, place + 2 + Size(node.left)), rest, index);
    } else if node.Group? {
      BothSpare(Do(node.body, place + 1), Close(node.index), rest, index);
    } else if node.Repeat? {
      var tail := Tail(node.body, node.min, node.max, place + Times(node.min, Size(node.body)));
      TailSpares(node.body, node.min, node.max, place + Times(node.min, Size(node.body)), index);
      BothSpare(Copies(node.body, node.min, place), tail, rest, index);
    }
  }

  lemma AheadSpares(task: Task, rest: Work, t: Text, at: nat, captures: Captures, index: nat, value: int)
    requires at <= |t| && Spares(task, index) && SparesAll(rest, index) && HasSlot(captures, index * 2, value)
    ensures MoveSpares(Ahead(task, rest, t, at, captures), index, value)
  {
    hide Inside, Load, Weight, Burden, Size, Times, Both, SparesAll;
    var move := Ahead(task, rest, t, at, captures);
    if task.Do? {
      InsideSpares(task.node, task.place, rest, t, at, captures, index, value);
    } else if task.Copies? && task.n > 0 {
      BothSpare(Do(task.body, task.place), Copies(task.body, task.n - 1, task.place + Size(task.body)), rest, index);
    } else if task.Turns? {
      BothSpare(Do(task.body, task.place + 1), task, rest, index);
    } else if task.UpTo? && task.n > 0 {
      BothSpare(Do(task.body, task.place + 1), UpTo(task.body, task.n - 1, task.place + 1 + Size(task.body)), rest, index);
    }
  }

  /** Work that does not open a group leaves its opening slot alone. */
  lemma {:induction false} OpenKept(work: Work, t: Text, at: nat, captures: Captures, free: set<nat>, all: set<nat>,
                                    index: nat, value: int)
    requires at <= |t| && SparesAll(work, index) && HasSlot(captures, index * 2, value)
    ensures var hit := Prefer(work, t, at, captures, free, all);
            hit.Some? ==> HasSlot(hit.value.captures, index * 2, value)
    decreases |t| - at, |free|, Load(work)
  {
    hide Ahead, HasSlot;
    match work
    case Done =>
    case Then(task, rest) =>
      AheadSpares(task, rest, t, at, captures, index, value);
      match Ahead(task, rest, t, at, captures)
      case Stuck =>
      case Goes(onward, c) => OpenKept(onward, t, at, c, free, all, index, value);
      case Takes => OpenKept(rest, t, Next(t, at), captures, all, all, index, value);
      case Faces(place, first, second) =>
        if place in free {
          OpenKept(first, t, at, captures, free - {place}, all, index, value);
          OpenKept(second, t, at, captures, free - {place}, all, index, value);
        }
  }

  /** The last thing the work does is to close the group. */
  ghost predicate ClosesLast(work: Work, index: nat) {
    match work
    case Done => false
    case Then(task, rest) => if rest.Done? then task == Close(index) else ClosesLast(rest, index)
  }

  lemma ThenClosesLast(task: Task, rest: Work, index: nat)
    requires ClosesLast(rest, index)
    ensures ClosesLast(Then(task, rest), index)
  {}

  lemma BothCloseLast(first: Task, second: Task, rest: Work, index: nat)
    requires ClosesLast(rest, index)
    ensures ClosesLast(Both(first, second, rest), index)
  {
    assert ClosesLast(Then(second, rest), index);
  }

  ghost predicate MoveClosesLast(move: Move, index: nat) {
    match move
    case Goes(work, _) => ClosesLast(work, index)
    case Faces(_, first, second) => ClosesLast(first, index) && ClosesLast(second, index)
    case _ => true
  }

  lemma InsideClosesLast(node: Node, place: nat, rest: Work, t: Text, at: nat, captures: Captures, index: nat)
    requires at <= |t| && ClosesLast(rest, index)
    ensures MoveClosesLast(Inside(node, place, rest, t, at, captures), index)
  {
    hide Reads, Tail, Load, Weight, Burden, Size, Times, Store, Both, ClosesLast;
    var move := Inside(node, place, rest, t, at, captures);
    if node.Cat? {
      BothCloseLast(Do(node.left, place), Do(node.right, place + Size(node.left)), rest, index);
    } else if node.Alt? {
      ThenClosesLast(Do(node.left, place + 1), rest, index);
      ThenClosesLast(Do(node.right, place + 2 + Size(node.left)), rest, index);
    } else if node.Group? {
      BothCloseLast(Do(node.body, place + 1), Close(node.index), rest, index);
    } else if node.Repeat? {
      var tail := Tail(node.body, node.min, node.max, place + Times(node.min, Size(node.body)));
      BothCloseLast(Copies(node.body, node.min, place), tail, rest, index);
    }
  }

  lemma AheadClosesLast(task: Task, rest: Work, t: Text, at: nat, captures: Captures, index: nat)
    requires at <= |t| && ClosesLast(rest, index)
    ensures MoveClosesLast(Ahead(task, rest, t, at, captures), index)
  {
    hide Inside, Load, Weight, Burden, Size, Times, Store, Both, ClosesLast;
    var move := Ahead(task, rest, t, at, captures);
    if task.Do? {
      InsideClosesLast(task.node, task.place, rest, t, at, captures, index);
    } else if task.Copies? && task.n > 0 {
      BothCloseLast(Do(task.body, task.place), Copies(task.body, task.n - 1, task.place + Size(task.body)), rest, index);
    } else if task.Turns? {
      BothCloseLast(Do(task.body, task.place + 1), task, rest, index);
    } else if task.UpTo? && task.n > 0 {
      BothCloseLast(Do(task.body, task.place + 1), UpTo(task.body, task.n - 1, task.place + 1 + Size(task.body)), rest, index);
    }
  }

  lemma {:induction false} ClosedAtEnd(work: Work, t: Text, at: nat, captures: Captures, free: set<nat>, all: set<nat>, index: nat)
    requires at <= |t| && ClosesLast(work, index)
    ensures var hit := Prefer(work, t, at, captures, free, all);
            hit.Some? ==> HasSlot(hit.value.captures, index * 2 + 1, hit.value.end)
    decreases |t| - at, |free|, Load(work)
  {
    hide Ahead, HasSlot;
    match work
    case Then(task, rest) =>
      if rest.Done? {
        CloseNow(t, at, captures, index);
        assert Prefer(work, t, at, captures, free, all) == Some(Hit(Store(captures, index * 2 + 1, at), at));
      } else {
        AheadClosesLast(task, rest, t, at, captures, index);
        match Ahead(task, rest, t, at, captures)
        case Stuck =>
        case Goes(onward, c) => ClosedAtEnd(onward, t, at, c, free, all, index);
        case Takes => ClosedAtEnd(rest, t, Next(t, at), captures, all, all, index);
        case Faces(place, first, second) =>
          if place in free {
            ClosedAtEnd(first, t, at, captures, free - {place}, all, index);
            ClosedAtEnd(second, t, at, captures, free - {place}, all, index);
          }
      }
  }

  lemma CloseNow(t: Text, at: nat, captures: Captures, index: nat)
    requires at <= |t|
    ensures Ahead(Close(index), Done, t, at, captures) == Goes(Done, Store(captures, index * 2 + 1, at))
    ensures HasSlot(Store(captures, index * 2 + 1, at), index * 2 + 1, at)
  {}

  /** A group around a whole tree holds the whole match: its start in the even slot, its end in the odd one. */
  lemma GroupHolds(body: Node, index: nat, t: Text, at: nat, empty: Captures)
    requires at <= |t| && index >= 1 && index !in Groups(body) && Preferred(Group(body, index), t, at, empty).Some?
    ensures var hit := Preferred(Group(body, index), t, at, empty).value;
            HasSlot(hit.captures, index * 2, at) && HasSlot(hit.captures, index * 2 + 1, hit.end)
  {
    var all, captures := Below(Size(Group(body, index))), Store(Store(empty, 0, at), index * 2, at);
    var work := Both(Do(body, 1), Close(index), Done);
    assert Ahead(Do(Group(body, index), 0), Done, t, at, Store(empty, 0, at)) == Goes(work, captures);
    BothSpare(Do(body, 1), Close(index), Done, index);
    assert ClosesLast(Then(Close(index), Done), index);
    ClosedAtEnd(work, t, at, captures, all, all, index);
    OpenKept(work, t, at, captures, all, all, index, at);
  }

  // A repeat of one code point, in terms of what it matches.

  ghost function Less(max: Option<nat>): Option<nat> {
    match max
    case None => None
    case Some(most) => Some(if most == 0 then 0 else most - 1)
  }

  ghost predicate Counted(n: nat, min: nat, max: Option<nat>) { min <= n && (max.Some? ==> n <= max.value) }

  lemma RepeatCount(body: Node, min: nat, max: Option<nat>, t: Text, i: nat, j: nat) returns (n: nat)
    requires Denotes(Repeat(body, min, max), t, i, j)
    ensures Counted(n, min, max) && Power(body, n, t, i, j)
  {
    n :| Counted(n, min, max) && Power(body, n, t, i, j);
  }

  lemma RepeatOf(body: Node, n: nat, min: nat, max: Option<nat>, t: Text, i: nat, j: nat)
    requires Counted(n, min, max) && Power(body, n, t, i, j)
    ensures Denotes(Repeat(body, min, max), t, i, j)
  {}

  lemma PowerFirst(body: Node, n: nat, t: Text, i: nat, j: nat)
    requires (body.Set? || body.Any?) && n > 0 && Power(body, n, t, i, j)
    ensures Reads(body, t, i) && Power(body, n - 1, t, Next(t, i), j)
  {
    var k: nat :| Denotes(body, t, i, k) && Power(body, n - 1, t, k, j);
  }

  /** A repeat of a single code point matches nothing, if that is allowed, or one code point and then the rest. */
  lemma RepeatOnce(body: Node, min: nat, max: Option<nat>, t: Text, i: nat, j: nat)
    requires body.Set? || body.Any?
    ensures Denotes(Repeat(body, min, max), t, i, j)
       <==> (min == 0 && i == j)
            || (max != Some(0) && Reads(body, t, i)
                && Denotes(Repeat(body, if min == 0 then 0 else min - 1, Less(max)), t, Next(t, i), j))
  {
    hide Denotes, Power;
    var less := if min == 0 then 0 else min - 1;
    if Denotes(Repeat(body, min, max), t, i, j) {
      var n := RepeatCount(body, min, max, t, i, j);
      if n > 0 {
        PowerFirst(body, n, t, i, j);
        RepeatOf(body, n - 1, less, Less(max), t, Next(t, i), j);
      } else {
        PowerNone(body, t, i, j);
      }
    }
    if min == 0 && i == j {
      PowerNone(body, t, i, j);
      RepeatOf(body, 0, min, max, t, i, j);
    }
    if max != Some(0) && Reads(body, t, i) && Denotes(Repeat(body, less, Less(max)), t, Next(t, i), j) {
      var n := RepeatCount(body, less, Less(max), t, Next(t, i), j);
      ReadsDenotes(body, t, i);
      PowerCons(body, n, t, i, Next(t, i), j);
      RepeatOf(body, n + 1, min, max, t, i, j);
    }
  }

  lemma PowerNone(body: Node, t: Text, i: nat, j: nat)
    ensures Power(body, 0, t, i, j) <==> i == j
  {}

  lemma ReadsDenotes(body: Node, t: Text, i: nat)
    requires Reads(body, t, i)
    ensures Denotes(body, t, i, Next(t, i))
  {}

  /** The longest of the matches that start here, if there are any. */
  ghost predicate IsLongest(node: Node, t: Text, at: nat, end: Option<nat>) {
    match end
    case None => forall e: nat :: !Denotes(node, t, at, e)
    case Some(best) => Denotes(node, t, at, best) && forall e: nat | Denotes(node, t, at, e) :: e <= best
  }

  ghost function End(hit: Option<Hit>): Option<nat> { if hit.Some? then Some(hit.value.end) else None }

  /** One code point of the body, if there is one, and then the rest. */
  lemma PreferOne(body: Node, place: nat, rest: Work, t: Text, at: nat, captures: Captures, free: set<nat>, all: set<nat>)
    requires at <= |t| && (body.Set? || body.Any?)
    ensures Prefer(Then(Do(body, place), rest), t, at, captures, free, all)
         == if Reads(body, t, at) then Prefer(rest, t, Next(t, at), captures, all, all) else None
  {
    hide Reads;
    assert Ahead(Do(body, place), rest, t, at, captures) == if Reads(body, t, at) then Takes else Stuck;
  }

  /** Where the longest match ends, one code point at a time. */
  lemma LongestOnce(body: Node, min: nat, max: Option<nat>, t: Text, at: nat, rest: Option<nat>)
    requires body.Set? || body.Any?
    requires max != Some(0) && Reads(body, t, at)
    requires IsLongest(Repeat(body, if min == 0 then 0 else min - 1, Less(max)), t, Next(t, at), rest)
    requires min == 0 ==> rest.Some? && Next(t, at) <= rest.value
    ensures IsLongest(Repeat(body, min, max), t, at, rest)
  {
    hide Denotes, Reads;
    forall e: nat
      ensures Denotes(Repeat(body, min, max), t, at, e)
         <==> (min == 0 && at == e)
              || Denotes(Repeat(body, if min == 0 then 0 else min - 1, Less(max)), t, Next(t, at), e)
    {
      RepeatOnce(body, min, max, t, at, e);
    }
  }

  /** Without a code point to read, a repeat matches nothing or not at all. */
  lemma LongestNone(body: Node, min: nat, max: Option<nat>, t: Text, at: nat)
    requires (body.Set? || body.Any?) && (max == Some(0) || !Reads(body, t, at))
    ensures IsLongest(Repeat(body, min, max), t, at, if min == 0 then Some(at) else None)
  {
    hide Denotes, Reads;
    forall e: nat ensures Denotes(Repeat(body, min, max), t, at, e) <==> min == 0 && at == e { RepeatOnce(body, min, max, t, at, e); }
  }

  lemma {:induction false} TurnsGoOn(body: Node, place: nat, t: Text, at: nat, captures: Captures, free: set<nat>, all: set<nat>)
    requires at <= |t| && (body.Set? || body.Any?) && place in free && place in all
    ensures var end := End(Prefer(Then(Turns(body, place), Done), t, at, captures, free, all));
            IsLongest(Repeat(body, 0, None), t, at, end) && end.Some? && at <= end.value
    decreases |t| - at
  {
    hide Reads, Denotes, IsLongest;
    var left := free - {place};
    PreferOne(body, place + 1, Then(Turns(body, place), Done), t, at, captures, left, all);
    assert Prefer(Done, t, at, captures, left, all) == Some(Hit(captures, at));
    if Reads(body, t, at) {
      TurnsGoOn(body, place, t, Next(t, at), captures, all, all);
      LongestOnce(body, 0, None, t, at, End(Prefer(Then(Turns(body, place), Done), t, Next(t, at), captures, all, all)));
    } else {
      LongestNone(body, 0, None, t, at);
    }
  }

  lemma {:induction false} UpToGoesOn(body: Node, n: nat, place: nat, t: Text, at: nat, captures: Captures, free: set<nat>, all: set<nat>)
    requires at <= |t| && (body.Set? || body.Any?)
    requires forall p: nat | place <= p < place + Times(n, 2) :: p in free && p in all
    ensures var end := End(Prefer(Then(UpTo(body, n, place), Done), t, at, captures, free, all));
            IsLongest(Repeat(body, 0, Some(n)), t, at, end) && end.Some? && at <= end.value
    decreases n
  {
    hide Reads, Denotes, IsLongest;
    assert Prefer(Done, t, at, captures, free, all) == Some(Hit(captures, at));
    if n == 0 {
      LongestNone(body, 0, Some(0), t, at);
    } else {
      var left, again := free - {place}, Then(UpTo(body, n - 1, place + 2), Done);
      PreferOne(body, place + 1, again, t, at, captures, left, all);
      assert place in free;
      if Reads(body, t, at) {
        UpToGoesOn(body, n - 1, place + 2, t, Next(t, at), captures, all, all);
        LongestOnce(body, 0, Some(n), t, at, End(Prefer(again, t, Next(t, at), captures, all, all)));
      } else {
        LongestNone(body, 0, Some(n), t, at);
      }
    }
  }

  /** The most repetitions, when `min` of them come before an optional tail. */
  ghost function Most(min: nat, tail: Task): Option<nat> { if tail.UpTo? then Some(min + tail.n) else None }

  lemma {:induction false} CopiesGoOn(body: Node, min: nat, tail: Task, place: nat, t: Text, at: nat, captures: Captures,
                                      free: set<nat>, all: set<nat>)
    requires at <= |t| && (body.Set? || body.Any?) && (tail.Turns? || tail.UpTo?) && tail.body == body
    requires tail.Turns? ==> tail.place in free && tail.place in all
    requires tail.UpTo? ==> forall p: nat | tail.place <= p < tail.place + Times(tail.n, 2) :: p in free && p in all
    ensures IsLongest(Repeat(body, min, Most(min, tail)), t, at,
                      End(Prefer(Both(Copies(body, min, place), tail, Done), t, at, captures, free, all)))
    decreases min
  {
    hide Reads, Denotes, IsLongest, Times;
    var rest := Then(tail, Done);
    if min == 0 {
      assert Ahead(Copies(body, 0, place), rest, t, at, captures) == Goes(rest, captures);
      if tail.Turns? { TurnsGoOn(body, tail.place, t, at, captures, free, all); }
      if tail.UpTo? { UpToGoesOn(body, tail.n, tail.place, t, at, captures, free, all); }
    } else {
      var again := Then(Copies(body, min - 1, place + 1), rest);
      assert Ahead(Copies(body, min, place), rest, t, at, captures) == Goes(Then(Do(body, place), again), captures);
      PreferOne(body, place, again, t, at, captures, free, all);
      if Reads(body, t, at) {
        CopiesGoOn(body, min - 1, tail, place + 1, t, Next(t, at), captures, all, all);
        LongestOnce(body, min, Most(min, tail), t, at, End(Prefer(again, t, Next(t, at), captures, all, all)));
      } else {
        LongestNone(body, min, Most(min, tail), t, at);
      }
    }
  }

  /** A repeat of a set or of any code point takes the longest match there is. */
  lemma RepeatTakesLongest(body: Node, min: nat, max: Option<nat>, t: Text, at: nat, empty: Captures)
    requires at <= |t| && (body.Set? || body.Any?) && WellFormed(Repeat(body, min, max))
    ensures IsLongest(Repeat(body, min, max), t, at, End(Preferred(Repeat(body, min, max), t, at, empty)))
  {
    hide Denotes, IsLongest;
    var all := Below(Size(Repeat(body, min, max)));
    var tail := Tail(body, min, max, 0 + Times(min, 1));
    assert Ahead(Do(Repeat(body, min, max), 0), Done, t, at, Store(empty, 0, at))
        == Goes(Both(Copies(body, min, 0), tail, Done), Store(empty, 0, at));
    CopiesGoOn(body, min, tail, 0, t, at, Store(empty, 0, at), all, all);
  }

  /** One move of the preference. */
  lemma Onwards(task: Task, rest: Work, t: Text, at: nat, captures: Captures, free: set<nat>, all: set<nat>)
    requires at <= |t|
    ensures var move := Ahead(task, rest, t, at, captures);
            && (move.Goes? ==> Prefer(Then(task, rest), t, at, captures, free, all) == Prefer(move.work, t, at, move.captures, free, all))
            && (move.Faces? && move.place in free ==>
                  var first := Prefer(move.first, t, at, captures, free - {move.place}, all);
                  Prefer(Then(task, rest), t, at, captures, free, all)
                  == if first.Some? then first else Prefer(move.second, t, at, captures, free - {move.place}, all))
  {
    hide Ahead;
  }

  // (a?(|c))* on "ac": the second turn would have to face the inner alternation again at the same offset.

  const A := Node.Set(CharSet(false, [(0x61, 0x61)]))
  const C := Node.Set(CharSet(false, [(0x63, 0x63)]))
  const INNER := Group(Alt(Node.Empty, C), 2)
  const OUTER := Group(Cat(Repeat(A, 0, Some(1)), INNER), 1)
  const LOOP := Repeat(OUTER, 0, None)
  const AC: Text := [0x61, 0x63]

  ghost function Again(): Work { Then(Close(1), Then(Turns(OUTER, 0), Done)) }

  /** A second turn from offset 1, with the inner alternation already faced there. */
  lemma SecondTurn(captures: Captures, free: set<nat>, all: set<nat>)
    requires 5 !in free
    ensures Prefer(Both(Do(OUTER, 1), Turns(OUTER, 0), Done), AC, 1, captures, free, all).None?
  {
    var c := Store(captures, 2, 1);
    var inner := Then(Do(INNER, 4), Again());
    assert !Reads(A, AC, 1);
    forall left: set<nat> | 5 !in left ensures Prefer(inner, AC, 1, c, left, all).None? {
      assert Ahead(Do(INNER, 4), Again(), AC, 1, c) == Goes(Both(Do(INNER.body, 5), Close(2), Again()), Store(c, 4, 1));
    }
    var optional := Both(Copies(A, 0, 2), UpTo(A, 1, 2), inner);
    assert Prefer(Then(UpTo(A, 1, 2), inner), AC, 1, c, free, all).None? by {
      PreferOne(A, 3, Then(UpTo(A, 0, 4), inner), AC, 1, c, free - {2}, all);
    }
    assert Prefer(optional, AC, 1, c, free, all).None?;
    assert Ahead(Do(Repeat(A, 0, Some(1)), 2), inner, AC, 1, c) == Goes(optional, c);
    var both := Both(Do(Repeat(A, 0, Some(1)), 2), Do(INNER, 4), Again());
    assert Prefer(both, AC, 1, c, free, all).None?;
    assert Ahead(Do(OUTER.body, 2), Again(), AC, 1, c) == Goes(both, c);
  }

  /** After the "a", the first turn takes the empty alternative; then the second has no way on and the match ends. */
  lemma Leaves(captures: Captures, left: set<nat>, all: set<nat>)
    requires 0 in left && 5 !in left
    ensures End(Prefer(Again(), AC, 1, captures, left, all)) == Some(1)
  {
    hide Prefer;
    var closed, star := Store(captures, 3, 1), Then(Turns(OUTER, 0), Done);
    Onwards(Close(1), star, AC, 1, captures, left, all);
    Onwards(Turns(OUTER, 0), Done, AC, 1, closed, left, all);
    SecondTurn(closed, left - {0}, all);
    PreferDone(AC, 1, closed, left - {0}, all);
  }

  lemma PreferDone(t: Text, at: nat, captures: Captures, free: set<nat>, all: set<nat>)
    requires at <= |t|
    ensures Prefer(Done, t, at, captures, free, all) == Some(Hit(captures, at))
  {}

  lemma FirstTurnEnds(captures: Captures, all: set<nat>)
    requires 0 in all && 5 in all
    ensures End(Prefer(Then(Do(INNER, 4), Again()), AC, 1, captures, all, all)) == Some(1)
  {
    hide Again, Reads, Size, Times, Weight;
    var c, left := Store(captures, 4, 1), all - {5};
    Leaves(Store(c, 5, 1), left, all);
    assert End(Prefer(Then(Close(2), Again()), AC, 1, c, left, all)) == Some(1);
    assert End(Prefer(Then(Do(Empty, 6), Then(Close(2), Again())), AC, 1, c, left, all)) == Some(1);
    assert End(Prefer(Both(Do(INNER.body, 5), Close(2), Again()), AC, 1, c, all, all)) == Some(1);
    assert Ahead(Do(INNER, 4), Again(), AC, 1, captures) == Goes(Both(Do(INNER.body, 5), Close(2), Again()), c);
  }

  lemma FirstTurn(c: Captures, left: set<nat>, all: set<nat>)
    requires 0 in all && 5 in all && 2 in left
    ensures End(Prefer(Both(Do(OUTER, 1), Turns(OUTER, 0), Done), AC, 0, c, left, all)) == Some(1)
  {
    hide Prefer, Weight, Load, Burden;
    var c1, inner := Store(c, 2, 0), Then(Do(INNER, 4), Again());
    var optional := Then(UpTo(A, 1, 2), inner);
    var both := Both(Do(Repeat(A, 0, Some(1)), 2), Do(INNER, 4), Again());
    assert Reads(A, AC, 0) && Next(AC, 0) == 1;
    assert Ahead(Do(OUTER, 1), Then(Turns(OUTER, 0), Done), AC, 0, c) == Goes(Then(Do(OUTER.body, 2), Again()), c1);
    assert Ahead(Do(OUTER.body, 2), Again(), AC, 0, c1) == Goes(both, c1);
    assert Ahead(Do(Repeat(A, 0, Some(1)), 2), inner, AC, 0, c1) == Goes(Then(Copies(A, 0, 2), optional), c1);
    Onwards(Do(OUTER, 1), Then(Turns(OUTER, 0), Done), AC, 0, c, left, all);
    Onwards(Do(OUTER.body, 2), Again(), AC, 0, c1, left, all);
    Onwards(Do(Repeat(A, 0, Some(1)), 2), inner, AC, 0, c1, left, all);
    Onwards(Copies(A, 0, 2), optional, AC, 0, c1, left, all);
    assert Size(A) == 1;
    Onwards(UpTo(A, 1, 2), inner, AC, 0, c1, left, all);
    PreferOne(A, 3, Then(UpTo(A, 0, 4), inner), AC, 0, c1, left - {2}, all);
    Onwards(UpTo(A, 0, 4), inner, AC, 1, c1, all, all);
    FirstTurnEnds(c1, all);
  }

  /**
   * A choice is faced once at an offset: the tree matches all of "ac", and cutting empty turns alone would find that
   * by returning to the inner alternation, but the preferred match ends behind the "a".
   */
  lemma FacedOnce(empty: Captures)
    ensures End(Preferred(LOOP, AC, 0, empty)) == Some(1) && Denotes(LOOP, AC, 0, 2)
  {
    hide Prefer, Denotes, Reads, Below;
    var all, c := Below(Size(LOOP)), Store(empty, 0, 0);
    var star := Then(Turns(OUTER, 0), Done);
    assert Size(LOOP) == 11;
    assert Ahead(Do(LOOP, 0), Done, AC, 0, c) == Goes(Then(Copies(OUTER, 0, 0), star), c);
    Onwards(Do(LOOP, 0), Done, AC, 0, c, all, all);
    Onwards(Copies(OUTER, 0, 0), star, AC, 0, c, all, all);
    Onwards(Turns(OUTER, 0), Done, AC, 0, c, all, all);
    FirstTurn(c, all - {0}, all);
    MatchesBoth();
  }

  lemma MatchesBoth()
    ensures Denotes(LOOP, AC, 0, 2)
  {
    var a := Repeat(A, 0, Some(1));
    assert Denotes(A, AC, 0, 1);
    PowerNone(A, AC, 1, 1);
    PowerCons(A, 0, AC, 0, 1, 1);
    RepeatOf(A, 1, 0, Some(1), AC, 0, 1);
    assert Denotes(INNER, AC, 1, 2);
    assert Denotes(OUTER, AC, 0, 2) by { assert Denotes(Cat(a, INNER), AC, 0, 2); }
    PowerNone(OUTER, AC, 2, 2);
    PowerCons(OUTER, 0, AC, 0, 2, 2);
    RepeatOf(OUTER, 1, 0, None, AC, 0, 2);
  }
}
