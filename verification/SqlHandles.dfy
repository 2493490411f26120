/**
 * src/fs/sql-file-handles.ts: inode handles over the tables. The ghost field `inodes` is the inode
 * map the tables stand for; every operation is stated on the flat bodies it gives.
 */
module SqlHandles {
  import opened Sequences
  import opened ChunkRows
  import opened Paths
  import opened ChunkTransfer
  import opened InodeTables
  import opened HardLinks
  import opened InodeNames

  datatype Error = EBADF | EINVAL | EFBIG | ENOENT | EEXIST | EMFILE | EIO | ENOTSUP

  datatype Outcome<+T> = Ok(value: T) | Err(error: Error)

  /** A resolved inode: a named entry, or a detached one. */
  datatype Entry = Entry(id: nat, size: nat, detached: bool)

  const MAX_SAFE_INTEGER := 0x1F_FFFF_FFFF_FFFF

  /** src/fs/handle-utils.ts:6-10. */
  predicate IsPosition(value: int) { 0 <= value <= MAX_SAFE_INTEGER }

  /** A position is a whole number from zero up to 2^53 - 1. */
  lemma PositionRange(value: int)
    ensures IsPosition(value) <==> 0 <= value <= 9007199254740991
  {}

  lemma {:induction false} MinExists(s: set<nat>)
    requires s != {}
    ensures exists m :: m in s && forall b | b in s :: m <= b
    decreases |s|
  {
    var a :| a in s;
    var rest := s - {a};
    if rest != {} {
      MinExists(rest);
      var m :| m in rest && forall b | b in rest :: m <= b;
      LeastOf(s, a, m);
    } else {
      LeastOf(s, a, a);
    }
  }

  lemma LeastOf(s: set<nat>, a: nat, m: nat)
    requires a in s && m in s && forall b | b in s - {a} :: m <= b
    ensures exists l :: l in s && forall b | b in s :: l <= b
  {
    var l := if m <= a then m else a;
    forall b | b in s ensures l <= b { if b != a { assert b in s - {a}; } }
  }

  /** The entries `entry(ino)` chooses from: the id itself, and the ids whose link identity it is. */
  function Candidates(db: Tables, ino: nat): set<nat> {
    set a | a in db.entries && (a == ino || db.entries[a].link == Some(ino))
  }

  /** The inode a number handed to `entry` leads to. */
  ghost function Target(db: Tables, inodes: map<nat, Stored>, ino: nat): nat
    requires ino in inodes || ino in db.entries
  {
    if ino in inodes then ino else db.Identity(ino)
  }

  lemma CandidatesAreNames(db: Tables, inodes: map<nat, Stored>, ino: nat)
    requires db.Rooted() && db.NamesHold(inodes)
    ensures ino in inodes && ino !in db.detached && ino in Named(db.NameTable()) ==> Candidates(db, ino) == db.Names(ino) != {}
    ensures ino !in inodes ==> Candidates(db, ino) == if ino in db.entries then {ino} else {}
  {
    if ino in inodes && ino !in db.detached && ino in Named(db.NameTable()) {
      var a :| a in db.NameTable() && db.NameTable()[a].ino == ino;
      assert a in db.Names(ino);
      forall b | b in Candidates(db, ino) ensures b in db.Names(ino) {
        if b == ino { db.IdentityIsName(ino); }
      }
    } else if ino !in inodes {
      forall a | a in db.entries ensures db.Identity(a) != ino {}
    }
  }

  /** `e` is where the inode's size and rows are found. */
  ghost predicate Locates(db: Tables, inodes: map<nat, Stored>, e: Entry, ino: nat) {
    && ino in inodes && e.size == inodes[ino].size && (e.detached <==> ino in db.detached)
    && if e.detached then e.id == ino else e.id in db.Names(ino)
  }

  lemma FoundLocates(db: Tables, inodes: map<nat, Stored>, ino: nat, id: nat)
    requires db.Holds(inodes) && id in Candidates(db, ino)
    ensures ino in inodes || ino in db.entries
    ensures Locates(db, inodes, Entry(id, db.entries[id].size, false), Target(db, inodes, ino))
  {
    CandidatesAreNames(db, inodes, ino);
    assert db.Identity(id) in inodes && db.Identity(id) !in db.detached;
    if ino in inodes {
      assert ino !in db.detached;
      assert id in db.Names(ino);
    }
  }

  /** `e` is where changes to the inode are made, and triggers will carry them to its other names. */
  ghost predicate At(db: Tables, e: Entry, ino: nat) {
    && db.Rooted() && (forall a | a in db.entries :: !db.entries[a].unlinking && !db.entries[a].mirroring)
    && (e.detached <==> ino in db.detached)
    && if e.detached then e.id == ino else e.id in db.Names(ino)
  }

  /** The rows of the table the entry is kept in. */
  function RowsOf(db: Tables, e: Entry): Rows
    requires e.detached ==> e.id in db.detached
  {
    if e.detached then db.detached[e.id].rows else db.RowsAt(e.id)
  }

  lemma LocatedRows(db: Tables, inodes: map<nat, Stored>, e: Entry, ino: nat)
    requires db.Holds(inodes) && Locates(db, inodes, e, ino)
    ensures RowsOf(db, e) == inodes[ino].rows && Shaped(inodes[ino].rows, inodes[ino].size)
  {
    if !e.detached { assert db.Identity(e.id) == ino; }
  }

  /** The bytes of a range that the file has. */
  ghost function Ranged(flat: Bytes, offset: nat, length: nat): Bytes {
    flat[Min(offset, |flat|)..Min(offset + length, |flat|)]
  }

  lemma RangedAt(flat: Bytes, offset: nat, length: nat, selected: nat)
    requires selected == Min(length, Max(0, |flat| - offset))
    ensures selected == 0 ==> Ranged(flat, offset, length) == []
    ensures selected > 0 ==> offset + selected <= |flat| && Ranged(flat, offset, length) == flat[offset..offset + selected]
  {}

  lemma RangedLength(flat: Bytes, offset: nat, length: nat)
    ensures |Ranged(flat, offset, length)| <= length
  {}

  lemma RangedToEnd(flat: Bytes, offset: nat)
    ensures Ranged(flat, offset, Max(0, |flat| - offset)) == flat[Min(offset, |flat|)..]
  {}

  /** Reads a range; the checks for a missing or mismatched chunk never fire. */
  method ReadStored(rows: Rows, size: nat, offset: nat, length: nat) returns (r: Outcome<Bytes>)
    requires Shaped(rows, size)
    ensures r == Ok(Ranged(Flat(rows, size), offset, length))
  {
    ghost var flat := Flat(rows, size);
    var selected := Min(length, Max(0, size - offset));
    RangedAt(flat, offset, length, selected);
    if selected == 0 { return Ok([]); }
    ReadWidth(rows, size);
    var width := Width(rows);
    if width <= 0 { return Err(EIO); }
    var data, consumed := ReadRows(rows, width, offset, selected, flat);
    if consumed != selected { return Err(EIO); }
    return Ok(data);
  }

  /** The width a write uses stores the file as it is. */
  lemma WriteWidth(rows: Rows, size: nat, chunkBytes: nat)
    requires Shaped(rows, size) && chunkBytes > 0
    ensures var firstSize := Width(rows);
            Stores(rows, if firstSize < size then firstSize else Max(firstSize, chunkBytes), Flat(rows, size))
  {
    var firstSize := Width(rows);
    var w := if firstSize < size then firstSize else Max(firstSize, chunkBytes);
    if size == 0 {
    } else {
      assert Base(0, firstSize) == 0;
      if firstSize >= size { OneChunk(rows, size, w); }
      ShapedStores(rows, size, w);
    }
  }

  /** The width a read or a truncation uses. */
  lemma ReadWidth(rows: Rows, size: nat)
    requires Shaped(rows, size) && size > 0
    ensures 0 in rows && Width(rows) > 0 && Stores(rows, Width(rows), Flat(rows, size))
  {
    assert Base(0, Width(rows)) == 0;
    ShapedStores(rows, size, Width(rows));
  }

  /** What storing `flat` at any width leaves for readers. */
  lemma StoredSettles(rows: Rows, w: nat, flat: Bytes)
    requires Stores(rows, w, flat)
    ensures Shaped(rows, |flat|) && Flat(rows, |flat|) == flat
  {
    StoredReadsBack(rows, w, flat);
    InferredWidth(rows, |flat|, w);
  }

  lemma PutRow(before: Tables, mid: Tables, now: Tables, ino: nat, rows: Rows, names: set<nat>, k: nat, chunk: Bytes)
    requires ino !in before.detached && names == before.Names(ino)
    requires InoRows(before, mid, ino, rows) && Put(mid, now, names, k, chunk)
    ensures InoRows(before, now, ino, rows[k := chunk])
  {
    forall a ensures now.RowsAt(a) == if a in names then rows[k := chunk] else before.RowsAt(a) {
      assert mid.RowsAt(a) == if a in names then rows else before.RowsAt(a);
    }
  }

  lemma CutRows(before: Tables, mid: Tables, now: Tables, ino: nat, rows: Rows, names: set<nat>, gone: set<nat>)
    requires ino !in before.detached && names == before.Names(ino)
    requires InoRows(before, mid, ino, rows) && Cut(mid, now, names, gone)
    ensures InoRows(before, now, ino, rows - gone)
  {
    forall a ensures now.RowsAt(a) == if a in names then rows - gone else before.RowsAt(a) {
      assert mid.RowsAt(a) == if a in names then rows else before.RowsAt(a);
    }
  }

  lemma SizeNames(before: Tables, now: Tables, ino: nat, names: set<nat>, size: nat)
    requires ino !in before.detached && names == before.Names(ino) && Resized(before, now, names, size)
    ensures InoSized(before, now, ino, size)
  {}

  lemma SameNames(before: Tables, mid: Tables, ino: nat, id: nat)
    requires before.Rooted() && mid.entries == before.entries && id in before.Names(ino)
    ensures mid.Names(ino) == before.Names(ino) == mid.Reach(id)
  {
    before.ReachIsNames(id);
    assert before.Identity(id) == ino;
  }

  lemma InoRowsStart(db: Tables, inodes: map<nat, Stored>, e: Entry, ino: nat)
    requires db.Holds(inodes) && Locates(db, inodes, e, ino)
    ensures InoRows(db, db, ino, inodes[ino].rows)
  {
    LocatedRows(db, inodes, e, ino);
    if ino in db.detached {
      assert db.detached[ino].(rows := inodes[ino].rows) == db.detached[ino];
    } else {
      forall a | a in db.Names(ino) ensures db.RowsAt(a) == inodes[ino].rows { assert db.Identity(a) == ino; }
    }
  }

  lemma NowRows(before: Tables, now: Tables, e: Entry, ino: nat, rows: Rows)
    requires At(before, e, ino) && InoRows(before, now, ino, rows)
    ensures (e.detached ==> e.id in now.detached) && RowsOf(now, e) == rows
  {}

  /** The flat bodies that stored ones stand for. */
  ghost function BodiesOf(inodes: map<nat, Stored>): map<nat, Bytes>
    requires WellFormed(inodes)
  {
    map i | i in inodes :: Flat(inodes[i].rows, inodes[i].size)
  }

  lemma BodiesOfUpdate(inodes: map<nat, Stored>, ino: nat, body: Stored)
    requires WellFormed(inodes) && Shaped(body.rows, body.size)
    ensures WellFormed(inodes[ino := body])
    ensures BodiesOf(inodes[ino := body]) == BodiesOf(inodes)[ino := Flat(body.rows, body.size)]
  {}

  /** A file cut or zero-extended to `size`. */
  ghost function Sized(flat: Bytes, size: nat): (r: Bytes)
    ensures |r| == size
    ensures forall p | 0 <= p < size :: r[p] == if p < |flat| then flat[p] else 0
  {
    seq(size, p requires 0 <= p < size => if p < |flat| then flat[p] else 0)
  }

  /**
   * What a write does to a body, and where it ends. An append handle writes at the end, whatever position is given; any
   * other writes over the stretch from the position on, with zeros up to it if the body is shorter. A refused write
   * changes nothing: a bad position first, then, unless there is nothing to write, the size the body would get.
   */
  ghost predicate Wrote(before: Bytes, data: Bytes, at: int, append: bool, maximum: nat, r: Outcome<nat>, after: Bytes) {
    var size := if append then |before| + |data| else Max(|before|, at + |data|);
    match r
    case Ok(end) =>
      && (append || IsPosition(at)) && end == (if append then size else at + |data|)
      && if data == [] then after == before
         else
           && IsPosition(size) && size <= maximum
           && if append then after == before + data
              else
                && |after| == size && after[at..end] == data
                && forall p | 0 <= p < size && !(at <= p < end) :: after[p] == if p < |before| then before[p] else 0
    case Err(error) =>
      && after == before
      && if !append && !IsPosition(at) then error == EINVAL
         else data != [] && if IsPosition(size) then size > maximum && error == EFBIG else error == EINVAL
  }

  /** Writing zeros at the end extends the body. */
  lemma ZerosExtend(before: Bytes, zeros: Bytes, size: nat, maximum: nat, r: Outcome<nat>, after: Bytes)
    requires |before| + |zeros| == size > |before| && forall i | 0 <= i < |zeros| :: zeros[i] == 0
    requires IsPosition(size) && size <= maximum && Wrote(before, zeros, |before|, false, maximum, r, after)
    ensures r.Ok? && after == Sized(before, size)
  {
    assert r.Ok?;
    var end := r.value;
    assert after[|before|..end] == zeros;
    forall p | 0 <= p < size ensures after[p] == Sized(before, size)[p] {
      if p >= |before| { assert after[p] == after[|before|..end][p - |before|]; }
    }
  }

  lemma RefusedWrote(before: Bytes, data: Bytes, at: int, append: bool, start: int, maximum: nat)
    requires start == if append then |before| else at
    ensures !append && !IsPosition(at) ==> Wrote(before, data, at, append, maximum, Err(EINVAL), before)
    ensures (append || IsPosition(at)) && data == [] ==> Wrote(before, data, at, append, maximum, Ok(start), before)
    ensures (append || IsPosition(at)) && data != [] ==>
              var size := Max(|before|, start + |data|);
              && (!IsPosition(size) ==> Wrote(before, data, at, append, maximum, Err(EINVAL), before))
              && (IsPosition(size) && size > maximum ==> Wrote(before, data, at, append, maximum, Err(EFBIG), before))
  {}

  lemma PatchedWrote(before: Bytes, data: Bytes, at: int, append: bool, start: nat, maximum: nat)
    requires data != [] && start == (if append then |before| else at) && (append || IsPosition(at))
    requires IsPosition(Max(|before|, start + |data|)) && Max(|before|, start + |data|) <= maximum
    ensures Wrote(before, data, at, append, maximum, Ok(start + |data|), Patched(before, start, data))
  {
    var after := Patched(before, start, data);
    if append { assert after == before + data; } else { assert after[at..at + |data|] == data; }
  }

  /** The rows left when those from `end` on are dropped and the last one left is cut to `tail`. */
  ghost function CutAt(rows: Rows, end: nat, tail: nat): Rows {
    var kept := rows - set k | k in rows && end <= k;
    if tail == 0 || end == 0 || end - 1 !in kept then kept else kept[end - 1 := Take(kept[end - 1], tail)]
  }

  lemma CutSettles(rows: Rows, size: nat, to: nat, cut: Rows)
    requires Shaped(rows, size) && 0 < to <= size && Width(rows) > 0
    requires cut == CutAt(rows, CeilDiv(to, Width(rows)), to % Width(rows))
    ensures Shaped(cut, to) && Flat(cut, to) == Sized(Flat(rows, size), to)
  {
    hide Shaped, Flat, Stores, Width, CutAt, CeilDiv, Sized;
    var w, flat := Width(rows), Flat(rows, size);
    ReadWidth(rows, size);
    LastKept(rows, size, to);
    CutRowsAre(rows, CeilDiv(to, w), to % w);
    TruncateStores(rows, cut, w, flat, to, to % w);
    StoredSettles(cut, w, flat[..to]);
    SizedCut(flat, to);
  }

  /** Row by row, what a cut leaves. */
  lemma CutRowsAre(rows: Rows, end: nat, tail: nat)
    requires end > 0 && end - 1 in rows
    ensures var cut := CutAt(rows, end, tail);
            && (forall k: nat {:trigger k in cut} :: k in cut <==> k in rows && k < end)
            && (forall k: nat {:trigger cut[k]} | k in cut ::
                  cut[k] == if k == end - 1 && tail != 0 then Take(rows[k], tail) else rows[k])
  {}

  lemma SizedCut(flat: Bytes, to: nat)
    requires to <= |flat|
    ensures flat[..to] == Sized(flat, to)
  {}

  lemma EmptySettles(rows: Rows, size: nat)
    requires Shaped(rows, size)
    ensures Shaped(map[], 0) && Flat(map[], 0) == Sized(Flat(rows, size), 0)
  {}

  /** The last chunk a truncation keeps is there. */
  lemma LastKept(rows: Rows, size: nat, to: nat)
    requires Shaped(rows, size) && 0 < to <= size
    ensures Width(rows) > 0 && CeilDiv(to, Width(rows)) > 0 && (CeilDiv(to, Width(rows)) - 1) as nat in rows
  {
    ReadWidth(rows, size);
    var w := Width(rows);
    CeilDivBounds(0, to, w);
    CeilDivBounds(CeilDiv(to, w) - 1, to, w);
  }

  /**
   * The tables hold the inode map; every pinned inode can still be reached; inodes without a name
   * are kept for their pins only; ids are never reused.
   */
  ghost predicate Sound(db: Tables, inodes: map<nat, Stored>, pins: multiset<nat>, nextIno: nat) {
    && db.Holds(inodes)
    && (forall i | i in pins :: i in inodes)
    && (forall i | i in db.detached :: i in pins)
    && (forall i | i in inodes :: i < nextIno) && (forall a | a in db.entries :: a < nextIno)
  }

  /** An open handle's inode can always be found. */
  lemma PinnedResolves(db: Tables, inodes: map<nat, Stored>, pins: multiset<nat>, nextIno: nat, ino: nat)
    requires Sound(db, inodes, pins, nextIno) && ino in pins
    ensures ino in db.detached || Candidates(db, ino) != {}
  {
    CandidatesAreNames(db, inodes, ino);
    assert ino in db.detached.Keys + Named(db.NameTable());
  }

  /** Detached rows are kept for exactly the inodes that are pinned and have no name. */
  lemma DetachedExactly(db: Tables, inodes: map<nat, Stored>, pins: multiset<nat>, nextIno: nat, ino: nat)
    requires Sound(db, inodes, pins, nextIno)
    ensures ino in db.detached <==> ino in pins && db.Names(ino) == {}
  {
    if ino in db.detached {
      forall a | a in db.entries ensures a !in db.Names(ino) { assert db.Identity(a) !in db.detached; }
    } else if ino in pins {
      NamedHasName(db, ino);
    }
  }

  /** All names of one inode hold the same size and the same bytes. */
  lemma NamesAgree(db: Tables, inodes: map<nat, Stored>, a: nat, b: nat)
    requires db.Holds(inodes) && a in db.entries && b in db.entries && db.Identity(a) == db.Identity(b)
    ensures db.entries[a].size == db.entries[b].size && db.RowsAt(a) == db.RowsAt(b)
    ensures Shaped(db.RowsAt(a), db.entries[a].size)
    ensures Flat(db.RowsAt(a), db.entries[a].size) == BodiesOf(inodes)[db.Identity(a)]
  {
    hide Named, Unambiguous, Tables.NameTable, Flat;
    assert db.Identity(a) in inodes;
  }

  /** The body of `ino` has become `body`; every other body, every name and every detached inode is as it was. */
  ghost predicate BodyChanged(before: Tables, after: Tables, was: map<nat, Stored>, now: map<nat, Stored>, ino: nat, body: Bytes) {
    && WellFormed(was) && WellFormed(now) && ino in was
    && BodiesOf(now) == BodiesOf(was)[ino := body]
    && after.NameTable() == before.NameTable()
    && after.detached.Keys == before.detached.Keys
  }

  /** The entry found has the size of the inode's body. */
  lemma FoundBody(db: Tables, inodes: map<nat, Stored>, e: Entry, ino: nat, pins: multiset<nat>, nextIno: nat)
    requires Sound(db, inodes, pins, nextIno) && Locates(db, inodes, e, ino)
    ensures WellFormed(inodes) && ino in inodes && |Flat(inodes[ino].rows, inodes[ino].size)| == e.size
  {}

  lemma ChangedBody(before: Tables, after: Tables, was: map<nat, Stored>, now: map<nat, Stored>, ino: nat, body: Bytes)
    requires BodyChanged(before, after, was, now, ino, body)
    ensures WellFormed(now) && ino in now && Flat(now[ino].rows, now[ino].size) == body
  {
    assert BodiesOf(now)[ino] == body;
  }

  lemma BodyUnchanged(db: Tables, inodes: map<nat, Stored>, ino: nat)
    requires WellFormed(inodes) && ino in inodes
    ensures BodyChanged(db, db, inodes, inodes, ino, Flat(inodes[ino].rows, inodes[ino].size))
  {}

  lemma SoundStill(before: Tables, after: Tables, inodes: map<nat, Stored>, now: map<nat, Stored>, pins: multiset<nat>, nextIno: nat)
    requires Sound(before, inodes, pins, nextIno) && after.Holds(now) && now.Keys == inodes.Keys
    requires after.NameTable() == before.NameTable() && after.detached.Keys == before.detached.Keys
    ensures Sound(after, now, pins, nextIno)
  {
    hide Tables.Holds;
    assert after.entries.Keys == after.NameTable().Keys == before.NameTable().Keys == before.entries.Keys;
  }

  /** Storing a new body under an inode changes that body and nothing else. */
  lemma Rewrite(before: Tables, mid: Tables, after: Tables, ino: nat, body: Stored, inodes: map<nat, Stored>,
                pins: multiset<nat>, nextIno: nat)
    requires Sound(before, inodes, pins, nextIno) && ino in inodes && Shaped(body.rows, body.size)
    requires InoRows(before, mid, ino, body.rows) && InoSized(mid, after, ino, body.size)
    ensures Sound(after, inodes[ino := body], pins, nextIno)
    ensures BodyChanged(before, after, inodes, inodes[ino := body], ino, Flat(body.rows, body.size))
  {
    BodyReplaced(before, mid, after, ino, body, inodes);
    BodiesOfUpdate(inodes, ino, body);
    assert inodes[ino := body].Keys == inodes.Keys;
    SoundStill(before, after, inodes, inodes[ino := body], pins, nextIno);
  }

  lemma SoundAt(before: Tables, mid: Tables, inodes: map<nat, Stored>, e: Entry, ino: nat, rows: Rows,
                pins: multiset<nat>, nextIno: nat)
    requires Sound(before, inodes, pins, nextIno) && Locates(before, inodes, e, ino) && InoRows(before, mid, ino, rows)
    ensures At(before, e, ino) && ino in inodes
    ensures mid.entries == before.entries && mid.detached.Keys == before.detached.Keys
  {}

  /** What an operation needs to know of the inode it has found. */
  lemma Opened(db: Tables, inodes: map<nat, Stored>, e: Entry, ino: nat, pins: multiset<nat>, nextIno: nat)
    requires Sound(db, inodes, pins, nextIno) && Locates(db, inodes, e, ino)
    ensures At(db, e, ino) && ino in inodes && e.size == inodes[ino].size && WellFormed(inodes)
    ensures (e.detached ==> e.id in db.detached) && RowsOf(db, e) == inodes[ino].rows
    ensures Shaped(inodes[ino].rows, e.size) && InoRows(db, db, ino, inodes[ino].rows)
  {
    LocatedRows(db, inodes, e, ino);
    InoRowsStart(db, inodes, e, ino);
  }

  /** The open modes the manager supports. */
  const MODES: set<string> := {"r", "r+", "w", "w+", "wx", "wx+", "a", "a+", "ax", "ax+"}

  /** What opening a file gives: the inode, never its path or body. */
  datatype Opening = Opening(ino: nat, fd: nat, readable: bool, writable: bool, append: bool)

  /** The paths a removal takes. */
  predicate Under(root: Path, recursive: bool, path: Path) {
    path == root || (recursive && IsDescendant(root, path))
  }

  function Gone(db: Tables, root: Path, recursive: bool): (gone: set<nat>)
    ensures gone <= db.entries.Keys
  {
    set a | a in db.entries && Under(root, recursive, db.entries[a].path)
  }

  /** What is left is every entry whose path is neither the one removed nor, if all below it goes too, below it. */
  lemma GoneExactly(db: Tables, now: Tables, root: Path, recursive: bool)
    requires now.NameTable() == db.NameTable() - Gone(db, root, recursive)
    ensures now.entries.Keys
         == set a | a in db.entries && db.entries[a].path != root && !(recursive && IsDescendant(root, db.entries[a].path))
  {
    assert now.entries.Keys == now.NameTable().Keys && db.entries.Keys == db.NameTable().Keys;
  }

  lemma CreatedSound(db: Tables, inodes: map<nat, Stored>, pins: multiset<nat>, id: nat, path: Path)
    requires Sound(db, inodes, pins, id) && !HasPath(db.NameTable(), path)
    ensures Sound(Created(db, id, path), inodes[id := Stored(0, map[])], pins, id + 1)
    ensures BodiesOf(inodes[id := Stored(0, map[])]) == BodiesOf(inodes)[id := []]
    ensures Created(db, id, path).NameTable() == db.NameTable()[id := Name(path, id)]
  {
    hide Tables.Holds, HasPath, Tables.NameTable;
    assert id !in db.entries && id !in inodes;
    CreatedHolds(db, inodes, id, path);
    assert WellFormed(inodes) by { HeldAreFormed(db, inodes); }
    BodiesOfUpdate(inodes, id, Stored(0, map[]));
  }

  lemma HeldAreFormed(db: Tables, inodes: map<nat, Stored>)
    requires db.Holds(inodes)
    ensures WellFormed(inodes)
    ensures inodes.Keys == db.detached.Keys + Named(db.NameTable())
    ensures db.NameTable().Keys == db.entries.Keys
  {}

  lemma LinkedSound(db: Tables, now: Tables, inodes: map<nat, Stored>, pins: multiset<nat>, source: nat, id: nat, path: Path)
    requires Sound(db, inodes, pins, id) && !HasPath(db.NameTable(), path) && source in db.entries
    requires Linked(db, now, source, id, path)
    ensures Sound(now, inodes, pins, id + 1) && now.detached == db.detached
    ensures now.NameTable() == db.NameTable()[id := Name(path, db.Identity(source))]
  {
    hide Tables.Holds, HasPath, Tables.NameTable;
    assert id !in db.entries && id !in inodes;
    LinkedHolds(db, now, inodes, source, id, path);
  }

  lemma RemovedSound(db: Tables, now: Tables, inodes: map<nat, Stored>, pins: multiset<nat>, nextIno: nat, gone: set<nat>)
    requires Sound(db, inodes, pins, nextIno) && Removed(db, now, inodes, pins, gone)
    ensures Sound(now, Left(inodes, now.NameTable(), pins), pins, nextIno)
    ensures now.NameTable() == db.NameTable() - gone
  {
    hide Tables.Holds, Tables.NameTable, Named;
    RemovedHolds(db, now, inodes, pins, gone);
  }

  /** The bodies of the inodes that have a name or a pin. */
  ghost function BodiesLeft(bodies: map<nat, Bytes>, names: map<nat, Name>, pins: multiset<nat>): map<nat, Bytes> {
    map i | i in bodies && (i in pins || i in Named(names)) :: bodies[i]
  }

  /** The bodies of the inodes that are left are those they had. */
  lemma LeftBodies(inodes: map<nat, Stored>, names: map<nat, Name>, pins: multiset<nat>)
    requires WellFormed(inodes)
    ensures WellFormed(Left(inodes, names, pins))
    ensures BodiesOf(Left(inodes, names, pins)) == BodiesLeft(BodiesOf(inodes), names, pins)
  {}

  lemma SoundIsFormed(db: Tables, inodes: map<nat, Stored>, pins: multiset<nat>, nextIno: nat)
    requires Sound(db, inodes, pins, nextIno)
    ensures WellFormed(inodes)
  {}

  lemma ReleasedSound(db: Tables, now: Tables, inodes: map<nat, Stored>, pins: multiset<nat>, nextIno: nat, ino: nat)
    requires Sound(db, inodes, pins, nextIno) && ino in pins
    requires now == if pins[ino] > 1 then db else db.(detached := db.detached - {ino})
    ensures Sound(now, Left(inodes, now.NameTable(), pins - multiset{ino}), pins - multiset{ino}, nextIno)
    ensures now.NameTable() == db.NameTable()
  {
    hide Tables.Holds, Tables.NameTable, Named;
    HeldAreFormed(db, inodes);
    var left := pins - multiset{ino};
    if pins[ino] > 1 {
      NothingLeaves(db, inodes, left);
    } else {
      ReleasedHolds(db, now, inodes, left, ino);
    }
  }

  /** `e` is the entry at a path. */
  ghost predicate AtPath(db: Tables, path: Path, id: nat) { id in db.entries && db.entries[id].path == path }

  lemma PathTaken(db: Tables, path: Path)
    ensures (exists id :: AtPath(db, path, id)) <==> HasPath(db.NameTable(), path)
  {
    if id :| AtPath(db, path, id) {
      assert db.NameTable()[id].path == path;
    }
    if HasPath(db.NameTable(), path) {
      var a :| a in db.NameTable() && db.NameTable()[a].path == path;
      assert AtPath(db, path, a);
    }
  }

  lemma FreshId(db: Tables, inodes: map<nat, Stored>, pins: multiset<nat>, nextIno: nat, path: Path, source: nat)
    requires Sound(db, inodes, pins, nextIno) && AtPath(db, path, source)
    ensures db.NamesHold(inodes) && db.Settled() && source in db.entries && nextIno !in db.entries
  {}

  lemma PathIsEntry(db: Tables, path: Path, id: nat)
    requires AtPath(db, path, id)
    ensures id in db.entries
  {}

  lemma Pinned(db: Tables, inodes: map<nat, Stored>, pins: multiset<nat>, nextIno: nat, entry: nat)
    requires Sound(db, inodes, pins, nextIno) && entry in db.entries
    ensures db.Identity(entry) in inodes
    ensures Sound(db, inodes, pins + multiset{db.Identity(entry)}, nextIno)
  {}

  lemma NothingReleased(db: Tables, inodes: map<nat, Stored>, pins: multiset<nat>, nextIno: nat, ino: nat)
    requires Sound(db, inodes, pins, nextIno) && ino !in pins
    ensures pins - multiset{ino} == pins && Left(inodes, db.NameTable(), pins) == inodes
  {
    HeldAreFormed(db, inodes);
    NothingLeaves(db, inodes, pins);
  }

  /** The inode manager decides to detach exactly the inodes whose every name goes. */
  lemma LosesAllNames(db: Tables, inodes: map<nat, Stored>, ino: nat, id: nat, root: Path, recursive: bool)
    requires db.Holds(inodes) && ino in inodes && id in Candidates(db, ino)
    ensures db.Names(ino) <= Gone(db, root, recursive) <==>
              (Under(root, recursive, db.entries[id].path) && !RemainingName(db, id, root, recursive))
    ensures ino in Named(db.NameTable()) && inodes[ino] == Stored(db.entries[id].size, db.RowsAt(id))
  {
    hide IsDescendant, Unambiguous;
    FoundLocates(db, inodes, ino, id);
    assert db.Identity(id) == ino;
    assert db.NameTable()[id].ino == ino;
    db.ReachIsNames(id);
    if db.Names(ino) <= Gone(db, root, recursive) {
      assert id in db.Names(ino);
      forall a | a in db.entries && db.entries[a].link == db.entries[id].link && db.entries[id].link.Some?
        ensures Under(root, recursive, db.entries[a].path) { assert a in db.Names(ino); }
    } else {
      var x :| x in db.Names(ino) && x !in Gone(db, root, recursive);
      assert x in db.Reach(id);
    }
  }

  /** Another name of the entry's inode stays. */
  predicate RemainingName(db: Tables, id: nat, root: Path, recursive: bool)
    requires id in db.entries
  {
    && db.entries[id].link.Some?
    && exists a | a in db.entries :: db.entries[a].link == db.entries[id].link && !Under(root, recursive, db.entries[a].path)
  }

  /** What has been detached once the inodes in `done` have been looked at. */
  ghost function Kept(db: Tables, inodes: map<nat, Stored>, done: set<nat>, gone: set<nat>): map<nat, Stored> {
    map i | i in inodes && i in done && i in Named(db.NameTable()) && db.Names(i) <= gone :: inodes[i]
  }

  lemma KeptOne(db: Tables, inodes: map<nat, Stored>, done: set<nat>, ino: nat, id: nat, root: Path, recursive: bool)
    requires db.Holds(inodes) && ino in inodes && id in Candidates(db, ino)
    ensures var gone := Gone(db, root, recursive);
            Kept(db, inodes, done + {ino}, gone)
            == if Under(root, recursive, db.entries[id].path) && !RemainingName(db, id, root, recursive)
               then Kept(db, inodes, done, gone)[ino := Stored(db.entries[id].size, db.RowsAt(id))]
               else Kept(db, inodes, done, gone)
  {
    LosesAllNames(db, inodes, ino, id, root, recursive);
    hide Tables.Holds, Named, Tables.NameTable, Candidates, Gone, RemainingName, Under;
  }

  lemma KeptNone(db: Tables, inodes: map<nat, Stored>, done: set<nat>, ino: nat, gone: set<nat>)
    requires db.Holds(inodes) && ino in inodes && Candidates(db, ino) == {}
    ensures Kept(db, inodes, done + {ino}, gone) == Kept(db, inodes, done, gone)
  {
    if ino in Named(db.NameTable()) {
      var a :| a in db.NameTable() && db.NameTable()[a].ino == ino;
      assert db.Identity(a) == ino && ino !in db.detached;
      CandidatesAreNames(db, inodes, ino);
    }
  }

  /** Looking at every pin, or at the removed entry's own inode, finds all that must be detached. */
  lemma KeptAll(db: Tables, inodes: map<nat, Stored>, pins: multiset<nat>, done: set<nat>, gone: set<nat>, root: nat)
    requires (forall i | i in done :: i in pins)
    requires (forall i | i in pins :: i in done) || (root in db.entries && gone == {root} && (db.Identity(root) in pins ==> db.Identity(root) in done))
    ensures Kept(db, inodes, done, gone) == Retained(db, inodes, pins, gone)
  {
    forall i | i in inodes && i in pins && i in Named(db.NameTable()) && db.Names(i) <= gone ensures i in done {
      if !(forall i | i in pins :: i in done) {
        NamedHasName(db, i);
        var a :| a in db.Names(i);
        assert a == root;
      }
    }
  }

  lemma NoneKept(db: Tables, inodes: map<nat, Stored>, gone: set<nat>)
    ensures Kept(db, inodes, {}, gone) == map[]
  {}

  lemma SameEntries(db: Tables, now: Tables, ino: nat)
    requires now.entries == db.entries && now.inline == db.inline
    ensures Candidates(now, ino) == Candidates(db, ino) <= db.entries.Keys
    ensures forall id :: now.RowsAt(id) == db.RowsAt(id)
    ensures forall id, root, recursive | id in db.entries ::
              RemainingName(now, id, root, recursive) == RemainingName(db, id, root, recursive)
  {}

  lemma OnlyEntry(db: Tables, inodes: map<nat, Stored>, pins: multiset<nat>, nextIno: nat, path: Path, root: nat)
    requires Sound(db, inodes, pins, nextIno) && AtPath(db, path, root)
    ensures root in db.entries && Gone(db, path, false) == {root}
  {
    hide IsDescendant;
    var ids :| Indexes(ids, db.NameTable());
    forall a | a in Gone(db, path, false) ensures a == root {
      assert ids[db.NameTable()[a].path] == a && ids[db.NameTable()[root].path] == root;
    }
  }

  /** Deleting the chunks of one removed entry touches no other. */
  ghost predicate Emptied(db: Tables, now: Tables, done: set<nat>) {
    && now.entries == db.entries && now.detached == db.detached
    && (forall a :: now.RowsAt(a) == if a in done then map[] else db.RowsAt(a))
  }

  lemma EmptiedOne(db: Tables, mid: Tables, now: Tables, done: set<nat>, id: nat)
    requires Emptied(db, mid, done) && Cut(mid, now, {id}, set k | k in mid.RowsAt(id) && 0 <= k)
    ensures Emptied(db, now, done + {id})
  {
    forall a ensures now.RowsAt(a) == if a in done + {id} then map[] else db.RowsAt(a) {
      assert mid.RowsAt(a) == if a in done then map[] else db.RowsAt(a);
    }
  }

  /** `db` with every linked entry in `gone` marked. */
  function Marked(db: Tables, gone: set<nat>): Tables {
    db.(entries := map a | a in db.entries ::
        if a in gone && db.entries[a].link.Some? then db.entries[a].(unlinking := true) else db.entries[a])
  }

  lemma MarkedRemoves(db: Tables, kept: Tables, now: Tables, inodes: map<nat, Stored>, pins: multiset<nat>, gone: set<nat>)
    requires kept == db.(detached := db.detached + Retained(db, inodes, pins, gone))
    requires Emptied(Marked(kept, gone), now, gone) && gone <= db.entries.Keys
    ensures Removed(db, now.(entries := now.entries - gone), inodes, pins, gone)
  {
    hide Retained;
    var done := now.(entries := now.entries - gone);
    assert done.entries == db.entries - gone;
    forall a ensures done.RowsAt(a) == if a in gone then map[] else db.RowsAt(a) {
      assert done.RowsAt(a) == now.RowsAt(a);
      assert Marked(kept, gone).RowsAt(a) == db.RowsAt(a);
    }
  }

  /** One manager per SQL owner; every handle shares its inode pins. */
  class SqlFileHandles {
    const tables: SqlTables
    const chunkBytes: nat
    const maximum: nat
    /** How many open handles each inode has: a map from inode to positive count. */
    var pins: multiset<nat>
    var nextIno: nat
    var nextDescriptor: nat
    ghost var inodes: map<nat, Stored>

    ghost predicate Inv()
      reads this, tables
    {
      chunkBytes > 0 && Sound(tables.db, inodes, pins, nextIno)
    }

    ghost function Body(ino: nat): Bytes
      reads this
      requires WellFormed(inodes) && ino in inodes
    {
      Flat(inodes[ino].rows, inodes[ino].size)
    }

    /** The flat body of every inode. */
    ghost function Bodies(): map<nat, Bytes>
      reads this
      requires WellFormed(inodes)
    {
      BodiesOf(inodes)
    }

    /** Everything but one body is as it was. */
    twostate predicate OnlyBody(ino: nat, body: Bytes)
      reads this, tables
    {
      Inv() && BodyChanged(old(tables.db), tables.db, old(inodes), inodes, ino, body)
    }

    constructor (chunkBytes: nat, maximum: nat)
      requires chunkBytes > 0
      ensures Inv() && fresh(tables) && Bodies() == map[] && tables.db.NameTable() == map[] && pins == multiset{}
    {
      this.chunkBytes, this.maximum := chunkBytes, maximum;
      tables := new SqlTables();
      pins, nextIno, nextDescriptor, inodes := multiset{}, 1, 3, map[];
      new;
      assert Indexes(map[], tables.db.NameTable());
    }

    /** Finds the inode under its smallest name, or detached. Fails only when the number leads nowhere. */
    method Find(ino: nat) returns (r: Outcome<Entry>)
      requires Inv()
      ensures r.Ok? <==> ino in inodes || ino in tables.db.entries
      ensures r.Ok? ==> Locates(tables.db, inodes, r.value, Target(tables.db, inodes, ino))
      ensures r.Ok? && !r.value.detached ==> forall a | a in Candidates(tables.db, ino) :: r.value.id <= a
      ensures r.Err? ==> r.error == EBADF
    {
      CandidatesAreNames(tables.db, inodes, ino);
      var ids := Candidates(tables.db, ino);
      if ids != {} {
        MinExists(ids);
        var id: nat :| id in ids && forall b | b in ids :: id <= b;
        FoundLocates(tables.db, inodes, ino, id);
        return Ok(Entry(id, tables.db.entries[id].size, false));
      }
      if ino !in tables.db.detached { return Err(EBADF); }
      return Ok(Entry(ino, tables.db.detached[ino].size, true));
    }

    method ReadEntry(e: Entry, offset: nat, length: nat, ghost ino: nat) returns (r: Outcome<Bytes>)
      requires Inv() && Locates(tables.db, inodes, e, ino)
      ensures r == Ok(Ranged(Body(ino), offset, length))
    {
      hide Sound, Locates, At, InoRows, Shaped, Flat;
      Opened(tables.db, inodes, e, ino, pins, nextIno);
      r := ReadStored(RowsOf(tables.db, e), e.size, offset, length);
    }

    method Read(ino: nat, offset: nat, length: nat) returns (r: Outcome<Bytes>)
      requires Inv()
      ensures r.Ok? <==> ino in inodes || ino in tables.db.entries
      ensures r.Ok? ==> r.value == Ranged(Body(Target(tables.db, inodes, ino)), offset, length)
      ensures r.Err? ==> r.error == EBADF
    {
      var found := Find(ino);
      if found.Err? { return Err(found.error); }
      r := ReadEntry(found.value, offset, length, Target(tables.db, inodes, ino));
    }

    method ReadRemaining(ino: nat, offset: nat) returns (r: Outcome<Bytes>)
      requires Inv()
      ensures r.Ok? <==> ino in inodes || ino in tables.db.entries
      ensures r.Ok? ==>
                var flat := Body(Target(tables.db, inodes, ino));
                r.value == flat[Min(offset, |flat|)..]
      ensures r.Err? ==> r.error == EBADF
    {
      var found := Find(ino);
      if found.Err? { return Err(found.error); }
      ghost var target := Target(tables.db, inodes, ino);
      r := ReadEntry(found.value, offset, Max(0, found.value.size - offset), target);
      RangedToEnd(Body(target), offset);
    }

    /** Stores one chunk of the inode, under every name or in its detached copy. */
    method StoreChunk(e: Entry, k: nat, chunk: Bytes, ghost before: Tables, ghost ino: nat, ghost rows: Rows)
      requires At(before, e, ino) && InoRows(before, tables.db, ino, rows)
      modifies tables
      ensures InoRows(before, tables.db, ino, rows[k := chunk])
    {
      if e.detached {
        var row := tables.db.detached[e.id];
        tables.db := tables.db.(detached := tables.db.detached[e.id := row.(rows := row.rows[k := chunk])]);
      } else {
        ghost var mid := tables.db;
        SameNames(before, mid, ino, e.id);
        tables.Upsert(e.id, k, chunk);
        PutRow(before, mid, tables.db, ino, rows, before.Names(ino), k, chunk);
      }
    }

    /** Deletes the chunks of the inode from `end` on. */
    method DeleteChunks(e: Entry, end: nat, ghost ino: nat)
      requires Inv() && Locates(tables.db, inodes, e, ino)
      modifies tables
      ensures InoRows(old(tables.db), tables.db, ino, old(inodes[ino].rows) - old(set k | k in inodes[ino].rows && end <= k))
    {
      hide Sound, Shaped, Locates;
      ghost var before := tables.db;
      Opened(before, inodes, e, ino, pins, nextIno);
      if e.detached {
        var row := tables.db.detached[e.id];
        var gone := set k | k in row.rows && end <= k;
        tables.db := tables.db.(detached := tables.db.detached[e.id := row.(rows := row.rows - gone)]);
      } else {
        SameNames(before, before, ino, e.id);
        tables.DeleteFrom(e.id, end);
        CutRows(before, before, tables.db, ino, inodes[ino].rows, before.Names(ino),
                set k | k in inodes[ino].rows && end <= k);
      }
    }

    /** Records the inode's size. */
    method Resize(e: Entry, size: nat, ghost before: Tables, ghost ino: nat)
      requires At(before, e, ino)
      requires tables.db.entries == before.entries && tables.db.detached.Keys == before.detached.Keys
      modifies tables
      ensures InoSized(old(tables.db), tables.db, ino, size)
    {
      ghost var mid := tables.db;
      if e.detached {
        tables.db := tables.db.(detached := tables.db.detached[e.id := tables.db.detached[e.id].(size := size)]);
      } else {
        SameNames(before, mid, ino, e.id);
        tables.UpdateSize(e.id, size, false);
        SizeNames(mid, tables.db, ino, mid.Names(ino), size);
      }
    }

    /** Rewrites one chunk. */
    method WriteChunk(e: Entry, index: nat, w: nat, body: Bytes, start: nat, size: nat,
                      ghost before: Tables, ghost ino: nat, ghost rows: Rows, ghost flat: Bytes)
      requires At(before, e, ino) && InoRows(before, tables.db, ino, rows)
      requires w > 0 && e.size == |flat| && size == |Patched(flat, start, body)| && Base(index, w) < size
      requires index in rows <==> Base(index, w) < |flat|
      requires index in rows ==> rows[index] == Stretch(flat, index, w)
      modifies tables
      ensures InoRows(before, tables.db, ino, rows[index := Stretch(Patched(flat, start, body), index, w)])
    {
      NowRows(before, tables.db, e, ino, rows);
      var table := RowsOf(tables.db, e);
      var prior := if index in table then Some(table[index]) else None;
      var chunk := FillChunk(prior, index, w, e.size, body, start, size, flat);
      StoreChunk(e, index, chunk, before, ino, rows);
    }

    /** Rewrites the chunks from the one holding the start, or the old end if that is earlier. */
    method WriteRange(e: Entry, w: nat, body: Bytes, start: nat, size: nat, ghost ino: nat, ghost mine: Rows, ghost flat: Bytes)
      returns (ghost rows: Rows)
      requires At(tables.db, e, ino) && InoRows(tables.db, tables.db, ino, mine)
      requires Stores(mine, w, flat) && e.size == |flat| && size == Max(e.size, start + |body|)
      modifies tables
      ensures InoRows(old(tables.db), tables.db, ino, rows)
      ensures Stores(rows, w, Patched(flat, start, body))
    {
      hide InoRows, Stores, Written, Patched, At, Chunk;
      NothingWritten(mine, w, flat, Patched(flat, start, body));
      ghost var before := tables.db;
      var begin, end := FloorDiv(Min(start, e.size), w), CeilDiv(start + |body|, w);
      FloorDivIsChunk(Min(start, e.size), w);
      rows := mine;
      var index: nat := begin;
      while index < end
        invariant begin <= index && (index == begin || index <= end)
        invariant InoRows(before, tables.db, ino, rows)
        invariant Written(mine, rows, w, Patched(flat, start, body), begin, index)
      {
        CeilDivBounds(index, start + |body|, w);
        UnwrittenRow(mine, rows, w, flat, Patched(flat, start, body), begin, index);
        WriteChunk(e, index, w, body, start, size, before, ino, rows, flat);
        WrittenOne(mine, rows, w, Patched(flat, start, body), begin, index);
        rows := rows[index := Stretch(Patched(flat, start, body), index, w)];
        index := index + 1;
      }
      WriteStores(mine, rows, w, flat, start, body, begin, index);
    }

    /** Writes at the width of the first chunk, or at the configured one if the file fits one chunk. */
    method WriteChunks(e: Entry, body: Bytes, start: nat, size: nat, ghost ino: nat) returns (ghost rows: Rows)
      requires Inv() && Locates(tables.db, inodes, e, ino) && size == Max(e.size, start + |body|)
      modifies tables
      ensures InoRows(old(tables.db), tables.db, ino, rows)
      ensures Shaped(rows, size) && Flat(rows, size) == Patched(Body(ino), start, body)
    {
      hide Sound, Locates, At, InoRows, Shaped, Flat;
      Opened(tables.db, inodes, e, ino, pins, nextIno);
      ghost var mine := inodes[ino].rows;
      WriteWidth(mine, e.size, chunkBytes);
      var firstSize := Width(RowsOf(tables.db, e));
      var w := if firstSize < e.size then firstSize else Max(firstSize, chunkBytes);
      rows := WriteRange(e, w, body, start, size, ino, mine, Flat(mine, e.size));
      StoredSettles(rows, w, Patched(Flat(mine, e.size), start, body));
    }

    /** Writes into an inode; gaps become zeros, and nothing else changes. A refused write changes nothing. */
    method Write(ino: nat, body: Bytes, offset: Option<int>, append: bool) returns (r: Outcome<nat>)
      requires Inv()
      modifies this`inodes, tables
      ensures r.Ok? ==> old(ino in inodes || ino in tables.db.entries)
      ensures old(ino in inodes || ino in tables.db.entries) ==>
                var target := old(Target(tables.db, inodes, ino));
                && target in inodes && WellFormed(inodes) && OnlyBody(target, Body(target))
                && Wrote(old(Body(target)), body, if offset.Some? then offset.value else 0, append, maximum, r, Body(target))
      ensures !old(ino in inodes || ino in tables.db.entries) ==> r == Err(EBADF)
      ensures r.Err? ==> inodes == old(inodes) && tables.db == old(tables.db)
    {
      hide Wrote, Sound, Flat, BodyChanged;
      var found := Find(ino);
      if found.Err? { return Err(found.error); }
      r := WriteEntry(found.value, body, if offset.Some? then offset.value else 0, append, Target(tables.db, inodes, ino));
    }

    method WriteEntry(e: Entry, body: Bytes, at: int, append: bool, ghost ino: nat) returns (r: Outcome<nat>)
      requires Inv() && Locates(tables.db, inodes, e, ino)
      modifies this`inodes, tables
      ensures WellFormed(inodes) && ino in inodes && OnlyBody(ino, Body(ino))
      ensures Wrote(old(Body(ino)), body, at, append, maximum, r, Body(ino))
      ensures r.Err? ==> inodes == old(inodes) && tables.db == old(tables.db)
    {
      hide Patched, Wrote, Sound, Flat, BodyChanged, WellFormed, Locates;
      FoundBody(tables.db, inodes, e, ino, pins, nextIno);
      BodyUnchanged(tables.db, inodes, ino);
      var start := if append then e.size else at;
      RefusedWrote(Body(ino), body, at, append, start, maximum);
      if !append && !IsPosition(start) { return Err(EINVAL); }
      if |body| == 0 { return Ok(start); }
      var size := Max(e.size, start + |body|);
      if !IsPosition(size) { return Err(EINVAL); }
      if size > maximum { return Err(EFBIG); }
      PatchedWrote(Body(ino), body, at, append, start, maximum);
      ghost var before, was := tables.db, inodes;
      WriteAt(e, body, start, size, ino);
      ChangedBody(before, tables.db, was, inodes, ino, Patched(old(Body(ino)), start, body));
      return Ok(start + |body|);
    }

    /** Once the inode's rows are in place, records their size. */
    method Settle(e: Entry, size: nat, ghost before: Tables, ghost ino: nat, ghost rows: Rows)
      requires chunkBytes > 0 && Sound(before, inodes, pins, nextIno) && Locates(before, inodes, e, ino)
      requires InoRows(before, tables.db, ino, rows) && Shaped(rows, size)
      modifies this`inodes, tables
      ensures Inv() && BodyChanged(before, tables.db, old(inodes), inodes, ino, Flat(rows, size))
    {
      hide Sound, At, InoRows, InoSized, BodyChanged, Shaped, Flat, Locates;
      ghost var mid := tables.db;
      SoundAt(before, mid, inodes, e, ino, rows, pins, nextIno);
      Resize(e, size, before, ino);
      Rewrite(before, mid, tables.db, ino, Stored(size, rows), inodes, pins, nextIno);
      inodes := inodes[ino := Stored(size, rows)];
    }

    method WriteAt(e: Entry, body: Bytes, start: nat, size: nat, ghost ino: nat)
      requires Inv() && Locates(tables.db, inodes, e, ino) && size == Max(e.size, start + |body|)
      modifies this`inodes, tables
      ensures OnlyBody(ino, Patched(old(Body(ino)), start, body))
    {
      ghost var before := tables.db;
      ghost var rows := WriteChunks(e, body, start, size, ino);
      Settle(e, size, before, ino, rows);
    }

    /** Cuts the inode's rows to a smaller or equal size. */
    method CutChunks(e: Entry, size: nat, ghost ino: nat) returns (ghost rows: Rows)
      requires Inv() && Locates(tables.db, inodes, e, ino) && size <= e.size
      modifies tables
      ensures InoRows(old(tables.db), tables.db, ino, rows)
      ensures Shaped(rows, size) && Flat(rows, size) == Sized(Body(ino), size)
    {
      hide Sound, Locates, At, InoRows, Shaped, Flat;
      ghost var before := tables.db;
      Opened(before, inodes, e, ino, pins, nextIno);
      ghost var mine := inodes[ino].rows;
      if size == 0 {
        EmptySettles(mine, e.size);
        DeleteChunks(e, 0, ino);
        rows := mine - set k | k in mine && 0 <= k;
        assert rows == map[];
        return;
      }
      LastKept(mine, e.size, size);
      var width := Width(RowsOf(tables.db, e));
      var end, tail := CeilDiv(size, width), size % width;
      DeleteChunks(e, end, ino);
      rows := mine - set k | k in mine && end <= k;
      if tail != 0 {
        NowRows(before, tables.db, e, ino, rows);
        var last := Take(RowsOf(tables.db, e)[end - 1], tail);
        StoreChunk(e, end - 1, last, before, ino, rows);
        rows := rows[end - 1 := last];
      }
      CutSettles(mine, e.size, size, rows);
    }

    /** Sets the inode's size: cuts it, or extends it with zeros. A refused call changes nothing. */
    method Truncate(ino: nat, size: int) returns (r: Outcome<()>)
      requires Inv()
      modifies this`inodes, tables
      ensures r == if !IsPosition(size) then Err(EINVAL) else if size > maximum then Err(EFBIG)
                   else if old(ino in inodes || ino in tables.db.entries) then Ok(()) else Err(EBADF)
      ensures r.Ok? ==> var target := old(Target(tables.db, inodes, ino)); OnlyBody(target, Sized(old(Body(target)), size))
      ensures r.Err? ==> Inv() && inodes == old(inodes) && tables.db == old(tables.db)
    {
      hide Wrote, Sized;
      if !IsPosition(size) { return Err(EINVAL); }
      if size > maximum { return Err(EFBIG); }
      var found := Find(ino);
      if found.Err? { return Err(found.error); }
      var e := found.value;
      ghost var target := Target(tables.db, inodes, ino);
      if size > e.size {
        var zeros := seq(size - e.size, _ => 0);
        var written := Write(ino, zeros, Some(e.size), false);
        ZerosExtend(old(Body(Target(tables.db, inodes, ino))), zeros, size, maximum, written, Body(target));
        return Ok(());
      }
      CutTo(e, size, target);
      return Ok(());
    }

    method CutTo(e: Entry, size: nat, ghost ino: nat)
      requires Inv() && Locates(tables.db, inodes, e, ino) && size <= e.size
      modifies this`inodes, tables
      ensures OnlyBody(ino, Sized(old(Body(ino)), size))
    {
      ghost var before := tables.db;
      ghost var rows := CutChunks(e, size, ino);
      Settle(e, size, before, ino, rows);
    }

    method Lookup(path: Path) returns (r: Option<nat>)
      ensures r.Some? <==> HasPath(tables.db.NameTable(), path)
      ensures r.Some? ==> AtPath(tables.db, path, r.value)
    {
      PathTaken(tables.db, path);
      var ids := set a | a in tables.db.entries && tables.db.entries[a].path == path;
      if ids == {} {
        assert forall id | AtPath(tables.db, path, id) :: id in ids;
        return None;
      }
      var id: nat :| id in ids;
      assert AtPath(tables.db, path, id);
      return Some(id);
    }

    /** Creates an empty file; ids are handed out in order and never again. */
    method Create(path: Path) returns (id: nat)
      requires Inv() && !HasPath(tables.db.NameTable(), path)
      modifies this`inodes, this`nextIno, tables
      ensures Inv() && id == old(nextIno) && nextIno == id + 1 && id in tables.db.entries && tables.db.Identity(id) == id
      ensures tables.db.NameTable() == old(tables.db.NameTable())[id := Name(path, id)]
      ensures Bodies() == old(Bodies())[id := []] && tables.db.detached == old(tables.db.detached)
    {
      hide Sound, HasPath;
      CreatedSound(tables.db, inodes, pins, nextIno, path);
      id := nextIno;
      nextIno := nextIno + 1;
      tables.db := Created(tables.db, id, path);
      inodes := inodes[id := Stored(0, map[])];
    }

    /** Gives the inode at `from` one more name; every body stays as it is. */
    method Link(from: Path, to: Path) returns (r: Outcome<()>)
      requires Inv()
      modifies this`nextIno, tables
      ensures Inv() && Bodies() == old(Bodies()) && tables.db.detached == old(tables.db.detached)
      ensures r == if !HasPath(old(tables.db.NameTable()), from) then Err(ENOENT)
                   else if HasPath(old(tables.db.NameTable()), to) then Err(EEXIST) else Ok(())
      ensures r.Err? ==> tables.db == old(tables.db)
      ensures nextIno == old(nextIno) + if r.Ok? then 1 else 0
      ensures r.Ok? ==> exists source | AtPath(old(tables.db), from, source) ::
                tables.db.NameTable() == old(tables.db.NameTable())[old(nextIno) := Name(to, old(tables.db.Identity(source)))]
    {
      hide Sound, HasPath, AtPath, Linked, Tables.NameTable;
      var found := Lookup(from);
      if found.None? { return Err(ENOENT); }
      var taken := Lookup(to);
      if taken.Some? { return Err(EEXIST); }
      var source, dest := found.value, nextIno;
      FreshId(tables.db, inodes, pins, nextIno, from, source);
      ghost var before := tables.db;
      LinkRows(source, dest, to);
      LinkedSound(before, tables.db, inodes, pins, source, dest, to);
      nextIno := nextIno + 1;
      return Ok(());
    }

    /** The table updates of a link: the shared identity, the metadata, then the chunks. */
    method LinkRows(source: nat, dest: nat, to: Path)
      requires tables.db.NamesHold(inodes) && tables.db.Settled() && source in tables.db.entries && dest !in tables.db.entries
      modifies tables
      ensures Linked(old(tables.db), tables.db, source, dest, to)
    {
      hide Tables.NamesHold, Linked, Linking, Copying;
      ghost var before := tables.db;
      var row := tables.db.entries[source];
      tables.db := Created(tables.db, dest, to);
      var link := Some(tables.db.Identity(source));
      tables.db := tables.db.(entries := tables.db.entries[source := row.(link := link)]);
      tables.db := tables.db.(entries := tables.db.entries[dest := tables.db.entries[dest].(link := link)]);
      ghost var mid := tables.db;
      assert mid.entries == before.entries[source := row.(link := link)][dest := EntryRow(to, link, 0, false, false)];
      tables.UpdateSize(dest, row.size, false);
      LinkSized(before, mid, tables.db, inodes, source, dest, to);
      AliasRows(before, tables.db, inodes, source, dest, to);
      ghost var sized := tables.db;
      CopyChunks(dest, tables.db.RowsAt(source));
      CopyDone(before, sized, tables.db, source, dest, to);
    }

    /** Copies the source's chunks under the new name; the insert trigger finds every alias already holding them. */
    method CopyChunks(dest: nat, rows: Rows)
      requires dest in tables.db.entries && (forall a | a in tables.db.entries :: !tables.db.entries[a].unlinking) && Copying(tables.db, tables.db, dest, rows, {})
      requires forall a | a in tables.db.Reach(dest) && a != dest :: tables.db.RowsAt(a) == rows
      modifies tables
      ensures Copying(old(tables.db), tables.db, dest, rows, rows.Keys)
    {
      ghost var before, names := tables.db, tables.db.Reach(dest);
      var todo := rows.Keys;
      ghost var done := {};
      while todo != {}
        invariant todo + done == rows.Keys && Copying(before, tables.db, dest, rows, done)
        decreases todo
      {
        var k :| k in todo;
        ghost var mid := tables.db;
        tables.Upsert(dest, k, rows[k]);
        CopyOne(before, mid, tables.db, dest, rows, done, names, k);
        todo, done := todo - {k}, done + {k};
      }
      assert done == rows.Keys;
    }

    /** How many handles are open. */
    function Count(): nat
      reads this
    {
      |pins|
    }

    /** The entry to open: refused when it must not exist and does, or must and does not. */
    method OpenEntry(path: Path, create: bool, exclusive: bool) returns (r: Outcome<nat>)
      requires Inv()
      modifies this`inodes, this`nextIno, tables
      ensures Inv()
      ensures HasPath(old(tables.db.NameTable()), path) ==>
                && r.Err? == exclusive && (r.Err? ==> r.error == EEXIST) && (r.Ok? ==> AtPath(old(tables.db), path, r.value))
                && tables.db == old(tables.db) && inodes == old(inodes) && nextIno == old(nextIno)
      ensures nextIno == old(nextIno) + if HasPath(old(tables.db.NameTable()), path) || r.Err? then 0 else 1
      ensures !HasPath(old(tables.db.NameTable()), path) ==>
                && r.Ok? == create && (r.Err? ==> r.error == ENOENT && tables.db == old(tables.db) && inodes == old(inodes))
                && (r.Ok? ==>
                      && r.value == old(nextIno) && r.value in tables.db.entries && tables.db.Identity(r.value) == r.value
                      && tables.db.NameTable() == old(tables.db.NameTable())[r.value := Name(path, r.value)]
                      && Bodies() == old(Bodies())[r.value := []])
    {
      hide Sound, HasPath, AtPath, Tables.NameTable, BodiesOf;
      var found := Lookup(path);
      if found.Some? {
        return if exclusive then Err(EEXIST) else Ok(found.value);
      }
      if !create { return Err(ENOENT); }
      var entry := Create(path);
      return Ok(entry);
    }

    /** Pins the inode of an entry, emptying its body if asked to. */
    method PinEntry(entry: nat, empty: bool) returns (ino: nat)
      requires Inv() && entry in tables.db.entries
      modifies this`pins, this`inodes, tables
      ensures Inv() && ino == old(tables.db.Identity(entry)) && pins == old(pins) + multiset{ino}
      ensures tables.db.NameTable() == old(tables.db.NameTable())
      ensures Bodies() == if empty then old(Bodies())[ino := []] else old(Bodies())
    {
      hide Sound, Tables.NameTable, BodiesOf;
      ino := tables.db.Identity(entry);
      Pinned(tables.db, inodes, pins, nextIno, entry);
      pins := pins + multiset{ino};
      if empty {
        var cleared := Truncate(ino, 0);
        assert cleared == Ok(());
      }
    }

    /** Opens a file by path, creating or emptying it as the mode says, and pins its inode. */
    method Open(path: Path, flags: string) returns (r: Outcome<Opening>)
      requires Inv()
      modifies this, tables
      ensures Inv()
      ensures r.Err? <==> flags !in MODES || |old(pins)| >= 1024
                          || (if HasPath(old(tables.db.NameTable()), path) then 'x' in flags else flags[0] == 'r')
      ensures r.Err? ==>
                && r.error == (if flags !in MODES then EINVAL else if |old(pins)| >= 1024 then EMFILE
                               else if HasPath(old(tables.db.NameTable()), path) then EEXIST else ENOENT)
                && tables.db == old(tables.db) && inodes == old(inodes) && pins == old(pins) && nextDescriptor == old(nextDescriptor)
      ensures nextIno == old(nextIno) + if HasPath(old(tables.db.NameTable()), path) || r.Err? then 0 else 1
      ensures r.Ok? ==>
                var o := r.value;
                && pins == old(pins) + multiset{o.ino} && o.fd == old(nextDescriptor) && nextDescriptor == o.fd + 1
                && o.readable == (flags in {"r", "r+", "w+", "wx+", "a+", "ax+"}) && o.writable == (flags != "r")
                && o.append == (flags in {"a", "a+", "ax", "ax+"})
      ensures r.Ok? && HasPath(old(tables.db.NameTable()), path) ==>
                var o := r.value;
                && tables.db.NameTable() == old(tables.db.NameTable())
                && (exists id | AtPath(old(tables.db), path, id) :: o.ino == old(tables.db.Identity(id)))
                && Bodies() == if flags in {"w", "w+"} then old(Bodies())[o.ino := []] else old(Bodies())
      ensures r.Ok? && !HasPath(old(tables.db.NameTable()), path) ==>
                var o := r.value;
                && o.ino == old(nextIno)
                && tables.db.NameTable() == old(tables.db.NameTable())[o.ino := Name(path, o.ino)]
                && Bodies() == old(Bodies())[o.ino := []]
    {
      hide Sound, HasPath, AtPath, Tables.NameTable, BodiesOf;
      if flags !in MODES { return Err(EINVAL); }
      if Count() >= 1024 { return Err(EMFILE); }
      var readable := flags[0] == 'r' || flags[|flags| - 1] == '+';
      var writable := flags[0] != 'r' || flags[|flags| - 1] == '+';
      var entry := OpenEntry(path, flags[0] != 'r', 'x' in flags);
      if entry.Err? { return Err(entry.error); }
      assert entry.value in tables.db.entries by {
        if HasPath(old(tables.db.NameTable()), path) { PathIsEntry(tables.db, path, entry.value); }
      }
      var ino := PinEntry(entry.value, flags[0] == 'w');
      var fd := nextDescriptor;
      nextDescriptor := nextDescriptor + 1;
      return Ok(Opening(ino, fd, readable, writable, flags[0] == 'a'));
    }

    /** Unpins an inode; the last handle of an inode without a name takes its body along. */
    method Release(ino: nat)
      requires Inv()
      modifies this`pins, this`inodes, tables
      ensures Inv() && pins == old(pins) - multiset{ino}
      ensures tables.db.NameTable() == old(tables.db.NameTable())
      ensures inodes == Left(old(inodes), tables.db.NameTable(), pins)
      ensures Bodies() == BodiesLeft(old(Bodies()), tables.db.NameTable(), pins)
    {
      hide Sound, Tables.NameTable, Left, BodiesOf, BodiesLeft;
      SoundIsFormed(tables.db, inodes, pins, nextIno);
      LeftBodies(inodes, tables.db.NameTable(), pins - multiset{ino});
      if pins[ino] == 0 {
        NothingReleased(tables.db, inodes, pins, nextIno, ino);
        return;
      }
      ReleasedSound(tables.db, if pins[ino] > 1 then tables.db else tables.db.(detached := tables.db.detached - {ino}),
                    inodes, pins, nextIno, ino);
      if pins[ino] <= 1 {
        tables.db := tables.db.(detached := tables.db.detached - {ino});
      }
      pins := pins - multiset{ino};
      inodes := Left(inodes, tables.db.NameTable(), pins);
    }

    /** Detaches one pinned inode if a removal will leave it without a name. */
    method RetainOne(ino: nat, path: Path, recursive: bool, ghost before: Tables, ghost done: set<nat>)
      requires before.Holds(inodes) && ino in inodes
      requires tables.db == before.(detached := before.detached + Kept(before, inodes, done, Gone(before, path, recursive)))
      modifies tables
      ensures tables.db ==
                before.(detached := before.detached + Kept(before, inodes, done + {ino}, Gone(before, path, recursive)))
    {
      hide Kept, Candidates, Gone, Tables.Holds, RemainingName;
      SameEntries(before, tables.db, ino);
      var ids := Candidates(tables.db, ino);
      if ids == {} {
        KeptNone(before, inodes, done, ino, Gone(before, path, recursive));
        return;
      }
      MinExists(ids);
      var id: nat :| id in ids && forall b | b in ids :: id <= b;
      var entry := tables.db.entries[id];
      KeptOne(before, inodes, done, ino, id, path, recursive);
      if entry.path != path && !(recursive && IsDescendant(path, entry.path)) { return; }
      if RemainingName(tables.db, id, path, recursive) { return; }
      tables.db := tables.db.(detached := tables.db.detached[ino := Stored(entry.size, tables.db.RowsAt(id))]);
    }

    /** Detaches the pinned inodes that a removal will leave without a name. */
    method Retain(path: Path, recursive: bool, root: nat)
      requires Inv() && (!recursive ==> root in tables.db.entries && Gone(tables.db, path, false) == {root})
      modifies tables
      ensures tables.db == old(tables.db).(detached :=
                old(tables.db).detached + Retained(old(tables.db), inodes, pins, Gone(old(tables.db), path, recursive)))
    {
      hide Kept, Candidates, Gone, Tables.Holds, Under, RemainingName, Retained;
      ghost var before, gone := tables.db, Gone(tables.db, path, recursive);
      var todo := if recursive then set i | i in pins else
                    var identity := tables.db.Identity(root); if identity in pins then {identity} else {};
      ghost var all, done: set<nat> := todo, {};
      NoneKept(before, inodes, gone);
      while todo != {}
        invariant todo + done == all && forall i | i in all :: i in pins
        invariant tables.db == before.(detached := before.detached + Kept(before, inodes, done, gone))
        decreases todo
      {
        var ino :| ino in todo;
        RetainOne(ino, path, recursive, before, done);
        todo, done := todo - {ino}, done + {ino};
      }
      assert done == all;
      KeptAll(before, inodes, pins, done, gone, root);
    }

    /** Deletes the chunks of the entries that go; marked or unlinked, none takes an alias's chunks along. */
    method DeleteChunksOf(gone: set<nat>)
      requires gone <= tables.db.entries.Keys
      requires forall a | a in gone :: tables.db.entries[a].unlinking || tables.db.entries[a].link.None?
      modifies tables
      ensures Emptied(old(tables.db), tables.db, gone)
    {
      ghost var before, done := tables.db, {};
      var todo := gone;
      while todo != {}
        invariant todo + done == gone && Emptied(before, tables.db, done)
        decreases todo
      {
        var id :| id in todo;
        ghost var mid := tables.db;
        assert tables.Mirrors(id) == {id};
        tables.DeleteFrom(id, 0);
        EmptiedOne(before, mid, tables.db, done, id);
        todo, done := todo - {id}, done + {id};
      }
      assert done == gone;
    }

    /**
     * Removes the file at `path`, or every file below it. Every inode that still has a name or is
     * pinned keeps its body; the others are gone.
     */
    method Remove(path: Path, recursive: bool) returns (r: Outcome<()>)
      requires Inv()
      modifies this`inodes, tables
      ensures Inv()
      ensures r == if !recursive && !HasPath(old(tables.db.NameTable()), path) then Err(ENOENT) else Ok(())
      ensures r.Err? ==> tables.db == old(tables.db) && inodes == old(inodes)
      ensures r.Ok? ==> tables.db.NameTable() == old(tables.db.NameTable()) - old(Gone(tables.db, path, recursive))
      ensures r.Ok? ==> tables.db.entries.Keys == set a | a in old(tables.db.entries)
                          && old(tables.db).entries[a].path != path && !(recursive && IsDescendant(path, old(tables.db).entries[a].path))
      ensures r.Ok? ==> inodes == Left(old(inodes), tables.db.NameTable(), pins)
      ensures r.Ok? ==> Bodies() == BodiesLeft(old(Bodies()), tables.db.NameTable(), pins)
    {
      hide Gone, Under, IsDescendant, Sound, HasPath, AtPath, Tables.NameTable, Retained, Emptied, Removed, Left, BodiesOf, BodiesLeft;
      SoundIsFormed(tables.db, inodes, pins, nextIno);
      ghost var before := tables.db;
      var root := 0;
      if !recursive {
        var found := Lookup(path);
        if found.None? { return Err(ENOENT); }
        root := found.value;
        OnlyEntry(tables.db, inodes, pins, nextIno, path, root);
      }
      var gone := Gone(tables.db, path, recursive);
      Retain(path, recursive, root);
      ghost var kept := tables.db;
      tables.db := Marked(tables.db, gone);
      DeleteChunksOf(gone);
      MarkedRemoves(before, kept, tables.db, inodes, pins, gone);
      tables.db := tables.db.(entries := tables.db.entries - gone);
      RemovedSound(before, tables.db, inodes, pins, nextIno, gone);
      GoneExactly(before, tables.db, path, recursive);
      LeftBodies(inodes, tables.db.NameTable(), pins);
      inodes := Left(inodes, tables.db.NameTable(), pins);
      return Ok(());
    }
  }
}
