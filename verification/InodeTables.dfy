/**
 * The tables behind file handles (vfs_entries, vfs_inline_chunks, vfs_detached_*), and the inode
 * map they stand for: names of one inode share one body, and a body outlives its last name while pinned.
 */
module InodeTables {
  import opened Sequences
  import opened ChunkRows
  import opened Paths

  /** A named regular file; `link` is the shared identity once a second name has been given. */
  datatype EntryRow = EntryRow(path: Path, link: Option<nat>, size: nat, unlinking: bool, mirroring: bool)

  /** A stored body: what a detached inode keeps, and what every name of an inode agrees on. */
  datatype Stored = Stored(size: nat, rows: Rows)

  /** A name of an inode. */
  datatype Name = Name(path: Path, ino: nat)

  datatype Tables = Tables(entries: map<nat, EntryRow>, inline: map<nat, Rows>, detached: map<nat, Stored>) {

    /** The chunk rows stored under an entry id. */
    function RowsAt(id: nat): Rows { if id in inline then inline[id] else map[] }

    function Identity(id: nat): nat
      requires id in entries
    {
      if entries[id].link.Some? then entries[id].link.value else id
    }

    /** The entries that name inode `ino`. */
    ghost function Names(ino: nat): set<nat> {
      set id | id in entries && Identity(id) == ino
    }

    /** Every entry with the path it gives and the inode it names. */
    ghost function NameTable(): map<nat, Name> { map id | id in entries :: Name(entries[id].path, Identity(id)) }

    /** The entries that triggers make a change to `id` reach: every name sharing its link identity. */
    function Reach(id: nat): (r: set<nat>)
      requires id in entries
      ensures id in r && forall a | a in r :: a in entries
    {
      if entries[id].link.None? then {id} else set a | a in entries && entries[a].link == entries[id].link
    }

    lemma ReachIsShared(id: nat, a: nat)
      requires id in entries && a in Reach(id)
      ensures Reach(a) == Reach(id)
    {}

    /** An entry whose id is a shared identity shares it. */
    ghost predicate Rooted() {
      forall a | a in entries && entries[a].link.Some? && entries[a].link.value in entries ::
        entries[entries[a].link.value].link == entries[a].link
    }

    /** Between operations no flag is set, and chunks belong to entries. */
    ghost predicate Settled() {
      && (forall a | a in entries :: !entries[a].unlinking && !entries[a].mirroring)
      && (forall a {:trigger RowsAt(a)} | a !in entries :: RowsAt(a) == map[])
    }

    /** Every name of an inode stores the inode's body. */
    ghost predicate NamesHold(inodes: map<nat, Stored>) {
      forall a {:trigger Identity(a)} | a in entries ::
        Identity(a) in inodes && inodes[Identity(a)] == Stored(entries[a].size, RowsAt(a))
    }

    /** A detached inode keeps its body, and has no name left. */
    ghost predicate DetachedHold(inodes: map<nat, Stored>) {
      && (forall i | i in detached :: i in inodes && inodes[i] == detached[i] && i !in entries)
      && (forall a {:trigger Identity(a)} | a in entries :: Identity(a) !in detached)
    }

    /** The tables hold exactly these inodes. */
    ghost predicate Holds(inodes: map<nat, Stored>) {
      && Rooted() && Settled() && NamesHold(inodes) && DetachedHold(inodes)
      && inodes.Keys == detached.Keys + Named(NameTable())
      && WellFormed(inodes)
      && Unambiguous(NameTable())
    }

    /** The tables leave no choice in what they hold. */
    lemma HeldIsUnique(x: map<nat, Stored>, y: map<nat, Stored>)
      requires Holds(x) && Holds(y)
      ensures x == y
    {
      forall i | i in x ensures x[i] == y[i] {
        if i !in detached {
          var a :| a in NameTable() && NameTable()[a].ino == i;
          assert Identity(a) == i;
        }
      }
    }

    /** In consistent tables the triggers reach exactly the names of the inode. */
    lemma ReachIsNames(id: nat)
      requires Rooted() && id in entries
      ensures Reach(id) == Names(Identity(id))
    {}

    /** An entry whose id is the identity of a named inode is one of its names. */
    lemma IdentityIsName(ino: nat)
      requires Rooted() && Names(ino) != {} && ino in entries
      ensures ino in Names(ino)
    {
      var id :| id in Names(ino);
      assert Identity(id) == ino;
    }
  }

  ghost function Named(names: map<nat, Name>): set<nat> { set a | a in names :: names[a].ino }

  ghost predicate WellFormed(inodes: map<nat, Stored>) {
    forall i | i in inodes :: Shaped(inodes[i].rows, inodes[i].size)
  }

  /** `ids` finds each entry by its path. */
  ghost predicate Indexes(ids: map<Path, nat>, names: map<nat, Name>) {
    forall a | a in names :: names[a].path in ids && ids[names[a].path] == a
  }

  /** No path is taken twice. */
  ghost predicate Unambiguous(names: map<nat, Name>) { exists ids :: Indexes(ids, names) }

  /** Chunk `k` of every entry in `names` has become `body`. */
  ghost predicate Put(before: Tables, after: Tables, names: set<nat>, k: nat, body: Bytes) {
    && after.entries == before.entries && after.detached == before.detached
    && (forall a :: after.RowsAt(a) == if a in names then before.RowsAt(a)[k := body] else before.RowsAt(a))
  }

  /** Every entry in `names` has lost the chunks in `gone`. */
  ghost predicate Cut(before: Tables, after: Tables, names: set<nat>, gone: set<nat>) {
    && after.entries == before.entries && after.detached == before.detached
    && (forall a :: after.RowsAt(a) == if a in names then before.RowsAt(a) - gone else before.RowsAt(a))
  }

  /** The inode's rows have become `rows`, under every name or in its detached copy; nothing else has changed. */
  ghost predicate InoRows(before: Tables, now: Tables, ino: nat, rows: Rows) {
    if ino in before.detached then
      now == before.(detached := before.detached[ino := before.detached[ino].(rows := rows)])
    else
      && now.entries == before.entries && now.detached == before.detached
      && (forall a :: now.RowsAt(a) == if a in before.Names(ino) then rows else before.RowsAt(a))
  }

  /** The inode's recorded size has become `size`. */
  ghost predicate InoSized(before: Tables, now: Tables, ino: nat, size: nat) {
    if ino in before.detached then
      now == before.(detached := before.detached[ino := before.detached[ino].(size := size)])
    else
      && now.inline == before.inline && now.detached == before.detached && now.entries.Keys == before.entries.Keys
      && (forall a | a in before.entries ::
            now.entries[a] == if a in before.Names(ino) then before.entries[a].(size := size) else before.entries[a])
  }

  /** Every name of `ino`, and no other, has been given a new body. */
  ghost predicate Rewritten(before: Tables, after: Tables, ino: nat, body: Stored) {
    && after.detached == before.detached && after.entries.Keys == before.entries.Keys
    && (forall a | a in before.entries ::
          && after.entries[a] == (if before.Identity(a) == ino then before.entries[a].(size := body.size) else before.entries[a])
          && after.RowsAt(a) == if before.Identity(a) == ino then body.rows else before.RowsAt(a))
    && (forall a {:trigger after.RowsAt(a)} | a !in after.entries :: after.RowsAt(a) == before.RowsAt(a))
  }

  lemma Rewrites(before: Tables, mid: Tables, after: Tables, ino: nat, body: Stored)
    requires before.Settled() && ino !in before.detached
    requires InoRows(before, mid, ino, body.rows) && InoSized(mid, after, ino, body.size)
    ensures Rewritten(before, after, ino, body)
  {
    forall a | a in before.entries
      ensures after.entries[a] == (if before.Identity(a) == ino then before.entries[a].(size := body.size) else before.entries[a])
      ensures after.RowsAt(a) == if before.Identity(a) == ino then body.rows else before.RowsAt(a)
    {
      assert a in before.Names(ino) <==> before.Identity(a) == ino;
      assert a in mid.Names(ino) <==> before.Identity(a) == ino;
      assert after.RowsAt(a) == mid.RowsAt(a);
    }
    forall a | a !in after.entries ensures after.RowsAt(a) == before.RowsAt(a) {
      assert after.RowsAt(a) == mid.RowsAt(a);
    }
  }

  lemma RewrittenNames(before: Tables, after: Tables, ino: nat, body: Stored)
    requires Rewritten(before, after, ino, body)
    ensures after.NameTable() == before.NameTable()
    ensures forall i: nat :: after.Names(i) == before.Names(i)
    ensures before.Rooted() ==> after.Rooted()
  {
    assert forall a | a in after.entries :: after.Identity(a) == before.Identity(a);
    forall i: nat ensures after.Names(i) == before.Names(i) {}
  }

  lemma RewrittenNamesHold(before: Tables, after: Tables, ino: nat, body: Stored, inodes: map<nat, Stored>)
    requires before.NamesHold(inodes) && before.Settled() && Rewritten(before, after, ino, body)
    ensures after.NamesHold(inodes[ino := body]) && after.Settled()
  {
    forall a | a in after.entries ensures after.Identity(a) == before.Identity(a) {}
    forall a | a !in after.entries ensures after.RowsAt(a) == map[] { assert before.RowsAt(a) == map[]; }
  }

  lemma RewrittenDetachedHold(before: Tables, after: Tables, ino: nat, body: Stored, inodes: map<nat, Stored>)
    requires before.DetachedHold(inodes) && Rewritten(before, after, ino, body) && ino !in before.detached
    ensures after.DetachedHold(inodes[ino := body])
  {
    forall a | a in after.entries ensures after.Identity(a) == before.Identity(a) {}
  }

  lemma ShapedStill(inodes: map<nat, Stored>, ino: nat, body: Stored)
    requires WellFormed(inodes) && Shaped(body.rows, body.size)
    ensures WellFormed(inodes[ino := body])
  {}

  lemma RewrittenHolds(before: Tables, after: Tables, ino: nat, body: Stored, inodes: map<nat, Stored>)
    requires before.Holds(inodes) && ino in inodes && ino !in before.detached
    requires Rewritten(before, after, ino, body) && Shaped(body.rows, body.size)
    ensures after.Holds(inodes[ino := body]) && after.NameTable() == before.NameTable()
  {
    RewrittenNames(before, after, ino, body);
    RewrittenNamesHold(before, after, ino, body, inodes);
    RewrittenDetachedHold(before, after, ino, body, inodes);
    ShapedStill(inodes, ino, body);
  }

  lemma DetachedNames(before: Tables, after: Tables)
    requires after.entries == before.entries && after.inline == before.inline
    ensures after.NameTable() == before.NameTable()
    ensures before.Rooted() ==> after.Rooted()
    ensures before.Settled() ==> after.Settled()
  {
    forall a ensures after.RowsAt(a) == before.RowsAt(a) {}
  }

  lemma DetachedNamesHold(before: Tables, after: Tables, ino: nat, body: Stored, inodes: map<nat, Stored>)
    requires before.NamesHold(inodes) && before.DetachedHold(inodes) && ino in before.detached
    requires after == before.(detached := before.detached[ino := body])
    ensures after.NamesHold(inodes[ino := body]) && after.DetachedHold(inodes[ino := body])
  {
    forall a | a in after.entries
      ensures after.Identity(a) == before.Identity(a) && after.RowsAt(a) == before.RowsAt(a) {}
  }

  lemma DetachedRewrites(before: Tables, mid: Tables, after: Tables, ino: nat, body: Stored)
    requires ino in before.detached
    requires InoRows(before, mid, ino, body.rows) && InoSized(mid, after, ino, body.size)
    ensures after == before.(detached := before.detached[ino := body])
  {}

  lemma DetachedHolds(before: Tables, after: Tables, ino: nat, body: Stored, inodes: map<nat, Stored>)
    requires before.Holds(inodes) && ino in before.detached && Shaped(body.rows, body.size)
    requires after == before.(detached := before.detached[ino := body])
    ensures after.Holds(inodes[ino := body]) && after.NameTable() == before.NameTable()
  {
    DetachedNames(before, after);
    DetachedNamesHold(before, after, ino, body, inodes);
    ShapedStill(inodes, ino, body);
    assert after.detached.Keys == before.detached.Keys;
    assert inodes[ino := body].Keys == inodes.Keys;
  }

  /** New rows and a matching size under every name are a new body for that inode, and for no other. */
  lemma BodyReplaced(before: Tables, mid: Tables, after: Tables, ino: nat, body: Stored, inodes: map<nat, Stored>)
    requires before.Holds(inodes) && ino in inodes && Shaped(body.rows, body.size)
    requires InoRows(before, mid, ino, body.rows) && InoSized(mid, after, ino, body.size)
    ensures after.Holds(inodes[ino := body])
    ensures after.NameTable() == before.NameTable() && after.detached.Keys == before.detached.Keys
  {
    if ino in before.detached {
      DetachedRewrites(before, mid, after, ino, body);
      DetachedHolds(before, after, ino, body, inodes);
    } else {
      Rewrites(before, mid, after, ino, body);
      RewrittenHolds(before, after, ino, body, inodes);
    }
  }
}
