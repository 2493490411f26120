/** How giving and taking names changes the inode map the tables hold. */
module InodeNames {
  import opened Sequences
  import opened ChunkRows
  import opened Paths
  import opened InodeTables
  import opened HardLinks

  ghost predicate HasPath(names: map<nat, Name>, path: Path) {
    exists a :: a in names && names[a].path == path
  }

  /** A fresh entry for an empty file. */
  function Created(db: Tables, id: nat, path: Path): Tables {
    db.(entries := db.entries[id := EntryRow(path, None, 0, false, false)])
  }

  lemma NamesAfter(db: Tables, now: Tables, id: nat, name: Name)
    requires id !in db.entries && now.entries.Keys == db.entries.Keys + {id} && now.Identity(id) == name.ino
    requires now.entries[id].path == name.path
    requires forall a | a in db.entries :: now.entries[a].path == db.entries[a].path && now.Identity(a) == db.Identity(a)
    ensures now.NameTable() == db.NameTable()[id := name]
  {}

  lemma NameAdded(names: map<nat, Name>, id: nat, name: Name)
    requires Unambiguous(names) && !HasPath(names, name.path) && id !in names
    ensures Unambiguous(names[id := name])
    ensures Named(names[id := name]) == Named(names) + {name.ino}
  {
    var ids :| Indexes(ids, names);
    assert Indexes(ids[name.path := id], names[id := name]);
    forall i | i in Named(names) + {name.ino} ensures i in Named(names[id := name]) {
      if i in Named(names) {
        var a :| a in names && names[a].ino == i;
        assert names[id := name][a].ino == i;
      } else {
        assert names[id := name][id].ino == i;
      }
    }
    forall i | i in Named(names[id := name]) ensures i in Named(names) + {name.ino} {}
  }

  /** Creating an entry adds a name and an empty body. */
  lemma CreatedHolds(db: Tables, inodes: map<nat, Stored>, id: nat, path: Path)
    requires db.Holds(inodes) && id !in db.entries && id !in inodes && !HasPath(db.NameTable(), path)
    ensures Created(db, id, path).Holds(inodes[id := Stored(0, map[])])
    ensures Created(db, id, path).NameTable() == db.NameTable()[id := Name(path, id)]
  {
    hide Unambiguous, Named, HasPath, Tables.NameTable, Tables.NamesHold, Tables.DetachedHold, Tables.Rooted, Tables.Settled;
    hide WellFormed;
    CreatedNames(db, id, path);
    CreatedRows(db, inodes, id, path);
    EmptyIsShaped(inodes, id);
  }

  lemma EmptyIsShaped(inodes: map<nat, Stored>, id: nat)
    requires WellFormed(inodes)
    ensures WellFormed(inodes[id := Stored(0, map[])])
  {}

  lemma CreatedRows(db: Tables, inodes: map<nat, Stored>, id: nat, path: Path)
    requires db.Rooted() && db.Settled() && db.NamesHold(inodes) && db.DetachedHold(inodes)
    requires id !in db.entries && id !in inodes
    ensures var now := Created(db, id, path);
            now.Rooted() && now.Settled() && now.NamesHold(inodes[id := Stored(0, map[])])
            && now.DetachedHold(inodes[id := Stored(0, map[])])
  {
    var now := Created(db, id, path);
    forall a | a in db.entries
      ensures now.Identity(a) == db.Identity(a) && now.RowsAt(a) == db.RowsAt(a) && now.Identity(a) != id {}
    forall a ensures now.RowsAt(a) == db.RowsAt(a) {}
  }

  lemma CreatedNames(db: Tables, id: nat, path: Path)
    requires Unambiguous(db.NameTable()) && id !in db.entries && !HasPath(db.NameTable(), path)
    ensures var now := Created(db, id, path);
            && now.NameTable() == db.NameTable()[id := Name(path, id)]
            && Unambiguous(now.NameTable()) && Named(now.NameTable()) == Named(db.NameTable()) + {id}
  {
    var now := Created(db, id, path);
    forall a | a in db.entries ensures now.Identity(a) == db.Identity(a) {}
    NamesAfter(db, now, id, Name(path, id));
    NameAdded(db.NameTable(), id, Name(path, id));
  }

  /** `now` is `db` with `id` one more name, at `path`, of the inode that `source` names. */
  ghost predicate Linked(db: Tables, now: Tables, source: nat, id: nat, path: Path)
    requires source in db.entries
  {
    var link := Some(db.Identity(source));
    && now.entries == db.entries[source := db.entries[source].(link := link)]
                                [id := EntryRow(path, link, db.entries[source].size, false, false)]
    && now.detached == db.detached
    && (forall a :: now.RowsAt(a) == if a == id then db.RowsAt(source) else db.RowsAt(a))
  }

  /** A new name of an inode adds a name and leaves every body as it was. */
  lemma LinkedHolds(db: Tables, now: Tables, inodes: map<nat, Stored>, source: nat, id: nat, path: Path)
    requires db.Holds(inodes) && source in db.entries && id !in db.entries && id !in inodes
    requires !HasPath(db.NameTable(), path) && Linked(db, now, source, id, path)
    ensures now.Holds(inodes)
    ensures now.NameTable() == db.NameTable()[id := Name(path, db.Identity(source))]
  {
    hide Unambiguous, Named, HasPath, Tables.NameTable, Tables.NamesHold, Tables.DetachedHold, Tables.Rooted, Tables.Settled;
    hide WellFormed, Linked;
    LinkedNames(db, now, source, id, path);
    LinkedRows(db, now, inodes, source, id, path);
    LinkedRooted(db, now, inodes, source, id, path);
  }

  lemma LinkedRows(db: Tables, now: Tables, inodes: map<nat, Stored>, source: nat, id: nat, path: Path)
    requires db.Settled() && db.NamesHold(inodes) && db.DetachedHold(inodes)
    requires source in db.entries && id !in db.entries && id !in inodes && Linked(db, now, source, id, path)
    ensures now.detached == db.detached
    ensures now.Settled() && now.NamesHold(inodes) && now.DetachedHold(inodes)
  {
    forall a | a in now.entries ensures now.Identity(a) == db.Identity(if a == id then source else a) {}
  }

  lemma LinkedRooted(db: Tables, now: Tables, inodes: map<nat, Stored>, source: nat, id: nat, path: Path)
    requires db.Rooted() && db.NamesHold(inodes) && source in db.entries && id !in db.entries && id !in inodes
    requires Linked(db, now, source, id, path)
    ensures now.Rooted()
  {
    forall a | a in now.entries && now.entries[a].link.Some? && now.entries[a].link.value in now.entries
      ensures now.entries[now.entries[a].link.value].link == now.entries[a].link
    {
      var origin := if a == id then source else a;
      assert db.Identity(origin) == now.entries[a].link.value;
      assert now.entries[a].link.value != id;
    }
  }

  lemma LinkedNames(db: Tables, now: Tables, source: nat, id: nat, path: Path)
    requires Unambiguous(db.NameTable()) && source in db.entries && id !in db.entries
    requires !HasPath(db.NameTable(), path) && Linked(db, now, source, id, path)
    ensures now.NameTable() == db.NameTable()[id := Name(path, db.Identity(source))]
    ensures Unambiguous(now.NameTable()) && Named(now.NameTable()) == Named(db.NameTable())
  {
    var name := Name(path, db.Identity(source));
    NamesAfter(db, now, id, name);
    NameAdded(db.NameTable(), id, name);
    assert db.NameTable()[source].ino == name.ino;
  }

  /** The state before the new name's chunks are copied: both entries have the link, and the sizes agree. */
  ghost predicate Linking(db: Tables, now: Tables, source: nat, id: nat, path: Path)
    requires source in db.entries
  {
    var link := Some(db.Identity(source));
    && now.entries == db.entries[source := db.entries[source].(link := link)]
                                [id := EntryRow(path, link, db.entries[source].size, false, false)]
    && now.detached == db.detached && now.inline == db.inline
  }

  lemma LinkSized(db: Tables, mid: Tables, now: Tables, inodes: map<nat, Stored>, source: nat, id: nat, path: Path)
    requires db.NamesHold(inodes) && source in db.entries && id !in db.entries
    requires mid == db.(entries := db.entries[source := db.entries[source].(link := Some(db.Identity(source)))]
                                             [id := EntryRow(path, Some(db.Identity(source)), 0, false, false)])
    requires Resized(mid, now, mid.Reach(id), db.entries[source].size)
    ensures Linking(db, now, source, id, path)
  {
    var link := Some(db.Identity(source));
    var want := db.entries[source := db.entries[source].(link := link)]
                          [id := EntryRow(path, link, db.entries[source].size, false, false)];
    forall a | a in mid.entries ensures now.entries[a] == want[a] {
      if a in db.entries && a in mid.Reach(id) { assert db.Identity(a) == db.Identity(source); }
    }
    assert now.entries == want;
  }

  /** The chunks of `rows` in `done` have been copied to `id`. */
  ghost predicate Copying(mid: Tables, now: Tables, id: nat, rows: Rows, done: set<nat>) {
    && now.entries == mid.entries && now.detached == mid.detached && done <= rows.Keys
    && (forall a :: now.RowsAt(a) == if a == id then map k | k in done :: rows[k] else mid.RowsAt(a))
  }

  lemma CopyOne(mid: Tables, now: Tables, next: Tables, id: nat, rows: Rows, done: set<nat>, names: set<nat>, k: nat)
    requires Copying(mid, now, id, rows, done) && k in rows && id in names
    requires forall a | a in names && a != id :: mid.RowsAt(a) == rows
    requires Put(now, next, names, k, rows[k])
    ensures Copying(mid, next, id, rows, done + {k})
  {
    forall a ensures next.RowsAt(a) == if a == id then map j | j in done + {k} :: rows[j] else mid.RowsAt(a) {
      if a == id {
        assert (map j | j in done :: rows[j])[k := rows[k]] == map j | j in done + {k} :: rows[j];
      } else if a in names {
        assert now.RowsAt(a) == rows && rows[k := rows[k]] == rows;
      }
    }
  }

  /** Once every chunk is copied the new name is a name like any other. */
  lemma CopyDone(db: Tables, mid: Tables, now: Tables, source: nat, id: nat, path: Path)
    requires source in db.entries && source != id && Linking(db, mid, source, id, path)
    requires Copying(mid, now, id, db.RowsAt(source), db.RowsAt(source).Keys)
    ensures Linked(db, now, source, id, path)
  {
    var rows := db.RowsAt(source);
    assert (map k | k in rows.Keys :: rows[k]) == rows;
    forall a ensures now.RowsAt(a) == if a == id then db.RowsAt(source) else db.RowsAt(a) {
      assert mid.RowsAt(a) == db.RowsAt(a);
    }
  }

  /** The aliases of the new name store what the source stores. */
  lemma AliasRows(db: Tables, mid: Tables, inodes: map<nat, Stored>, source: nat, id: nat, path: Path)
    requires db.NamesHold(inodes) && db.Settled() && source in db.entries && id !in db.entries && Linking(db, mid, source, id, path)
    ensures id in mid.entries && forall a | a in mid.Reach(id) && a != id :: mid.RowsAt(a) == db.RowsAt(source)
    ensures Copying(mid, mid, id, db.RowsAt(source), {}) && mid.RowsAt(source) == db.RowsAt(source)
    ensures forall a | a in mid.entries :: !mid.entries[a].unlinking
  {
    forall a | a in mid.Reach(id) && a != id ensures mid.RowsAt(a) == db.RowsAt(source) {
      assert db.Identity(a) == db.Identity(source);
      assert mid.RowsAt(a) == db.RowsAt(a);
    }
    assert db.RowsAt(id) == map[] && mid.RowsAt(id) == db.RowsAt(id);
  }

  /** The inodes that are left: those with a name, and those that are pinned. */
  ghost function Left(inodes: map<nat, Stored>, names: map<nat, Name>, pins: multiset<nat>): map<nat, Stored> {
    map i | i in inodes && (i in pins || i in Named(names)) :: inodes[i]
  }

  /** `now` is `db` without the entries in `gone`; pinned inodes losing their last name are detached. */
  ghost predicate Removed(db: Tables, now: Tables, inodes: map<nat, Stored>, pins: multiset<nat>, gone: set<nat>) {
    && now.entries == db.entries - gone
    && (forall a {:trigger now.RowsAt(a)} :: now.RowsAt(a) == if a in gone then map[] else db.RowsAt(a))
    && now.detached == db.detached + Retained(db, inodes, pins, gone)
  }

  /** What must be detached when the entries in `gone` go. */
  ghost function Retained(db: Tables, inodes: map<nat, Stored>, pins: multiset<nat>, gone: set<nat>): map<nat, Stored> {
    map i | i in inodes && i in pins && i in Named(db.NameTable()) && db.Names(i) <= gone :: inodes[i]
  }

  lemma RemovedNames(db: Tables, now: Tables, gone: set<nat>)
    requires Unambiguous(db.NameTable()) && now.entries == db.entries - gone
    ensures now.NameTable() == db.NameTable() - gone
    ensures Unambiguous(now.NameTable())
    ensures forall i | i in Named(db.NameTable()) :: i in Named(now.NameTable()) <==> !(db.Names(i) <= gone)
    ensures Named(now.NameTable()) <= Named(db.NameTable())
  {
    assert forall a | a in now.entries :: now.Identity(a) == db.Identity(a);
    var ids :| Indexes(ids, db.NameTable());
    forall a | a in now.NameTable() ensures now.NameTable()[a] == db.NameTable()[a] {}
    assert Indexes(ids, now.NameTable());
    forall i | i in Named(db.NameTable()) ensures i in Named(now.NameTable()) <==> !(db.Names(i) <= gone) {
      if !(db.Names(i) <= gone) {
        var a :| a in db.Names(i) && a !in gone;
        assert now.NameTable()[a].ino == i;
      }
      if i in Named(now.NameTable()) {
        var a :| a in now.NameTable() && now.NameTable()[a].ino == i;
        assert a in db.Names(i) && a !in gone;
      }
    }
    forall i | i in Named(now.NameTable()) ensures i in Named(db.NameTable()) {
      var a :| a in now.NameTable() && now.NameTable()[a].ino == i;
      assert db.NameTable()[a].ino == i;
    }
  }

  lemma NamedHasName(db: Tables, i: nat)
    requires i in Named(db.NameTable())
    ensures db.Names(i) != {}
  {
    var a :| a in db.NameTable() && db.NameTable()[a].ino == i;
    assert a in db.Names(i);
  }

  lemma RemovedRows(db: Tables, now: Tables, inodes: map<nat, Stored>, pins: multiset<nat>, gone: set<nat>)
    requires db.Rooted() && db.Settled() && db.NamesHold(inodes) && db.DetachedHold(inodes)
    requires Removed(db, now, inodes, pins, gone)
    requires forall a {:trigger now.Identity(a)} | a in now.entries :: now.Identity(a) in Left(inodes, now.NameTable(), pins)
    requires forall i | i in db.detached :: i in pins
    ensures now.Rooted() && now.Settled() && now.NamesHold(Left(inodes, now.NameTable(), pins))
    ensures now.DetachedHold(Left(inodes, now.NameTable(), pins))
  {
    hide Named, Tables.NameTable;
    forall a | a in now.entries ensures now.Identity(a) == db.Identity(a) && now.RowsAt(a) == db.RowsAt(a) {}
    forall i | i in now.detached ensures i !in now.entries {
      if i in db.entries {
        assert i !in db.detached;
        NamedHasName(db, i);
        db.IdentityIsName(i);
      }
    }
    forall a | a in now.entries ensures now.Identity(a) !in now.detached {
      assert a in db.Names(db.Identity(a)) && a !in gone;
    }
  }

  lemma StillNamed(db: Tables, now: Tables, inodes: map<nat, Stored>, gone: set<nat>)
    requires db.NamesHold(inodes) && now.entries == db.entries - gone
    ensures forall a {:trigger now.Identity(a)} | a in now.entries ::
              now.Identity(a) in Named(now.NameTable()) && now.Identity(a) in inodes
  {
    forall a | a in now.entries ensures now.Identity(a) in Named(now.NameTable()) && now.Identity(a) in inodes {
      assert now.NameTable()[a].ino == now.Identity(a) == db.Identity(a);
    }
  }

  /** Every remaining name leads to an inode that is left, and every pinned inode is left. */
  lemma RemovedKeys(db: Tables, now: Tables, inodes: map<nat, Stored>, pins: multiset<nat>, gone: set<nat>)
    requires db.NamesHold(inodes) && Unambiguous(db.NameTable()) && inodes.Keys == db.detached.Keys + Named(db.NameTable())
    requires (forall i | i in pins :: i in inodes) && (forall i | i in db.detached :: i in pins)
    requires now.entries == db.entries - gone && now.detached == db.detached + Retained(db, inodes, pins, gone)
    ensures forall a {:trigger now.Identity(a)} | a in now.entries :: now.Identity(a) in Left(inodes, now.NameTable(), pins)
    ensures Left(inodes, now.NameTable(), pins).Keys == now.detached.Keys + Named(now.NameTable())
  {
    hide Named, Tables.NameTable, Unambiguous, Tables.NamesHold;
    RemovedNames(db, now, gone);
    StillNamed(db, now, inodes, gone);
    var left := Left(inodes, now.NameTable(), pins);
    forall i | i in left ensures i in now.detached || i in Named(now.NameTable()) {}
    forall i | i in now.detached || i in Named(now.NameTable()) ensures i in left {}
  }

  /** Removing names keeps every inode that still has a name or is pinned, with the body it had. */
  lemma RemovedHolds(db: Tables, now: Tables, inodes: map<nat, Stored>, pins: multiset<nat>, gone: set<nat>)
    requires db.Holds(inodes) && Removed(db, now, inodes, pins, gone)
    requires (forall i | i in pins :: i in inodes) && (forall i | i in db.detached :: i in pins)
    ensures now.Holds(Left(inodes, now.NameTable(), pins)) && now.NameTable() == db.NameTable() - gone
    ensures forall i | i in now.detached :: i in pins
  {
    hide Tables.NameTable, Named, Unambiguous, Tables.Rooted, Tables.Settled, Tables.NamesHold, Tables.DetachedHold;
    RemovedNames(db, now, gone);
    RemovedKeys(db, now, inodes, pins, gone);
    RemovedRows(db, now, inodes, pins, gone);
  }

  /** Nothing leaves while no inode has lost both its names and its pins. */
  lemma NothingLeaves(db: Tables, inodes: map<nat, Stored>, pins: multiset<nat>)
    requires inodes.Keys == db.detached.Keys + Named(db.NameTable()) && forall i | i in db.detached :: i in pins
    ensures Left(inodes, db.NameTable(), pins) == inodes
  {}

  lemma ReleasedRows(db: Tables, now: Tables, inodes: map<nat, Stored>, left: map<nat, Stored>, ino: nat)
    requires db.Rooted() && db.Settled() && db.NamesHold(inodes) && db.DetachedHold(inodes)
    requires now == db.(detached := db.detached - {ino})
    requires forall i | i in left :: i in inodes && left[i] == inodes[i]
    requires forall a {:trigger db.Identity(a)} | a in db.entries :: db.Identity(a) in left
    requires forall i | i in now.detached :: i in left
    ensures now.Rooted() && now.Settled() && now.NamesHold(left) && now.DetachedHold(left)
  {
    forall a ensures now.RowsAt(a) == db.RowsAt(a) {}
    forall a | a in now.entries ensures now.Identity(a) == db.Identity(a) {}
  }

  /** The inodes left after a release are those with a name or still detached. */
  lemma ReleasedKeys(inodes: map<nat, Stored>, names: map<nat, Name>, pins: multiset<nat>, detached: map<nat, Stored>, ino: nat)
    requires inodes.Keys == detached.Keys + Named(names) && ino !in pins
    requires forall i | i in detached && i != ino :: i in pins
    requires forall i | i in pins :: i in inodes
    ensures Left(inodes, names, pins).Keys == (detached - {ino}).Keys + Named(names)
    ensures WellFormed(inodes) ==> WellFormed(Left(inodes, names, pins))
  {
    hide Named;
  }

  /** Dropping a detached inode that is no longer pinned. */
  lemma ReleasedHolds(db: Tables, now: Tables, inodes: map<nat, Stored>, pins: multiset<nat>, ino: nat)
    requires db.Holds(inodes) && now == db.(detached := db.detached - {ino}) && ino !in pins
    requires forall i | i in db.detached && i != ino :: i in pins
    requires forall i | i in pins :: i in inodes
    ensures now.NameTable() == db.NameTable() && now.Holds(Left(inodes, db.NameTable(), pins))
  {
    DetachedNames(db, now);
    StillNamed(db, db, inodes, {});
    hide Named, Unambiguous, Tables.NameTable, Tables.Rooted, Tables.Settled, Tables.NamesHold, Tables.DetachedHold, WellFormed;
    ReleasedKeys(inodes, db.NameTable(), pins, db.detached, ino);
    var left := Left(inodes, db.NameTable(), pins);
    ReleasedRows(db, now, inodes, left, ino);
  }
}
