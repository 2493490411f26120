/** src/fs/hard-links.ts: the triggers that mirror chunks and metadata among the names of one inode. */
module HardLinks {
  import opened Sequences
  import opened ChunkRows
  import opened Paths
  import opened InodeTables

  lemma Smaller<T>(a: set<T>, b: set<T>)
    requires a < b
    ensures |a| < |b|
  {
    assert b == a + (b - a);
  }

  lemma NotLarger<T>(a: set<T>, b: set<T>)
    requires a <= b
    ensures |a| <= |b|
  {
    assert b == a + (b - a);
  }

  /** The names that do not hold `body` as chunk `k` yet. */
  ghost function Lagging(db: Tables, names: set<nat>, k: nat, body: Bytes): set<nat> {
    set a | a in names && !(k in db.RowsAt(a) && db.RowsAt(a)[k] == body)
  }

  lemma LagShrinks(db: Tables, names: set<nat>, k: nat, body: Bytes, bound: set<nat>, alias: nat)
    requires Lagging(db, names, k, body) <= bound && alias in names
    requires !(k in db.RowsAt(alias) && db.RowsAt(alias)[k] == body)
    ensures |Lagging(db, names, k, body) - {alias}| < |bound|
  {
    var now := Lagging(db, names, k, body);
    assert alias in now;
    Smaller(now - {alias}, now);
    NotLarger(now, bound);
  }

  /** Names outside `todo` have the chunk; those in it may have it. */
  ghost predicate Spreading(before: Tables, now: Tables, names: set<nat>, todo: set<nat>, k: nat, body: Bytes) {
    && now.entries == before.entries && now.detached == before.detached
    && forall a :: (a !in names ==> now.RowsAt(a) == before.RowsAt(a))
                   && (a in names && a !in todo ==> now.RowsAt(a) == before.RowsAt(a)[k := body])
                   && (a in todo ==> now.RowsAt(a) == before.RowsAt(a) || now.RowsAt(a) == before.RowsAt(a)[k := body])
  }

  lemma SpreadStart(before: Tables, now: Tables, names: set<nat>, id: nat, k: nat, body: Bytes)
    requires id in names && now == before.(inline := before.inline[id := before.RowsAt(id)[k := body]])
    ensures Spreading(before, now, names, names - {id}, k, body)
    ensures Lagging(now, names, k, body) <= Lagging(before, names, k, body) - {id}
  {
    forall a ensures now.RowsAt(a) == if a == id then before.RowsAt(a)[k := body] else before.RowsAt(a) {}
  }

  lemma SpreadEntries(before: Tables, now: Tables, names: set<nat>, todo: set<nat>, k: nat, body: Bytes)
    requires Spreading(before, now, names, todo, k, body)
    ensures now.entries == before.entries && now.detached == before.detached
  {}

  lemma SpreadDone(before: Tables, now: Tables, names: set<nat>, k: nat, body: Bytes)
    requires Spreading(before, now, names, {}, k, body)
    ensures Put(before, now, names, k, body)
  {
    forall a ensures now.RowsAt(a) == if a in names then before.RowsAt(a)[k := body] else before.RowsAt(a) {}
  }

  lemma SpreadAll(before: Tables, mid: Tables, now: Tables, names: set<nat>, todo: set<nat>, rest: set<nat>, k: nat, body: Bytes)
    requires Spreading(before, mid, names, todo, k, body) && Put(mid, now, names, k, body)
    requires rest <= todo <= names
    ensures Spreading(before, now, names, rest, k, body) && Lagging(now, names, k, body) == {}
  {
    forall a ensures now.RowsAt(a) == if a in names then before.RowsAt(a)[k := body] else before.RowsAt(a) {
      assert mid.RowsAt(a) == before.RowsAt(a) || mid.RowsAt(a) == before.RowsAt(a)[k := body];
      assert before.RowsAt(a)[k := body][k := body] == before.RowsAt(a)[k := body];
    }
  }

  lemma SpreadOne(before: Tables, now: Tables, names: set<nat>, rest: set<nat>, a: nat, k: nat, body: Bytes)
    requires Spreading(before, now, names, rest + {a}, k, body) && a in names
    requires k in now.RowsAt(a) && now.RowsAt(a)[k] == body
    ensures Spreading(before, now, names, rest, k, body)
  {
    assert now.RowsAt(a) == now.RowsAt(a)[k := body];
  }

  /** An alias that is being removed has the chunk, and takes no other along. */
  lemma SpreadAlone(before: Tables, mid: Tables, now: Tables, names: set<nat>, rest: set<nat>, a: nat, k: nat, body: Bytes)
    requires Spreading(before, mid, names, rest + {a}, k, body) && a in names && Put(mid, now, {a}, k, body)
    ensures Spreading(before, now, names, rest, k, body) && Lagging(now, names, k, body) <= Lagging(mid, names, k, body)
  {
    forall i ensures now.RowsAt(i) == if i == a then before.RowsAt(i)[k := body] else mid.RowsAt(i) {
      assert before.RowsAt(i)[k := body][k := body] == before.RowsAt(i)[k := body];
    }
  }

  lemma LagAlone(db: Tables, a: nat, k: nat, body: Bytes)
    ensures Lagging(db, {a}, k, body) - {a} == {}
  {}

  /** The names that still hold a chunk `k`. */
  ghost function Holding(db: Tables, names: set<nat>, k: nat): set<nat> {
    set a | a in names && k in db.RowsAt(a)
  }

  /** Names outside `todo` have lost the chunk; those in it may have. */
  ghost predicate Draining(before: Tables, now: Tables, names: set<nat>, todo: set<nat>, k: nat) {
    && now.entries == before.entries && now.detached == before.detached
    && forall a :: (a !in names ==> now.RowsAt(a) == before.RowsAt(a))
                   && (a in names && a !in todo ==> now.RowsAt(a) == before.RowsAt(a) - {k})
                   && (a in todo ==> now.RowsAt(a) == before.RowsAt(a) || now.RowsAt(a) == before.RowsAt(a) - {k})
  }

  lemma DrainStart(before: Tables, now: Tables, names: set<nat>, id: nat, k: nat)
    requires id in names && k in before.RowsAt(id)
    requires now == before.(inline := before.inline[id := before.RowsAt(id) - {k}])
    ensures Draining(before, now, names, names - {id}, k)
    ensures Holding(now, names, k) <= Holding(before, names, k) - {id}
  {
    forall a ensures now.RowsAt(a) == if a == id then before.RowsAt(a) - {k} else before.RowsAt(a) {}
  }

  lemma DrainDone(before: Tables, now: Tables, names: set<nat>, k: nat)
    requires Draining(before, now, names, {}, k)
    ensures Cut(before, now, names, {k})
  {
    forall a ensures now.RowsAt(a) == if a in names then before.RowsAt(a) - {k} else before.RowsAt(a) {}
  }

  lemma DrainAll(before: Tables, mid: Tables, now: Tables, names: set<nat>, todo: set<nat>, rest: set<nat>, k: nat)
    requires Draining(before, mid, names, todo, k) && Cut(mid, now, names, {k})
    requires rest <= todo <= names
    ensures Draining(before, now, names, rest, k) && Holding(now, names, k) == {}
  {
    forall a ensures now.RowsAt(a) == if a in names then before.RowsAt(a) - {k} else before.RowsAt(a) {
      assert mid.RowsAt(a) == before.RowsAt(a) || mid.RowsAt(a) == before.RowsAt(a) - {k};
      assert before.RowsAt(a) - {k} - {k} == before.RowsAt(a) - {k};
    }
  }

  lemma DrainOne(before: Tables, now: Tables, names: set<nat>, rest: set<nat>, a: nat, k: nat)
    requires Draining(before, now, names, rest + {a}, k) && a in names && k !in now.RowsAt(a)
    ensures Draining(before, now, names, rest, k)
  {
    assert now.RowsAt(a) == now.RowsAt(a) - {k};
  }

  lemma DrainAlone(before: Tables, mid: Tables, now: Tables, names: set<nat>, rest: set<nat>, a: nat, k: nat)
    requires Draining(before, mid, names, rest + {a}, k) && a in names && Cut(mid, now, {a}, {k})
    ensures Draining(before, now, names, rest, k) && Holding(now, names, k) <= Holding(mid, names, k)
  {
    forall i ensures now.RowsAt(i) == if i == a then before.RowsAt(i) - {k} else mid.RowsAt(i) {
      assert before.RowsAt(i) - {k} - {k} == before.RowsAt(i) - {k};
    }
  }

  lemma CutThen(a: Tables, b: Tables, c: Tables, names: set<nat>, g: set<nat>, h: set<nat>)
    requires Cut(a, b, names, g) && Cut(b, c, names, h)
    ensures Cut(a, c, names, g + h)
  {
    forall i ensures c.RowsAt(i) == if i in names then a.RowsAt(i) - (g + h) else a.RowsAt(i) {
      assert b.RowsAt(i) == if i in names then a.RowsAt(i) - g else a.RowsAt(i);
    }
  }

  /** Every entry in `names` has the new size. */
  ghost predicate Resized(before: Tables, after: Tables, names: set<nat>, size: nat) {
    && after.inline == before.inline && after.detached == before.detached && after.entries.Keys == before.entries.Keys
    && forall a | a in before.entries ::
         after.entries[a] == if a in names then before.entries[a].(size := size) else before.entries[a]
  }

  /** The entry `id` has the new size, and its aliases among `done` have it with `mirroring` still set. */
  ghost predicate Mirrored(before: Tables, now: Tables, id: nat, done: set<nat>, size: nat) {
    && now.inline == before.inline && now.detached == before.detached && now.entries.Keys == before.entries.Keys
    && forall a | a in before.entries ::
         now.entries[a] == if a == id then before.entries[a].(size := size)
                           else if a in done then before.entries[a].(size := size, mirroring := true)
                           else before.entries[a]
  }

  lemma SameReach(before: Tables, now: Tables, id: nat, size: nat)
    requires id in before.entries && !before.entries[id].mirroring
    requires now == before.(entries := before.entries[id := before.entries[id].(size := size)])
    ensures now.Reach(id) == before.Reach(id)
    ensures Mirrored(before, now, id, {id}, size)
  {}

  lemma MirrorOne(before: Tables, mid: Tables, now: Tables, id: nat, done: set<nat>, alias: nat, size: nat)
    requires Mirrored(before, mid, id, done, size) && alias in mid.entries && alias != id && alias !in done
    requires now == mid.(entries := mid.entries[alias := mid.entries[alias].(size := size, mirroring := true)])
    ensures Mirrored(before, now, id, done + {alias}, size)
  {}

  /** `db` with `mirroring` cleared among `names`. */
  function Cleared(db: Tables, names: set<nat>): Tables {
    db.(entries := map a | a in db.entries ::
        if a in names && db.entries[a].mirroring then db.entries[a].(mirroring := false) else db.entries[a])
  }

  lemma MirrorsClear(before: Tables, mid: Tables, id: nat, names: set<nat>, size: nat)
    requires Mirrored(before, mid, id, names, size) && id in names
    requires names <= before.entries.Keys && forall a | a in names :: !before.entries[a].mirroring
    ensures Resized(before, Cleared(mid, names), names, size)
  {}

  class SqlTables {
    var db: Tables

    constructor ()
      ensures db == Tables(map[], map[], map[])
    {
      db := Tables(map[], map[], map[]);
    }

    /** The entries that a chunk changed under `id` changes under: a name being removed takes no other along. */
    function Mirrors(id: nat): set<nat>
      reads this
      requires id in db.entries
    {
      if db.entries[id].unlinking then {id} else db.Reach(id)
    }

    /**
     * Inserts or replaces a chunk; the insert and update triggers do the same for each alias whose
     * chunk differs, and so on. It ends because every firing leaves one name fewer that differs.
     */
    method Upsert(id: nat, k: nat, body: Bytes)
      requires id in db.entries
      modifies this
      ensures Put(old(db), db, old(Mirrors(id)), k, body)
      decreases |Lagging(db, Mirrors(id), k, body) - {id}|
    {
      hide Spreading, Lagging, Put, Tables.RowsAt;
      ghost var before, names := db, Mirrors(id);
      ghost var bound := Lagging(db, names, k, body) - {id};
      db := db.(inline := db.inline[id := db.RowsAt(id)[k := body]]);
      SpreadStart(before, db, names, id, k, body);
      var todo := Mirrors(id) - {id};
      while todo != {}
        invariant todo <= names - {id}
        invariant Spreading(before, db, names, todo, k, body)
        invariant Lagging(db, names, k, body) <= bound
        decreases todo
      {
        SpreadEntries(before, db, names, todo, k, body);
        var alias :| alias in todo;
        assert todo - {alias} + {alias} == todo;
        todo := todo - {alias};
        if !(k in db.RowsAt(alias) && db.RowsAt(alias)[k] == body) {
          LagShrinks(db, names, k, body, bound, alias);
          db.ReachIsShared(id, alias);
          ghost var mid := db;
          LagAlone(db, alias, k, body);
          Upsert(alias, k, body);
          if mid.entries[alias].unlinking {
            SpreadAlone(before, mid, db, names, todo, alias, k, body);
          } else {
            SpreadAll(before, mid, db, names, todo + {alias}, todo, k, body);
          }
        } else {
          SpreadOne(before, db, names, todo, alias, k, body);
        }
      }
      SpreadDone(before, db, names, k, body);
    }

    /** Deletes a chunk; the delete trigger does the same for each alias that still has it. */
    method DeleteRow(id: nat, k: nat)
      requires id in db.entries && k in db.RowsAt(id)
      modifies this
      ensures Cut(old(db), db, old(Mirrors(id)), {k})
      decreases |Holding(db, Mirrors(id), k)|
    {
      ghost var before, names := db, Mirrors(id);
      ghost var bound := Holding(db, names, k) - {id};
      Smaller(bound, Holding(db, names, k));
      db := db.(inline := db.inline[id := db.RowsAt(id) - {k}]);
      DrainStart(before, db, names, id, k);
      var todo := Mirrors(id) - {id};
      while todo != {}
        invariant todo <= names - {id}
        invariant Draining(before, db, names, todo, k)
        invariant Holding(db, names, k) <= bound
        decreases todo
      {
        var alias :| alias in todo;
        todo := todo - {alias};
        if k in db.RowsAt(alias) {
          NotLarger(Holding(db, names, k), bound);
          NotLarger(Holding(db, {alias}, k), bound);
          db.ReachIsShared(id, alias);
          ghost var mid := db;
          DeleteRow(alias, k);
          if mid.entries[alias].unlinking {
            DrainAlone(before, mid, db, names, todo, alias, k);
          } else {
            DrainAll(before, mid, db, names, todo + {alias}, todo, k);
          }
        } else {
          DrainOne(before, db, names, todo, alias, k);
        }
      }
      DrainDone(before, db, names, k);
    }

    /** Deletes every chunk of `id` from index `end` on. */
    method DeleteFrom(id: nat, end: nat)
      requires id in db.entries
      modifies this
      ensures Cut(old(db), db, old(Mirrors(id)), old(set k | k in db.RowsAt(id) && end <= k))
    {
      ghost var before, names := db, Mirrors(id);
      var rows := db.RowsAt(id);
      var todo := set k | k in rows && end <= k;
      ghost var gone, all := {}, todo;
      forall a ensures db.RowsAt(a) - {} == db.RowsAt(a) {}
      while todo != {}
        invariant todo + gone == all && todo !! gone && Cut(before, db, names, gone)
        decreases todo
      {
        var k :| k in todo;
        ghost var mid := db;
        assert k in before.RowsAt(id) - gone;
        DeleteRow(id, k);
        CutThen(before, mid, db, names, gone, {k});
        todo, gone := todo - {k}, gone + {k};
      }
      assert gone == all;
    }

    /**
     * Updates an entry's size. The metadata trigger copies it to every alias with `mirroring` set,
     * which keeps the copies from firing the trigger again, and then clears the flag.
     */
    method UpdateSize(id: nat, size: nat, mirroring: bool)
      requires id in db.entries && (mirroring || forall a | a in db.Reach(id) :: !db.entries[a].mirroring)
      modifies this
      ensures mirroring ==> db == old(db).(entries := old(db).entries[id := old(db).entries[id].(size := size, mirroring := true)])
      ensures !mirroring ==> Resized(old(db), db, old(db.Reach(id)), size)
      decreases if mirroring then 0 else 1
    {
      ghost var before := db;
      db := db.(entries := db.entries[id := db.entries[id].(size := size, mirroring := mirroring)]);
      if db.entries[id].mirroring { return; }
      SameReach(before, db, id, size);
      if db.entries[id].link.None? { return; }
      var names := db.Reach(id);
      var todo := names - {id};
      while todo != {}
        invariant todo <= names - {id} && Mirrored(before, db, id, names - todo, size)
        decreases todo
      {
        ghost var mid := db;
        var alias :| alias in todo;
        UpdateSize(alias, size, true);
        MirrorOne(before, mid, db, id, names - todo, alias, size);
        assert names - todo + {alias} == names - (todo - {alias});
        todo := todo - {alias};
      }
      assert names - {} == names;
      MirrorsClear(before, db, id, names, size);
      db := Cleared(db, names);
    }
  }
}
