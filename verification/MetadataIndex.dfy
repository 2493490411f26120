/** src/fs/metadata-index.ts: an index of the namespace, kept up to date from the change feed. */
module MetadataIndex {
  import opened Sequences
  import opened Paths
  import opened ChangeFeed

  /** The index agrees with the namespace on every path that has not changed since its cursor. */
  ghost predicate Tracks(index: map<Path, Stat>, cursor: nat, entries: map<Path, Stat>, feed: map<Path, nat>) {
    forall p {:trigger p in index} {:trigger p in entries} | p !in Changed(feed, cursor) ::
      (p in index <==> p in entries) && (p in index ==> index[p] == entries[p])
  }

  /** Whatever changes, the index still agrees on the rest. */
  lemma TracksStays(index: map<Path, Stat>, cursor: nat, entries: map<Path, Stat>, feed: map<Path, nat>, sequence: nat,
                    entries': map<Path, Stat>, feed': map<Path, nat>, sequence': nat)
    requires Tracks(index, cursor, entries, feed) && cursor <= sequence
    requires Records(entries, feed, sequence, entries', feed', sequence')
    ensures Tracks(index, cursor, entries', feed') && cursor <= sequence'
  {
    forall p | p !in Changed(feed', cursor)
      ensures (p in index <==> p in entries') && (p in index ==> index[p] == entries'[p])
    {
      assert !(p in feed' && feed'[p] > sequence);
      assert p !in Changed(feed, cursor);
    }
  }

  /** What the changed paths are now, in order. */
  function Present(paths: seq<Path>, entries: map<Path, Stat>): seq<Stat> {
    if paths == [] then []
    else
      var last := paths[|paths| - 1];
      Present(paths[..|paths| - 1], entries) + if last in entries then [entries[last]] else []
  }

  function Absent(paths: seq<Path>, entries: map<Path, Stat>): seq<Path> {
    if paths == [] then []
    else
      var last := paths[|paths| - 1];
      Absent(paths[..|paths| - 1], entries) + if last in entries then [] else [last]
  }

  lemma OneMorePath(paths: seq<Path>, i: nat, entries: map<Path, Stat>)
    requires i < |paths|
    ensures Present(paths[..i + 1], entries) == Present(paths[..i], entries) + if paths[i] in entries then [entries[paths[i]]] else []
    ensures Absent(paths[..i + 1], entries) == Absent(paths[..i], entries) + if paths[i] in entries then [] else [paths[i]]
  {
    assert paths[..i + 1][..i] == paths[..i];
  }

  lemma {:induction false} AbsentMeans(paths: seq<Path>, entries: map<Path, Stat>)
    requires NoRepeats(paths)
    ensures NoRepeats(Absent(paths, entries)) && Elements(Absent(paths, entries)) == Elements(paths) - entries.Keys
  {
    if paths != [] {
      var init, last := paths[..|paths| - 1], paths[|paths| - 1];
      AbsentMeans(init, entries);
      assert Elements(paths) == Elements(init) + {last} && last !in Elements(init);
      var before := Absent(init, entries);
      if last in entries {
        assert before + [] == before;
      } else {
        assert Elements(before + [last]) == Elements(before) + {last} && last !in Elements(before);
      }
    }
  }

  function PathsOf(stats: seq<Stat>): seq<Path> { seq(|stats|, i requires 0 <= i < |stats| => stats[i].path) }

  lemma {:induction false} PresentMeans(paths: seq<Path>, entries: map<Path, Stat>)
    requires NoRepeats(paths) && forall p | p in entries :: entries[p].path == p
    ensures var updated := Present(paths, entries);
            && NoRepeats(PathsOf(updated)) && Elements(PathsOf(updated)) == Elements(paths) * entries.Keys
            && forall i | 0 <= i < |updated| :: updated[i].path in entries && entries[updated[i].path] == updated[i]
  {
    if paths != [] {
      var init, last := paths[..|paths| - 1], paths[|paths| - 1];
      PresentMeans(init, entries);
      assert Elements(paths) == Elements(init) + {last} && last !in Elements(init);
      var before := Present(init, entries);
      if last in entries {
        assert PathsOf(before + [entries[last]]) == PathsOf(before) + [last];
        assert Elements(PathsOf(before) + [last]) == Elements(PathsOf(before)) + {last};
        assert last !in Elements(PathsOf(before));
      } else {
        assert before + [] == before;
      }
    }
  }

  /** The paths of a list that a set holds. */
  function Held(paths: seq<Path>, keys: set<Path>): nat {
    if paths == [] then 0 else Held(paths[..|paths| - 1], keys) + if paths[|paths| - 1] in keys then 1 else 0
  }

  lemma {:induction false} HeldCount(paths: seq<Path>, keys: set<Path>)
    requires NoRepeats(paths)
    ensures Held(paths, keys) == |Elements(paths) * keys| && Held(paths, keys) <= |paths| == |Elements(paths)|
  {
    NoRepeatsCount(paths);
    if paths != [] {
      var init, last := paths[..|paths| - 1], paths[|paths| - 1];
      HeldCount(init, keys);
      assert Elements(paths) == Elements(init) + {last} && last !in Elements(init);
      if last in keys {
        assert Elements(paths) * keys == Elements(init) * keys + {last};
      } else {
        assert Elements(paths) * keys == Elements(init) * keys;
      }
    }
  }

  /** The index with removed paths dropped and updated ones set. */
  function Dropped(index: map<Path, Stat>, removed: seq<Path>): map<Path, Stat> { index - Elements(removed) }

  function Updated(index: map<Path, Stat>, updated: seq<Stat>): map<Path, Stat> {
    if updated == [] then index
    else
      var last := updated[|updated| - 1];
      Updated(index, updated[..|updated| - 1])[last.path := last]
  }

  lemma {:induction false} UpdatedMeans(index: map<Path, Stat>, updated: seq<Stat>, entries: map<Path, Stat>)
    requires forall i | 0 <= i < |updated| :: updated[i].path in entries && entries[updated[i].path] == updated[i]
    ensures var next := Updated(index, updated);
            forall p :: (p in next <==> p in index || p in Elements(PathsOf(updated)))
                        && (p in next ==> next[p] == if p in Elements(PathsOf(updated)) then entries[p] else index[p])
  {
    if updated != [] {
      var init, last := updated[..|updated| - 1], updated[|updated| - 1];
      UpdatedMeans(index, init, entries);
      assert PathsOf(updated) == PathsOf(init) + [last.path];
      assert Elements(PathsOf(updated)) == Elements(PathsOf(init)) + {last.path};
    } else {
      assert PathsOf(updated) == [];
    }
  }

  /** Taking in every change since the cursor makes the index the namespace. */
  lemma TakesIn(index: map<Path, Stat>, cursor: nat, entries: map<Path, Stat>, feed: map<Path, nat>, paths: seq<Path>)
    requires Tracks(index, cursor, entries, feed) && forall p | p in entries :: entries[p].path == p
    requires NoRepeats(paths) && Elements(paths) == Changed(feed, cursor)
    ensures Updated(Dropped(index, Absent(paths, entries)), Present(paths, entries)) == entries
  {
    AbsentMeans(paths, entries);
    PresentMeans(paths, entries);
    var dropped, updated := Dropped(index, Absent(paths, entries)), Present(paths, entries);
    UpdatedMeans(dropped, updated, entries);
    var next := Updated(dropped, updated);
    hide Absent, Present, Updated, PathsOf, NoRepeats;
    forall p ensures (p in next <==> p in entries) && (p in next ==> next[p] == entries[p]) {
      if p in Elements(paths) { assert p in Elements(PathsOf(updated)) <==> p in entries; }
    }
  }

  /** The size the index computes beforehand is the size it will have. */
  lemma SizeIsRight(index: map<Path, Stat>, cursor: nat, entries: map<Path, Stat>, feed: map<Path, nat>, paths: seq<Path>)
    requires Tracks(index, cursor, entries, feed) && forall p | p in entries :: entries[p].path == p
    requires NoRepeats(paths) && Elements(paths) == Changed(feed, cursor)
    ensures var removed, updated := Absent(paths, entries), PathsOf(Present(paths, entries));
            |index| - Held(removed, index.Keys) + (|updated| - Held(updated, index.Keys)) == |entries|
  {
    var removed, updated := Absent(paths, entries), PathsOf(Present(paths, entries));
    AbsentMeans(paths, entries);
    PresentMeans(paths, entries);
    HeldCount(removed, index.Keys);
    HeldCount(updated, index.Keys);
    NoRepeatsCount(updated);
    hide Absent, Present, PathsOf, NoRepeats, Held, Elements;
    SizeOfSets(index.Keys, entries.Keys, Elements(paths));
    assert |index| == |index.Keys| && |entries| == |entries.Keys|;
  }

  /** Sets that agree outside `changed` differ in size by what was added and taken away inside it. */
  lemma SizeOfSets(index: set<Path>, entries: set<Path>, changed: set<Path>)
    requires index - changed == entries - changed
    ensures |index| - |(changed - entries) * index| + (|changed * entries| - |changed * entries * index|) == |entries|
  {
    Parts(index, changed);
    Parts(entries, changed);
    Parts(index * changed, entries);
    assert index * changed - entries == (changed - entries) * index && index * changed * entries == changed * entries * index;
    assert entries * changed == changed * entries;
  }

  lemma Parts(whole: set<Path>, other: set<Path>)
    ensures |whole| == |whole - other| + |whole * other|
  {
    assert whole == (whole - other) + whole * other;
  }

  datatype Refreshed = Refreshed(updated: seq<Stat>, removed: seq<Path>)

  const BATCH := 1000

  function Max(a: nat, b: nat): nat { if a > b then a else b }

  /** Stats of exactly these paths, each once. */
  predicate Describes(stats: seq<Stat>, paths: set<Path>, entries: map<Path, Stat>) {
    && NoRepeats(PathsOf(stats)) && Elements(PathsOf(stats)) == paths
    && forall i | 0 <= i < |stats| :: stats[i].path in entries && entries[stats[i].path] == stats[i]
  }

  /** The paths whose bodies are remote. */
  ghost function RemoteOf(entries: map<Path, Stat>): set<Path> { set p | p in entries && entries[p].remote }

  /** Paths that a refresh has to read one by one. */
  ghost function Read(initialized: bool, cursor: nat, entries: map<Path, Stat>, feed: map<Path, nat>): set<Path> {
    if initialized then Changed(feed, cursor) else RemoteOf(entries)
  }

  lemma SomeOf(part: set<Path>, whole: set<Path>)
    requires part <= whole
    ensures |part| <= |whole|
  {
    assert whole == part + (whole - part);
  }

  lemma BetweenOf(feed: map<Path, nat>, since: nat, upTo: nat)
    ensures Between(feed, since, upTo) <= Changed(feed, since)
    ensures Changed(feed, upTo) == {} ==> Between(feed, since, upTo) == Changed(feed, since)
  {
    if Changed(feed, upTo) == {} {
      forall p | p in Changed(feed, since) ensures p in Between(feed, since, upTo) { assert p !in Changed(feed, upTo); }
    }
  }

  lemma Nothing(feed: map<Path, nat>, since: nat)
    ensures NoRepeats([]) && Elements([]) == Between(feed, since, since) && Elements([]) == {}
  {}

  lemma BetweenTwo(feed: map<Path, nat>, since: nat, middle: nat, upTo: nat)
    requires since <= middle <= upTo
    ensures Between(feed, since, since) == {}
    ensures Between(feed, since, middle) + Between(feed, middle, upTo) == Between(feed, since, upTo)
  {}

  class FsMetadataIndex {
    const fileSystem: FileSystem
    const maximum: nat
    var entries: map<Path, Stat>
    var cursor: nat
    var initialized: bool

    ghost predicate Valid()
      reads this, fileSystem
    {
      && fileSystem.Valid() && cursor <= fileSystem.sequence && maximum >= 1
      && if initialized then Tracks(entries, cursor, fileSystem.entries, fileSystem.feed) else cursor == 0
    }

    constructor (fileSystem: FileSystem, maximum: nat)
      requires fileSystem.Valid() && maximum >= 1
      ensures Valid() && this.fileSystem == fileSystem && this.maximum == maximum && !initialized && entries == map[]
    {
      this.fileSystem, this.maximum := fileSystem, maximum;
      entries, cursor, initialized := map[], 0, false;
    }

    /** Adds paths to a list that holds each once. */
    static method AddAll(changed: seq<Path>, paths: seq<Path>) returns (all: seq<Path>)
      requires NoRepeats(changed)
      ensures NoRepeats(all) && Elements(all) == Elements(changed) + Elements(paths)
    {
      all := changed;
      for i := 0 to |paths|
        invariant NoRepeats(all) && Elements(all) == Elements(changed) + Elements(paths[..i])
      {
        assert Elements(paths[..i + 1]) == Elements(paths[..i]) + {paths[i]};
        assert Elements(all + [paths[i]]) == Elements(all) + {paths[i]};
        assert paths[i] in all <==> paths[i] in Elements(all);
        if paths[i] !in all { all := all + [paths[i]]; }
      }
      assert paths[..|paths|] == paths;
    }

    /** Every path changed since the cursor, and the cursor after them. */
    method ReadChanges() returns (r: Outcome<(nat, seq<Path>)>)
      requires Valid()
      ensures r.Ok? <==> fileSystem.recording && |Changed(fileSystem.feed, cursor)| <= Max(maximum, 1000)
      ensures r.Ok? ==>
                var (next, paths) := r.value;
                && cursor <= next <= fileSystem.sequence && Changed(fileSystem.feed, next) == {}
                && NoRepeats(paths) && Elements(paths) == Changed(fileSystem.feed, cursor)
    {
      hide Tracks, Between, Changed, Elements, NoRepeats;
      var changed: seq<Path> := [];
      Nothing(fileSystem.feed, cursor);
      var next, more := cursor, true;
      while more
        invariant cursor <= next <= fileSystem.sequence
        invariant NoRepeats(changed) && Elements(changed) == Between(fileSystem.feed, cursor, next)
        invariant |changed| <= Max(maximum, 1000)
        invariant more ==> changed == [] || fileSystem.recording
        invariant !more ==> fileSystem.recording && Changed(fileSystem.feed, next) == {}
        decreases more, fileSystem.sequence - next
      {
        var page := fileSystem.ChangesSince(next);
        if page.Err? { return Err(page.error); }
        changed := AddAll(changed, page.value.changes);
        BetweenTwo(fileSystem.feed, cursor, next, page.value.cursor);
        NoRepeatsCount(changed);
        BetweenOf(fileSystem.feed, cursor, page.value.cursor);
        SomeOf(Elements(changed), Changed(fileSystem.feed, cursor));
        if |changed| > Max(maximum, 1000) { return Err(E2BIG); }
        next, more := page.value.cursor, page.value.more;
      }
      NoRepeatsCount(changed);
      BetweenOf(fileSystem.feed, cursor, next);
      return Ok((next, changed));
    }

    /** One path's metadata now; a missing path is not an error. */
    method ChangedStat(path: Path) returns (r: Outcome<Option<Stat>>)
      ensures r == if path in fileSystem.unreadable then Err(EACCES)
                   else Ok(if path in fileSystem.entries then Some(fileSystem.entries[path]) else None)
    {
      var found := fileSystem.Lstat(path);
      if found.Ok? { return Ok(Some(found.value)); }
      return if found.error == ENOENT then Ok(None) else Err(found.error);
    }

    /** Reads the changed paths in batches. */
    method ReadChanged(paths: seq<Path>) returns (r: Outcome<Refreshed>)
      ensures r.Ok? <==> Elements(paths) !! fileSystem.unreadable
      ensures r.Ok? ==> r.value == Refreshed(Present(paths, fileSystem.entries), Absent(paths, fileSystem.entries))
    {
      var updated: seq<Stat>, removed: seq<Path> := [], [];
      var at := 0;
      while at < |paths|
        invariant at <= |paths|
        invariant forall i | 0 <= i < at :: paths[i] !in fileSystem.unreadable
        invariant updated == Present(paths[..at], fileSystem.entries) && removed == Absent(paths[..at], fileSystem.entries)
      {
        var end := if at + BATCH < |paths| then at + BATCH else |paths|;
        for i := at to end
          invariant forall k | 0 <= k < i :: paths[k] !in fileSystem.unreadable
          invariant updated == Present(paths[..i], fileSystem.entries) && removed == Absent(paths[..i], fileSystem.entries)
        {
          var stat := ChangedStat(paths[i]);
          if stat.Err? {
            assert paths[i] in Elements(paths);
            return Err(stat.error);
          }
          OneMorePath(paths, i, fileSystem.entries);
          if stat.value.None? { removed := removed + [paths[i]]; } else { updated := updated + [stat.value.value]; }
        }
        at := end;
      }
      assert paths[..at] == paths;
      return Ok(Refreshed(updated, removed));
    }

    /** How many paths of a list the index holds. */
    method CountHeld(paths: seq<Path>) returns (n: nat)
      ensures n == Held(paths, entries.Keys)
    {
      n := 0;
      for i := 0 to |paths|
        invariant n == Held(paths[..i], entries.Keys)
      {
        assert paths[..i + 1][..i] == paths[..i];
        if paths[i] in entries { n := n + 1; }
      }
      assert paths[..|paths|] == paths;
    }

    /** Adds a page of a scan; what the scan reports in part is read in full. */
    method ReadPage(found: map<Path, Stat>, stats: seq<Stat>, ghost start: nat) returns (r: Outcome<map<Path, Stat>>)
      requires Valid() && Reports(stats, fileSystem.listing, start, fileSystem.scanned)
      requires Found(found, fileSystem.listing[..start], fileSystem.entries, fileSystem.unreadable)
      ensures r.Ok? ==> Found(r.value, fileSystem.listing[..start + |stats|], fileSystem.entries, fileSystem.unreadable)
      ensures r.Err? ==> !(RemoteOf(fileSystem.entries) !! fileSystem.unreadable)
    {
      hide Found, Elements, NoRepeats, Tracks, FileSystem.Valid;
      var now := found;
      for i := 0 to |stats|
        invariant Found(now, fileSystem.listing[..start + i], fileSystem.entries, fileSystem.unreadable)
      {
        ghost var path := fileSystem.listing[start + i];
        ListedIs(start + i);
        var stat := stats[i];
        if stat.remote {
          var full := fileSystem.Lstat(stat.path);
          if full.Err? {
            assert path in RemoteOf(fileSystem.entries);
            return Err(full.error);
          }
          stat := full.value;
        }
        FoundOne(now, fileSystem.listing, start + i, fileSystem.entries, fileSystem.unreadable);
        now := now[stat.path := stat];
      }
      return Ok(now);
    }

    /** The whole namespace, from pages of a scan. */
    method Scan() returns (r: Outcome<map<Path, Stat>>)
      requires Valid()
      ensures r.Ok? <==> && |fileSystem.entries| <= maximum
                         && RemoteOf(fileSystem.entries) !! fileSystem.unreadable
      ensures r.Ok? ==> r.value == fileSystem.entries
    {
      hide Found, Elements, NoRepeats, Tracks, FileSystem.Valid;
      var found: map<Path, Stat> := map[];
      var after: Option<Path>, more := None, true;
      ghost var start: nat := 0;
      ghost var all, listing, unreadable := fileSystem.entries, fileSystem.listing, fileSystem.unreadable;
      FoundNone(listing, all, unreadable);
      while more
        invariant start <= |listing|
        invariant more ==> if after.None? then start == 0 else 0 < start && listing[start - 1] == after.value
        invariant Found(found, listing[..start], all, unreadable)
        invariant |found| <= maximum
        invariant !more ==> start == |listing|
        decreases more, |listing| - start
      {
        var page := fileSystem.FindPage(after, start, 1000);
        var read := ReadPage(found, page.entries, start);
        if read.Err? { return read; }
        found := read.value;
        start := start + |page.entries|;
        FoundCount(found, listing, start, all, unreadable);
        if |found| > maximum { return Err(E2BIG); }
        after, more := page.nextCursor, page.nextCursor.Some?;
      }
      AllListed();
      FoundAll(found, listing, all, unreadable);
      return Ok(found);
    }

    lemma ListedIs(i: nat)
      requires Valid() && i < |fileSystem.listing|
      ensures var path := fileSystem.listing[i];
              && path in fileSystem.entries && path in fileSystem.scanned && fileSystem.entries[path].path == path
              && var stat := fileSystem.scanned[path];
                 && stat.path == path && stat.remote == fileSystem.entries[path].remote
                 && (!stat.remote ==> stat == fileSystem.entries[path])
    {
      assert fileSystem.listing[i] in Elements(fileSystem.listing);
    }

    lemma AllListed()
      requires Valid()
      ensures Elements(fileSystem.listing) == fileSystem.entries.Keys
    {}

    /** The current entries, each once. */
    method Snapshot() returns (stats: seq<Stat>)
      requires forall p | p in entries :: entries[p].path == p
      ensures Describes(stats, entries.Keys, entries)
    {
      stats := [];
      var rest := entries.Keys;
      assert PathsOf(stats) == [];
      while rest != {}
        invariant rest <= entries.Keys && Describes(stats, entries.Keys - rest, entries)
        decreases |rest|
      {
        var p :| p in rest;
        DescribesMore(stats, entries.Keys - rest, entries, p);
        rest := rest - {p};
        assert entries.Keys - rest == entries.Keys - (rest + {p}) + {p};
        stats := stats + [entries[p]];
      }
    }

    /** Drops the removed paths and sets the updated ones. */
    method Apply(changes: Refreshed) returns (now: map<Path, Stat>)
      ensures now == Updated(Dropped(entries, changes.removed), changes.updated)
    {
      now := entries;
      for i := 0 to |changes.removed|
        invariant now == Dropped(entries, changes.removed[..i])
      {
        DroppedOne(entries, changes.removed, i);
        now := now - {changes.removed[i]};
      }
      assert changes.removed[..|changes.removed|] == changes.removed;
      for i := 0 to |changes.updated|
        invariant now == Updated(Dropped(entries, changes.removed), changes.updated[..i])
      {
        assert changes.updated[..i + 1][..i] == changes.updated[..i];
        now := now[changes.updated[i].path := changes.updated[i]];
      }
      assert changes.updated[..|changes.updated|] == changes.updated;
    }

    /** The first refresh takes the whole namespace. */
    method Initialize(next: nat) returns (r: Outcome<Refreshed>)
      requires Valid() && !initialized && next <= fileSystem.sequence
      modifies this
      ensures Valid()
      ensures r.Ok? <==> |fileSystem.entries| <= maximum && RemoteOf(fileSystem.entries) !! fileSystem.unreadable
      ensures r.Ok? ==> initialized && entries == fileSystem.entries && cursor == next && r.value.removed == []
                        && Describes(r.value.updated, fileSystem.entries.Keys, fileSystem.entries)
      ensures r.Err? ==> entries == old(entries) && cursor == old(cursor) && initialized == old(initialized)
    {
      hide Tracks, FileSystem.Valid, NoRepeats, Elements, Describes, Changed, RemoteOf;
      Named();
      var scanned := Scan();
      if scanned.Err? { return Err(scanned.error); }
      entries, cursor, initialized := scanned.value, next, true;
      TracksAll(entries, cursor, fileSystem.feed);
      var snapshot := Snapshot();
      return Ok(Refreshed(snapshot, []));
    }

    /**
     * Brings the index up to date. It succeeds exactly when the feed is recorded, neither the changes nor the
     * namespace are too many, and everything that has to be read can be; otherwise nothing changes.
     */
    method Refresh() returns (r: Outcome<Refreshed>)
      requires Valid()
      modifies this
      ensures Valid()
      ensures r.Ok? <==> && fileSystem.recording
                         && |Changed(fileSystem.feed, old(cursor))| <= Max(maximum, 1000) && |fileSystem.entries| <= maximum
                         && Read(old(initialized), old(cursor), fileSystem.entries, fileSystem.feed) !! fileSystem.unreadable
      ensures r.Ok? ==> initialized && entries == fileSystem.entries && Changed(fileSystem.feed, cursor) == {}
      ensures r.Ok? ==>
                var seen := if old(initialized) then Changed(fileSystem.feed, old(cursor)) else fileSystem.entries.Keys;
                && Describes(r.value.updated, seen * fileSystem.entries.Keys, fileSystem.entries)
                && NoRepeats(r.value.removed) && Elements(r.value.removed) == seen - fileSystem.entries.Keys
      ensures r.Err? ==> entries == old(entries) && cursor == old(cursor) && initialized == old(initialized)
    {
      hide Tracks, FileSystem.Valid, NoRepeats, Elements, Describes, Changed, RemoteOf;
      Named();
      NoneRemoved(fileSystem.entries.Keys);
      var changes := ReadChanges();
      if changes.Err? { return Err(changes.error); }
      var (next, paths) := changes.value;
      if !initialized {
        r := Initialize(next);
        return;
      }
      var read := ReadChanged(paths);
      if read.Err? { return Err(read.error); }
      var gone := CountHeld(read.value.removed);
      var kept := CountHeld(PathsOf(read.value.updated));
      SizeIsRight(entries, cursor, fileSystem.entries, fileSystem.feed, paths);
      TakesIn(entries, cursor, fileSystem.entries, fileSystem.feed, paths);
      ReadMeans(paths, fileSystem.entries);
      if |entries| - gone + (|read.value.updated| - kept) > maximum { return Err(E2BIG); }
      var now := Apply(read.value);
      entries, cursor := now, next;
      TracksAll(entries, cursor, fileSystem.feed);
      return read;
    }

    lemma Named()
      requires Valid()
      ensures forall p | p in fileSystem.entries :: fileSystem.entries[p].path == p
    {}
  }

  /** Part of a scan: the paths so far, as they are. */
  ghost predicate Found(found: map<Path, Stat>, paths: seq<Path>, entries: map<Path, Stat>, unreadable: set<Path>) {
    && found.Keys == Elements(paths) && (forall p | p in found :: p in entries && found[p] == entries[p])
    && forall p | p in found && entries[p].remote :: p !in unreadable
  }

  lemma FoundNone(listing: seq<Path>, entries: map<Path, Stat>, unreadable: set<Path>)
    ensures Found(map[], listing[..0], entries, unreadable)
  {}

  lemma FoundOne(found: map<Path, Stat>, listing: seq<Path>, i: nat, entries: map<Path, Stat>, unreadable: set<Path>)
    requires i < |listing| && Found(found, listing[..i], entries, unreadable) && listing[i] in entries
    requires entries[listing[i]].remote ==> listing[i] !in unreadable
    ensures Found(found[listing[i] := entries[listing[i]]], listing[..i + 1], entries, unreadable)
  {
    assert Elements(listing[..i + 1]) == Elements(listing[..i]) + {listing[i]};
  }

  lemma FoundCount(found: map<Path, Stat>, listing: seq<Path>, i: nat, entries: map<Path, Stat>, unreadable: set<Path>)
    requires i <= |listing| && Found(found, listing[..i], entries, unreadable)
    ensures |found| <= |entries|
  {
    SomeOf(found.Keys, entries.Keys);
    assert |found| == |found.Keys| && |entries| == |entries.Keys|;
  }

  lemma FoundAll(found: map<Path, Stat>, listing: seq<Path>, entries: map<Path, Stat>, unreadable: set<Path>)
    requires Found(found, listing[..|listing|], entries, unreadable) && Elements(listing) == entries.Keys
    ensures found == entries && RemoteOf(entries) !! unreadable
  {
    assert listing[..|listing|] == listing;
  }

  lemma DescribesMore(stats: seq<Stat>, paths: set<Path>, entries: map<Path, Stat>, path: Path)
    requires Describes(stats, paths, entries) && path in entries && path !in paths && entries[path].path == path
    ensures Describes(stats + [entries[path]], paths + {path}, entries)
  {
    assert PathsOf(stats + [entries[path]]) == PathsOf(stats) + [path];
    assert Elements(PathsOf(stats) + [path]) == Elements(PathsOf(stats)) + {path};
    assert path !in Elements(PathsOf(stats));
  }

  lemma TracksAll(entries: map<Path, Stat>, cursor: nat, feed: map<Path, nat>)
    ensures Tracks(entries, cursor, entries, feed)
  {}

  lemma NoneRemoved(keys: set<Path>)
    ensures NoRepeats([]) && Elements([]) == keys - keys && keys * keys == keys
  {}

  lemma DroppedOne(index: map<Path, Stat>, removed: seq<Path>, i: nat)
    requires i < |removed|
    ensures Dropped(index, removed[..i]) - {removed[i]} == Dropped(index, removed[..i + 1])
    ensures Dropped(index, removed[..0]) == index
  {
    assert Elements(removed[..i + 1]) == Elements(removed[..i]) + {removed[i]};
  }

  /** What reading the changed paths gives. */
  lemma ReadMeans(paths: seq<Path>, entries: map<Path, Stat>)
    requires NoRepeats(paths) && forall p | p in entries :: entries[p].path == p
    ensures Describes(Present(paths, entries), Elements(paths) * entries.Keys, entries)
    ensures NoRepeats(Absent(paths, entries)) && Elements(Absent(paths, entries)) == Elements(paths) - entries.Keys
  {
    PresentMeans(paths, entries);
    AbsentMeans(paths, entries);
  }
}
