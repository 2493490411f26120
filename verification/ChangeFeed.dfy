/** The parts of the filesystem a metadata index reads: entries, pages of them, and the change feed. */
module ChangeFeed {
  import opened Sequences
  import opened Paths

  /** A path's metadata; a scan reports a remote body's metadata only in part. */
  datatype Stat = Stat(path: Path, remote: bool, detail: int)

  datatype Errno = ENOENT | EACCES | ENOTSUP | E2BIG

  datatype Outcome<+T> = Ok(value: T) | Err(error: Errno)

  datatype ChangePage = ChangePage(changes: seq<Path>, cursor: nat, more: bool)

  datatype EntryPage = EntryPage(entries: seq<Stat>, nextCursor: Option<Path>)

  const CHANGE_PAGE := 1000

  function Elements(paths: seq<Path>): set<Path> { set p | p in paths }

  predicate NoRepeats(paths: seq<Path>) { forall i, j | 0 <= i < j < |paths| :: paths[i] != paths[j] }

  lemma {:induction false} NoRepeatsCount(paths: seq<Path>)
    requires NoRepeats(paths)
    ensures |Elements(paths)| == |paths|
  {
    if paths != [] {
      var init, last := paths[..|paths| - 1], paths[|paths| - 1];
      NoRepeatsCount(init);
      assert Elements(paths) == Elements(init) + {last} && last !in Elements(init);
    }
  }

  lemma OnePath(paths: seq<Path>, path: Path)
    requires NoRepeats(paths) && path !in Elements(paths)
    ensures NoRepeats(paths + [path]) && Elements(paths + [path]) == Elements(paths) + {path}
  {
    assert forall i | 0 <= i < |paths| :: paths[i] in Elements(paths);
  }

  lemma NoPaths()
    ensures NoRepeats([]) && Elements([]) == {}
  {}

  /** What a scan reports for the listing from a place on. */
  ghost predicate Reports(stats: seq<Stat>, listing: seq<Path>, start: nat, scanned: map<Path, Stat>) {
    && start + |stats| <= |listing|
    && forall i | 0 <= i < |stats| :: var path := listing[start + i]; path in scanned && stats[i] == scanned[path]
  }

  /** The paths whose last change is after a sequence number. */
  function Changed(feed: map<Path, nat>, since: nat): set<Path> { set p | p in feed && feed[p] > since }

  /** The paths whose last change is in a range. */
  function Between(feed: map<Path, nat>, since: nat, upTo: nat): set<Path> { set p | p in feed && since < feed[p] <= upTo }

  /**
   * A change of the workspace: every path that looks different afterwards, and any others, are recorded
   * under new sequence numbers.
   */
  ghost predicate Records(entries: map<Path, Stat>, feed: map<Path, nat>, sequence: nat,
                          entries': map<Path, Stat>, feed': map<Path, nat>, sequence': nat) {
    && sequence <= sequence'
    && (forall p | p in feed' :: feed'[p] <= sequence')
    && (forall p | p in feed :: p in feed')
    && forall p {:trigger p in feed'} | !(p in feed' && feed'[p] > sequence) ::
         && (p in feed' ==> p in feed && feed'[p] == feed[p])
         && (p in entries <==> p in entries') && (p in entries ==> entries[p] == entries'[p])
  }

  class FileSystem {
    const recording: bool
    var entries: map<Path, Stat>
    /** What a scan reports, and in which order. */
    var scanned: map<Path, Stat>
    var listing: seq<Path>
    var feed: map<Path, nat>
    var sequence: nat
    /** Paths whose metadata cannot be read just now. */
    var unreadable: set<Path>

    ghost predicate Valid()
      reads this
    {
      && (forall p | p in entries :: entries[p].path == p)
      && NoRepeats(listing) && Elements(listing) == entries.Keys == scanned.Keys
      && (forall p | p in entries :: scanned[p].path == p && scanned[p].remote == entries[p].remote)
      && (forall p | p in entries && !entries[p].remote :: scanned[p] == entries[p])
      && (forall p | p in feed :: feed[p] <= sequence)
    }

    method Lstat(path: Path) returns (r: Outcome<Stat>)
      ensures r == if path in unreadable then Err(EACCES) else if path in entries then Ok(entries[path]) else Err(ENOENT)
    {
      if path in unreadable { return Err(EACCES); }
      return if path in entries then Ok(entries[path]) else Err(ENOENT);
    }

    /** The least sequence number after one, if any path has it. */
    method NextSequence(since: nat) returns (next: Option<nat>)
      ensures next.None? <==> Changed(feed, since) == {}
      ensures next.Some? ==> since < next.value && (exists p | p in feed :: feed[p] == next.value)
      ensures next.Some? ==> forall p | p in feed && feed[p] > since :: next.value <= feed[p]
    {
      next := None;
      var rest := feed.Keys;
      while rest != {}
        invariant rest <= feed.Keys
        invariant next.None? <==> Changed(feed, since) <= rest
        invariant next.Some? ==> since < next.value && exists p | p in feed :: feed[p] == next.value
        invariant next.Some? ==> forall p | p in feed && p !in rest && feed[p] > since :: next.value <= feed[p]
        decreases |rest|
      {
        var p :| p in rest;
        rest := rest - {p};
        if feed[p] > since && (next.None? || feed[p] < next.value) { next := Some(feed[p]); }
      }
    }

    /** The paths of one sequence number. */
    method Group(number: nat) returns (paths: seq<Path>)
      ensures NoRepeats(paths) && Elements(paths) == set p | p in feed && feed[p] == number
    {
      hide Elements, NoRepeats;
      NoPaths();
      paths := [];
      ghost var all := set p | p in feed && feed[p] == number;
      var rest := set p | p in feed && feed[p] == number;
      while rest != {}
        invariant NoRepeats(paths) && Elements(paths) !! rest && Elements(paths) + rest == all
        decreases |rest|
      {
        var p :| p in rest;
        rest := rest - {p};
        OnePath(paths, p);
        paths := paths + [p];
      }
    }

    /** A page holds whole sequence numbers, so that resuming at its cursor loses no path. */
    method ChangesSince(since: nat) returns (r: Outcome<ChangePage>)
      requires Valid()
      ensures if recording then r.Ok? else r == Err(ENOTSUP)
      ensures r.Ok? ==>
                var page := r.value;
                && since <= page.cursor <= (if since > sequence then since else sequence)
                && Elements(page.changes) == Between(feed, since, page.cursor)
                && (page.more <==> Changed(feed, page.cursor) != {})
                && (page.more ==> since < page.cursor && |page.changes| >= CHANGE_PAGE)
                && (Changed(feed, since) == {} ==> page == ChangePage([], since, false))
    {
      if !recording { return Err(ENOTSUP); }
      var changes, cursor := [], since;
      var next := NextSequence(cursor);
      while next.Some? && |changes| < CHANGE_PAGE
        invariant since <= cursor <= (if since > sequence then since else sequence)
        invariant Elements(changes) == Between(feed, since, cursor)
        invariant next.None? <==> Changed(feed, cursor) == {}
        invariant next.Some? ==> cursor < next.value && exists p | p in feed :: feed[p] == next.value
        invariant next.Some? ==> forall p | p in feed && feed[p] > cursor :: next.value <= feed[p]
        invariant changes != [] ==> since < cursor
        invariant cursor > since ==> Changed(feed, since) != {}
        invariant cursor == since ==> changes == []
        decreases (if since > sequence then since else sequence) - cursor
      {
        var group := Group(next.value);
        assert Elements(changes + group) == Elements(changes) + Elements(group);
        ghost var p :| p in feed && feed[p] == next.value;
        assert p in Changed(feed, since) && p in Elements(group);
        changes, cursor := changes + group, next.value;
        next := NextSequence(cursor);
      }
      return Ok(ChangePage(changes, cursor, next.Some?));
    }

    /** A page of a scan of everything, after the path the last one ended with. */
    method FindPage(after: Option<Path>, ghost start: nat, limit: nat) returns (page: EntryPage)
      requires Valid() && limit > 0
      requires if after.None? then start == 0 else 0 < start <= |listing| && listing[start - 1] == after.value
      ensures |page.entries| == if |listing| - start < limit then |listing| - start else limit
      ensures Reports(page.entries, listing, start, scanned)
      ensures page.nextCursor == if start + limit < |listing| then Some(listing[start + limit - 1]) else None
    {
      var from := 0;
      if after.Some? {
        while from < |listing| && listing[from] != after.value
          invariant from < start
        {
          from := from + 1;
        }
        from := from + 1;
      }
      var to := if from + limit < |listing| then from + limit else |listing|;
      var found: seq<Stat> := [];
      for i := from to to
        invariant |found| == i - from && Reports(found, listing, from, scanned)
      {
        assert listing[i] in Elements(listing);
        found := found + [scanned[listing[i]]];
      }
      return EntryPage(found, if to < |listing| then Some(listing[to - 1]) else None);
    }
  }
}
