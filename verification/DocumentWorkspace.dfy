/** The registry of open documents, the operations on them, and the storage and host they run against. */
module DocumentWorkspace {
  import opened Sequences
  import opened Paths
  import opened Utf16
  import opened StoredText
  import L = LineDiff
  import opened DocumentEdits
  import opened DocumentMerge
  import opened DocumentProtocol

  class Workspace {
    // The registry.
    var version: nat
    var open: map<Path, nat>
    var entries: map<nat, Entry>
    var nextEntry: nat
    // The host's documents.
    var documents: map<nat, Text>
    // Storage: files under mutation tokens that are never used twice.
    var files: map<Path, File>
    var clock: nat
    ghost var history: History
    // Operations that are waiting.
    var calls: map<nat, Call>
    var nextCall: nat
    // The text each version was given to, and what each view token handed out stood for.
    ghost var texts: Texts
    ghost var given: map<ViewToken, View>

    ghost predicate Inv()
      reads this
    {
      && StoreSound(files, history, clock)
      && EntriesSound(entries, history, nextEntry) && CallsSound(calls, history, nextCall)
      && OpenSound(open, entries, documents) && OneHome(open, entries)
      && Versioned(entries, calls, version)
      && AllStamped(open, entries, documents, texts, version) && Honest(given, texts, history)
    }

    constructor ()
      ensures Inv() && open == map[] && documents == map[] && files == map[] && calls == map[] && entries == map[]
      ensures version == 0 && nextEntry == 0 && clock == 0 && history == map[] && nextCall == 0 && given == map[]
    {
      texts, given := map[], map[];
      version, open, entries, nextEntry := 0, map[], map[], 0;
      documents, files, clock, history := map[], map[], 0, map[];
      calls, nextCall := map[], 0;
      new;
      assert Homed(map[], open, entries);
    }

    /** The registration at a path. */
    function EntryAt(path: Path): Entry
      reads this
      requires path in open && open[path] in entries
    {
      entries[open[path]]
    }

    /** The host has a new document. */
    method NewDocument(document: nat, text: Text)
      requires Inv() && document !in documents
      modifies this`documents
      ensures Inv() && documents == old(documents)[document := text]
    {
      hide StoreSound, EntriesSound, CallsSound, OneHome, Versioned;
      documents := documents[document := text];
    }

    /** Registers a document that already holds the text stored at `token`; it must not be open elsewhere. */
    method Open(path: Path, document: nat, token: Token)
      requires Inv() && document in documents && token in history && Known(history[token], documents[document])
      requires forall p | p in open && p != path :: open[p] in entries && EntryAt(p).document != document
      modifies this`version, this`open, this`entries, this`nextEntry, this`texts
      ensures Inv() && open == old(open)[path := old(nextEntry)] && version == old(version) + 1 && nextEntry == old(nextEntry) + 1
      ensures entries == old(entries)[old(nextEntry) := Entry(document, token, false, version, documents[document], false)]
      ensures path in files ==> TokenAt(path) !in given
    {
      hide StoreSound, CallsSound, OneHome, OpenSound, EntriesSound, Versioned, Honest, AllStamped, Recorded, Stamped, Tracked;
      if path in files { TokenToCome(path); }
      NewVersion(documents[document]);
      var entry := Entry(document, token, false, version, documents[document], false);
      EntryIsSound(entry, history, documents, texts);
      OpenedSound(open, entries, documents, history, nextEntry, path, entry);
      OpenedStamped(open, entries, documents, texts, version, path, nextEntry, entry);
      VersionedEntry(entries, calls, version, nextEntry, entry, version);
      HomeAdded(open, entries, path, nextEntry, entry);
      entries := entries[nextEntry := entry];
      open := open[path := nextEntry];
      nextEntry := nextEntry + 1;
    }

    static lemma EntryIsSound(entry: Entry, history: History, documents: map<nat, Text>, texts: Texts)
      requires entry.document in documents && entry.published == documents[entry.document]
      requires entry.token in history && Known(history[entry.token], entry.published)
      requires entry.version in texts && texts[entry.version] == entry.published
      ensures Recorded(entry, history) && Tracked(entry, documents) && Stamped(entry, documents, texts)
    {}

    static lemma OpenedSound(open: map<Path, nat>, entries: map<nat, Entry>, documents: map<nat, Text>, history: History, nextEntry: nat,
                             path: Path, entry: Entry)
      requires OpenSound(open, entries, documents) && EntriesSound(entries, history, nextEntry)
      requires Tracked(entry, documents) && Recorded(entry, history)
      ensures OpenSound(open[path := nextEntry], entries[nextEntry := entry], documents)
      ensures EntriesSound(entries[nextEntry := entry], history, nextEntry + 1)
      ensures nextEntry !in entries && forall p | p in open :: open[p] in entries && open[p] != nextEntry
    {}

    static lemma OpenedStamped(open: map<Path, nat>, entries: map<nat, Entry>, documents: map<nat, Text>, texts: Texts, version: nat,
                               path: Path, e: nat, entry: Entry)
      requires AllStamped(open, entries, documents, texts, version) && Stamped(entry, documents, texts)
      requires e !in entries
      ensures AllStamped(open[path := e], entries[e := entry], documents, texts, version)
    {}

    /** The token that the next version, or the next write of storage, will give to a path has not been handed out. */
    lemma TokenToCome(path: Path)
      requires Inv() && path in files
      ensures forall v | v > version :: ViewToken.Document(v, files[path].token) !in given
      ensures forall t: ViewToken | t.storage >= clock :: t !in given
    {}

    static lemma HomeAdded(open: map<Path, nat>, entries: map<nat, Entry>, path: Path, e: nat, entry: Entry)
      requires OneHome(open, entries) && forall p | p in open :: open[p] != e
      requires forall p | p in open && p != path :: open[p] in entries && entries[open[p]].document != entry.document
      ensures OneHome(open[path := e], entries[e := entry])
    {
      var homes :| Homed(homes, open, entries);
      assert Homed(homes[entry.document := path], open[path := e], entries[e := entry]);
    }

    method Close(path: Path)
      requires Inv()
      modifies this`open
      ensures Inv() && open == old(open) - {path}
    {
      ghost var was := open;
      open := open - {path};
      FewerOpen(was, open, entries, documents, texts, version);
    }

    static lemma FewerOpen(was: map<Path, nat>, now: map<Path, nat>, entries: map<nat, Entry>, documents: map<nat, Text>, texts: Texts, version: nat)
      requires OpenSound(was, entries, documents) && OneHome(was, entries) && AllStamped(was, entries, documents, texts, version)
      requires forall p | p in now :: p in was && now[p] == was[p]
      ensures OpenSound(now, entries, documents) && OneHome(now, entries) && AllStamped(now, entries, documents, texts, version)
    {
      var homes :| Homed(homes, was, entries);
      assert Homed(homes, now, entries);
    }

    function Get(path: Path): Option<Snapshot>
      reads this
      requires path in open ==> open[path] in entries
    {
      if path in open then Some(Snapshot(path, open[path], EntryAt(path))) else None
    }

    /** Nothing has been published or registered at the path since the snapshot was taken; edits may have been. */
    predicate IsUnchanged(path: Path, snapshot: Snapshot)
      reads this
      requires path in open ==> open[path] in entries
    {
      path in open && open[path] == snapshot.entry && EntryAt(path).token == snapshot.was.token
    }

    /** Puts a registration and its document's text in place of what they were. */
    method Update(path: Path, entry: Entry, text: Text)
      requires Inv() && path in open && entry.document == EntryAt(path).document
      requires Recorded(entry, history) && (text != entry.published ==> entry.dirty) && entry.version <= version
      requires entry.version in texts && texts[entry.version] == text
      modifies this`entries, this`documents
      ensures Inv() && entries == old(entries)[open[path] := entry] && documents == old(documents)[entry.document := text]
    {
      hide Recorded, Versioned, AllStamped, Honest;
      StampedEntry(open, entries, documents, texts, version, path, entry, text);
      VersionedEntry(entries, calls, version, open[path], entry, version);
      EntryChanges(open, entries, documents, history, nextEntry, path, entry, text);
      entries := entries[open[path] := entry];
      documents := documents[entry.document := text];
    }

    /** The next version, for some text. */
    method NewVersion(text: Text)
      requires Inv()
      modifies this`version, this`texts
      ensures Inv() && version == old(version) + 1 && texts == old(texts)[version := text]
    {
      hide StoreSound, OpenSound, OneHome, CallsSound, EntriesSound, AllStamped, Honest;
      NextVersion(open, entries, documents, texts, version, given, history, text);
      texts := texts[version + 1 := text];
      version := version + 1;
    }

    /** The host edits an open document and marks it dirty; no operation that is waiting takes it for unchanged. */
    method EditDocument(path: Path, text: Text)
      requires Inv()
      modifies this`version, this`entries, this`documents, this`texts
      ensures Inv()
      ensures path in open && path in files ==> TokenAt(path) !in given
      ensures path !in open ==> version == old(version) && entries == old(entries) && documents == old(documents)
      ensures path in open ==>
                && version == old(version) + 1
                && entries == old(entries)[open[path] := old(EntryAt(path)).(dirty := true, version := version)]
                && documents == old(documents)[EntryAt(path).document := text]
      ensures forall c, before | c in calls && calls[c].snapshot.path == path :: !Unchanged(calls[c].snapshot, before)
    {
      if path in open {
        if path in files { TokenToCome(path); }
        NewVersion(text);
        Update(path, EntryAt(path).(dirty := true, version := version), text);
      }
    }

    /** Records what storage has taken, if the snapshot still stands; text edited since stays dirty. */
    method RecordStored(path: Path, snapshot: Snapshot, text: Text, token: Token)
      requires Inv() && token in history && Known(history[token], text)
      modifies this`entries, this`documents
      ensures Inv() && documents == old(documents)
      ensures !old(IsUnchanged(path, snapshot)) ==> entries == old(entries)
      ensures old(IsUnchanged(path, snapshot)) ==>
                entries == old(entries)[open[path] := old(EntryAt(path)).(token := token, published := text, needsRefresh := false,
                                                                        dirty := documents[old(EntryAt(path)).document] != text)]
    {
      if !IsUnchanged(path, snapshot) { return; }
      var entry := EntryAt(path);
      var current := documents[entry.document];
      Update(path, entry.(token := token, published := text, needsRefresh := false, dirty := current != text), current);
      assert documents == old(documents);
    }

    /** Follows a metadata change of content the document already knows. */
    method RecordMetadata(path: Path, snapshot: Snapshot, token: Token)
      requires Inv() && token in history
      requires IsUnchanged(path, snapshot) ==> history[token] == history[snapshot.was.token]
      modifies this`entries, this`documents
      ensures Inv() && documents == old(documents)
      ensures entries == if old(IsUnchanged(path, snapshot)) then old(entries)[open[path] := old(EntryAt(path)).(token := token)]
                         else old(entries)
    {
      if !IsUnchanged(path, snapshot) { return; }
      var entry := EntryAt(path);
      Update(path, entry.(token := token), documents[entry.document]);
      assert documents == old(documents);
    }

    /** Closes what a removal took. */
    method ObserveRemove(root: Path)
      requires Inv()
      modifies this`open
      ensures Inv()
      ensures open == map p | p in old(open) && !AtOrBelow(root, p) :: old(open)[p]
    {
      ghost var was := open;
      var gone := set p | p in open && AtOrBelow(root, p);
      open := open - gone;
      FewerOpen(was, open, entries, documents, texts, version);
    }

    /** Follows a move: what was open below `to` is closed, and what was below `root` is open in its new place. */
    method ObserveMove(root: Path, to: Path)
      requires Inv() && root != "/" && to != "/"
      modifies this`version, this`open, this`entries, this`texts
      ensures Inv()
      ensures RelocatedSoFar(old(open), open, root, to, Moving(old(open), root))
      ensures AllBumped(old(entries), entries, IdsAt(old(open), Moving(old(open), root)), old(version))
      ensures version == old(version) + |Moving(old(open), root)|
      ensures forall p | p in Moving(old(open), root) && Relocate(root, to, p) in files :: TokenAt(Relocate(root, to, p)) !in given
    {
      hide RelocatedSoFar, OpenSound, OneHome, StoreSound, CallsSound, EntriesSound, AllStamped, Honest, AllBumped, Moving, Relocate;
      var moved := Moving(open, root);
      MovingAre(open, entries, documents, root);
      var now, after, higher;
      ghost var more;
      now, after, higher, more := Relocated(open, entries, documents, texts, root, to, moved, version);
      StampedMoved(open, now, root, to, entries, after, documents, texts, more, version, higher);
      HonestStays(given, texts, more, history, history);
      MovedLater(open, now, root, to, entries, after, version);
      ComingNotGiven(given, texts, history, version, clock);
      BumpedVersions(entries, after, IdsAt(open, moved), version, calls, higher);
      RelocatedSound(open, now, root, to, entries, after, IdsAt(open, moved), version, documents);
      BumpedSound(entries, after, IdsAt(open, moved), version, history, nextEntry);
      open, entries, version, texts := now, after, higher, more;
    }

    static lemma BumpedVersions(was: map<nat, Entry>, now: map<nat, Entry>, ids: set<nat>, floor: nat, calls: map<nat, Call>, version: nat)
      requires Versioned(was, calls, floor) && floor <= version && forall e | e in now :: now[e].version <= version
      ensures Versioned(now, calls, version)
    {}

    /** What has moved is open in its new place under a version that was still to come. */
    static lemma MovedLater(was: map<Path, nat>, now: map<Path, nat>, root: Path, to: Path, before: map<nat, Entry>,
                            after: map<nat, Entry>, floor: nat)
      requires root != "/" && RelocatedSoFar(was, now, root, to, Moving(was, root))
      requires AllBumped(before, after, IdsAt(was, Moving(was, root)), floor)
      requires forall p | p in Moving(was, root) :: p in was && was[p] in before && AtOrBelow(root, p)
      ensures forall p | p in Moving(was, root) ::
                var q := Relocate(root, to, p); q in now && now[q] in after && after[now[q]].version > floor
    {
      forall p | p in Moving(was, root)
        ensures var q := Relocate(root, to, p); q in now && now[q] in after && after[now[q]].version > floor
      {
        assert was[p] in IdsAt(was, Moving(was, root));
      }
    }

    static lemma ComingNotGiven(given: map<ViewToken, View>, texts: Texts, history: History, version: nat, clock: nat)
      requires Honest(given, texts, history) && forall v | v in texts :: v <= version
      ensures forall t | t in given && t.Document? :: t.version <= version
    {}

    /** The registrations that have moved carry the versions given to them, and the others the ones they had. */
    static lemma StampedMoved(was: map<Path, nat>, now: map<Path, nat>, root: Path, to: Path, before: map<nat, Entry>,
                              after: map<nat, Entry>, documents: map<nat, Text>, texts: Texts, more: Texts, floor: nat, version: nat)
      requires root != "/" && RelocatedSoFar(was, now, root, to, Moving(was, root))
      requires AllBumped(before, after, IdsAt(was, Moving(was, root)), floor) && AllStamped(was, before, documents, texts, floor)
      requires (forall v | v in texts :: v in more && more[v] == texts[v]) && (forall v | v in more :: v <= version)
      requires AllNewlyStamped(was, after, Moving(was, root), documents, more)
      ensures AllStamped(now, after, documents, more, version)
      ensures forall v | v in texts :: v <= floor
    {
      hide AtOrBelow, Relocate;
      forall q | q in now ensures now[q] in after && Stamped(after[now[q]], documents, more) {
        var p: Path;
        if q in Staying(was, root, to) { p := q; } else { p :| p in Moving(was, root) && Relocate(root, to, p) == q; }
        assert p in was && now[q] == was[p] && Stamped(before[was[p]], documents, texts);
        if was[p] in IdsAt(was, Moving(was, root)) {
          var r :| r in Moving(was, root) && r in was && was[r] == was[p];
        }
      }
    }

    /** Closes what is in the way, then takes every moving path to its new place, under a new version. */
    static method Relocated(was: map<Path, nat>, before: map<nat, Entry>, ghost documents: map<nat, Text>, ghost texts: Texts,
                            root: Path, to: Path, moved: set<Path>, floor: nat)
      returns (now: map<Path, nat>, after: map<nat, Entry>, version: nat, ghost more: Texts)
      requires root != "/" && to != "/" && moved == Moving(was, root)
      requires forall p | p in moved :: p in was && was[p] in before && AtOrBelow(root, p)
      requires forall e | e in before :: before[e].version <= floor
      requires AllStamped(was, before, documents, texts, floor)
      ensures (forall v | v in texts :: v in more && more[v] == texts[v]) && (forall v | v in more :: v <= version)
      ensures AllNewlyStamped(was, after, moved, documents, more)
      ensures RelocatedSoFar(was, now, root, to, moved)
      ensures AllBumped(before, after, IdsAt(was, moved), floor) && version == floor + |moved|
      ensures forall e | e in after :: after[e].version <= version
    {
      hide RelocatedSoFar, AllBumped, Moving, AtOrBelow, Relocate, IdsAt, AllNewlyStamped, AllStamped, Stamped, Staying, Bumped;
      StampedStart(was, before, documents, texts, floor);
      more := texts;
      RelocatedStart(was, root, to);
      now := was - (set p | p in was && AtOrBelow(to, p));
      now, after, version := now - moved, before, floor;
      var todo := moved;
      ghost var done: set<Path> := {};
      NothingBumped(was, before, floor);
      while todo != {}
        invariant todo + done == moved && RelocatedSoFar(was, now, root, to, done)
        invariant AllBumped(before, after, IdsAt(was, done), floor) && version + |todo| == floor + |moved|
        invariant forall e | e in after :: after[e].version <= version
        invariant version >= floor
        invariant (forall v | v in texts :: v in more && more[v] == texts[v]) && (forall v | v in more :: v <= version)
        invariant AllNewlyStamped(was, after, done, documents, more)
        decreases todo
      {
        var p :| p in todo;
        version := version + 1;
        RelocatedMore(was, now, root, to, done, p);
        BumpOne(before, after, IdsAt(was, done), was[p], floor, version);
        SameIds(before, after, IdsAt(was, done), floor);
        SameDocuments(before, after, IdsAt(was, done), floor, was[p]);
        NewlyStamped(was, before, after, done, documents, texts, more, floor, p, version);
        IdsMore(was, done, p);
        now := now[Relocate(root, to, p) := was[p]];
        more := more[version := documents[after[was[p]].document]];
        after := after[was[p] := after[was[p]].(version := version, needsRefresh := true)];
        todo, done := todo - {p}, done + {p};
      }
      assert done == moved;
    }

    /** The registrations at some open paths carry versions that stand for their documents' texts. */
    static ghost predicate AllNewlyStamped(was: map<Path, nat>, after: map<nat, Entry>, done: set<Path>, documents: map<nat, Text>, texts: Texts) {
      forall p | p in done && p in was :: was[p] in after && Stamped(after[was[p]], documents, texts)
    }

    static lemma StampedStart(was: map<Path, nat>, before: map<nat, Entry>, documents: map<nat, Text>, texts: Texts, floor: nat)
      requires AllStamped(was, before, documents, texts, floor)
      ensures AllNewlyStamped(was, before, {}, documents, texts) && forall v | v in texts :: v <= floor
    {}

    static lemma SameDocuments(was: map<nat, Entry>, now: map<nat, Entry>, ids: set<nat>, version: nat, e: nat)
      requires AllBumped(was, now, ids, version) && e in was
      ensures e in now && now[e].document == was[e].document
    {}

    static lemma NewlyStamped(was: map<Path, nat>, before: map<nat, Entry>, after: map<nat, Entry>, done: set<Path>,
                              documents: map<nat, Text>, texts: Texts, more: Texts, floor: nat, p: Path, version: nat)
      requires AllStamped(was, before, documents, texts, floor) && AllNewlyStamped(was, after, done, documents, more)
      requires p in was && was[p] in after && was[p] in before && after[was[p]].document == before[was[p]].document
      requires forall v | v in more :: v < version
      ensures after[was[p]].document in documents
      ensures AllNewlyStamped(was, after[was[p] := after[was[p]].(version := version, needsRefresh := true)], done + {p}, documents,
                              more[version := documents[after[was[p]].document]])
    {
      assert Stamped(before[was[p]], documents, texts);
    }

    static lemma NothingBumped(open: map<Path, nat>, entries: map<nat, Entry>, version: nat)
      ensures AllBumped(entries, entries, IdsAt(open, {}), version)
    {}

    static lemma SameIds(was: map<nat, Entry>, now: map<nat, Entry>, ids: set<nat>, version: nat)
      requires AllBumped(was, now, ids, version)
      ensures now.Keys == was.Keys
    {}

    static lemma MovingAre(open: map<Path, nat>, entries: map<nat, Entry>, documents: map<nat, Text>, root: Path)
      requires OpenSound(open, entries, documents)
      ensures forall p | p in Moving(open, root) :: p in open && open[p] in entries && AtOrBelow(root, p)
    {}

    /** Any writer of storage: the file has new content under a new token. */
    method StoreWrite(path: Path, content: Content)
      requires Inv()
      modifies this`files, this`clock, this`history
      ensures Inv() && files == old(files)[path := File(content, old(clock))]
      ensures clock == old(clock) + 1 && history == old(history)[old(clock) := content]
      ensures TokenAt(path) !in given
    {
      StoreGrows(files, history, clock, path, content);
      AllStay(entries, calls, history, history[clock := content], nextEntry, nextCall);
      HonestStays(given, texts, texts, history, history[clock := content]);
      NotYetGiven(given, texts, history, version, clock, if path in open then ViewToken.Document(EntryAt(path).version, clock) else Plain(clock));
      files := files[path := File(content, clock)];
      history := history[clock := content];
      clock := clock + 1;
    }

    method StoreRemove(path: Path)
      requires Inv()
      modifies this`files
      ensures Inv() && files == old(files) - {path}
    {
      files := files - {path};
    }

    /**
     * Storage moves files, and drops what was in the way; each moved file holds what it held, under a token of
     * its own. A path does not move below itself.
     */
    method StoreMove(root: Path, to: Path) returns (ok: bool)
      requires Inv() && root != "/" && to != "/"
      modifies this`files, this`clock, this`history
      ensures Inv() && ok == !AtOrBelow(root, to)
      ensures !ok ==> files == old(files) && clock == old(clock) && history == old(history)
      ensures Grown(old(history), history) && old(clock) <= clock
      ensures ok ==> RelocatedSoFar(old(Contents(files)), Contents(files), root, to, Moving(old(Contents(files)), root))
      ensures ok ==> forall p | p in files && !AtOrBelow(to, p) :: p in old(files) && files[p] == old(files)[p]
      ensures ok ==> forall p | p in files && AtOrBelow(to, p) :: old(clock) <= files[p].token && TokenAt(p) !in given
    {
      if AtOrBelow(root, to) { return false; }
      hide RelocatedSoFar, Moving, AtOrBelow, Relocate, StoreSound, EntriesSound, CallsSound, OpenSound, OneHome, Grown, Contents;
      var now, tick;
      ghost var later;
      now, later, tick := MovedFiles(files, history, clock, root, to);
      AllStay(entries, calls, history, later, nextEntry, nextCall);
      HonestStays(given, texts, texts, history, later);
      LaterNotGiven(given, texts, history, version, clock);
      GrownNot(history);
      files, history, clock := now, later, tick;
      return true;
    }

    static lemma LaterNotGiven(given: map<ViewToken, View>, texts: Texts, history: History, version: nat, clock: nat)
      requires Honest(given, texts, history) && forall t | t in history :: t < clock
      ensures forall t | t in given :: t.storage < clock
    {}

    /** The files after a move: one after another set at its new place under the next token. */
    static method MovedFiles(was: map<Path, File>, ghost history: History, clock: nat, root: Path, to: Path)
      returns (files: map<Path, File>, ghost later: History, tick: nat)
      requires StoreSound(was, history, clock) && root != "/" && to != "/"
      ensures StoreSound(files, later, tick) && Grown(history, later) && clock <= tick
      ensures RelocatedSoFar(Contents(was), Contents(files), root, to, Moving(Contents(was), root))
      ensures forall p | p in files && !AtOrBelow(to, p) :: p in was && files[p] == was[p]
      ensures forall p | p in files && AtOrBelow(to, p) :: clock <= files[p].token
    {
      hide RelocatedSoFar, Moving, AtOrBelow, Relocate, StoreSound, Grown;
      var moved := Moving(was, root);
      FilesMoving(was, root, to);
      RelocatedStart(Contents(was), root, to);
      FilesStay(was, history, clock, root, to);
      files, later, tick := was - (set p | p in was && AtOrBelow(to, p)) - moved, history, clock;
      var todo := moved;
      ghost var done: set<Path> := {};
      GrownNot(history);
      while todo != {}
        invariant StoreSound(files, later, tick) && Grown(history, later) && todo + done == moved && clock <= tick
        invariant RelocatedSoFar(Contents(was), Contents(files), root, to, done)
        invariant forall p | p in files && !AtOrBelow(to, p) :: p in was && files[p] == was[p]
        invariant forall p | p in files && AtOrBelow(to, p) :: clock <= files[p].token
        decreases todo
      {
        var p :| p in todo;
        var place, content := Relocate(root, to, p), was[p].content;
        RelocatedMore(Contents(was), Contents(files), root, to, done, p);
        RelocateBack(root, to, p);
        ContentsMore(files, place, content, tick);
        StoreGrows(files, later, tick, place, content);
        GrownTwice(history, later, later[tick := content]);
        files, later, tick := files[place := File(content, tick)], later[tick := content], tick + 1;
        todo, done := todo - {p}, done + {p};
      }
      assert done == moved;
    }

    static lemma GrownNot(history: History)
      ensures Grown(history, history)
    {}

    static lemma GrownTwice(a: History, b: History, c: History)
      requires Grown(a, b) && Grown(b, c)
      ensures Grown(a, c)
    {}

    static lemma FilesMoving(was: map<Path, File>, root: Path, to: Path)
      requires root != "/"
      ensures Moving(Contents(was), root) == Moving(was, root) && forall p | p in Moving(was, root) :: p in was && AtOrBelow(root, p)
    {}

    /** What is left while files move: those neither moved nor in the way. */
    static lemma FilesStay(was: map<Path, File>, history: History, clock: nat, root: Path, to: Path)
      requires root != "/" && StoreSound(was, history, clock)
      ensures var now := was - (set p | p in was && AtOrBelow(to, p)) - Moving(was, root);
              var held := Contents(was);
              && StoreSound(now, history, clock) && (forall p | p in now :: p in was && now[p] == was[p] && !AtOrBelow(to, p))
              && Contents(now) == held - (set p | p in held && AtOrBelow(to, p)) - Moving(held, root)
    {
      hide AtOrBelow;
    }

    static lemma ContentsMore(files: map<Path, File>, path: Path, content: Content, token: Token)
      ensures Contents(files[path := File(content, token)]) == Contents(files)[path := content]
    {}

    /** Storage takes a write whose guard is current, and refuses any other. A write of what is there changes nothing if it may. */
    method Commit(c: nat)
      requires Inv() && c in calls && calls[c].Storing? && calls[c].write.Sent?
      modifies this`files, this`clock, this`history, this`calls
      ensures Inv()
      ensures var call := old(calls[c]);
              var path := call.snapshot.path;
              if !Granted(old(files), call) then
                clock == old(clock) && history == old(history) && files == old(files) && calls == old(calls)[c := call.(write := Refused)]
              else
                && path in files && files == old(files)[path := files[path]] && files[path].content == Encoded(call.text)
                && calls == old(calls)[c := call.(write := Stored(files[path].token))]
                && files[path].token == (if call.skipIfUnchanged && old(files[path].content) == Encoded(call.text) then call.guard
                                         else old(clock))
                && clock == old(clock) + (if files[path].token == call.guard then 0 else 1)
                && history == (if files[path].token == call.guard then old(history) else old(history)[old(clock) := Encoded(call.text)])
                && (call.guard == call.snapshot.was.token ==> Known(old(files[path].content), call.snapshot.was.published))
    {
      hide Recorded, Known, EntriesSound, OpenSound, OneHome;
      var call := calls[c];
      var path := call.snapshot.path;
      CallsAre(calls, history, nextCall, c);
      if path !in files || files[path].token != call.guard {
        CallAdded(calls, history, nextCall, c, call.(write := Refused));
        calls := calls[c := call.(write := Refused)];
        return;
      }
      if call.guard == call.snapshot.was.token { GrantedIsKnown(files, history, clock, call); }
      if !(call.skipIfUnchanged && files[path].content == Encoded(call.text)) {
        StoreWrite(path, Encoded(call.text));
        CallsAre(calls, history, nextCall, c);
      }
      CallAdded(calls, history, nextCall, c, call.(write := Stored(files[path].token)));
      calls := calls[c := call.(write := Stored(files[path].token))];
    }

    static lemma CallsAre(calls: map<nat, Call>, history: History, nextCall: nat, c: nat)
      requires CallsSound(calls, history, nextCall) && c in calls
      ensures CallSound(calls[c], history) && c < nextCall
    {}

    /** Starts waiting. */
    method Wait(call: Call) returns (c: nat)
      requires Inv() && CallSound(call, history) && call.snapshot.was.version <= version
      modifies this`calls, this`nextCall
      ensures Inv() && c == old(nextCall) && nextCall == c + 1 && calls == old(calls)[c := call]
    {
      CallAdded(calls, history, nextCall, nextCall, call);
      c := nextCall;
      calls := calls[c := call];
      nextCall := nextCall + 1;
    }

    /** Ends waiting. */
    method Settle(c: nat)
      requires Inv()
      modifies this`calls
      ensures Inv() && calls == old(calls) - {c}
    {
      CallRemoved(calls, history, nextCall, c);
      calls := calls - {c};
    }

    /** Sends the text of a dirty document to storage, guarded by the token it was last published at. */
    method PublishText(path: Path) returns (step: Step)
      requires Inv()
      modifies this`calls, this`nextCall
      ensures Inv()
      ensures path !in open || !EntryAt(path).dirty ==> step == Finished(false) && calls == old(calls)
      ensures path in open && EntryAt(path).dirty ==>
                && step == Waiting(old(nextCall))
                && calls == old(calls)[old(nextCall) := Storing(Get(path).value, documents[EntryAt(path).document],
                                                               EntryAt(path).token, true, Sent)]
    {
      hide AllStamped, Honest, StoreSound, Known, OneHome, CallsSound;
      var snapshot := Get(path);
      if snapshot.None? || !snapshot.value.was.dirty { return Finished(false); }
      var text := documents[snapshot.value.was.document];
      var c := Wait(Storing(snapshot.value, text, snapshot.value.was.token, true, Sent));
      return Waiting(c);
    }

    /** Publishes a document, after a refresh if its path has moved. */
    method Publish(path: Path) returns (r: Outcome<Step>)
      requires Inv()
      modifies this`calls, this`nextCall
      ensures Inv()
      ensures r == if path !in open then Ok(Finished(false))
                   else if EntryAt(path).needsRefresh then if path in files then Ok(Waiting(old(nextCall))) else Err(ENOENT)
                   else if EntryAt(path).dirty then Ok(Waiting(old(nextCall))) else Ok(Finished(false))
      ensures r.Err? || r.value.Finished? ==> calls == old(calls)
      ensures r.Ok? && r.value.Waiting? ==>
                var text := documents[EntryAt(path).document];
                calls == old(calls)[old(nextCall) :=
                  if EntryAt(path).needsRefresh then Reconciling(Get(path).value, text, files[path].token, true)
                  else Storing(Get(path).value, text, EntryAt(path).token, true, Sent)]
    {
      hide AllStamped, Honest, StoreSound, Known, OneHome, CallsSound;
      var snapshot := Get(path);
      if snapshot.Some? && snapshot.value.was.needsRefresh {
        r := Reconcile(path, true);
      } else {
        var step := PublishText(path);
        return Ok(step);
      }
    }

    /** Starts reading what storage holds. */
    method Reconcile(path: Path, thenPublish: bool) returns (r: Outcome<Step>)
      requires Inv()
      modifies this`calls, this`nextCall
      ensures Inv()
      ensures path !in open ==> r == Ok(Finished(false)) && calls == old(calls)
      ensures path in open && path !in files ==> r == Err(ENOENT) && calls == old(calls)
      ensures path in open && path in files ==>
                && r == Ok(Waiting(old(nextCall)))
                && calls == old(calls)[old(nextCall) := Reconciling(Get(path).value, documents[EntryAt(path).document],
                                                                   files[path].token, thenPublish)]
    {
      hide AllStamped, Honest, StoreSound, Known, OneHome, CallsSound;
      var snapshot := Get(path);
      if snapshot.None? { return Ok(Finished(false)); }
      if path !in files { return Err(ENOENT); }
      var c := Wait(Reconciling(snapshot.value, documents[snapshot.value.was.document], files[path].token, thenPublish));
      return Ok(Waiting(c));
    }

    /** Hears from storage: a stored text is recorded if the registration still stands, and later edits stay dirty. */
    method FinishStoring(c: nat) returns (r: Outcome<bool>)
      requires Inv() && c in calls && calls[c].Storing? && !calls[c].write.Sent?
      modifies this`calls, this`entries, this`documents
      ensures Inv() && calls == old(calls) - {c} && documents == old(documents)
      ensures r == if old(calls[c].write).Refused? then Err(EREVISION) else Ok(true)
      ensures var call := old(calls[c]);
              var path := call.snapshot.path;
              if call.write.Stored? && old(IsUnchanged(path, call.snapshot)) then
                entries == old(entries)[open[path] := old(EntryAt(path)).(token := call.write.token, published := call.text,
                             needsRefresh := false, dirty := documents[old(EntryAt(path)).document] != call.text)]
              else entries == old(entries)
    {
      hide StoreSound, OneHome;
      var call := calls[c];
      CallsAre(calls, history, nextCall, c);
      Settle(c);
      if call.write.Refused? { return Err(EREVISION); }
      RecordStored(call.snapshot.path, call.snapshot, call.text, call.write.token);
      return Ok(true);
    }

    /** The document is as it was when the operation started: same registration, token, version and text. */
    predicate Unchanged(snapshot: Snapshot, text: Text)
      reads this
      requires snapshot.path in open ==> open[snapshot.path] in entries && EntryAt(snapshot.path).document in documents
    {
      && IsUnchanged(snapshot.path, snapshot) && EntryAt(snapshot.path).version == snapshot.was.version
      && documents[EntryAt(snapshot.path).document] == text
    }

    /** That is: nothing about the document that the operation has read differs now. */
    lemma UnchangedMeans(snapshot: Snapshot, text: Text)
      requires Inv() && (snapshot.path in open ==> open[snapshot.path] in entries && EntryAt(snapshot.path).document in documents)
      requires Unchanged(snapshot, text)
      ensures snapshot.path in open && open[snapshot.path] == snapshot.entry
      ensures var now := EntryAt(snapshot.path);
              documents[now.document] == text && now.token == snapshot.was.token && now.version == snapshot.was.version
    {}

    /** Puts an external change into the document and marks it dirty; `applied` is what the host makes of it. */
    method ApplyExternal(path: Path, edits: seq<TextEdit>, applied: Text)
      requires Inv() && path in open
      modifies this`version, this`entries, this`documents, this`texts
      ensures Inv() && path in open && version == old(version) + if edits == [] then 0 else 1
      ensures edits == [] ==> entries == old(entries) && documents == old(documents)
      ensures edits != [] ==>
                && entries == old(entries)[open[path] := old(EntryAt(path)).(dirty := true, version := version)]
                && documents == old(documents)[old(EntryAt(path)).document := applied]
      ensures edits != [] && path in files ==> TokenAt(path) !in given
    {
      if edits != [] {
        if path in files { TokenToCome(path); }
        NewVersion(applied);
        Update(path, EntryAt(path).(dirty := true, version := version), applied);
      }
    }

    /** What storage held can be merged: the stored file is the one that was read, and no edits conflict or are too many. */
    ghost predicate Mergeable(call: Call)
      reads this
      requires call.Reconciling?
    {
      var path := call.snapshot.path;
      && path in files && files[path].token == call.token && Decoded(files[path].content).Some?
      && var merge := MergedText(call.snapshot.was.published, call.before, Decoded(files[path].content).value);
         merge.Merged? && !TooDifferent(call.before, merge.text)
    }

    /** What a reconciliation did: nothing if the registration no longer stands, or if it failed. */
    twostate predicate Reconciled(call: Call, applied: Text, new changed: Outcome<bool>)
      requires call.Reconciling? && old(Inv()) && Inv()
      reads this
    {
      var path, stands := call.snapshot.path, old(IsUnchanged(call.snapshot.path, call.snapshot));
      && (changed.Ok? <==> !stands || (old(Unchanged(call.snapshot, call.before)) && old(Mergeable(call))))
      && (!stands ==> changed == Ok(false))
      && (!stands || changed.Err? ==> version == old(version) && entries == old(entries) && documents == old(documents))
      && (stands && changed.Ok? ==>
            var incoming := old(Decoded(files[path].content).value);
            var was := old(EntryAt(path));
            && changed.value == (Edits(call.before, MergedText(call.snapshot.was.published, call.before, incoming).text) != [])
            && path in open && open == old(open) && was.document in documents
            && (changed.value ==> path in files && TokenAt(path) !in given)
            && version == old(version) + (if changed.value then 1 else 0)
            && entries == old(entries)[open[path] :=
                 was.(token := call.token, published := incoming, needsRefresh := false,
                      dirty := documents[was.document] != incoming, version := if changed.value then version else was.version)]
            && documents == (if changed.value then old(documents)[was.document := applied] else old(documents)))
    }

    /**
     * Brings a document up to date with what storage held when it was read: what changed there since the
     * last publication is merged into it. Nothing happens if the registration, the document or storage
     * has moved on.
     */
    method FinishReconcile(c: nat, applied: Text) returns (r: Outcome<bool>)
      requires Inv() && c in calls && calls[c].Reconciling?
      modifies this`calls, this`version, this`entries, this`documents, this`texts
      ensures Inv() && calls == old(calls) - {c}
      ensures Reconciled(old(calls[c]), applied, r)
    {
      hide AllStamped, Honest, StoreSound, OneHome, MergedText, Edits, TooDifferent, CallsSound, EntriesSound, Known, Versioned, Decoded;
      var call := calls[c];
      var path, snapshot := call.snapshot.path, call.snapshot;
      CallsAre(calls, history, nextCall, c);
      Settle(c);
      if !IsUnchanged(path, snapshot) { return Ok(false); }
      if !Unchanged(snapshot, call.before) { return Err(EREVISION); }
      if path !in files || files[path].token != call.token { return Err(EREVISION); }
      var decoded := Decoded(files[path].content);
      if decoded.None? { return Err(EINVAL); }
      r := Merge(path, snapshot, call.before, decoded.value, call.token, applied);
    }

    /** Ends a reconciliation; one that a publication waited for goes on with the publication. */
    method ContinueReconcile(c: nat, applied: Text) returns (r: Outcome<Step>)
      requires Inv() && c in calls && calls[c].Reconciling?
      modifies this`calls, this`nextCall, this`version, this`entries, this`documents, this`texts
      ensures Inv() && c !in calls
      ensures exists changed: Outcome<bool> :: Reconciled(old(calls[c]), applied, changed)
                && var path := old(calls[c].snapshot.path);
                   r == if changed.Err? then Err(changed.error)
                        else if !old(calls[c].thenPublish) then Ok(Finished(changed.value))
                        else if path in open && EntryAt(path).dirty then Ok(Waiting(old(nextCall))) else Ok(Finished(false))
      ensures r.Err? || r.value.Finished? ==> calls == old(calls) - {c}
      ensures r.Ok? && r.value.Waiting? ==>
                var path := old(calls[c].snapshot.path);
                calls == (old(calls) - {c})[old(nextCall) :=
                  Storing(Get(path).value, documents[EntryAt(path).document], EntryAt(path).token, true, Sent)]
    {
      hide AllStamped, Honest, StoreSound, OneHome, CallsSound, Known, EntriesSound;
      var call := calls[c];
      CallsAre(calls, history, nextCall, c);
      var changed := FinishReconcile(c, applied);
      if changed.Err? { return Err(changed.error); }
      if !call.thenPublish { return Ok(Finished(changed.value)); }
      var step := PublishText(call.snapshot.path);
      return Ok(step);
    }

    /** Merges what storage holds into the document and records it. */
    method Merge(path: Path, snapshot: Snapshot, before: Text, incoming: Text, token: Token, applied: Text) returns (r: Outcome<bool>)
      requires Inv() && IsUnchanged(path, snapshot) && path in files && files[path].token == token
      requires Decoded(files[path].content) == Some(incoming)
      modifies this`version, this`entries, this`documents, this`texts
      ensures Inv() && path in open
      ensures r.Ok? <==> var merge := MergedText(snapshot.was.published, before, incoming); merge.Merged? && !TooDifferent(before, merge.text)
      ensures r.Err? ==> version == old(version) && entries == old(entries) && documents == old(documents)
      ensures r.Ok? ==>
                var merge := MergedText(snapshot.was.published, before, incoming);
                var was := old(EntryAt(path));
                && merge.Merged? && r.value == (Edits(before, merge.text) != []) && was.document in documents
                && (r.value ==> TokenAt(path) !in given)
                && version == old(version) + (if r.value then 1 else 0)
                && entries == old(entries)[open[path] :=
                     was.(token := token, published := incoming, needsRefresh := false,
                          dirty := documents[was.document] != incoming, version := if r.value then version else was.version)]
                && documents == if r.value then old(documents)[was.document := applied] else old(documents)
    {
      hide AllStamped, Honest, OneHome, MergedText, Edits, TooDifferent, CallsSound, StoreSound, EntriesSound, OpenSound, Known, Versioned, Decoded;
      FileIs(files, history, clock, path);
      ReadIsKnown(files[path].content, incoming);
      IsOpen(open, entries, documents, path);
      var merge := MergeText(snapshot.was.published, before, incoming);
      if merge.Conflict? { return Err(EREVISION); }
      if merge.TooLarge? { return Err(E2BIG); }
      var edits := TextEdits(before, merge.text);
      if edits.TooBig? { return Err(E2BIG); }
      ApplyExternal(path, edits.value, applied);
      ghost var mid := TokenAt(path);
      RecordStored(path, snapshot, incoming, token);
      assert TokenAt(path) == mid;
      return Ok(edits.value != []);
    }

    /** The token of the collaborative view: it covers the document's version as well as storage. */
    function TokenAt(path: Path): ViewToken
      reads this
      requires path in files && (path in open ==> open[path] in entries)
    {
      if path in open then Document(EntryAt(path).version, files[path].token) else Plain(files[path].token)
    }

    /** What a client sees there. */
    ghost function ViewAt(path: Path): View
      reads this
      requires path in files && (path in open ==> open[path] in entries && EntryAt(path).document in documents)
    {
      View(if path in open then Some(documents[EntryAt(path).document]) else None, files[path].content)
    }

    /** The token at a path stands for what a client sees there now. */
    lemma TokenStandsFor(path: Path)
      requires Inv() && path in files
      ensures path in open ==> open[path] in entries && EntryAt(path).document in documents
      ensures StandsFor(TokenAt(path), ViewAt(path), texts, history)
    {}

    /** A token handed out that is the one there now was handed out for the state there now. */
    lemma GivenForNow(path: Path)
      requires Inv() && path in files
      ensures path in open ==> open[path] in entries && EntryAt(path).document in documents
      ensures TokenAt(path) in given ==> given[TokenAt(path)] == ViewAt(path)
    {
      TokenStandsFor(path);
    }

    /** Hands out a view token. One handed out before stands for the very same state. */
    method HandOut(path: Path) returns (token: ViewToken)
      requires Inv() && path in files
      modifies this`given
      ensures Inv() && token == TokenAt(path) && given == old(given)[token := ViewAt(path)]
      ensures token in old(given) ==> old(given)[token] == ViewAt(path)
    {
      hide AllStamped, Honest, OneHome, CallsSound, EntriesSound, Known;
      TokenStandsFor(path);
      GivenForNow(path);
      token := TokenAt(path);
      GivenOne(given, token, ViewAt(path), texts, history);
      given := given[token := ViewAt(path)];
    }

    static lemma GivenOne(given: map<ViewToken, View>, token: ViewToken, view: View, texts: Texts, history: History)
      requires Honest(given, texts, history) && StandsFor(token, view, texts, history)
      ensures Honest(given[token := view], texts, history)
    {}

    /** Starts a write: an unopened file's goes to storage, an open document's waits for its body. */
    method Write(path: Path, guard: Option<ViewToken>, append: bool) returns (r: Outcome<Step>)
      requires Inv()
      modifies this`calls, this`nextCall
      ensures Inv()
      ensures path !in open ==> r == Ok(Delegated) && calls == old(calls)
      ensures path in open ==>
                r == if path !in files then Err(ENOENT)
                     else if guard.Some? && guard.value != TokenAt(path) then Err(EREVISION) else Ok(Waiting(old(nextCall)))
      ensures path in open && path in files && guard.Some? && guard.value in given ==>
                (r.Ok? ==> given[guard.value] == ViewAt(path)) && (given[guard.value] != ViewAt(path) ==> r == Err(EREVISION))
      ensures path in open && r.Ok? ==>
                calls == old(calls)[old(nextCall) := Collecting(Get(path).value, documents[EntryAt(path).document], files[path].token, append)]
      ensures r.Err? ==> calls == old(calls)
    {
      hide AllStamped, Honest, StoreSound, Known, OneHome, CallsSound;
      var snapshot := Get(path);
      if snapshot.None? { return Ok(Delegated); }
      var before := documents[snapshot.value.was.document];
      if path !in files { return Err(ENOENT); }
      GivenForNow(path);
      if guard.Some? && guard.value != TokenAt(path) { return Err(EREVISION); }
      var c := Wait(Collecting(snapshot.value, before, files[path].token, append));
      return Ok(Waiting(c));
    }

    /** What a write does to the document it started from, and to its file if the metadata changes. */
    twostate predicate Written(path: Path, edits: seq<TextEdit>, touches: bool, applied: Text)
      requires old(Inv()) && Inv() && old(path in open)
      reads this
    {
      var was, edited := old(EntryAt(path)), edits != [];
      && path in open && path in files && old(path in files)
      && (edited || touches ==> TokenAt(path) !in given)
      && version == old(version) + (if edited then 1 else 0)
      && entries == old(entries)[open[path] :=
           was.(token := if touches && old(files[path].token) == was.token then old(clock) else was.token,
                dirty := was.dirty || edited, version := if edited then version else was.version)]
      && documents == (if edited then old(documents)[was.document := applied] else old(documents))
      && clock == old(clock) + (if touches then 1 else 0)
      && history == (if touches then old(history)[old(clock) := old(files[path].content)] else old(history))
      && files == (if touches then old(files)[path := File(old(files[path].content), old(clock))] else old(files))
    }

    /**
     * Goes on with a write once its body is there. It takes effect only on the document it started from:
     * as an edit, or as a guarded storage write when the text is already the document's.
     */
    method ResumeWrite(c: nat, body: Text, touches: bool, applied: Text) returns (r: Outcome<Step>)
      requires Inv() && c in calls && calls[c].Collecting?
      modifies this`calls, this`nextCall, this`version, this`entries, this`documents, this`texts, this`files, this`clock, this`history
      ensures Inv()
      ensures var call := old(calls[c]);
              var path := call.snapshot.path;
              var next := if call.append then call.before + body else body;
              var edits := Edits(call.before, next);
              && (path !in open ==> r == Ok(Delegated))
              && (r.Err? <==> path in open
                              && (!old(Unchanged(call.snapshot, call.before)) || TooDifferent(call.before, next)
                                  || ((edits != [] || call.append) && path !in files)))
              && (path in open && r.Ok? ==>
                    && old(Unchanged(call.snapshot, call.before))
                    && r == if edits == [] && !call.append then Ok(Waiting(old(nextCall))) else Ok(Finished(edits != [])))
              && calls == (if r.Ok? && r.value.Waiting? then (old(calls) - {c})[old(nextCall) := Storing(call.snapshot, next, call.guard, false, Sent)]
                           else old(calls) - {c})
              && if r.Ok? && r.value.Finished? then Written(path, edits, touches, applied)
                 else version == old(version) && entries == old(entries) && documents == old(documents)
                      && files == old(files) && clock == old(clock) && history == old(history)
    {
      hide AllStamped, Honest, StoreSound, OneHome, Edits, TooDifferent, CallsSound, EntriesSound, OpenSound, Known, Versioned, Recorded;
      VersionedOf(entries, calls, version, c);
      var call := calls[c];
      var path, snapshot := call.snapshot.path, call.snapshot;
      if path in open { IsOpen(open, entries, documents, path); }
      CallsAre(calls, history, nextCall, c);
      Settle(c);
      if path !in open { return Ok(Delegated); }
      if !Unchanged(snapshot, call.before) { return Err(EREVISION); }
      var next := if call.append then call.before + body else body;
      var edits := TextEdits(call.before, next);
      if edits.TooBig? { return Err(E2BIG); }
      if edits.value == [] && !call.append {
        var w := Wait(Storing(snapshot, next, call.guard, false, Sent));
        return Ok(Waiting(w));
      }
      if path !in files { return Err(ENOENT); }
      ApplyWrite(path, snapshot, edits.value, touches, applied);
      return Ok(Finished(edits.value != []));
    }

    /** The metadata change, if there is one, and then the edits. */
    method ApplyWrite(path: Path, snapshot: Snapshot, edits: seq<TextEdit>, touches: bool, applied: Text)
      requires Inv() && IsUnchanged(path, snapshot) && path in files
      modifies this`version, this`entries, this`documents, this`texts, this`files, this`clock, this`history
      ensures Inv() && Written(path, edits, touches, applied)
    {
      hide AllStamped, Honest, StoreSound, OneHome, CallsSound, EntriesSound, OpenSound, Known, Versioned, Recorded;
      IsOpen(open, entries, documents, path);
      if touches { Touch(path, snapshot); }
      ApplyExternal(path, edits, applied);
    }

    /** A metadata change: the content is the same under a new token, which only a document that knew the old one follows. */
    method Touch(path: Path, snapshot: Snapshot)
      requires Inv() && IsUnchanged(path, snapshot) && path in files
      modifies this`files, this`clock, this`history, this`entries, this`documents
      ensures Inv() && path in open && path in files && documents == old(documents)
      ensures files == old(files)[path := File(old(files[path].content), old(clock))] && clock == old(clock) + 1
      ensures history == old(history)[old(clock) := old(files[path].content)]
      ensures entries == old(entries)[open[path] :=
                old(EntryAt(path)).(token := if old(files[path].token) == snapshot.was.token then old(clock) else old(EntryAt(path)).token)]
      ensures TokenAt(path) !in given
    {
      hide AllStamped, Honest, OneHome, CallsSound, EntriesSound, Known;
      var knownBase := files[path].token == snapshot.was.token;
      FileIs(files, history, clock, path);
      StoreWrite(path, files[path].content);
      if knownBase { RecordMetadata(path, snapshot, files[path].token); }
    }

    static lemma ReadIsKnown(content: Content, text: Text)
      requires Decoded(content) == Some(text)
      ensures Known(content, text)
    {}

    static lemma IsOpen(open: map<Path, nat>, entries: map<nat, Entry>, documents: map<nat, Text>, path: Path)
      requires OpenSound(open, entries, documents) && path in open
      ensures open[path] in entries && entries[open[path]].document in documents
    {}

    static lemma FileIs(files: map<Path, File>, history: History, clock: nat, path: Path)
      requires StoreSound(files, history, clock) && path in files
      ensures files[path].token in history && history[files[path].token] == files[path].content && files[path].token < clock
    {}
  }

  /** A client that took its token before an edit is told so, whatever it edits the document to. */
  method StaleTokenIsRefused(w: Workspace, path: Path, text: Text, append: bool) returns (token: ViewToken, r: Outcome<Step>)
    requires w.Inv() && path in w.open && path in w.files
    modifies w
    ensures w.Inv() && token == old(w.TokenAt(path)) && r == Err(EREVISION)
  {
    hide AllStamped, Honest, StoreSound, EntriesSound, CallsSound, OpenSound, OneHome, Versioned;
    token := w.HandOut(path);
    w.EditDocument(path, text);
    r := w.Write(path, Some(token), append);
  }

  /** An edit made while a publication is on its way stays the document's text, and dirty if it differs from what was sent. */
  method EditedWhilePublishing(w: Workspace, path: Path, text: Text)
    requires w.Inv() && path in w.open && path in w.files && w.EntryAt(path).dirty && w.files[path].token == w.EntryAt(path).token
    modifies w
    ensures w.Inv() && path in w.open && path in w.files && w.EntryAt(path).document in w.documents
    ensures var sent := old(w.documents[w.EntryAt(path).document]);
            && w.files[path].content == Encoded(sent) && w.EntryAt(path).published == sent
            && w.EntryAt(path).token == w.files[path].token && w.documents[w.EntryAt(path).document] == text
            && (w.EntryAt(path).dirty <==> text != sent)
  {
    hide AllStamped, Honest, StoreSound, EntriesSound, CallsSound, OneHome, Versioned, Encoded;
    var step := w.PublishText(path);
    w.EditDocument(path, text);
    w.Commit(step.call);
    var stored := w.FinishStoring(step.call);
  }

  /** A path that has been closed and opened again is another registration, even of the same document at the same token. */
  method ReopenedIsAnother(w: Workspace, path: Path)
    requires w.Inv() && path in w.open && !w.EntryAt(path).dirty
    modifies w
    ensures w.Inv() && path in w.open && w.EntryAt(path).document == old(w.EntryAt(path).document)
    ensures w.EntryAt(path).token == old(w.EntryAt(path).token) && !w.IsUnchanged(path, old(w.Get(path)).value)
  {
    hide AllStamped, Honest, StoreSound, CallsSound, Versioned;
    var snapshot := w.Get(path).value;
    forall p | p in w.open && p != path ensures w.EntryAt(p).document != snapshot.was.document { HomeIsUnique(w.open, w.entries, p, path); }
    w.Close(path);
    w.Open(path, snapshot.was.document, snapshot.was.token);
  }

  /** A document is published as a lone surrogate, which storage holds as U+FFFD. */
  method PublishLone() returns (w: Workspace)
    ensures fresh(w) && w.Inv() && "/a" in w.open && "/a" in w.files
    ensures w.EntryAt("/a").published == LONE && !w.EntryAt("/a").dirty && w.EntryAt("/a").token == w.files["/a"].token
    ensures Decoded(w.files["/a"].content) == Some([0xfffd])
  {
    hide AllStamped, Honest, Encoded, Decoded, StoreSound, EntriesSound, CallsSound, OpenSound, OneHome, Versioned, Known, Edits, MergedText;
    LoneIsReplaced();
    WrittenIsKnown([]);
    w := new Workspace();
    w.StoreWrite("/a", Encoded([]));
    w.NewDocument(0, []);
    w.Open("/a", 0, 0);
    w.EditDocument("/a", LONE);
    var step := w.PublishText("/a");
    w.Commit(step.call);
    var stored := w.FinishStoring(step.call);
  }
}
