/**
 * src/collab/operations.ts and src/collab/registry.ts: publishing, reconciling and writing open
 * documents. Each method below is one section of the source between two awaits, or one step of the
 * host or of storage, so every order of calls to them is one interleaving of the source.
 */
module DocumentProtocol {
  import opened Sequences
  import opened Paths
  import opened Utf16
  import opened StoredText
  import L = LineDiff
  import opened DocumentEdits
  import opened DocumentMerge

  type Token = nat

  datatype Error = EREVISION | ENOENT | EINVAL | E2BIG

  datatype Outcome<+T> = Ok(value: T) | Err(error: Error)

  /** A stored file at its mutation token. */
  datatype File = File(content: Content, token: Token)

  /** A registration. */
  datatype Entry = Entry(document: nat, token: Token, dirty: bool, version: nat, published: Text, needsRefresh: bool)

  /** What `get` hands out: the registration and how it stood. */
  datatype Snapshot = Snapshot(path: Path, entry: nat, was: Entry)

  /** Where a storage write stands: on its way, done at a token, or refused by its guard. */
  datatype Write = Sent | Stored(token: Token) | Refused

  /** The operations that are waiting. */
  datatype Call =
    | Storing(snapshot: Snapshot, text: Text, guard: Token, skipIfUnchanged: bool, write: Write)
    | Reconciling(snapshot: Snapshot, before: Text, token: Token, thenPublish: bool)
    | Collecting(snapshot: Snapshot, before: Text, guard: Token, append: bool)

  /** A token of the collaborative view. */
  datatype ViewToken = Document(version: nat, storage: Token) | Plain(storage: Token)

  /** What a client sees of a path: the document's text, if one is open there, and what storage holds. */
  datatype View = View(text: Option<Text>, content: Content)

  /** How a section of an operation ends: handed to storage, waiting as a call, or done. */
  datatype Step = Delegated | Waiting(call: nat) | Finished(changed: bool)

  type History = map<Token, Content>

  /** Storage holds, or has held, this text: it was written from it, or reads as it. */
  ghost predicate Known(content: Content, text: Text) {
    content == Encoded(text) || Decoded(content) == Some(text)
  }

  lemma WrittenIsKnown(text: Text)
    ensures Known(Encoded(text), text)
  {}

  /** Known text is what its content reads as, unless that is its encoding and the text is not clean. */
  lemma KnownReadsBack(content: Content, text: Text)
    requires Known(content, text)
    ensures Decoded(content) == Some(text) <==> (content == Encoded(text) ==> Clean(text))
  {
    ReadsBack(text);
  }

  /** Every token in use stands for the content it was given, and new ones are still to come. */
  ghost predicate StoreSound(files: map<Path, File>, history: History, clock: nat) {
    && (forall p | p in files :: files[p].token in history && history[files[p].token] == files[p].content)
    && (forall t | t in history :: t < clock)
  }

  /** The recorded token stands for the published text. */
  ghost predicate Recorded(entry: Entry, history: History) {
    entry.token in history && Known(history[entry.token], entry.published)
  }

  ghost predicate EntriesSound(entries: map<nat, Entry>, history: History, nextEntry: nat) {
    forall e | e in entries :: e < nextEntry && Recorded(entries[e], history)
  }

  ghost predicate CallSound(call: Call, history: History) {
    && Recorded(call.snapshot.was, history)
    && (call.Storing? && call.write.Stored? ==>
          call.write.token in history && history[call.write.token] == Encoded(call.text))
  }

  ghost predicate CallsSound(calls: map<nat, Call>, history: History, nextCall: nat) {
    forall c | c in calls :: c < nextCall && CallSound(calls[c], history)
  }

  /** An open document that differs from what was published is dirty. */
  ghost predicate Tracked(entry: Entry, documents: map<nat, Text>) {
    entry.document in documents && (documents[entry.document] != entry.published ==> entry.dirty)
  }

  ghost predicate OpenSound(open: map<Path, nat>, entries: map<nat, Entry>, documents: map<nat, Text>) {
    forall p | p in open :: open[p] in entries && Tracked(entries[open[p]], documents)
  }

  /** `homes` finds each open document: none is open at two paths. */
  ghost predicate Homed(homes: map<nat, Path>, open: map<Path, nat>, entries: map<nat, Entry>) {
    forall p | p in open :: open[p] in entries && entries[open[p]].document in homes && homes[entries[open[p]].document] == p
  }

  ghost predicate OneHome(open: map<Path, nat>, entries: map<nat, Entry>) {
    exists homes :: Homed(homes, open, entries)
  }

  lemma HomeIsUnique(open: map<Path, nat>, entries: map<nat, Entry>, p: Path, q: Path)
    requires OneHome(open, entries) && p in open && q in open && open[p] in entries && open[q] in entries
    ensures entries[open[p]].document == entries[open[q]].document ==> p == q
  {
    var homes :| Homed(homes, open, entries);
  }

  /** History only grows. */
  ghost predicate Grown(history: History, now: History) {
    forall t | t in history :: t in now && now[t] == history[t]
  }

  lemma RecordedStays(entry: Entry, history: History, now: History)
    requires Recorded(entry, history) && Grown(history, now)
    ensures Recorded(entry, now)
  {}

  lemma CallStays(call: Call, history: History, now: History)
    requires CallSound(call, history) && Grown(history, now)
    ensures CallSound(call, now)
  {}

  lemma AllStay(entries: map<nat, Entry>, calls: map<nat, Call>, history: History, now: History, nextEntry: nat, nextCall: nat)
    requires EntriesSound(entries, history, nextEntry) && CallsSound(calls, history, nextCall) && Grown(history, now)
    ensures EntriesSound(entries, now, nextEntry) && CallsSound(calls, now, nextCall)
  {
    hide Recorded, CallSound, Grown;
    forall e | e in entries ensures Recorded(entries[e], now) { RecordedStays(entries[e], history, now); }
    forall c | c in calls ensures CallSound(calls[c], now) { CallStays(calls[c], history, now); }
  }

  lemma StoreGrows(files: map<Path, File>, history: History, clock: nat, path: Path, content: Content)
    requires StoreSound(files, history, clock)
    ensures StoreSound(files[path := File(content, clock)], history[clock := content], clock + 1)
    ensures Grown(history, history[clock := content])
  {}

  /** Changing one registration leaves the others as they were. */
  lemma EntryChanges(open: map<Path, nat>, entries: map<nat, Entry>, documents: map<nat, Text>, history: History, nextEntry: nat,
                     path: Path, entry: Entry, text: Text)
    requires OpenSound(open, entries, documents) && OneHome(open, entries) && EntriesSound(entries, history, nextEntry)
    requires path in open && open[path] in entries && entry.document == entries[open[path]].document
    requires Recorded(entry, history) && (text != entry.published ==> entry.dirty)
    ensures var now, texts := entries[open[path] := entry], documents[entry.document := text];
            OpenSound(open, now, texts) && OneHome(open, now) && EntriesSound(now, history, nextEntry)
  {
    hide Recorded;
    var now, texts := entries[open[path] := entry], documents[entry.document := text];
    var homes :| Homed(homes, open, entries);
    assert Homed(homes, open, now);
    forall p | p in open ensures Tracked(now[open[p]], texts) {
      HomeIsUnique(open, entries, p, path);
      assert Tracked(entries[open[p]], documents);
    }
  }

  /** Where a path goes when the namespace moves `root` to `to`. */
  function Relocate(root: Path, to: Path, path: Path): Path
    requires root != "/" && AtOrBelow(root, path)
  {
    to + path[|root|..]
  }

  lemma RelocateBack(root: Path, to: Path, path: Path)
    requires root != "/" && to != "/" && AtOrBelow(root, path)
    ensures AtOrBelow(to, Relocate(root, to, path))
    ensures var q := Relocate(root, to, path); |to| <= |q| && root + q[|to|..] == path
  {
    var suffix := path[|root|..];
    assert path == root + suffix;
    assert Relocate(root, to, path)[|to|..] == suffix;
    if path != root {
      assert suffix[0] == (root + "/")[|root|] == '/';
      assert (to + suffix)[..|to| + 1] == to + "/";
    }
  }

  /** Paths of a table neither moved nor in the way. */
  function Staying<T>(open: map<Path, T>, root: Path, to: Path): set<Path> {
    set p | p in open && !AtOrBelow(root, p) && !AtOrBelow(to, p)
  }

  function Moving<T>(open: map<Path, T>, root: Path): set<Path> { set p | p in open && AtOrBelow(root, p) }

  /** What each file holds. */
  ghost function Contents(files: map<Path, File>): map<Path, Content> { map p | p in files :: files[p].content }

  /** The registrations at some open paths. */
  ghost function IdsAt(open: map<Path, nat>, paths: set<Path>): set<nat> { set p | p in paths && p in open :: open[p] }

  lemma IdsMore(open: map<Path, nat>, paths: set<Path>, p: Path)
    requires p in open
    ensures IdsAt(open, {}) == {} && IdsAt(open, paths + {p}) == IdsAt(open, paths) + {open[p]}
  {}

  /** A table of paths once `done` of the moving ones have been set at their new places. */
  ghost predicate RelocatedSoFar<T(!new)>(open: map<Path, T>, now: map<Path, T>, root: Path, to: Path, done: set<Path>)
    requires root != "/" && done <= Moving(open, root)
  {
    && now.Keys == Staying(open, root, to) + (set p | p in done :: Relocate(root, to, p))
    && (forall p | p in Staying(open, root, to) :: now[p] == open[p])
    && (forall p | p in done :: Relocate(root, to, p) in now && now[Relocate(root, to, p)] == open[p])
  }

  lemma RelocatedStart<T(!new)>(open: map<Path, T>, root: Path, to: Path)
    requires root != "/"
    ensures RelocatedSoFar(open, open - (set p | p in open && AtOrBelow(to, p)) - Moving(open, root), root, to, {})
  {}

  lemma RelocatedMore<T(!new)>(open: map<Path, T>, now: map<Path, T>, root: Path, to: Path, done: set<Path>, p: Path)
    requires root != "/" && to != "/" && done <= Moving(open, root) && p in Moving(open, root)
    requires RelocatedSoFar(open, now, root, to, done)
    ensures RelocatedSoFar(open, now[Relocate(root, to, p) := open[p]], root, to, done + {p})
  {
    hide AtOrBelow, Relocate;
    RelocateBack(root, to, p);
    forall q | q in done ensures Relocate(root, to, q) == Relocate(root, to, p) ==> q == p { RelocateBack(root, to, q); }
  }

  /** A registration whose path has moved: it must be refreshed before it is published. */
  /** No registration, now or when an operation started, is of a version still to come. */
  ghost predicate Versioned(entries: map<nat, Entry>, calls: map<nat, Call>, version: nat) {
    && (forall e | e in entries :: entries[e].version <= version)
    && (forall c | c in calls :: calls[c].snapshot.was.version <= version)
  }

  lemma VersionedEntry(entries: map<nat, Entry>, calls: map<nat, Call>, version: nat, e: nat, entry: Entry, now: nat)
    requires Versioned(entries, calls, version) && entry.version <= now && version <= now
    ensures Versioned(entries[e := entry], calls, now)
  {}

  lemma VersionedOf(entries: map<nat, Entry>, calls: map<nat, Call>, version: nat, c: nat)
    requires Versioned(entries, calls, version) && c in calls
    ensures calls[c].snapshot.was.version <= version
  {}

  type Texts = map<nat, Text>

  /** The version of a registration is that of its document's text. */
  ghost predicate Stamped(entry: Entry, documents: map<nat, Text>, texts: Texts) {
    entry.document in documents && entry.version in texts && texts[entry.version] == documents[entry.document]
  }

  /** Every version stands for one text, and those of the open documents for the texts they hold. */
  ghost predicate AllStamped(open: map<Path, nat>, entries: map<nat, Entry>, documents: map<nat, Text>, texts: Texts, version: nat) {
    && (forall v | v in texts :: v <= version)
    && forall p | p in open :: open[p] in entries && Stamped(entries[open[p]], documents, texts)
  }

  ghost predicate StandsFor(token: ViewToken, view: View, texts: Texts, history: History) {
    && token.storage in history && view.content == history[token.storage]
    && if token.Document? then token.version in texts && view.text == Some(texts[token.version]) else view.text == None
  }

  /** Each token handed out still stands for what its client saw then. */
  ghost predicate Honest(given: map<ViewToken, View>, texts: Texts, history: History) {
    forall t | t in given :: StandsFor(t, given[t], texts, history)
  }

  lemma HonestStays(given: map<ViewToken, View>, texts: Texts, more: Texts, history: History, now: History)
    requires Honest(given, texts, history) && Grown(history, now)
    requires forall v | v in texts :: v in more && more[v] == texts[v]
    ensures Honest(given, more, now)
  {}

  /** A token of a version or of a storage token still to come has never been handed out. */
  lemma NotYetGiven(given: map<ViewToken, View>, texts: Texts, history: History, version: nat, clock: nat, token: ViewToken)
    requires Honest(given, texts, history) && (forall v | v in texts :: v <= version) && (forall t | t in history :: t < clock)
    requires (token.Document? && token.version > version) || token.storage >= clock
    ensures token !in given
  {}

  /** A new version, for some text. */
  lemma NextVersion(open: map<Path, nat>, entries: map<nat, Entry>, documents: map<nat, Text>, texts: Texts, version: nat,
                    given: map<ViewToken, View>, history: History, text: Text)
    requires AllStamped(open, entries, documents, texts, version) && Honest(given, texts, history)
    ensures AllStamped(open, entries, documents, texts[version + 1 := text], version + 1)
    ensures Honest(given, texts[version + 1 := text], history)
  {
    HonestStays(given, texts, texts[version + 1 := text], history, history);
  }

  lemma StampedEntry(open: map<Path, nat>, entries: map<nat, Entry>, documents: map<nat, Text>, texts: Texts, version: nat,
                     path: Path, entry: Entry, text: Text)
    requires AllStamped(open, entries, documents, texts, version) && OneHome(open, entries)
    requires path in open && entry.document == entries[open[path]].document && entry.version in texts && texts[entry.version] == text
    ensures AllStamped(open, entries[open[path] := entry], documents[entry.document := text], texts, version)
  {
    forall p | p in open && p != path ensures entries[open[p]].document != entry.document { HomeIsUnique(open, entries, p, path); }
  }

  lemma VersionedCall(entries: map<nat, Entry>, calls: map<nat, Call>, version: nat, c: nat, call: Call)
    requires Versioned(entries, calls, version) && call.snapshot.was.version <= version
    ensures Versioned(entries, calls[c := call], version) && Versioned(entries, calls - {c}, version)
  {}

  ghost predicate Bumped(was: Entry, now: Entry, version: nat) {
    now == was.(version := now.version, needsRefresh := true) && now.version > version
  }

  ghost predicate AllBumped(was: map<nat, Entry>, now: map<nat, Entry>, moved: set<nat>, version: nat) {
    && now.Keys == was.Keys
    && forall e | e in was :: if e in moved then Bumped(was[e], now[e], version) else now[e] == was[e]
  }

  lemma BumpOne(was: map<nat, Entry>, now: map<nat, Entry>, moved: set<nat>, e: nat, version: nat, higher: nat)
    requires AllBumped(was, now, moved, version) && e in was && version < higher
    ensures AllBumped(was, now[e := now[e].(version := higher, needsRefresh := true)], moved + {e}, version)
  {}

  lemma BumpedSound(was: map<nat, Entry>, now: map<nat, Entry>, moved: set<nat>, version: nat, history: History, nextEntry: nat)
    requires AllBumped(was, now, moved, version) && EntriesSound(was, history, nextEntry)
    ensures EntriesSound(now, history, nextEntry)
  {}

  /** Relocated, each open document is still open at one path and still tracked. */
  lemma RelocatedSound(open: map<Path, nat>, now: map<Path, nat>, root: Path, to: Path, entries: map<nat, Entry>,
                       after: map<nat, Entry>, moved: set<nat>, version: nat, documents: map<nat, Text>)
    requires root != "/" && to != "/" && RelocatedSoFar(open, now, root, to, Moving(open, root))
    requires OpenSound(open, entries, documents) && OneHome(open, entries) && AllBumped(entries, after, moved, version)
    ensures OpenSound(now, after, documents) && OneHome(now, after)
  {
    var homes :| Homed(homes, open, entries);
    var moving := Moving(open, root);
    var there := map d | d in homes :: if homes[d] in moving then Relocate(root, to, homes[d]) else homes[d];
    hide AtOrBelow, Relocate;
    forall q | q in now
      ensures now[q] in after && Tracked(after[now[q]], documents)
      ensures after[now[q]].document in there && there[after[now[q]].document] == q
    {
      var p: Path;
      if q in Staying(open, root, to) { p := q; } else { p :| p in moving && Relocate(root, to, p) == q; }
      assert p in open && now[q] == open[p] && Tracked(entries[open[p]], documents);
      assert homes[entries[open[p]].document] == p;
    }
    assert Homed(there, now, after);
  }

  /** A write that storage takes. */
  ghost predicate Granted(files: map<Path, File>, call: Call)
    requires call.Storing?
  {
    call.snapshot.path in files && files[call.snapshot.path].token == call.guard
  }

  /** The content under a recorded token is known to whoever recorded it. */
  lemma GrantedIsKnown(files: map<Path, File>, history: History, clock: nat, call: Call)
    requires StoreSound(files, history, clock) && CallSound(call, history)
    requires call.Storing? && Granted(files, call) && call.guard == call.snapshot.was.token
    ensures Known(files[call.snapshot.path].content, call.snapshot.was.published)
  {}

  lemma CallAdded(calls: map<nat, Call>, history: History, nextCall: nat, c: nat, call: Call)
    requires CallsSound(calls, history, nextCall) && CallSound(call, history) && c <= nextCall
    ensures CallsSound(calls[c := call], history, if c == nextCall then nextCall + 1 else nextCall)
  {}

  lemma CallRemoved(calls: map<nat, Call>, history: History, nextCall: nat, c: nat)
    requires CallsSound(calls, history, nextCall)
    ensures CallsSound(calls - {c}, history, nextCall)
  {}

  /**
   * A host that makes the edits it is given ends a reconciliation with its own text as the other side's edits
   * leave it, and with the stored text as its own edits leave it.
   */
  lemma PlainHostMerges(published: Text, before: Text, incoming: Text)
    requires MergedText(published, before, incoming).Merged?
    ensures var ours, theirs := Edits(published, before), Edits(published, incoming);
            var text := ApplyFrom(before, 0, Edits(before, MergedText(published, before, incoming).text));
            text == ApplyFrom(before, 0, Moved(theirs, ours)) && text == ApplyFrom(incoming, 0, Moved(ours, theirs))
  {
    EditsMakeAfter(before, MergedText(published, before, incoming).text);
    MergeMovesEdits(published, before, incoming);
  }
}
