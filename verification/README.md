# Verified models of cf-vfs

cf-vfs is a POSIX-like file system and shell for Cloudflare Durable Objects. This project models the parts of it
whose correctness rests on an argument rather than on a reading of the code, and proves that argument:

- **Regular expressions** (`Posix*.dfy`): the linear-time leftmost-first engine. A compiled program accepts exactly
  what the syntax tree matches, and of several matches finds the one that the tree prefers, captures included; the
  threaded matcher finds what unbounded backtracking would find, within `4n + 1` steps per offset, and is refused exactly
  when its cost passes the limit; the literal and prefix shortcuts change no answer.
- **Shared inodes** (`ChunkRows`, `ChunkTransfer`, `InodeTables`, `InodeNames`, `HardLinks`, `SqlHandles`,
  `FileHandle`): hard links kept alike by SQL triggers, pinned handles and detached bodies. One invariant says that
  the tables stand for a map from inodes to flat bodies; every operation is stated on that map.
- **Diffs and patches** (`TextLines`, `LineScript`, `LineDiff`, `DiffPrinter`, `PatchFormat`, `UnifiedPatch`,
  `PatchGrammar`, `PatchReadBack`, `PatchRoundTrip`): the diff is minimal, a patch applies exactly when its hunks fit the
  text, and printing a diff and applying it are inverse.
- **Collaborative documents** (`DocumentEdits`, `DocumentMerge`, `StoredText`, `DocumentProtocol`,
  `DocumentWorkspace`): three-way merging, and the protocol by which open documents and storage stay in step although
  operations wait for each other, under view tokens that never stand for two states.
- **Globs** (`GlobMatch`, `GlobParser`, `GlobSpelling`), **JSON** (`JsonText`, `JsonReading`, `JsonRoundTrip`,
  `JsonGrammar`), **brace expansion** (`BraceGroups`, `BraceExpansion`, `BraceReading`), **UTF-8 order** (`Utf8Order`): each
  algorithm against what it means, and each notation against its text.
- **Metadata index** (`ChangeFeed`, `MetadataIndex`): a local index that follows a change feed.
- **Public benchmarks** (`BenchmarkRows`, `BenchmarkHistory`, `BenchmarkStorage`, `BenchmarkPlan`, `BenchmarkClaims`,
  `BenchmarkRuns`): runs that survive eviction and repeated alarms.

`Sequences`, `Paths`, `Utf16` and `DecimalText` hold what the others share. Texts are sequences of UTF-16 units.
Code that changes things step by step is a class or a method with loops, proved against a function or a predicate;
what the source promises is then proved of that function. `dafny verify dfyconfig.toml` checks everything.

## Model

| member | source | states |
|---|---|---|
| PosixCharset.InPosixSet | src/core/posix-regex-charset.ts:67-76 | the loop over ranges decides membership in the set, negation included |
| PosixCharset.FoldRanges | src/core/posix-regex-charset.ts:52-65 | the folded set holds a point exactly when the set holds it or its other ASCII case; the original ranges stay in front |
| PosixBacktrack.BacktrackDecides | src/core/posix-regex-matcher.ts:130-169 | backtracking that enters no state twice still finds a hit exactly when some run of the program reaches `match` |
| PosixBacktrack.HopelessIsIgnored | src/core/posix-regex-matcher.ts:216-238 | states in which everything has failed can be marked as entered beforehand without changing the answer or its captures |
| PosixThreads.BacktrackIsClosure | src/core/posix-regex-matcher.ts:130-169 | depth-first backtracking from a state is building its thread list at this offset first and trying the threads in order afterwards |
| PosixThreads.AdvanceIsRun | src/core/posix-regex-matcher.ts:171-187 | one step of the whole list over a code point keeps the answer of trying its threads in order; a thread at `match` cuts off those behind it |
| PosixSearch.SeedKeepsAnswer | src/core/posix-regex-matcher.ts:197-201 | a thread started behind those already alive, among their marks, covers exactly the search from this offset |
| PosixSearch.SkipToPrefix | src/core/posix-regex-matcher.ts:204-207 | moving to the next occurrence of the literal prefix loses no match, and none is left when there is no occurrence |
| PosixMatcher.ThreadList.Add | src/core/posix-regex-matcher.ts:80-93 | a thread is appended, reusing a slot of an earlier turn or growing the arrays |
| PosixMatcher.Matcher.Mark | src/core/posix-regex-matcher.ts:125-128 | a fresh mark marks nothing, and the generation has advanced by one |
| PosixMatcher.Matcher.Add | src/core/posix-regex-matcher.ts:130-169 | extends the list and the marks by exactly the closure of the state and charges exactly its cost, or stops one step past the limit because the cost is not left |
| PosixSteps.CostIsLinear | src/core/posix-regex-matcher.ts:118-123 | a search costs at most `4n + 1` steps at each offset, for every program of `n` instructions, text and prefix, whether or not it may go that far |
| PosixMatcher.Matcher.StartAt | src/core/posix-regex-matcher.ts:204-207 | the next start is here while threads are alive, else the next occurrence of the prefix, if any |
| PosixMatcher.Matcher.Seed | src/core/posix-regex-matcher.ts:197-201 | appends the closure of the program's start, among the old marks exactly when threads are alive |
| PosixMatcher.Matcher.Sweep | src/core/posix-regex-matcher.ts:216-238 | one pass leaves the list, the marks and the candidate that stepping the list over the code point gives |
| PosixMatcher.Matcher.Search | src/core/posix-regex-matcher.ts:216-238 | returns the captures of the first start at which backtracking succeeds, or none if none does; too expensive exactly when the cost of the search passes the limit, and otherwise its steps are that cost |
| PosixPriority.LeftmostFirst | src/core/posix-regex.ts:450-452 | from any start the linear-time engine's hit, captures included, is that of plain leftmost-first backtracking without a memo |
| PosixCompiler.Compiler.Push | src/core/posix-regex.ts:312-320 | appends one instruction, refusing exactly the one past the program limit |
| PosixCompiler.Compiler.EmitCat | src/core/posix-regex.ts:336-351 | walking the left spine without recursion emits the operands in order, and fails exactly when they do not fit |
| PosixCompiler.Compiler.EmitAlt | src/core/posix-regex.ts:352-363 | the patched split and jump lead to both branches and past the second |
| PosixCompiler.Compiler.EmitStar | src/core/posix-regex.ts:375-382 | the split prefers the body and then the way out, and the body leads back to the split |
| PosixCompiler.Compiler.EmitRepeat | src/core/posix-regex.ts:384-401 | required copies, then a star or nested optional copies that can all leave for the end |
| PosixCompiler.Compiler.Compile | src/core/posix-regex.ts:312-408 | succeeds exactly when the tree's code and its frame fit the limit, and then the program is that code between the two outermost saves and `match` |
| PosixCompileProof.Exits | src/core/posix-regex.ts:312-408 | a run that enters a tree's code and leaves it does so at its end, having consumed a match of the tree |
| PosixCompileProof.Crosses | src/core/posix-regex.ts:312-408 | every match of a tree is a run of its code from start to end |
| PosixMeaning.CompiledMeans | src/core/posix-regex.ts:312-408 | the compiled program accepts from `i` up to `e` exactly when the syntax tree matches that stretch |
| PosixMeaning.FirstHitIsLeftmost | src/core/posix-regex.ts:450-503 | the search answers with a match of the tree at the leftmost boundary that has one, or with nothing when there is none |
| PosixMeaning.TestIffExec | src/core/posix-regex.ts:470-503 | searching without captures succeeds exactly when searching with them does |
| PosixPreferenceProof.FindsPreferred | src/core/posix-regex.ts:312-408 | what the search of a compiled tree finds from an offset, end and captures, is the match that the tree alone prefers: the left alternative, another turn of a repeat, no choice faced twice at one offset |
| PosixPreferenceProof.FirstHitIsPreferred | src/core/posix-regex.ts:478-503 | the hit of a search is the preferred match at the offset where the search stops |
| PosixPreferenceLaws.LeftBeforeRight | src/core/posix-regex.ts:450-452 | an alternation prefers what its left side prefers, and what its right side prefers only if the left one has no match |
| PosixPreferenceLaws.RepeatTakesLongest | src/core/posix-regex.ts:375-401 | a repeat of a set or of any code point prefers the longest of its matches, and has one exactly when the tree matches |
| PosixPreferenceLaws.GroupHolds | src/core/posix-regex.ts:364-368 | a group around a tree holds its match: the start in the even slot, the end in the odd one |
| PosixPreferenceLaws.FacedOnce | src/core/posix-regex-matcher.ts:130-169 | an optional a and a group that holds nothing or else c, repeated together, match all of "ac" but prefer the "a": the empty turn is taken, and the choice is not faced again at the same offset |
| PosixLiteral.Literal | src/core/posix-regex-matcher.ts:25-43 | a program is reported as a literal exactly when it only consumes single whole code points, and the text is theirs |
| PosixLiteral.LiteralPrefix | src/core/posix-regex-matcher.ts:63-72 | the text that every match of the program has to begin with, up to the first instruction that is not one whole code point |
| PosixLiteral.LiteralSearch | src/core/posix-regex.ts:454-503 | searching a literal program with the engine gives exactly what `indexOf` gives, with the bounds as captures |
| PosixRegex.StartingOffset | src/core/posix-regex.ts:417-423 | the least code point boundary at or after the requested offset |
| PosixRegex.PosixRegex.CapturedGroups | src/core/posix-regex.ts:425-437 | one entry per pair of slots: the text between them, or nothing if either was never written |
| PosixRegex.PosixRegex.Test | src/core/posix-regex.ts:470-476 | true exactly when the tree matches at some boundary of the text; refused exactly when the program is not searched as a literal and the search costs more than the limit |
| PosixRegex.PosixRegex.Exec | src/core/posix-regex.ts:478-503 | nothing exactly when the tree matches nowhere at or after `from`; otherwise the match that the tree prefers at the first offset where it matches, with its end and its groups; refused exactly when the program is not searched as a literal and the search from there costs more than the limit |
| PosixRegex.CompilePattern | src/core/posix-regex.ts:521-530 | a tree is compiled exactly when its program fits the limit, into a regex of that very tree with a pair of slots for each group |
| ChunkRows.StoredReadsBack | src/fs/sql-file-handles.ts:250-293 | chunks cut from a file at any width read back as that file |
| ChunkRows.InferredWidth | src/fs/sql-file-handles.ts:250-293 | a reader that takes the width from the first chunk reads the same file as the writer stored |
| ChunkTransfer.ReadRows | src/fs/sql-file-handles.ts:274-293 | the byte loop over the overlapping rows fills the buffer with exactly the selected range, and consumes all of it |
| ChunkTransfer.FillChunk | src/fs/sql-file-handles.ts:359-384 | the chunk a write stores is that of the written file, old bytes being read only where some survive |
| InodeTables.Tables.ReachIsNames | src/fs/hard-links.ts:33-69 | the entries that triggers fired from one name reach are exactly the names of its inode |
| InodeTables.Tables.HeldIsUnique | src/fs/hard-links.ts:1-12 | the tables leave no choice in which bodies they stand for |
| HardLinks.SqlTables.Upsert | src/fs/hard-links.ts:50-63 | with insert and update triggers firing recursively, storing a chunk under one name ends, having stored it under every name of the inode, or under its own name alone while that name is being removed, and changed no other row |
| HardLinks.SqlTables.DeleteRow | src/fs/hard-links.ts:64-69 | deleting a chunk ends, having deleted it under every name, or under its own name alone while that name is being removed |
| HardLinks.SqlTables.DeleteFrom | src/fs/sql-file-handles.ts:398-410 | deleting all chunks from an index on does so under the same names, and leaves every other row |
| HardLinks.SqlTables.UpdateSize | src/fs/hard-links.ts:34-40 | a size set under one name is copied to all of them, each copy marked so that it fires nothing, and every mark is cleared again |
| SqlHandles.NamesAgree | src/fs/hard-links.ts:1-12 | under the invariant all names of an inode hold the same size and the same rows, and those read as the inode's body |
| SqlHandles.PinnedResolves | src/fs/sql-file-handles.ts:132-149 | under the invariant a pinned inode is always found, detached or under a name |
| SqlHandles.DetachedExactly | src/fs/sql-file-handles.ts:159-209 | under the invariant a body is kept detached exactly while its inode is pinned and has no name |
| SqlHandles.KeptAll | src/fs/sql-file-handles.ts:159-209 | looking only at the removed entry's inode, or at every pin when removing a tree, finds all bodies that have to be detached |
| SqlHandles.SqlFileHandles.Find | src/fs/sql-file-handles.ts:132-149 | an inode number leads to its detached body or its smallest name; `EBADF` exactly when it leads nowhere |
| SqlHandles.SqlFileHandles.Read | src/fs/sql-file-handles.ts:243-293 | the requested range of the inode's body, cut at its end; the checks for missing and mismatched chunks never fire |
| SqlHandles.SqlFileHandles.ReadRemaining | src/fs/sql-file-handles.ts:246-293 | everything from the offset to the end of the inode's body |
| SqlHandles.SqlFileHandles.Write | src/fs/sql-file-handles.ts:324-385 | an append puts the data at the end, whatever the position; any other write puts it over the stretch from the position on, with zeros before it if the body is shorter; the end returned is that of the data, no other body, name or detached inode changes, and every refusal is exact and changes nothing |
| SqlHandles.SqlFileHandles.Truncate | src/fs/sql-file-handles.ts:386-426 | the inode's body is cut or zero-extended to the size, nothing else changes, and the three refusals are exact |
| SqlHandles.SqlFileHandles.Create | src/fs/sql-file-handles.ts:90-121 | a new name with an empty body under an id never used before; every other body stays |
| SqlHandles.SqlFileHandles.Link | src/fs/sql-file-handles.ts:42-89 | adds one name of the source's inode and changes no body; fails exactly when the source is missing or the target taken |
| SqlHandles.SqlFileHandles.Open | src/fs/sql-file-handles.ts:90-121 | pins the inode of the path, creating or emptying it as the mode says; the four errors are exact and change nothing |
| SqlHandles.SqlFileHandles.Retain | src/fs/sql-file-handles.ts:159-209 | before a removal, exactly the pinned inodes that lose all their names get a detached copy of their body |
| SqlHandles.SqlFileHandles.Release | src/fs/sql-file-handles.ts:210-232 | drops one pin; the bodies left are those of the inodes that have a name or a pin, each as it was |
| SqlHandles.SqlFileHandles.Remove | src/fs/sql-file-handles.ts:159-209 | removes exactly the path, or it and all below it; the bodies left are those of the inodes that have a name or a pin, each as it was |
| FileHandle.FsFileHandle.Read | src/fs/file-handle.ts:103-123 | copies the range into the caller's buffer and nothing outside it; the cursor moves past what was read exactly when no position was given; all refusals are exact |
| FileHandle.FsFileHandle.ReadFile | src/fs/file-handle.ts:48-65 | returns what lies between the cursor and the end, and moves the cursor there |
| FileHandle.FsFileHandle.Write | src/fs/file-handle.ts:77-96 | writes the selected bytes at the end for an append handle, so that the body is the old one followed by them, else over the stretch from the position or cursor; the cursor moves to where they end exactly when no position was given; only this inode's body changes, and each refusal is exact |
| FileHandle.FsFileHandle.WriteText | src/fs/file-handle.ts:77-96 | writes a string as its UTF-8, with the same effect as writing those bytes; any other encoding is refused, before the position is looked at |
| FileHandle.FsFileHandle.Truncate | src/fs/file-handle.ts:124-129 | sizes the inode's body as asked, with each refusal exact |
| FileHandle.FsFileHandle.Close | src/fs/file-handle.ts:140-152 | gives up the handle's pin once, however often it is called; every inode that has a name or another pin keeps its body |
| TextLines.LinesSpell | src/core/lines.ts:1-12 | the lines of a text joined are the text; every line but the last ends in its only newline |
| LineDiff.LcsLengths | src/core/line-diff.ts:34-54 | the flat table holds the longest common subsequence of every pair of suffixes; refused exactly past the cell limit |
| LineDiff.LineOperations | src/core/line-diff.ts:69-107 | the walk through the table is an edit script between the two, keeps a longest common subsequence, and numbers its lines |
| LineDiff.CreateLineDiff | src/core/line-diff.ts:138-176 | trimming common ends and comparing the middle gives a numbered script between the whole texts that keeps a longest common subsequence; refused exactly past the cell limit |
| LineDiff.DiffIsMinimal | src/core/line-diff.ts:138-176 | no other script between the lines of the two texts changes fewer of them, and different texts have a change |
| DiffPrinter.HunkSpans | src/core/line-diff.ts:125-136 | the spans cover exactly the operations within the context of a change, and no two touch |
| DiffPrinter.SpansAreDetermined | src/core/line-diff.ts:125-136 | only one list of spans does so |
| DiffPrinter.RenderLineDiff | src/core/line-diff.ts:178-210 | prints one hunk for each of those spans, at the lines where it stands in both texts; nothing for equal texts |
| UnifiedPatch.ParseHunks | src/core/unified-patch.ts:78-104 | the cursor-driven parser reads what the grammar of patches gives, and refuses the same patches |
| PatchGrammar.HeaderReads | src/core/unified-patch.ts:84-96 | every line of the shape of a hunk header, a count of one left out or not and any text behind it, is read as one with its numbers if they are exact |
| PatchGrammar.HeaderIsWritten | src/core/unified-patch.ts:84-96 | and no other line is |
| UnifiedPatch.ApplyUnifiedPatch | src/core/unified-patch.ts:112-162 | succeeds exactly when every hunk stands behind the one before, where its header says in both texts, and the source has its context and deleted lines there; then exactly those stretches are replaced by the context and inserted lines, and the inserted and the deleted lines are counted; the first hunk that does not fit is misplaced (`EINVAL`) or meets other lines (`EREVISION`) |
| UnifiedPatch.HunksMean | src/core/unified-patch.ts:112-162 | pushing lines onto an output, hunk after hunk, is splicing the new sides of hunks that fit, from wherever it has come |
| UnifiedPatch.HeadersCount | src/core/unified-patch.ts:70-76 | every hunk that is read has as many lines on each side as its header says |
| PatchReadBack.PatchReadsBack | src/core/unified-patch.ts:51-104 | a printed patch reads back as the hunks it was printed from exactly when neither file label has a newline |
| PatchReadBack.LabelsSpoil | src/core/unified-patch.ts:78-104 | with a newline in a label the patch is refused, or read with more hunks than it was printed from |
| PatchReadBack.SplitNameIsRefused | src/core/line-diff.ts:193-195 | a file name of two lines, a legal path, makes every patch of that file unreadable |
| PatchRoundTrip.RoundTrip | src/core/unified-patch.ts:145-162 | the printed diff of two different texts applied to the first gives the second, with the diff's hunks, insertions and deletions reported, exactly when neither label has a newline |
| DocumentEdits.TextEdits | src/collab/edits.ts:21-59 | the edits are those of the line diff, adjacent changes joined; refused exactly when the diff is |
| DocumentEdits.ApplyTextEdits | src/collab/edits.ts:61-70 | each edit's stretch is replaced and the text between edits is kept |
| DocumentEdits.EditsMakeAfter | src/collab/edits.ts:21-70 | the edits between two texts turn the first into the second, each changes something, and no two touch |
| DocumentMerge.RefusedIff | src/collab/merge.ts:10-34 | a merge is refused exactly when the two sides have different edits that both remove some unit, or one that inserts where the other removes, or two that insert at one place |
| DocumentMerge.OverlapsIffCollide | src/collab/merge.ts:10-20 | the arithmetic on offsets says exactly that, edits of neighbouring lines being none of it |
| DocumentMerge.MergeText | src/collab/merge.ts:21-34 | the merged text of the two sides' edits, the size refusal, or the conflict, which is exactly that of edits that collide |
| DocumentMerge.MergeIsSymmetric | src/collab/merge.ts:21-34 | swapping local and incoming gives the same text, or the same refusal |
| DocumentMerge.MergeMovesEdits | src/collab/merge.ts:21-34 | the merged text is the local text with the incoming edits made where the local ones have moved them, and the incoming text with the local edits likewise |
| StoredText.ReadsBack | src/collab/registry.ts:171-177 | stored text is decoded as it was exactly when no surrogate is unpaired and no byte order mark leads |
| StoredText.LoneIsReplaced | src/collab/registry.ts:171-177 | one unpaired surrogate is read back as U+FFFD, and a lone byte order mark as nothing |
| DocumentProtocol.KnownReadsBack | src/collab/operations.ts:83-101 | the text published at a token is what its content reads as, exactly unless the content is that text's own encoding and the text does not read back |
| DocumentProtocol.GrantedIsKnown | src/collab/operations.ts:70-81 | a guarded write that storage takes replaces exactly the content that its document was last published from |
| DocumentProtocol.PlainHostMerges | src/collab/operations.ts:83-101 | a host that makes the edits it is handed ends with its text as the other side's edits leave it, and with the stored text as its own leave it |
| DocumentWorkspace.Workspace.Open | src/collab/registry.ts:36-45 | the document is registered, clean, under the given token, a new id and a later version; every other registration stays, and the path has a view token never handed out |
| DocumentWorkspace.Workspace.EditDocument | src/collab/registry.ts:79-86 | an edit marks its document dirty under a later version and leaves every other registration; the path has a view token never handed out, and no operation that is waiting on it finds it unchanged, whatever its text |
| DocumentWorkspace.Workspace.RecordStored | src/collab/registry.ts:97-105 | a stored text is recorded only if the registration still stands; text edited since stays dirty |
| DocumentWorkspace.Workspace.RecordMetadata | src/collab/registry.ts:107-111 | a metadata change of known content moves the token and nothing else, if the registration still stands |
| DocumentWorkspace.Workspace.ObserveRemove | src/collab/registry.ts:142-155 | exactly the documents at or below a removed path are closed |
| DocumentWorkspace.Workspace.ObserveMove | src/collab/registry.ts:142-168 | what was open below the target is closed, and what was below the source is open at its new place, under a new version, with a view token never handed out, and due for a refresh |
| DocumentWorkspace.Workspace.StoreMove | src/collab/registry.ts:142-155 | a move in storage, which the registry observes: moved files keep their content under tokens never used before |
| DocumentWorkspace.Workspace.Commit | src/collab/operations.ts:49-58 | storage takes exactly the writes whose guard is current, and only over the content their document was published from |
| DocumentWorkspace.Workspace.PublishText | src/collab/operations.ts:70-81 | a dirty document's text is sent with its own token as the guard; a clean one sends nothing |
| DocumentWorkspace.Workspace.Publish | src/collab/operations.ts:70-81 | a document due for a refresh is reconciled first and published afterwards, another is published if dirty; exactly what waits, and for what, is stated |
| DocumentWorkspace.Workspace.FinishStoring | src/collab/operations.ts:70-81 | what storage has taken is recorded if the registration still stands, edits made meanwhile stay dirty, and a refusal changes nothing |
| DocumentWorkspace.Workspace.FinishReconcile | src/collab/operations.ts:83-101 | takes effect exactly if registration, text and stored token are those it started from and the two sides merge; then what storage holds counts as published, the merge goes to the document, and it is dirty exactly if its text differs; otherwise nothing changes |
| DocumentWorkspace.Workspace.ContinueReconcile | src/collab/operations.ts:70-101 | a publication that waited for a reconciliation goes on from its outcome, guarded by the new token, or ends with its error; no other call is touched |
| DocumentWorkspace.Workspace.Write | src/collab/operations.ts:103-135 | a write to an open document starts only under a view token that, if it was ever handed out, was handed out for the text and the content there now, and remembers what it started from; any other is refused |
| DocumentWorkspace.Workspace.HandOut | src/collab/registry.ts:113-116 | a view token handed out twice was handed out for the same document text and the same stored content |
| DocumentWorkspace.StaleTokenIsRefused | src/collab/operations.ts:49-58 | a write under a view token taken before an edit is refused, in every state and for every edit |
| DocumentWorkspace.EditedWhilePublishing | src/collab/operations.ts:70-81 | an edit made while a publication is on its way stays the document's text; what was sent counts as published, and the document is dirty exactly if the edit differs from it |
| DocumentWorkspace.ReopenedIsAnother | src/collab/registry.ts:68-72 | a path closed and opened again is no longer the registration of an older snapshot, even with the same document at the same token |
| DocumentWorkspace.Workspace.ResumeWrite | src/collab/operations.ts:103-135 | once its body is there, a write reaches only the document it started from, its file and its registration, or goes on as a guarded storage write when the text is the same; its failures are exact, and those and delegation change nothing but the call |
| DocumentWorkspace.Workspace.ApplyWrite | src/collab/operations.ts:137-172 | a change of mode gives the file a new token, which the registration follows exactly if it knew the old one; edits mark the document dirty; nothing else changes |
| DocumentWorkspace.PublishLone | src/collab/operations.ts:70-81 | a run of the protocol that publishes a lone surrogate: the document is clean at the token of a file that reads as U+FFFD |
| GlobMatch.CommitLosesNothing | src/core/glob.ts:53-66 | taking the earliest place of a part that is not the last, and never another, loses no match |
| GlobMatch.AcceptsMeaning | src/core/glob.ts:21-66 | the expression with committed places accepts exactly the values that the pattern means, stars tried at every length |
| GlobParser.ParseBracketExpression | src/core/bracket.ts:36-67 | where a bracket expression closes, whether it is negated and what it ranges over, or that it does not close |
| GlobParser.GlobParts | src/core/glob.ts:21-51 | the one-pass scan yields the parts between stars, runs of stars counting as one; refused exactly past the pattern limit |
| GlobParser.MatchesGlob | src/core/glob.ts:68-70 | answers whether the pattern means the value; no pattern matches everything |
| GlobSpelling.PatternReadsBack | src/core/glob.ts:21-51 | every pattern has a text that is read as that pattern: escapes, stars, question marks, and bracket expressions with their negation and ranges |
| GlobSpelling.RangesRead | src/core/bracket.ts:16-36 | of the ranges written in a bracket expression, those that run backwards match nothing and the others are as written |
| GlobSpelling.WhatFits | src/core/glob.ts:21-51 | a slash is matched by a written slash alone; a question mark takes any other character, a bracket expression one in its ranges or, negated, one out of them |
| Utf8Order.CompareUtf8 | src/core/path.ts:10-28 | the sign is that of the lexicographic order of the two encodings, whichever of the two ways computes it |
| Utf8Order.CompareShortUtf8 | src/core/path.ts:35-47 | comparing code points unit by unit orders texts as their code points are ordered, unpaired surrogates as U+FFFD |
| Utf8Order.OctetOrder | src/core/path.ts:10-47 | encodings are ordered as the code points they encode |
| Utf8Order.OctetsSpell | src/core/path.ts:10-28 | the encoding of each code point: its length, its leading octet and six bits in each that follows |
| Utf8Order.Utf8LexIsPreorder | src/core/path.ts:10-28 | the order is total and transitive, and texts tie exactly when their encodings are equal, which well-formed texts only are when they are the same |
| JsonReading.JsonReader.Value | src/core/json-value.ts:223-253 | the reader's cursor follows the grammar: the value, where it ends, and each error, the nesting limit included |
| JsonReading.JsonReader.String | src/core/json-value.ts:283-306 | copying stretches between boundaries reads the same text as decoding unit by unit |
| JsonReading.JsonReader.Object | src/core/json-value.ts:324-345 | a repeated key keeps its first place and its last value |
| JsonReading.ParseJsonText | src/core/json-value.ts:167-174 | exactly one value, or an error |
| JsonGrammar.NumberIsLongest | src/core/json-value.ts:255-266 | the number read is the longest integer, fraction and exponent that stand there, and none is read only if none does |
| JsonGrammar.EscapeIsItsDigits | src/core/json-value.ts:268-281 | `\u` and four hexadecimal digits, in either case, are the unit with these digits |
| JsonGrammar.PutKeepsPlace | src/core/json-value.ts:332-345 | a member takes the place of the first one with its key, or else the end, and no other moves |
| JsonRoundTrip.RenderParses | src/core/json-value.ts:391-457 | a rendered value parses back to itself, at any indentation, exactly when its numbers are kept spellings, its keys differ and it is not nested past the limit |
| JsonRoundTrip.ReparsesAsRead | src/core/json-value.ts:154-174 | whatever a text parses to, rendering and parsing it again gives the same value |
| BraceGroups.RangeBounds | src/shell/brace.ts:84-143 | the values of a range start at its start, stay within its bounds, and the next one would pass its end |
| BraceReading.RangeReads | src/shell/brace.ts:112-168 | `x..y` with any two exact integers as written is the range from x to y by one |
| BraceReading.SteppedReads | src/shell/brace.ts:112-168 | with a third integer it goes by the size of that, or by one if that is zero |
| BraceGroups.SpellingReads | src/shell/brace.ts:115-143 | a padded number reads back as its value, and is no wider than asked unless it has to be |
| BraceExpansion.GroupShrinks | src/shell/brace.ts:222-241 | replacing a group by one of its alternatives leaves fewer braces, so expanding ends |
| BraceExpansion.WordsSettle | src/shell/brace.ts:222-241 | no word of an expansion can be expanded further |
| BraceExpansion.SettledExactly | src/shell/brace.ts:222-241 | a word expands to itself alone exactly when it has no group |
| BraceReading.TwoWords | src/shell/brace.ts:200-241 | a group of two alternatives stands for the left one and then for the right one, each in the group's place |
| BraceExpansion.WordsCost | src/shell/brace.ts:222-241 | an expansion is charged for at least as many units as it yields words |
| BraceExpansion.GroupBounds | src/shell/brace.ts:171-190 | where a group closes and which commas separate it; out of budget exactly when the scan costs more than is left |
| BraceReading.ScanFinds | src/shell/brace.ts:171-190 | the group ends at the first brace where as many are closed as opened, and its commas are exactly those inside no other braces |
| BraceExpansion.ExpandAtoms | src/shell/brace.ts:222-241 | yields the whole expansion and its exact charge, or refuses exactly when the charge is not left |
| BraceExpansion.Rebuild | src/shell/brace.ts:55-76 | parts that flatten to the atoms given, with no two plain parts side by side |
| BraceExpansion.ExpandBraces | src/shell/brace.ts:249-261 | the non-empty words of the expansion in order; a word without a brace is free; refused exactly when the charge is not left |
| ChangeFeed.FileSystem.ChangesSince | src/vfs/sql-query-base.ts:514-564 | a page holds exactly the paths that last changed between its two cursors, and more remains exactly when something changed later; a page that is not the last is full |
| MetadataIndex.TracksStays | src/fs/metadata-index.ts:24-37 | an index that is right up to its cursor stays so through any change that the feed records |
| MetadataIndex.TakesIn | src/fs/metadata-index.ts:24-37 | taking in all paths changed since the cursor makes such an index equal to the file system |
| MetadataIndex.SizeIsRight | src/fs/metadata-index.ts:24-37 | the size that is checked before anything is taken in is the size afterwards |
| MetadataIndex.FsMetadataIndex.Refresh | src/fs/metadata-index.ts:24-66 | succeeds exactly under a stated condition on the feed, the capacity and the readable paths; then the index is the file system and the answer is what changed; a failure changes nothing |
| BenchmarkRows.MergeRows | demo/benchmark-protocol.ts:62-89 | the loop merges each row into its workload's, or adds it |
| BenchmarkRows.MergeTwice | demo/benchmark-protocol.ts:62-89 | merging in two goes is merging everything at once |
| BenchmarkRows.MergeKeepsSamples | demo/benchmark-protocol.ts:62-89 | merging neither loses, repeats nor reorders a sample of any workload, and leaves one row for each |
| BenchmarkPlan.PlanCompletes | demo/benchmark-protocol.ts:32-37 | groups that follow the plan merge into exactly the expected rows, with six samples on both sides and none from the warmup |
| BenchmarkPlan.CountsOfPlan | demo/benchmark-task-runner.ts:16-24 | the agent task's constants are those of a plan with its one workload |
| BenchmarkHistory.UpdateIsTidy | demo/benchmark-store.ts:161-240 | the history stays bounded, and no run is counted twice at a point |
| BenchmarkHistory.NewestIsLast | demo/benchmark-store.ts:161-220 | a run filed with others comes last, behind the latest eleven of them in their order, and is counted |
| BenchmarkHistory.AcceptedIsCovered | demo/benchmark-store.ts:161-204 | every run that stays at a point has a row for each of its workloads, and each workload has a sample in some run |
| BenchmarkHistory.UpdateIsIdempotent | demo/benchmark-store.ts:223-240 | filing a result twice is filing it once |
| BenchmarkHistory.OnePointExactly | demo/benchmark-store.ts:222-240 | a history with one point a commit keeps that exactly unless the first point a result belongs to is an unlabelled one of its build that does not hold its run, and another point has its commit |
| BenchmarkHistory.TwoPointsOfOneCommit | demo/benchmark-store.ts:222-240 | three results, published in order, that leave two points of one commit |
| BenchmarkStorage.BenchmarkStore.Claim | demo/benchmark-store.ts:366-387 | starts a run exactly when none is live and it is forced or eligible |
| BenchmarkStorage.BenchmarkStore.Checkpoint | demo/benchmark-store.ts:393-404 | only the active run stores its job, and its lease is renewed with it |
| BenchmarkStorage.BenchmarkStore.Complete | demo/benchmark-store.ts:415-451 | result, history and completion change together or not at all, exactly when the run is active, the samples valid and the history takes the point |
| BenchmarkStorage.BenchmarkStore.Fail | demo/benchmark-store.ts:453-461 | a run can only fail itself, and only while it is running |
| BenchmarkStorage.PublishInOrder | demo/benchmark-store.ts:415-451 | the store itself reaches two points of one commit through three public runs |
| BenchmarkClaims.RunsOnceExactly | demo/benchmark-store.ts:360-387 | over any history of requests, no build is run again for the public exactly as long as no request finds nothing live, another build's run last and another build's result shown although its own build has run |
| BenchmarkClaims.AnotherBuildBetween | demo/benchmark-store.ts:366-387 | two runs of one build, the later asked for by the public, have a run of another build directly before the later |
| BenchmarkClaims.DeploymentsInTurn | demo/benchmark-store.ts:360-387 | three requests from two deployments that answer in turn: the first one's build is run twice |
| BenchmarkRuns.CountedOnce | demo/benchmark.ts:122-135 | a job holds each sample of each group counted before its index once, in order, and no other |
| BenchmarkRuns.KnownStays | demo/benchmark.ts:108-130 | a job that an alarm has read stays one that its run had, whatever happens before the alarm ends |
| BenchmarkRuns.PublishedOnce | demo/benchmark.ts:122-171 | under the invariant a published result holds each sample of each group of the plan once, in order, and no other |
| BenchmarkRuns.PlannedRunIsComplete | demo/benchmark.ts:136-150 | for groups that follow the plan the check for incomplete samples never fails, and the result is valid unless a sample is negative or the plan is empty |
| BenchmarkRuns.PublicBenchmarks.ClaimRun | demo/benchmark.ts:74-84 | starts a run exactly when none is live and it is forced or eligible; for a build that has run, a public request starts one exactly when another build's run is the last and another build's result, or none, is shown |
| BenchmarkRuns.PublicBenchmarks.Claim | demo/benchmark.ts:74-103 | with an eviction possible between its two writes, starts a run as above, with a lease from its last write, and stores its first job exactly if the lease still holds; a refused request changes neither run nor job |
| BenchmarkRuns.PublicBenchmarks.ReadJob | demo/benchmark.ts:108-113 | an alarm starts only while a run is live, and from a job that some run had |
| BenchmarkRuns.PublicBenchmarks.Finish | demo/benchmark.ts:114-183 | with a job read however long ago, advances or publishes exactly under the stated conditions, counts the group once, and otherwise changes nothing |
| BenchmarkRuns.PublicBenchmarks.FailRun | demo/benchmark.ts:176-193 | an alarm that fails marks its own run, if that is still the running one, and no other |
| BenchmarkRuns.RunInTurn | demo/benchmark.ts:74-103 | the coordinator itself runs one build twice when two deployments answer in turn |

## Findings

Promises of the repository that do not hold as stated, each with an input and the exact condition:

- **One public run a build** (demo/benchmark-store.ts:360-365: whatever its outcome, a build's first run is meant to be
  the last that the public can start). The store remembers only the last run and the last result. Requests from deployments `a`, `b`
  and `a` again, each after the run before lost its lease, run `a` twice (`BenchmarkClaims.DeploymentsInTurn`,
  `BenchmarkRuns.RunInTurn`). `BenchmarkClaims.RunsOnceExactly` gives the exact condition over whole histories, and
  `BenchmarkRuns.PublicBenchmarks.ClaimRun` at each request.
- **One point a commit** (demo/benchmark-store.ts:222). A point without a commit and a later point of another build
  can both come to be filed under one commit: `BenchmarkHistory.TwoPointsOfOneCommit`,
  `BenchmarkStorage.PublishInOrder`. `BenchmarkHistory.OnePointExactly` gives the exact condition, in terms of what is
  saved and the result before it is filed.
- **A printed diff can be applied** (src/core/line-diff.ts:193-195, src/core/unified-patch.ts:78-104). Labels are
  printed as they are, and a path may contain a newline: `PatchReadBack.SplitNameIsRefused`.
  `PatchReadBack.PatchReadsBack` and `PatchRoundTrip.RoundTrip` hold exactly for labels without one.
- **Published text is what storage holds** (src/collab/registry.ts:97-105). The registry records the text that was
  sent. Storage encodes unpaired surrogates as U+FFFD and decoding drops a leading byte order mark. Publishing one
  unpaired surrogate leaves a clean document whose file reads differently: `StoredText.LoneIsReplaced`,
  `DocumentWorkspace.PublishLone`. `StoredText.ReadsBack` and `DocumentProtocol.KnownReadsBack` give the exact condition.

## Left out

- Regular expressions: the parser of basic and extended syntax (the model starts from its tree), offsets that are not
  integers, and the caller's meter.
- Inodes: link counts (the detached flag stands for a count of zero), opaque bodies, directories and symbolic links,
  permissions, ownership, timestamps, revisions, capacity and usage, maintenance and `sync`. The path ranges of `retain`
  are a prefix test. Metadata columns other than the size.
- Hard links: `vfs_hard_new_name`, which fires when an entry is inserted already linked, and `vfs_hard_unlink`, which keeps link
  counts. The operations modelled insert every entry unlinked; a link is made by an update.
- SqlHandles.SqlFileHandles.Remove: the removal of names itself lies outside src/fs/sql-file-handles.ts; the model adds it,
  with the chunk deletion that the delete trigger of src/fs/hard-links.ts reacts to, so that `Retain` has something to precede.
- Transactions: an operation that throws after writing is rolled back by SQLite; the model checks everything before it
  writes.
- File handles: `writeFile`, a write at the cursor under another name, and decoding in `readFile`. Calls on one handle run one
  after another, as its queue makes them.
- Patches: error messages and their line numbers; texts are at most 2^53 - 1 units long, as every string is.
- Merging: the built-in sort is modelled as the stable sort by offset.
- DocumentWorkspace.Workspace.Open: requires that the document is not open at another path.
- DocumentWorkspace.Workspace.ObserveMove: moves of or to `/` are not modelled.
- DocumentWorkspace.Workspace.ResumeWrite: the size limit, the validation of inline writes and growth accounting are left out,
  and a host may make anything of the edits it is handed (`applied`); `DocumentProtocol.PlainHostMerges` is about one that makes them.
- Mutation tokens are drawn from one counter; the store's are fresh for each path.
- Globs: the engine is modelled as committing to the earliest place of each part, which is what the lookaheads in the
  built expression ask of it; an escape between two halves of a surrogate pair joins them.
- JSON: numbers are their spellings; the value of a double is not modelled, and how the platform re-spells one with an
  exponent is a parameter that `Respells` constrains. Sorted keys, comparison, budgets, and error texts and offsets.
- BraceGroups.RangeBounds: numbers are exact; bounds beyond 2^53 would be rounded.
- Brace expansion: the deadline part of the budget, and positions carried along for error messages.
- Metadata index: the file system is a map with a change feed that records every change (`Records`); unreadable paths stand
  for permissions, and a sequence number's paths are read as one group instead of in SQL pages. A capacity below one, which the constructor refuses, is a precondition.
- Benchmarks: medians and extremes, file paths and JSON files of the store, migration and clean-up of old histories, the
  measurements, scheduling of alarms, HTTP and caching. Run ids are distinct. A workload's iteration count is the same in every round.
