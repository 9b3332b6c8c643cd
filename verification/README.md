# resticscope: a model of its logic

resticscope browses, compares and extracts restic snapshots from a terminal.
This project models the five connected pieces of logic behind that and proves
what they promise:

1. **The browse store.** One index transaction streams a snapshot's nodes into
   three tables: it interns directory paths to contiguous IDs, keeps a one-entry
   parent cache keyed by path bytes, buffers rows in batches, folds directory
   sizes bottom-up in one backward pass, and commits everything or nothing.
   Queries then work on IDs, byte ranges, LIKE patterns and a streaming top-N.
   Every query is proved equal to its meaning over the plain list of nodes that
   were added for that repository and snapshot.
2. **The browse session.** Two mutexes, a closed flag, a cancel handle and a
   lazy open that drops a lock, as a step system over any number of operations
   and Close calls: an inductive invariant over all interleavings, no deadlock,
   and an end to every run.
3. **Snapshot diffs.** The diff tree, the filtered view, the diff search with
   its own duplicate merge, and the choice of what a diff extraction restores,
   each against a definition by sets of records that does not mention order.
4. **Extraction.** Path planning, include rebasing, pattern escaping and
   delivery, the metadata walk that widens modes and puts them back, and
   publishing, joined into one mirror theorem: a selected snapshot path p ends
   up at the snapshot directory followed by p, and nothing else does.
5. **The terminal state machines.** The extraction modal and the browser as
   state, key events and a multiset of late messages tagged with generations,
   with properties of whole runs, and the grouping and collapsing of the
   snapshot list.

## Layout

| file | what it models |
|---|---|
| Wrappers, Sorting, Paths | options and results; stable sorting by a strict weak order and the byte order on strings; clean rooted paths as components and their bytes |
| BrowseRows, IndexFold, BrowseIndex | internal/browsedb/index.go and index_insert.go: tables as a function of the committed history, the fold, the transaction |
| Fuzzy, BrowseQueries, BrowseSearch | internal/model/fuzzy.go and internal/browsedb/queries.go |
| SessionSteps, SessionInvariant, BrowseSession, SessionOutcomes | internal/app/browsesession.go: the steps, the invariant, whole runs, and what each statement leads to |
| DiffModel, DiffTree, DiffView, DiffSearch, DiffExtract | internal/model/diff.go, internal/tui/snapshotdiff.go, internal/tui/snapshotdiffsearch.go |
| ExtractPlan, IncludeArgs, ExtractRestore, Normalize, ExtractPipeline | internal/app/extract.go, internal/resticx/extract_tree.go, internal/app/extract_metadata.go |
| ExtractModal, ExtractKeys, ExtractRuns, ExtractScreen, DiffRequests | internal/tui/extract.go with the root's routing in internal/tui/app.go: one step, what each key and message is for, whole runs, and the handlers as methods; openDiffExtract, which ties the diff selection to planning, the modal and the mirror |
| BrowseTui, BrowseKeys, BrowseScreen, BrowseStore | internal/tui/browse.go, browsesearch.go and arrange.go: steps and runs, what each key is for, the handlers as methods, and the store they ask |
| SnapGroup | internal/tui/snapgroup.go |

Code that updates fields or works in loops is written that way here too: the
index transaction, the tree builder, the metadata walk, the file system, the
modal, the browser and the snapshot view are classes whose methods are tied to
specification functions, and the lemmas are about those functions. The handlers
of the modal and the browser keep the invariant of whole runs and are steps of
those runs.

## Assumptions

- Sizes are non-negative and their sums do not overflow.
- A node's name is empty or the base of its path; where it matters
  (`BrowseQueries.EntryPathIsNodePath`) this is a precondition.
- Diff records carry clean, rooted, non-root paths and recognised markers
  (`DiffModel.Parsed`), which is what the scanner forwards.
- Snapshot IDs are unique where marks are normalized; for a diff extraction they
  are full hexadecimal IDs, and paths hold no NUL (`DiffRequests.Reported`).
- Strings are valid UTF-8, so comparing bytes and comparing characters agree;
  lengths are byte lengths where the code takes `len`.
- Case folding is any function on characters; agreement of the LIKE prefilter
  with the scorer needs only that it never yields an ASCII capital. Which
  characters are white space is a parameter.
- SHA-256 is a function whose first sixteen hex digits are used and about which
  nothing else is known. Time is opaque; a deadline is one more cancellation.
- Storage, restic and file-system calls may fail at any point, streams may break
  off, and other processes may add files during an extraction; in a world that is
  `calm` none of this happens, and success is then stated both ways. Clean-up
  after a publish is best effort.
- Restic restores the snapshot and subtree that its arguments name into the
  target they name. It reads the pattern file, when an argument names it, by
  lines, trims them, skips blank ones and comments and expands variables; it
  matches a pattern element by element from the root with filepath.Match,
  restores what it selects and the directories above that. Expansion leaves text without a dollar sign alone, and white space
  is neither a slash nor a pattern character.
- Nothing but the extraction puts files at or below its staging path.

## Where the code differs from what is said about it

- **A late result can end a later extraction.** The comment on routing run
  results (internal/tui/app.go:325) says late messages of an earlier modal are
  rejected; the code rejects them only while no modal is open, and generations
  restart at zero with every modal. What the modal promises holds in all its
  runs if and only if no run is in flight when it opens
  (`ExtractRuns.OpeningAtZeroIsSafe`); for generations that went on instead of
  restarting, if and only if none in flight has reached the new modal's
  (`ExtractRuns.SafeToOpenExactly`). `ExtractRuns.StaleResultEndsPair` is a run
  that the file system can grant: for any two-sided extraction, an abandoned
  extraction of the first side's source outside the pair reports success late,
  and the second side shows success while it is still being restored.
- **A single include is not budgeted.** The command line stays within its budget
  unless there is exactly one include and that one is over it by itself
  (`IncludeArgs.BudgetHolds`, `IncludeArgs.SingleIncludeSkipsBudget`).
- **Duplicate diff records must agree on being a directory.** Permuting records
  leaves the diff tree as it is exactly when they do
  (`DiffTree.OrderDoesNotMatter`, `DiffTree.OrderMattersOtherwise`); a file that
  is gone and a new directory of its name do not
  (`DiffTree.DuplicatesMayDisagree`). The extract
  selection has no such condition (`DiffExtract.IncludesIgnoreOrder`).
- **A changed path below a non-directory record can be hidden.** A row shows
  under every filter that enables it or something below it exactly when it is a
  directory row or nothing below it adds a kind (`DiffView.VisibleIffEnabled`),
  and every enabled change can be reached exactly when no file record lies above
  another record (`DiffView.AllReachableExactly`). `DiffView.HiddenUnderFile`
  gives two records for which neither holds.
- The branch of allocSID that reuses an uncommitted reservation
  (internal/browsedb/index.go:116-121) never finds one, since a reservation
  lives and dies with its transaction.

## Model

| member | source | states |
|---|---|---|
| Paths.CleanUndoesRender | internal/model/browse.go:63-71 | cleaning the string of a clean path gives that path back, so paths and their strings determine each other |
| Paths.RenderInjective | internal/model/browse.go:61-71 | two clean paths with the same string are the same path |
| Paths.CleanIsIdempotent | internal/model/browse.go:61-71 | cleaning twice is cleaning once |
| Paths.RenderJoins | internal/model/browse.go:73-80 | a child's string is its parent's joined with its name, also below the root |
| Paths.SameParentExact | internal/browsedb/index.go:189-201 | the byte comparison behind the parent cache is true exactly when the cached directory is the path's parent |
| Paths.SubtreeRangeExact | internal/browsedb/queries.go:81-88 | equality or the half-open byte range selects exactly the directories at or below the requested one, the root included |
| Paths.UnderBytesExact | internal/model/diff.go:452-456 | the prefix comparison on strings is containment of paths |
| Paths.CleanJoin | internal/app/extract_metadata.go:169 | cleaning a joined path resolves the second part element by element from the cleaned first |
| Paths.CleanJoinComponent | internal/app/extract.go:298-303 | joining one component onto any rooted directory appends it to the cleaned directory |
| Sorting.PlaceIsMonotone | internal/browsedb/queries.go:354 | in a sorted list, from its place on an element precedes everything, so binary search on that condition is sound |
| Sorting.StableSortSorts | internal/model/fuzzy.go:125-127 | under a strict weak order the sort is a sorted permutation |
| Sorting.StableSortKeepsTieOrder | internal/model/fuzzy.go:125-127 | elements that tie keep their order |
| Sorting.SortedUnique | internal/model/diff.go:419-424 | where distinct elements never tie, a sorted permutation is unique |
| Sorting.StrLessExact | internal/model/fuzzy.go:110 | one string is less than another exactly when it is a proper prefix of it, or has the smaller character where they first differ |
| BrowseRows.ParentDidSelectsChildren | internal/browsedb/queries.go:21-26 | over any committed history, filtering by directory ID alone returns exactly one snapshot's nodes of one directory, in arrival order |
| BrowseRows.SidSelectsCommit | internal/browsedb/queries.go:32-36 | filtering by snapshot ID returns exactly that snapshot's nodes |
| BrowseRows.DirRowLookup | internal/browsedb/queries.go:18-19 | snapshot ID with path, and directory ID alone, are both keys of the directory table, and the row found holds the recursive size |
| IndexFold.InternOne | internal/browsedb/index.go:154-168 | interning a directory after its parent keeps IDs contiguous, parents before children and every entry's parent ID right |
| IndexFold.IdsStable | internal/browsedb/index.go:150-153 | interning more never moves an ID already given |
| IndexFold.FoldedComplete | internal/browsedb/index.go:273-282 | when the backward pass reaches a directory its counter is already its recursive total |
| IndexFold.FoldOneStep | internal/browsedb/index.go:276-282 | one iteration brings every directory's counter from what it holds before that index to what it must hold after |
| IndexFold.AcceptNode | internal/browsedb/index.go:210-252 | an accepted node extends the tables-to-be to those of the longer node list: directories known, bytes credited, row appended |
| BrowseIndex.DB.FindSnapshot | internal/browsedb/queries.go:43-54 | finds a row exactly when an index for the pair was committed, and then it is marked indexed |
| BrowseIndex.DB.MaxDid | internal/browsedb/index.go:139-146 | no committed directory ID exceeds the result |
| BrowseIndex.IndexTx.EnsureCleanDir | internal/browsedb/index.go:148-169 | afterwards the path and all its ancestors are interned and nothing else is new, and the returned ID is the path's |
| BrowseIndex.IndexTx.ParentDID | internal/browsedb/index.go:171-182 | returns the parent's ID whether the cache hits or misses, and leaves the cache holding an interned directory |
| BrowseIndex.IndexTx.PlaceDir | internal/browsedb/index.go:214-228 | a directory node is interned, its parent's ID returned, and it becomes the cached parent |
| BrowseIndex.IndexTx.Place | internal/browsedb/index.go:214-231 | the directories the node makes are known, and exactly its parent is credited with its bytes if it is no directory |
| BrowseIndex.IndexTx.Flush | internal/browsedb/index_insert.go:56-72 | moves the buffered rows to the written ones in order and counts them, or records the failure that every later call returns |
| BrowseIndex.IndexTx.Add | internal/browsedb/index.go:203-268 | on success the accepted nodes grow by the cleaned node, or by nothing for the root record; the first failure is returned ever after and nothing more is accepted |
| BrowseIndex.IndexTx.FoldSubtreeSizes | internal/browsedb/index.go:273-286 | every directory's size becomes the sum of the sizes of all non-directory nodes at any depth below it, whatever the arrival order |
| BrowseIndex.IndexTx.FlushDirs | internal/browsedb/index_insert.go:74-90 | chunked writing sends every buffered directory once, in order, or fails |
| BrowseIndex.IndexTx.Prepare | internal/browsedb/index.go:307-325 | before the marker is set, the written rows and directories are exactly those of the index being committed |
| BrowseIndex.IndexTx.Commit | internal/browsedb/index.go:304-339 | success appends exactly this index to the history and records the accepted count; any failure leaves all tables as they were; none when nothing fails |
| BrowseIndex.HistorySnoc | internal/browsedb/index.go:304-339 | a fresh commit keeps snapshot IDs, keys and directory ID ranges of the history disjoint |
| BrowseIndex.AllocSid | internal/browsedb/index.go:105-136 | an ID that no commit has, and only for a pair not committed; any failure but a storage failure is that the pair is committed |
| BrowseIndex.BeginIndex | internal/browsedb/index.go:76-103 | a begun transaction is consistent, empty and new to the database; only storage failures refuse a pair that is not committed |
| BrowseIndex.KeptExact | internal/browsedb/index.go:203-212 | the nodes accepted from a stream are its records but the root's, in order, each with its path cleaned and nothing else changed |
| BrowseIndex.IndexSnapshot | internal/app/browsesession.go:187-258 | an early end, an incomplete stream or a failure changes nothing; success means the pair is committed, by this call only from a complete stream and with every node of it; a committed pair is left alone; when nothing fails, the pair ends up committed exactly if it was or the stream is complete |
| BrowseQueries.ListingIsChildren | internal/browsedb/queries.go:94-97 | the meaning of a listing: a permutation of the nodes whose cleaned parent is the directory, directories first, then by folded name and name |
| BrowseQueries.ListingMeans | internal/browsedb/queries.go:94-158 | a listing spelled out: as many entries as the directory has nodes, each with its node's name, type and time under the directory's path, files with their own size and directories with the total below, directories first and then by folded name and name |
| BrowseQueries.EntryPathIsNodePath | internal/browsedb/queries.go:131-133 | the path rebuilt from parent and name is the node's own, and a directory shows the total below it |
| BrowseQueries.CommittedSid | internal/browsedb/queries.go:56-58 | answers exactly for committed pairs, with that commit's ID |
| BrowseQueries.DidOf | internal/browsedb/queries.go:15-19 | finds an ID exactly for the directories the snapshot's nodes make |
| BrowseQueries.OrderedRows | internal/browsedb/queries.go:21-26 | the ordered rows of one directory ID are the rows of the directory's nodes in display order |
| BrowseQueries.DirSizes | internal/browsedb/queries.go:270-284 | every size returned is the recursive total, and every requested path with a positive total is returned, however the list is chunked |
| BrowseQueries.FillDirSizes | internal/browsedb/queries.go:242-268 | directories get their recursive totals, zero included, and files keep their sizes |
| BrowseQueries.ListDir | internal/browsedb/queries.go:94-158 | a listing that does not fail is the directory's listing by meaning for the committed pair, and empty for a pair not committed; it does not fail when storage does not |
| BrowseSearch.JoinDir | internal/browsedb/queries.go:33-35 | the join on a row's parent ID yields the row of the node's parent directory of the same snapshot |
| BrowseSearch.SubtreeCounts | internal/browsedb/queries.go:68-92 | known exactly when committed, and then the numbers of file-typed and of directory nodes below the directory, itself excluded; it does not fail when storage does not |
| BrowseSearch.TopMatches | internal/browsedb/queries.go:173-224 | the scan ends with the count of all matches and the first `limit` of their stable sort |
| BrowseSearch.Search | internal/browsedb/queries.go:160-237 | rows are matches of the query with directories sized, at most 200, each no worse than those after it and than every match left out (score, then length, then path); total is the number of nodes whose name matches; blank queries and unindexed pairs give nothing; it does not fail when storage does not |
| BrowseSearch.SearchAgreesWithRanking | internal/model/fuzzy.go:113-136 | streaming search picks the rows that ranking all of the snapshot's entries in memory would pick, in the same order |
| BrowseSearch.BestIsFound | internal/model/fuzzy.go:99-111 | the rows found, in terms of scores, lengths and paths alone: an earlier row is no worse than a later one, and no match left out is better than a row |
| Fuzzy.GreedyIsLeftmost | internal/model/fuzzy.go:55-85 | no way of spelling the query in the name is anywhere to the left of the greedy one |
| Fuzzy.ScorerExact | internal/model/fuzzy.go:42-88 | the scorer succeeds exactly when a non-empty query can be spelled by increasing positions, and returns the leftmost such positions |
| Fuzzy.FuzzyScore | internal/model/fuzzy.go:46-88 | the loop computes those positions and the sum of their bonuses less the length penalty |
| Fuzzy.MatchIsWeighted | internal/model/fuzzy.go:14-21 | a score is 16 for each matched rune, 16 more at the start of the name, 8 more right after the one before, 8 more after a separator, 2 more in the same case, less one for each rune of the name |
| Fuzzy.LikeIsSubsequence | internal/browsedb/queries.go:330-345 | the escaped LIKE pattern matches exactly the strings that contain the query as a subsequence, up to ASCII case |
| Fuzzy.PrefilterAgrees | internal/browsedb/queries.go:28-36 | LIKE on folded names, the scorer and the folded subsequence relation accept the same names |
| Fuzzy.LikeSubsequence | internal/browsedb/queries.go:332-345 | the loop builds the pattern with every metacharacter escaped |
| Fuzzy.BetterFuzzyIsStrictWeak | internal/model/fuzzy.go:99-111 | the ranking is a strict weak order |
| Fuzzy.RankTiesOnPath | internal/model/fuzzy.go:99-111 | entries with different paths never tie |
| Fuzzy.SearchPlace | internal/browsedb/queries.go:354 | the binary search finds the first entry the candidate outranks |
| Fuzzy.InsertTopN | internal/browsedb/queries.go:347-364 | the result is the stable insertion cut at the limit, in all three branches |
| Fuzzy.TopNSnoc | internal/browsedb/queries.go:347-364 | dropping what falls off early never changes the first `limit` of the whole sort |
| Fuzzy.StreamTopN | internal/browsedb/queries.go:223 | streaming any sequence with limit at least one ends with the first `limit` elements of its stable sort |
| Fuzzy.RankFuzzy | internal/model/fuzzy.go:113-136 | in-memory ranking returns the stable sort of all matches, cut when a limit is given, and nothing for a blank query: an earlier row's score is at least a later one's, ties go to the shorter name and then the lesser path, and no match left out beats a listed one |
| Fuzzy.TopIsBest | internal/model/fuzzy.go:99-136 | the first `limit` of the stable sort are, in those terms, the best matches |
| SessionInvariant.InitialInv | internal/app/browsesession.go:65-84 | the invariant holds before anything has happened, with any number of operations and Close calls waiting |
| SessionInvariant.EnsCheckKeeps | internal/app/browsesession.go:90-101 | looking at the store under mu keeps the invariant in all three branches |
| SessionInvariant.EnsInstallKeeps | internal/app/browsesession.go:112-119 | installing the opened store, or closing it when the session was closed meanwhile, keeps the invariant |
| SessionInvariant.OpRegisterKeeps | internal/app/browsesession.go:132-140 | registering the cancel handle or aborting keeps the invariant |
| SessionInvariant.TxRollbackKeeps | internal/app/browsesession.go:233-238 | the deferred rollback keeps the invariant, also after a failed commit has already rolled back |
| SessionInvariant.ClMarkKeeps | internal/app/browsesession.go:167-170 | marking closed and taking the handle in one critical section keeps the invariant |
| SessionInvariant.ClCloseKeeps | internal/app/browsesession.go:175-184 | closing the store under both locks keeps the invariant |
| SessionInvariant.NextKeepsInv | internal/app/browsesession.go:89-258 | every statement of every thread, and every outside cancellation, keeps the invariant |
| BrowseSession.Safety | internal/app/browsesession.go:65-258 | in every interleaving at most one store is open, none is used after closing or closed twice, a running operation's store stays open, every transaction begun ends in one commit or one rollback, and the memory trim holds no lock |
| BrowseSession.DrainedState | internal/app/browsesession.go:162-185 | when any Close has returned there is no store, no transaction and no registered operation |
| BrowseSession.ClosedForGood | internal/app/browsesession.go:162-185 | and none is ever opened again, whatever runs afterwards |
| BrowseSession.WaitingCloseIsServed | internal/app/browsesession.go:129-178 | a Close waiting for opMu waits for an operation already cancelled, one that will see the closed flag, one that is only releasing, or another Close; no holder of mu waits for opMu |
| BrowseSession.SomeoneCanRun | internal/app/browsesession.go:129-178 | while some call has not returned, some thread can move |
| BrowseSession.RunsAreBounded | internal/app/browsesession.go:129-258 | every run is finite, bounded by the threads it starts with |
| BrowseSession.RunsEndClean | internal/app/browsesession.go:129-258 | a run that cannot go on has all calls returned, both locks free, no open transaction and, with a Close among them, no open store |
| SessionOutcomes.StepMeans | internal/app/browsesession.go:89-258 | statement by statement: an operation gives up preparing exactly when the session is closed at a check, the store does not open or the caller has cancelled; only indexing begins a transaction, and it commits only at the end of its stream; every other end is one rollback; Close cancels the registered operation and no other |
| SessionOutcomes.CommitsAreWhole | internal/app/browsesession.go:187-258 | in every run as many transactions are committed as there are operations that committed, each of these had streamed every node, and only they trim, when large |
| DiffModel.ParseModifier | internal/model/diff.go:201-223 | the kinds are those of the markers present, the primary type follows the precedence, and unknown says exactly that some character is none of the six markers |
| DiffModel.MarkersRoundTrip | internal/model/diff.go:156-179 | the canonical marker string parses back to the kinds it was made from |
| DiffModel.MarkersMeaning | internal/model/diff.go:181-223 | the same in terms of the marker characters alone |
| DiffModel.KindsAtMembers | internal/model/diff.go:382-391 | a path's merged kinds are exactly the kinds of its records |
| DiffModel.RecordsPermute | internal/model/diff.go:382-391 | merged kinds, mention and ancestry do not depend on the order of records |
| DiffTree.TreeBuilder.Ensure | internal/model/diff.go:334-369 | updates exactly one row, by the merge rules when it exists and otherwise fresh and listed under its parent |
| DiffTree.RowSnoc | internal/model/diff.go:335-355 | merging one more record into a row gives the row of the longer list of records |
| DiffTree.TreeBuilder.Record | internal/model/diff.go:371-380 | after each record, rows and listings are those of the records seen, and the rows are exactly the paths at or above a record |
| DiffTree.MergeKinds | internal/model/diff.go:382-391 | the merged kinds of every mentioned path, and each path once in the order list |
| DiffTree.Aggregates | internal/model/diff.go:392-403 | for every directory, each kind's field is the number of distinct paths strictly below whose merged kinds contain that kind |
| DiffTree.BuildDiffTree | internal/model/diff.go:326-428 | each listing holds exactly the rows that belong under its directory, once, directories first and then by name, with their aggregates, whose fields are the numbers of paths below that changed so |
| DiffTree.RowAppearsOnce | internal/model/diff.go:357-380 | every path at or above a record is one row, in its parent's listing only |
| DiffTree.RowMeans | internal/model/diff.go:334-369 | a row spelled out: named after its path's end, a directory when its last record says so or it has none, with the kinds of all its records |
| DiffTree.ListingOrder | internal/model/diff.go:419-424 | a listing shows directories first and names in byte order |
| DiffTree.TreeUnique | internal/model/diff.go:405-427 | the tree is determined by each path's row and merged kinds |
| DiffTree.TreeExists | internal/model/diff.go:326-428 | every list of records has such a tree, so what is said of it is never empty |
| DiffTree.OrderDoesNotMatter | internal/model/diff.go:336-355 | permuting records changes nothing when records of one path agree on being a directory |
| DiffTree.OrderMattersOtherwise | internal/model/diff.go:351-354 | when two parsed records of a path disagree, two orders of the same records have trees that differ |
| DiffTree.DuplicatesMayDisagree | internal/model/diff.go:351-354 | such parsed records: a file that is gone and a new directory of its name |
| DiffView.EnabledKindsExact | internal/model/diff.go:110-132 | a kind is enabled exactly when the filter has it and its counter is positive |
| DiffView.VisibleExact | internal/tui/snapshotdiff.go:399-409 | a tree row is visible exactly when its kinds meet the filter or it is a directory row with an enabled record below |
| DiffView.VisibleIffEnabled | internal/tui/snapshotdiff.go:399-409 | under every filter visible means enabled at or below, if and only if the row is a directory or nothing below adds a kind |
| DiffView.EnabledIsReachable | internal/tui/snapshotdiff.go:366-409 | every enabled change is reached from the root through visible directory rows when no file record lies above another record |
| DiffView.AllReachableExactly | internal/tui/snapshotdiff.go:366-409 | every enabled change is reached under every filter if and only if no file record lies above another record |
| DiffView.HiddenUnderFile | internal/tui/snapshotdiff.go:399-409 | two parsed records, a file that is gone and a new path below it: under a filter for what was added the first row is hidden although the second is enabled, and cannot be reached |
| DiffView.RebuildDiffRows | internal/tui/snapshotdiff.go:364-397 | rows are the directory's visible rows in tree order, and the cursor is on the requested path when visible, else where the cache says |
| DiffView.ExistingDiffDir | internal/tui/snapshotdiff.go:295-320 | the deepest directory of the tree at or above the requested one |
| DiffView.AcceptDiffSearch | internal/tui/snapshotdiffsearch.go:74-91 | accepting a hit that the filter enables opens its parent directory with the cursor on the hit, when no file record lies above another record |
| DiffSearch.MergeRecords | internal/tui/snapshotdiffsearch.go:134-153 | the separate merge holds, for each mentioned path, its merged kinds, first marker, any directory flag and whether it was repeated |
| DiffSearch.SameAsTreeRow | internal/tui/snapshotdiffsearch.go:163-175 | a search row has the kinds, type and marker of the tree row; the directory flags agree exactly when the last record of a path with a directory record is one |
| DiffSearch.RankDiffSearchRows | internal/tui/snapshotdiffsearch.go:128-195 | the rows are the best hits by score, length and path, no unlisted hit is better than a listed one, each path once, and total counts all hits |
| DiffExtract.MergeUnder | internal/model/diff.go:458-472 | merged kinds and directory flags of exactly the mentioned paths under the root |
| DiffExtract.Covered | internal/model/diff.go:488-495 | climbing while under the root finds exactly whether some selected pure directory lies strictly above |
| DiffExtract.DiffExtractIncludes | internal/model/diff.go:443-524 | on each side the count is the number of eligible distinct paths and the list is exactly the eligible paths not below a selected pure directory, sorted; eligible on the first side is having an enabled kind other than added, on the second other than removed |
| DiffExtract.SidesExactly | internal/model/diff.go:438-524 | in terms of records: a modified path is counted and brought on both sides, an added one on the second only, a removed one on the first only, unless it is a directory both sides have |
| DiffExtract.EligibleIsRestored | internal/model/diff.go:443-447 | every eligible path is listed or lies below a listed directory that only its side has |
| DiffExtract.ListedIsMinimal | internal/model/diff.go:443-447 | no listed path lies below a selected pure directory, and a listed directory exists on one side only |
| DiffExtract.IncludesDependOnMerge | internal/model/diff.go:446-447 | the result is determined by each path's merged kinds and directory flag |
| DiffExtract.IncludesIgnoreOrder | internal/model/diff.go:446-447 | reordering or repeating records changes nothing |
| DiffExtract.ListedIsPlannable | internal/app/extract.go:250-259 | planning accepts every listed path as an include of the selected root |
| DiffRequests.DiffIncludesOverBudget | internal/tui/snapshotdiff.go:494-505 | reports exactly the lists that planning would refuse for their number or byte length |
| DiffRequests.OpenDiffExtract | internal/tui/snapshotdiff.go:419-492 | selects by the set-theoretic definition and opens one tree extraction per non-empty side, removed and changed paths from the older snapshot and added and changed ones from the newer, into the one directory named after the pair, or gives the first reason not to, IDs shorter than eight characters among them |
| DiffRequests.OpensExactly | internal/tui/snapshotdiff.go:423-492 | an extraction opens exactly when something is selected within the limits, both names leave a slug, the short IDs differ and the target root is absolute; no other refusal is possible |
| DiffRequests.OpenedIsPair | internal/tui/extract.go:191-233 | what was opened plans on every side, shares one pair directory, and its two sides publish apart, so the modal's run theorems apply |
| DiffRequests.SidesApart | internal/app/extract.go:296-303 | neither side of a pair publishes at or below the other |
| DiffRequests.EligibleIsSelected | internal/tui/snapshotdiff.go:455-473 | every eligible path that the side's snapshot has is selected for restoring |
| DiffRequests.SelectedIsChanged | internal/model/diff.go:443-447 | no unchanged file is restored: what is selected is eligible or lies below a directory only this side has |
| DiffRequests.EligibleIsPublished | internal/app/extract.go:296-303 | after a side is extracted, each eligible path is under the pair directory and the side's short ID, followed by its own path, as it was |
| ExtractPlan.SanitizeExtractSlug | internal/app/extract.go:173-199 | keeps slug characters, turns each other run into one dash, trims leading dashes and dots, cuts at 64, and refuses an empty result |
| ExtractPlan.SlugCharExact | internal/app/extract.go:181 | the characters kept are the ASCII letters and digits, dot, underscore and dash |
| ExtractPlan.SlugIsComponent | internal/app/extract.go:173-199 | a slug is a safe path component that starts with neither dash nor dot, and slugging it again keeps it |
| ExtractPlan.DashedRuns | internal/app/extract.go:173-199 | slug characters stay, and each run of others becomes one dash |
| ExtractPlan.SlugExact | internal/app/extract.go:173-199 | a slug is what is left of that without leading dashes and dots, up to 64 characters; text that is already so is its own slug |
| ExtractPlan.RepoDirIsJoin | internal/app/extract.go:298 | joining the slug onto any absolute root is the cleaned root with the slug appended |
| ExtractPlan.StagingNameIsComponent | internal/app/extract.go:305-318 | the staging name is one hidden path component |
| ExtractPlan.PlanSplits | internal/app/extract.go:201-294 | whether a request plans is its own fields being right and the root it runs under being absolute; privilege plays no part |
| ExtractPlan.AcceptedExactly | internal/app/extract.go:201-347 | validation and the mode gate accept exactly the requests with a sluggable repository, a full ID that its short ID begins, no pair or one of this snapshot and another, a clean source, few enough clean includes below it, the name derived from the source, an absolute root, and a mode that fits the node |
| ExtractPlan.TotalAdds | internal/app/extract.go:249-259 | the bytes of a list of includes are the sum of theirs |
| ExtractPlan.PlanSpelled | internal/app/extract.go:296-318 | the staging and final path of a planned request, element by element |
| ExtractPlan.PairDirSpelled | internal/app/extract.go:296-303 | the directory of a pair is the root, the slug and the container |
| ExtractPlan.FinalParts | internal/app/extract.go:296-303 | a final path is the repository directory, the container if any, the short ID, then the source |
| ExtractPlan.FinalsDistinct | internal/app/extract.go:296-303 | two requests of one repository share a final path exactly when container, short ID and source are the same |
| ExtractPlan.StagingApart | internal/app/extract.go:312-318 | no staging path lies at, below or above any final path |
| ExtractPlan.StagingShared | internal/app/extract.go:305-318 | two requests share a staging path exactly when short ID and slug agree and the hash does not tell them apart |
| IncludeArgs.LiteralIncludePattern | internal/resticx/extract_tree.go:303-317 | the loop escapes every metacharacter and nothing else |
| IncludeArgs.EscapedMatchesOnlyItself | internal/resticx/extract_tree.go:303-317 | under filepath.Match an escaped path matches that path and no other string |
| IncludeArgs.EscapeKeepsComponents | internal/resticx/extract_tree.go:303-317 | escaping a path escapes it component by component |
| IncludeArgs.CheckParams | internal/resticx/extract_tree.go:236-252 | reports the first failing check in the code's order |
| IncludeArgs.InvalidExactly | internal/resticx/extract_tree.go:236-252 | which error a request gets: for an ID that is no 64 digits, else for a subtree that is no clean path, else for an include that is none, else for a target that is not absolute |
| IncludeArgs.SplitIncludes | internal/resticx/extract_tree.go:274-288 | unsafe patterns become flags and the rest file lines, each in order; refused exactly when the flags would exceed the budget |
| IncludeArgs.SplitExactly | internal/resticx/extract_tree.go:274-301 | with more than one include, exactly the paths with a dollar sign, a line break or white space at an end go on the command line, all others into the file |
| IncludeArgs.BuildExtractTreeArgs | internal/resticx/extract_tree.go:231-294 | invalid requests give their first error, overflow exactly over budget, and otherwise the arguments that the round trip below reads back; the includes read from the built command line cost more than the budget exactly for one single include over it by itself |
| IncludeArgs.DeliveryRoundTrip | internal/resticx/extract_tree.go:271-301 | reading the pattern file back line by line and the command line's flags gives together exactly the escaped includes, as a multiset |
| IncludeArgs.BudgetHolds | internal/resticx/extract_tree.go:271-287 | the includes read back from the built command line are within the budget, exactly unless one single include is over it by itself |
| IncludeArgs.SingleIncludeSkipsBudget | internal/resticx/extract_tree.go:271-273 | a valid request for one path of short elements whose command line is over the budget |
| Normalize.RelGoesUp | internal/app/extract_metadata.go:170-171 | a relative path starts with two dots exactly when its target is outside the root |
| Normalize.UnsafeExact | internal/app/extract_metadata.go:159-175 | unsafe is exactly empty, holding NUL, absolute, or resolving lexically outside the root |
| Normalize.FinishedMeans | internal/app/extract_metadata.go:177-202 | finished, spelled out: links that point out are kept, gone, or private text files holding their target and a newline, as the policy says; all else is as it was |
| Normalize.DescendingIsSafe | internal/app/extract_metadata.go:159-175 | a relative target without a parent element is safe |
| Normalize.Walk.ReadDirSorted | internal/app/extract_metadata.go:127-143 | the names are exactly the directory's children, each once, sorted |
| Normalize.Walk.ApplyUnsafeSymlinkPolicy | internal/app/extract_metadata.go:177-202 | touches only the link: kept, gone, or an inert text file with its target; on failure it is one of these or gone |
| Normalize.Walk.NormalizeChild | internal/app/extract_metadata.go:46-86 | on success everything at or below the child is finished and each node class is counted; on failure all but unsafe links is as before, and so is every directory whose own chmod back did not fail |
| Normalize.Walk.NormalizeLink | internal/app/extract_metadata.go:57-67 | a link is judged by its own directory, counted only when unsafe, and never followed |
| Normalize.Walk.VisitChildren | internal/app/extract_metadata.go:110-120 | after the children's loop all of them are finished and counted, or the walk stopped with the subtree kept |
| Normalize.Walk.NormalizeDir | internal/app/extract_metadata.go:88-125 | a widened directory has its own mode back on every exit unless its own chmod back fails, whatever happened to others; only widened directories at or below it can be left so, and success means none is |
| Normalize.NoUnsafeLeft | internal/app/extract_metadata.go:177-202 | a finished tree has no unsafe link unless the policy keeps them |
| Normalize.ModesBack | internal/app/extract_metadata.go:88-109 | in a kept tree every directory is as it was unless its own mode did not go back, and then it is left widened |
| Normalize.NormalizeExtractTreeMetadata | internal/app/extract_metadata.go:25-44 | on every exit only unsafe links changed and every directory is as restored but those whose own chmod back failed, which lacked an owner bit and are left with all three; on success there are none of these, the counts are the numbers of files, directories, links pointing out and special nodes, and no such link remains unless kept; it succeeds when no call fails |
| ExtractRestore.RebaseExact | internal/app/extract.go:569-579 | rebasing an include string replaces the source's path by its last element |
| ExtractRestore.ParamsAreValid | internal/app/extract.go:557-582 | whatever planning accepts, restic's argument checks accept after rebasing |
| ExtractRestore.WantedRebased | internal/app/extract.go:569-580 | the rebased includes select exactly the rebased paths |
| ExtractRestore.StagingMirrors | internal/app/extract.go:557-582 | staging holds each selected path at its rebased place, unchanged, and no other path of the source |
| ExtractRestore.RestoredIsTree | internal/app/extract.go:557-582 | a filtered restore is a well-formed tree: every node's parents are directories of it |
| ExtractRestore.SelectsExact | internal/resticx/extract_tree.go:303-317 | matched element by element, the escaped pattern of a path selects exactly what lies at or below that path |
| ExtractRestore.DeliveredExactly | internal/resticx/extract_tree.go:271-301 | the patterns of a list of includes, in any order, select and lead to exactly the snapshot paths that the includes want |
| ExtractRestore.BaseArgsReadBack | internal/resticx/extract_tree.go:253-269 | the snapshot ID, the subtree, the target and the overwrite mode read back from the built command line are those asked for |
| ExtractRestore.FileIsNamed | internal/resticx/extract_tree.go:289-293 | the command line names the pattern file exactly when there are patterns in it |
| ExtractRestore.DeliveryRestores | internal/app/extract.go:557-582 | rebased, escaped, split between file and flags, read back and matched, the arguments restore exactly the tree the request asks for, from its snapshot, into the staging directory, without a lock and with the cache |
| ExtractPipeline.RestoreTree | internal/app/extract.go:457-466 | builds the arguments and runs restic on them, which restores what they say to where they say: nothing but staging changes, success leaves there exactly the tree the request asks for, and too many flags fail with nothing restored |
| ExtractPipeline.FileSystem.LinkNode | internal/app/extract.go:544-555 | publishes a non-directory or changes nothing, and never replaces anything |
| ExtractPipeline.FileSystem.RenameDir | internal/app/extract.go:499-531 | moves the whole subtree or nothing, leaves the rest of staging, and replaces at most an empty directory |
| ExtractPipeline.PublishExtract | internal/app/extract.go:499-542 | success puts exactly the node's subtree at the final path, which was absent before; failure leaves staging; nothing present before is lost; when no call fails and nobody interferes, success is exactly a free way to a vacant final path and a node of the kind asked for |
| ExtractPipeline.RunExtractPipeline | internal/app/extract.go:429-497 | success means staging was new, the restored tree of the request's snapshot was normalized and exactly that was published, with the counts of the restored tree, and in file mode no directory; unless staging was created by this call it is untouched, whatever the error; too many flags never succeed; when no call fails and nobody interferes, success is exactly that and vacant staging, includes within the budget and a node that is not dropped as an unsafe link |
| ExtractPipeline.Mirror | internal/app/extract.go:296-303 | the mirror theorem: a selected snapshot path p is at the snapshot directory followed by p, unchanged or, for an unsafe link, as the policy says, and a path not selected is not there |
| ExtractPipeline.Extract | internal/app/extract.go:349-407 | success gives the mirror for every snapshot path of the source, counts files, directories, links pointing out and special nodes of the restored tree exactly and touches nothing present before; a request is refused as invalid exactly when it is not acceptable, which changes nothing and names its field; nothing is ever put at or below the staging path but staging itself; when no call fails and nobody interferes, an acceptable request succeeds exactly under the same conditions |
| ExtractScreen.ExtractModel.constructor | internal/tui/extract.go:191-233 | opening a pair or a single request gives a system that satisfies the invariant of all runs: at review on the first request with the others waiting, nothing published or busy, counting a lone directory |
| ExtractModal.SupersedeKeepsFlight | internal/tui/extract.go:235-242 | from any state but a running one, superseding work and going back leaves nothing in flight that a later state could take for its own |
| ExtractModal.CommitStarts | internal/tui/extract.go:316-342 | starting a run from review puts in flight the one command that the running state waits for, and nothing older can be taken for it |
| ExtractScreen.ExtractModel.TakeRunDone | internal/tui/extract.go:461-487 | every result keeps the invariant: a stale one changes nothing, a failure stops as canceled exactly when interrupted and is recorded, a success is recorded, completes this side and runs the next at once under the same root and privilege, and after the last all sides opened are completed |
| ExtractScreen.ExtractModel.Advance | internal/tui/extract.go:489-508 | with planned sides it never fails: the next side runs, under the root and privilege of the one before, with its one command in flight |
| ExtractScreen.ExtractModel.TakeSudoProbe | internal/tui/extract.go:641-660 | keeps the invariant; only a busy review of the same generation reacts: a ready probe starts the run, one that needs it asks for the password, any other makes the review ready again |
| ExtractScreen.ExtractModel.TakeSudoAuth | internal/tui/extract.go:662-673 | keeps the invariant; only a busy review of the same generation reacts: successful authentication starts the run, a failure makes the review ready again |
| ExtractScreen.ExtractModel.PlanOverrideAllSides | internal/tui/extract.go:774-798 | retargets every side and the pair directory, or changes nothing; it succeeds exactly when every side replans to vacant paths |
| ExtractScreen.ExtractModel.PickTarget | internal/tui/extract.go:755-767 | a directory under which every side plans to free paths becomes the root of all, with the paths and the pair directory that follow, and returns to review; any other leaves the modal as it is |
| ExtractScreen.ExtractModel.Press | internal/tui/extract.go:545-772 | any key in any state is a step of the runs below, keeps the invariant, completes, adds or drops no side, and starts exactly the work it is for: a run only enter on an unprivileged review, a probe only enter on a privileged one, a deletion only the delete key with staging left behind, the way back only back, or keep with staging left |
| ExtractKeys.KeyMeaning | internal/tui/extract.go:545-772 | what every key sends and shows, without regard to how the handlers branch |
| ExtractKeys.PickMeaning | internal/tui/extract.go:755-798 | what a chosen directory leads to, spelled out for every side |
| ExtractKeys.OpenMeaning | internal/tui/extract.go:150-275 | what a modal opens with |
| ExtractKeys.SudoMeaning | internal/tui/extract.go:641-673 | what a probe and an authentication lead to |
| ExtractKeys.OtherMeaning | internal/tui/app.go:324-382 | known counts of this generation are shown, a finished deletion goes back, going back closes the modal |
| ExtractModal.ReplanSucceeds | internal/tui/extract.go:489-501 | replanning the next side under the shared root and privilege cannot fail, so the error branch is never taken |
| ExtractModal.LastSideKeeps | internal/tui/extract.go:461-487 | a result of the last side, or a failure, keeps all sides accounted for and starts nothing |
| ExtractModal.NextSideKeeps | internal/tui/extract.go:461-508 | a success with sides left runs the next one at once under the same root and privilege |
| ExtractModal.KeyKeeps | internal/tui/extract.go:570-772 | no key completes, reorders or loses a side, or splits the target after something was published |
| ExtractModal.KeyKeepsFlight | internal/tui/extract.go:545-772 | after any key in any state, what the new state waits for is in flight, and no stale run result could be taken for it |
| ExtractModal.OpenKeeps | internal/tui/extract.go:191-233 | opening a planned request or pair establishes the invariant |
| ExtractModal.TakeKeeps | internal/tui/app.go:324-382 | every message in flight keeps the invariant, unless it is an earlier modal's run result with this modal's generation |
| ExtractModal.NextKeeps | internal/tui/app.go:324-410 | so does every event |
| ExtractRuns.SidesConserved | internal/tui/extract.go:461-508 | in every run whose modals open safely, completed sides, current side and queue are the opened sides in order until success, where completed ones are all; completed sides share root and privilege; review and picker come before anything is published; a running modal awaits the run it started |
| ExtractRuns.SafeToOpenExactly | internal/tui/app.go:324-330 | all of this holds in every run of a modal if and only if, when it was opened, no run in flight had reached the generation it was opened with |
| ExtractRuns.OpeningAtZeroIsSafe | internal/tui/extract.go:191-233 | as modals open, from generation zero, if and only if no run is in flight |
| ExtractRuns.RunKeeps | internal/tui/app.go:324-410 | one run at a time: from any state that satisfies the invariant, opening safely keeps it to the end of every run |
| ExtractRuns.StaleResultEndsPair | internal/tui/app.go:324-330 | with generations restarting at zero, any two-sided extraction has a run whose second side shows success while still running: an abandoned extraction of the same source outside the pair reports late; the extractions that succeed publish apart |
| BrowseScreen.BrowseModel.Start | internal/tui/browse.go:30-70 | entering browse keeps the invariant: everything shown before is gone, the root of the given snapshot comes next by name, and the one index of the new generation is in flight |
| BrowseScreen.BrowseModel.ListDir | internal/tui/browse.go:115-140 | wherever a listing may begin, the screen is left valid: a cached directory shows the store's listing at once, with the cursor on the path asked for if it is there, and ends loading; any other keeps the rows and has its listing in flight |
| BrowseScreen.BrowseModel.ApplyBrowseIndexed | internal/tui/browse.go:97-113 | keeps the invariant; a stale result changes nothing, a failure closes browse, success lists the root |
| BrowseScreen.BrowseModel.ApplyBrowseDir | internal/tui/browse.go:142-164 | keeps the invariant; a stale result changes nothing, a current one ends the loading; a listing is then cached and shown, with the path it was asked for selected if it holds it, and a failure changes nothing else |
| BrowseScreen.BrowseModel.LeaveBrowse | internal/tui/browse.go:166-175 | from any screen: valid, closed, no name kept, and nothing in flight can touch what comes next |
| BrowseScreen.BrowseModel.CycleBrowseSort | internal/tui/browse.go:378-394 | keeps the invariant, the entries shown and the selected path |
| BrowseScreen.BrowseModel.FireBrowseSearch | internal/tui/browsesearch.go:56-75 | after any change of the query the screen is valid again: nothing older can answer, and a query not blank has its own search in flight |
| BrowseScreen.BrowseModel.ApplyBrowseSearch | internal/tui/browsesearch.go:77-97 | keeps the invariant; only the open overlay's current query and generation take a result, which is then shown for that query, or the failure is |
| BrowseScreen.BrowseModel.AcceptBrowseSearch | internal/tui/browsesearch.go:99-123 | keeps the invariant; for a match of the query on screen the search is parked and the directory the match is in is listed, with the cursor on the match once that listing holds it |
| BrowseScreen.BrowseModel.RestoreBrowseSearch | internal/tui/browsesearch.go:125-136 | the parked search comes back as it was, valid, and no listing can still replace what is under it |
| BrowseScreen.BrowseModel.Press | internal/tui/browse.go:220-260 | every key is a step of the runs below, keeps the invariant, and does what it is for: to-parent lists the path's parent with the cursor on the directory left, open the selected directory, accept the directory of the match |
| BrowseKeys.KeyMeaning | internal/tui/browse.go:220-416 | what every key shows and asks for, in terms of paths |
| BrowseKeys.DirOfIsParent | internal/tui/browse.go:413 | the string above a path's is its parent's |
| BrowseKeys.ArrivalMeaning | internal/tui/browse.go:142-164 | a listing that arrives and holds the path it was asked for shows it selected |
| BrowseScreen.BrowseModel.Receive | internal/tui/browse.go:97-164 | so is every message, with what the store answers |
| BrowseScreen.BrowseModel.Run | internal/tui/browse.go:30-218 | the handlers, driven by any sequence of events, compute the run and end in a valid screen |
| BrowseTui.KeyKeeps | internal/tui/browse.go:220-260 | every key keeps the screen coherent and what it waits for in flight |
| BrowseTui.TakeKeeps | internal/tui/browse.go:97-164 | so does every message, of whatever generation |
| BrowseTui.NextKeeps | internal/tui/browse.go:30-218 | so does every event |
| BrowseTui.BrowseIsCoherent | internal/tui/browse.go:30-218 | in every run each cached listing is the store's for the snapshot on screen, rows are that listing in display order, search rows answer the query shown, a loading screen has the message that ends it in flight, searching implies not loading, and a closed browser keeps no names |
| BrowseTui.LoadingEnds | internal/tui/browse.go:97-164 | the awaited message ends the loading, or turns indexing into listing with that listing in flight |
| BrowseTui.OrderIsStrictWeak | internal/tui/arrange.go:103-135 | every sort mode is a strict weak order, unknown times last |
| BrowseTui.DisplayOrder | internal/tui/arrange.go:90-101 | every mode shows the same entries, and sorted when the listing is sorted by name |
| BrowseTui.DisplayMeans | internal/tui/arrange.go:90-135 | every mode spelled out: directories first, then larger sizes or newer known times first and unknown ones last, then folded names, names and paths |
| BrowseStore.ListingIsByName | internal/browsedb/queries.go:21-26 | which every listing of the store is |
| BrowseTui.CycleKeepsSelection | internal/tui/browse.go:378-394 | cycling the sort keeps the cursor on the selected path |
| BrowseStore.List | internal/browsedb/queries.go:94-158 | a listing that does not fail is what the committed history says, for any pair |
| BrowseStore.Find | internal/browsedb/queries.go:160-237 | and so is a search |
| BrowseStore.IndexAnother | internal/app/browsesession.go:187-258 | indexing any pair, however it ends, leaves every listing and search of every indexed snapshot as it was |
| BrowseStore.GrowingStore | internal/tui/browse.go:115-140 | a run over a store that other indexing keeps growing is the run over the store it ends with, and everything listed or searched in it is indexed |
| BrowseStore.RowsAreTheSnapshot | internal/tui/browse.go:142-164 | in every such run a listed directory is one of an indexed snapshot, its rows are exactly that snapshot's entries there, and they are sorted in the mode on screen |
| SnapGroup.SameTagSection | internal/tui/snapgroup.go:186-209 | tagged snapshots share a section exactly when they have the same tags in any order, as long as no tag contains NUL |
| SnapGroup.SameSection | internal/tui/snapgroup.go:186-209 | snapshots share a section by host exactly with the same host, by tags or paths exactly with the same ones in any order, as long as none contains NUL; those without have no key |
| SnapGroup.CollapseTreeRuns | internal/tui/snapgroup.go:217-237 | the loop computes the runs |
| SnapGroup.CollapsibleExact | internal/tui/snapgroup.go:239-255 | snapshots collapse exactly when they have the same known tree, host, tags and paths, the lists in any order, as long as no element is empty or holds what its list is joined with |
| SnapGroup.EmptyTagIsNone | internal/tui/snapgroup.go:249-255 | without that an empty tag is the same as no tag |
| SnapGroup.RunsConserve | internal/tui/snapgroup.go:217-237 | heads and peers concatenate to the list, and runs are maximal |
| SnapGroup.RunsAreUnique | internal/tui/snapgroup.go:217-237 | maximal runs of a list are unique |
| SnapGroup.SnapSectionsBy | internal/tui/snapgroup.go:115-184 | one section per key present in folded order with a byte-order tie-break, the keyless one last |
| SnapGroup.SectionConserves | internal/tui/snapgroup.go:115-184 | a section holds exactly its key's snapshots in list order, as maximal runs when collapsed and singly otherwise, and its count is the sum over nodes of one and the collapsed peers |
| SnapGroup.GroupedDisplay | internal/tui/snapgroup.go:115-184 | the sections on display come in folded and then byte order of their keys, the keyless one last, and each holds exactly the snapshots of the list that have its key |
| SnapGroup.UngroupedDisplay | internal/tui/snapgroup.go:69-105 | ungrouped, the nodes are the maximal runs when collapsed and single snapshots otherwise |
| SnapGroup.BuildSnapDisplay | internal/tui/snapgroup.go:69-91 | the display is the sections' nodes in order, or the list's nodes ungrouped |
| SnapGroup.DisplayConserves | internal/tui/snapgroup.go:69-91 | heads and peers over all nodes are a permutation of the list, and the list itself when ungrouped |
| SnapGroup.NormalizedDetailMarks | internal/tui/snapgroup.go:312-334 | marks map to the heads that stand for them, in order, each once |
| SnapGroup.MarksAreHeads | internal/tui/snapgroup.go:299-334 | normalized marks are distinct heads on display, and every mark on display is kept as one |
| SnapGroup.NormalizingIsIdempotent | internal/tui/snapgroup.go:299-334 | normalizing twice is normalizing once when snapshot IDs are unique |
| SnapGroup.IndexOfSnap | internal/tui/snapgroup.go:266-283 | finds a node that contains the snapshot, heads and peers alike, and gives the first when none does |
| SnapGroup.StaysOnDisplay | internal/tui/snapgroup.go:69-91 | a snapshot on one display of a list is on every other display of it |
| SnapGroup.SnapView.CycleSnapGroup | internal/tui/snapgroup.go:336-348 | the modes follow each other from none through host, tags and paths; afterwards the cursor is on the node that contains the previously selected head, and marks are normalized |
| SnapGroup.SnapView.CycleSnapCollapse | internal/tui/snapgroup.go:350-361 | the same for collapsing and expanding |

## Left out

- DiffView.AcceptDiffSearch: for hits that the filter enables, which are the only ones the search lists, and records where no file record lies above another record.
- Normalize.NormalizeExtractTreeMetadata: no other process changes staging during the walk.
- ExtractPipeline.Extract: the unprivileged path only; for a whole-snapshot extraction nothing is said about the metadata of the root directory itself.
- ExtractPipeline.PublishExtract: a directory created empty at the final path after the occupancy check may be replaced, as the code documents.
- BrowseSearch.Search: rows are scanned in arrival order, which matters only for duplicate paths.
- BrowseQueries.ListDir: equal sort keys come in arrival order, as the index with its row IDs yields them.
- SQL text, prepared statements, the encrypted file system and the engine: tables are sequences that are a function of the committed history, and each query is the condition and order it states.
- One database connection: queries see the tables between transactions, never inside one.
- Restic and sudo processes, pipes, JSON decoding and error text: a call yields a decoded result, a failure or a cancellation.
- The privileged helper, ownership changes, advisory locks, free space and the advisory occupancy flag of the review screen.
- Secret resolution, configuration, caches on disk, prompts, prune and version parsing.
- Rendering, section titles, help, key bindings, notices, progress counts and rates.
- The file picker's inside, the shell key, versions view and the routing of keys while help is open.
- The sharing of one listing map between copies of the root model: the browser's state is one value per moment, held in a record field.
- Shared row pointers of the diff tree: rows are entries of a map keyed by path, which the children lists name.
- Restarting, toggling metadata and the two-mark choice of a snapshot pair in the diff view, which would only add easy members.
- Panics in deferred calls.
