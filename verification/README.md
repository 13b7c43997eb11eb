# Card-search service: a verified model of its hard parts

This project models, in Dafny, the parts of a trading-card search service whose correctness is hardest to see
from the code: the protocol by which worker processes import cards, rebuild the engine archive and serve cached
searches; the streaming gunzip and the racing download cache; the tag hierarchy and its sync onto cards; the
migration reconciliation; the host-name splitter; and four analysis scripts (range-slice summaries,
non-negative least squares, the preferred-printing weight search, the flavor-text fingerprint).

`dafny verify dfyconfig.toml` checks everything. Floating-point numbers are exact reals.

| file | what it holds |
|---|---|
| `ImportProtocol.dfy` | step machine of the workers |
| `ImportLocks.dfy`, `ImportReload.dfy`, `ImportFreshness.dfy` | what every step keeps: locks, schema and times; staged and published archive; generations and answers |
| `ImportSafety.dfy`, `ImportWaiting.dfy` | what holds in every run; why no run gets stuck |
| `ImportPaths.dfy` | single calls step by step: when one imports, and what time-outs, failures and a closed pool lead to |
| `ImportSteps.dfy`, `ImportRuns.dfy` | undisturbed stretches of runs; a run in which a card import leaves an old answer behind, and exactly when that happens |
| `Migrations.dfy` | the reconciliation loop of the schema set-up |
| `Gunzip.dfy` | the chunk-fed decoder |
| `DownloadRace.dfy`, `DownloadPruning.dfy`, `DownloadTemps.dfy` | the temp-file-and-rename protocol; when a cache file stays; what becomes of temporary files |
| `TagGraph.dfy`, `TagSync.dfy` | the ancestor search on arbitrary graphs, and the import onto the card table |
| `SliceDistinct.dfy`, `CutLayout.dfy`, `SliceCounts.dfy`, `SliceEstimate.dfy`, `SliceInterpolation.dfy`, `SliceExact.dfy` | the distinct-count summaries: layout, counts, error bounds of the estimates, where they are exact, and the exact table |
| `Nnls.dfy` | coordinate descent and its optimality |
| `PreferScore.dfy`, `PreferStep.dfy` | scoring, and the cards whose representative changes |
| `PreferGrid.dfy`, `PreferSearch.dfy` | the grid of a step and its levels; the expand-and-bisect search |
| `FlavorFingerprint.dfy`, `SplitWords.dfy` | feature selection with reserved slots; the two-sided word search |
| `Numbers.dfy`, `Options.dfy` | arithmetic and the optional value, shared by the others |

## How the protocols are modelled

A protocol is a total function `Next(state, agent, action)`; a step that is not enabled leaves the state as it
is. `Run` folds `Next` over a schedule, so a statement about `Run(s0, schedule)` for every `schedule` is a
statement about every interleaving. What the environment decides (which rows arrive, what fails, when a lock
times out, how a stream is cut into chunks, how much a write call writes) is part of the action.

In `ImportProtocol` a move is split into the control flow (`Decide`) and its effect on the shared state
(`Apply`). The four locks are the import lock (the lock of the shared `last_import_time`), the import guard, the
cross-worker reload guard and the engine's own write lock. The engine is an abstract staged store:
`reload_begin`, `add_batch`, `reload_commit` and `reload_abort` stage rows per worker and publish them
atomically; `reload_begin` refuses when the published archive is not the one seen just before. The table of
cards is a sequence of versions, and `Bump` records, for each generation, which archive was published when it
became current.

## Where the code does not do what one would hope

Each of these is a lemma about the code as it is, with the exact condition beside it.

* `import_cards_by_search` moves the cache generation on before it rebuilds the archive, so a search that another
  worker serves in between caches an old answer under the new generation, and that worker still gives it after
  the import has returned (`ImportRuns.StaleAnswerAfterCardImport`, a run from the start of two workers on). An
  older answer can still be given exactly if one is in flight, or is cached by a worker that serves, under the
  current generation (`ImportRuns.OlderAnswerIff`).
* The migration loop drops record and schema at a mismatch but goes on, and the matches after the last mismatch
  count as applied although they were dropped. Editing a migration in the middle leaves the later ones
  unexecuted (`Migrations.EditedInTheMiddle`); `Migrations.RecordIff` says exactly when the record ends equal to
  the file list, and `Migrations.TwoRunsConverge` exactly when a second start puts it right.
* `_ensure_cached` can return while its cache file is already gone, unlinked by a worker that listed the directory
  only then (`DownloadPruning.ReturnedYetGone`). A cache file stays exactly when no worker has it in its listing
  or has yet to list the directory (`DownloadPruning.StaysIffCalm`). It never holds a partial download
  (`DownloadRace.CacheIsWhole`). A temporary name drawn a second time can be lost to a worker that was about to
  unlink the old file of that name (`DownloadTemps.ReusedNameCanFail`); without that, a writer that writes every
  quarter of an hour keeps its file (`DownloadTemps.PromptWriterRenames`).
* A bounded range whose ends lie in neighbouring buckets is over-estimated even if every row is a different card,
  exactly unless one end is on the outer cut of its bucket (`SliceInterpolation.NeighbourSurplus`); with the end
  buckets apart it is then exact (`SliceInterpolation.BoundedExact`).
* A gzip stream whose first non-empty chunk is one byte long is passed through undecoded
  (`Gunzip.HiddenMagic`, exact condition in `Gunzip.SniffedIff`).
* `cmd_step` is documented as finding the smallest change in the band. It does not always: the first probe may be
  in the band although half of it is too (`PreferSearch.NotTheSmallest`). What it returns is the point of the grid
  of 2^40 equal parts of its step that is in the band at the coarsest level of that grid. That is the smallest
  change, to within one part, exactly if the next point of the level of the least grid point in the band is not in
  the band (`PreferSearch.FindStep`, `PreferGrid.CoarsestIsLeastIff`). It returns a change in the band exactly when
  some interior point of the grid is; so it can miss one at the end of the step (`PreferSearch.MissesTheWholeStep`).
* The one-multiply rescoring is exact for every component but `illustration_count`, whose score is rounded
  (`PreferScore.RoundedComponentDiffers`, bound in `PreferScore.FastRescoreRounded`).
* `_split_words` misses strings made of single-letter words; `SplitWords.SplitIffAnchored` is exact for every
  dictionary, and for words of three letters or more it is the expected statement
  (`SplitWords.SplitIffSegmentable`).
* The documentation of `_reload_engine` says that a forced caller skips the rebuild if another worker refreshed
  the store meanwhile. Under the guard that never happens (`ImportSafety.NeverTurnedAway`); the code is
  followed.

## Model

| member | source | states |
|---|---|---|
| `ImportLocks.MoveLocks` | api/api_resource.py:815-1089 | at every program point, control flow and lock operations agree: a step changes what is held by exactly the lock it takes or drops, never takes a taken lock and never drops one it does not hold |
| `ImportSafety.StepInv` | api/api_resource.py:815-1089 | every step of every thread keeps the invariants on locks, schema, clock, staged and published archive, generations, caches and answers |
| `ImportSafety.RunInv` | api/entrypoint.py:72-77 | the invariant holds after every schedule from the shared objects as created, whatever archive of an earlier table version lies there |
| `ImportLocks.Exclusive` | api/api_resource.py:1073-1089 | two threads that hold the same lock are the same thread |
| `ImportSafety.ImportsExcludeAndSpace` | api/api_resource.py:1018-1089 | in every run at most one thread of all workers is in the import body, and no body starts within 300 seconds of a success recorded before it |
| `ImportSafety.SchemaFirst` | api/api_resource.py:815-876 | in every run the migrations finish at most once, and whoever leaves `setup_schema` normally finds them finished and the event set |
| `ImportSafety.ArchiveIsComplete` | api/api_resource.py:985-1016 | in every run the published archive is all the rows of one version of the table, a staged build exists only under its builder's write lock, and the cross-worker guard is held exactly between acquire and release |
| `ImportSafety.OnlyCommitPublishes` | api/api_resource.py:1004-1010 | in every run only a commit changes the published archive, and it publishes every row of the snapshot |
| `ImportSafety.ReloadLeavesClean` | api/api_resource.py:985-1016 | in every run, leaving the reload on any path frees the guard and leaves nothing of that worker staged |
| `ImportSafety.NeverTurnedAway` | api/api_resource.py:999-1003 | under the guard `reload_begin` never reports a foreign publication: the early return is unreachable |
| `ImportSafety.AnswersAreFresh` | api/api_resource.py:1212-1260 | in every run an answer served under a generation comes from a complete archive at least as new as the one published when that generation, or any earlier one, began; for a generation that ended an import it shows that import's table |
| `ImportFreshness.FreshStep` | api/api_resource.py:2551-2553 | every step, the bumps among them, keeps all cached, in-flight and given answers at least as new as their generation |
| `ImportReload.ReloadStep` | api/api_resource.py:959-1016 | every step keeps the staged rows a prefix of one SELECT and the published rows all of one |
| `ImportLocks.TimeStep` | api/api_resource.py:932-944 | every step keeps the recorded success times and body starts 300 seconds apart, with the timestamp read twice around the lock |
| `ImportPaths.ImportsIffDue` | api/api_resource.py:932-944 | from any state with the lock free, a call of `import_data` by an idle thread starts the import if and only if no success is recorded or the last one is 300 seconds old; otherwise it returns and has changed nothing |
| `ImportPaths.StartsIffDue` | api/api_resource.py:1018-1022 | in every reachable state, whatever the other threads do, the check under the lock lets the body start if and only if it is due |
| `ImportPaths.TimedOutCall` | api/api_resource.py:1075-1085 | a call that times out on the lock returns and has changed nothing if set-up is complete, and otherwise waits for the lock |
| `ImportPaths.WaitedCall` | api/api_resource.py:1084-1089 | once the lock is free, a call that waited imports if and only if an import is still due |
| `ImportPaths.RetryAfterFailure` | api/api_resource.py:1018-1089 | an import that fails releases the lock and moves neither time nor generation, so the next call imports if and only if it would have been due without it |
| `ImportPaths.FailedSetup` | api/api_resource.py:815-876 | migrations that fail leave the event unset and the guard free, and end an import that called for them |
| `ImportPaths.BrokenBeforeStaging` | api/api_resource.py:993-1016 | a rebuild that cannot read the table gives the guard back; a closed pool is let pass, any other error raised |
| `ImportPaths.BrokenWhileStaging` | api/api_resource.py:1004-1016 | a rebuild that breaks off among the batches drops what it staged, gives both locks back and leaves the published archive |
| `ImportPaths.BrokenCommit` | api/api_resource.py:1007-1016 | so does one whose commit fails |
| `ImportPaths.ImportAfterBrokenRebuild` | api/api_resource.py:1049-1052 | after a closed pool the import still moves the generation on and records its success; after an error it does neither |
| `ImportPaths.ErrorsRaise` | api/api_resource.py:985-1016 | an error in any phase of a rebuild is raised |
| `ImportPaths.ForcedGoesOn` | api/api_resource.py:985-1007 | in every reachable state a rebuild after a change of the data waits, goes on or has published: it is never skipped, except by an error or a closed pool |
| `ImportPaths.BeginsAfresh` | api/api_resource.py:1000-1003 | beginning a build drops what that worker had staged, and an archive published in between turns it away |
| `ImportPaths.WarmingIsIdle` | api/api_resource.py:946-991 | warming a store that has cards changes nothing, before the guard or under it |
| `ImportPaths.NoCardsIsEmpty` | api/api_resource.py:1239-1241 | an archive without cards counts as none: searches take nothing from it, and warming rebuilds it |
| `ImportPaths.IngestAlone` | api/api_resource.py:1978-2002 | the CubeCobra ingest writes the table and moves the generation on, and leaves the archive as it is |
| `ImportPaths.FailedWrite` | api/api_resource.py:2541-2549 | a card import or ingest that fails moves the generation on by nothing and rebuilds nothing |
| `ImportPaths.ExpiredIsAskedAgain` | api/api_resource.py:1212-1221 | an answer that has expired is not given again: the next search for its key goes to the engine |
| `ImportWaiting.WaitsUpwards` | api/api_resource.py:815-1089 | whatever lock a program point blocks on ranks above every lock it holds |
| `ImportWaiting.NoCyclicWait` | api/api_resource.py:815-1089 | no run reaches a cyclic wait, of any length |
| `ImportWaiting.NeverDeadlocked` | api/api_resource.py:815-1089 | in every run and from every thread, the chain of lock owners, at most five long, leads to a thread that is not blocked and can make its next step |
| `ImportRuns.CleanStaysFresh` | api/api_resource.py:1049-1050 | once a version is published and nothing older is cached or in flight under a generation, no continuation answers with anything older under that generation or a later one |
| `ImportRuns.OlderAnswerIff` | api/api_resource.py:2370-2373 | from any state with a version published, requests in progress or not: an older answer can be given under the current generation or a later one only if one is cached or in flight under the current one, and it can be if one is in flight, or is cached by a worker with a free thread |
| `ImportRuns.StaleAnswerAfterCardImport` | api/api_resource.py:2325-2378 | a run of two workers from their start (set-up, first import) in which one has imported cards by search, its rebuild is published, and the other still answers from the archive before it |
| `ImportSteps.ReloadAlone` | api/api_resource.py:959-1016 | a rebuild that nothing disturbs publishes the table as it stands, empty or not, releases what it took and changes nothing else |
| `ImportSteps.CachedAnswerIsServed` | api/api_resource.py:1212-1221 | an answer cached under the current generation is what the next search of that worker gives |
| `Migrations.Database.Compare` | api/api_resource.py:849-857 | the comparison loop keeps the hashes after the last mismatch, and record and schema are kept or dropped accordingly |
| `Migrations.Database.SetupSchema` | api/api_resource.py:846-873 | executed files, new record and new schema as functions of the old record and the file list |
| `Migrations.KeptHashes` | api/api_resource.py:849-854 | with distinct hashes a file counts as applied exactly if it lies after the last mismatch and was compared |
| `Migrations.ExecutedIs` | api/api_resource.py:859-873 | executed are the files up to the last mismatch and those past the end of the record, in order, each once |
| `Migrations.RecordIff` | api/api_resource.py:846-873 | the record ends equal to the file list exactly if it agreed and was no longer, or its last compared entry was a mismatch |
| `Migrations.PrefixIsCompleted` | api/api_resource.py:846-873 | a record that is a prefix of the files: exactly the missing files are executed, in order, and the record ends equal to the list |
| `Migrations.TwoRunsConverge` | api/api_resource.py:846-873 | after two runs the record equals the file list, except exactly when it agrees with the files and is longer |
| `Migrations.EffectsMatch` | api/api_resource.py:852-873 | a record that lists what the schema holds goes on doing so |
| `Migrations.TwoStartsRebuild` | api/api_resource.py:846-873 | after two starts the schema holds the effects of exactly the files, in order, with the same one exception |
| `Migrations.NamesStayDistinct` | api/api_resource.py:841-872 | the unique index on file names is never violated |
| `Migrations.EditedInTheMiddle` | api/api_resource.py:850-857 | an edited middle file: the files after it are dropped with the schema and not executed again |
| `Gunzip.Decompressor.Decompress` | api/scryfall_bulk_data_fetcher.py:86-90 | one call of the decoder object: output, end flag and unused bytes; fed after its end it yields nothing and keeps the input |
| `Gunzip.FeedIsSteps` | api/scryfall_bulk_data_fetcher.py:86-90 | feeding is running the machine byte by byte, to the end of the input, of the member or to a rejected byte, and putting out exactly what the steps put out |
| `Gunzip.DecodeChunk` | api/scryfall_bulk_data_fetcher.py:84-94 | the inner loop consumes a chunk, member after member, and leaves output and decompressor where the bytes so far lead to, whatever follows; or says where corrupt data cut the chunk off |
| `Gunzip.GunzipIfNeeded` | api/scryfall_bulk_data_fetcher.py:57-97 | for every chunking: a stream not taken for gzip passes through unchanged, otherwise output and verdict are those of the whole stream; on corrupt data the output is that of everything before the corrupt chunk, and of the members that end in it before the corruption |
| `Gunzip.MembersDecode` | api/scryfall_bulk_data_fetcher.py:91-94 | one or more members decode to their contents, concatenated |
| `Gunzip.WholeIff` | api/scryfall_bulk_data_fetcher.py:82-97 | a stream decodes without error exactly if it is one or more complete members |
| `Gunzip.TruncatedIff` | api/scryfall_bulk_data_fetcher.py:95-97 | the truncation error is raised exactly if the stream ends inside a member |
| `Gunzip.DecodeSplit` | api/scryfall_bulk_data_fetcher.py:83-94 | decoding two pieces in turn, from wherever the first left the machine, is decoding them joined |
| `Gunzip.SniffedIff` | api/scryfall_bulk_data_fetcher.py:73-80 | looking at the first non-empty chunk decides as the stream itself would, exactly unless that chunk is one byte of the magic |
| `Gunzip.HiddenMagic` | api/scryfall_bulk_data_fetcher.py:77-80 | a gzip stream that is passed through undecoded |
| `DownloadRace.StepInv` | api/scryfall_bulk_data_fetcher.py:199-233 | every step of every worker keeps names, inodes and writers apart and every cache file complete |
| `DownloadRace.CacheIsWhole` | api/scryfall_bulk_data_fetcher.py:199-233 | over every interleaving, with pruning, failures and crashes: a cache file that exists holds the whole output of one completed download of its dump |
| `DownloadRace.WritersArePrivate` | api/scryfall_bulk_data_fetcher.py:222-229 | over every interleaving, a file being written is reachable by its writer's own temporary name only |
| `DownloadPruning.StaysIffCalm` | api/scryfall_bulk_data_fetcher.py:207-218 | a cache file survives every continuation that asks for its dump exactly if no worker has it in its listing, has yet to list the directory, or is about to look for a file that is or may be missing |
| `DownloadPruning.CalmRun` | api/scryfall_bulk_data_fetcher.py:210-218 | if no worker may unlink the file, none ever may, and it is there after every continuation that asks for its dump |
| `DownloadPruning.ReturnedYetGone` | api/scryfall_bulk_data_fetcher.py:207-229 | a run in which a call has returned and its file is unlinked by a worker that had found it missing and lists the directory only then |
| `DownloadTemps.LookDecides` | api/scryfall_bulk_data_fetcher.py:210-216 | a listed file that is still there is unlinked if and only if it is a cache file or its last write is 900 seconds ago or more; nothing else changes |
| `DownloadTemps.PruneAlone` | api/scryfall_bulk_data_fetcher.py:210-218 | a worker that prunes undisturbed, in whatever order, leaves exactly the temporary files written within the last 900 seconds |
| `DownloadTemps.PromptWriterRenames` | api/scryfall_bulk_data_fetcher.py:214-229 | in every run: a download that never goes 900 seconds without a write, and whose name nobody was about to unlink when it opened the file, finds its name when it renames, and its whole output ends in place |
| `DownloadTemps.NewNameIsSafe` | api/scryfall_bulk_data_fetcher.py:222-222 | nobody is about to unlink a name that was never in the directory |
| `DownloadTemps.ReusedNameCanFail` | api/scryfall_bulk_data_fetcher.py:214-229 | if somebody is about to unlink the name, the rename can fail however prompt the writer |
| `DownloadTemps.FailedDownload` | api/scryfall_bulk_data_fetcher.py:224-232 | a download that fails, the rename included, removes its temporary name and nothing else |
| `TagGraph.AncestorsOf` | api/tag_import.py:44-53 | the worklist ends, on cycles and self-parents too, with exactly the other slugs reached by one or more parent edges |
| `TagGraph.BuildAllAncestors` | api/tag_import.py:40-56 | every slug of the graph is mapped to exactly the other slugs it reaches |
| `TagGraph.UuidToSlugLast` | api/tag_import.py:22-23 | an id is known exactly if some tag has it, with the slug of the last such tag |
| `TagGraph.BuildParentGraph` | api/tag_import.py:33-38 | every non-empty slug with a tag has the parents of its last tag, and nothing else has an entry |
| `TagGraph.EdgesAreDeclared` | api/tag_import.py:33-38 | with distinct ids and slugs the edges are exactly the parent links the dump declares |
| `TagGraph.OutsideReachesNothing` | api/tag_import.py:163-163 | the empty default for a slug outside the graph is right |
| `TagSync.AddTaggings` | api/tag_import.py:158-164 | one tag's taggings: named cards gain the slug and its ancestors, null ids are skipped, all else is kept |
| `TagSync.Propagate` | api/tag_import.py:155-164 | the dictionary has exactly the tagged ids, each with the union of what its tags contribute |
| `TagSync.TagsAreCarried` | api/tag_import.py:193-202 | those tags are exactly the slugs applied directly and everything they reach |
| `TagSync.CardTable.SyncCardTags` | api/tag_import.py:97-141 | for every batch size: every row with an id has its dictionary entry or nothing, rows without id are kept, the counts are the rows with an id of the dictionary that changed and the other ids that did, the batches are full but for the last, and every table committed on the way is, row by row, as before or as after |
| `TagSync.CountsAreChanges` | api/tag_import.py:107-141 | the rows updated and the ids cleared are exactly those the sync changes |
| `TagSync.BatchesJoin` | api/tag_import.py:120-138 | two batches with no id in common do and count what one batch does |
| `TagSync.PartwayResumes` | api/tag_import.py:118-138 | a sync started from any table an interrupted one committed ends where that one would have |
| `TagSync.ClearThenUpdate` | api/tag_import.py:107-138 | clearing, then updating every id, is the sync, and clearing does not change what is updated |
| `TagSync.RepeatIsIdle` | api/tag_import.py:97-141 | a second sync clears nothing, updates nothing and changes nothing |
| `TagSync.CardTable.ImportTags` | api/tag_import.py:144-179 | whatever the column held, every row with an id ends with exactly the tags the dump gives it; the counts are the rows that got other tags and the ids that lost all of theirs, in batches of 5000 tagged ids; a table already right is left as it is |
| `TagSync.SearchFindsDescendants` | api/tag_import.py:29-31 | searching a tag finds exactly the rows tagged directly with it or with a descendant |
| `TagSync.SearchIncludesDescendants` | api/tag_import.py:29-31 | searching a tag finds everything a search for any of its descendants finds |
| `TagSync.ReachesIsDeclared` | api/tag_import.py:33-38 | with distinct ids and slugs, ancestors are chains of declared parents |
| `CutLayout.Trapezoid` | scripts/study_range_slice_layouts.py:50-60 | strictly increasing cuts, exactly those of the doubling rule from both edges, symmetric, from 0 to n, with gaps at most the cap |
| `CutLayout.EdgeIsUniform` | scripts/study_range_slice_layouts.py:54-59 | the positions in from an edge are one less than the powers of two while the widths are below the cap, and from then on the cap apart |
| `SliceCounts.PrefixSuffix` | scripts/study_range_slice_layouts.py:68-80 | for every cut the exact distinct counts below it and from it on |
| `SliceCounts.Banded` | scripts/study_range_slice_layouts.py:83-91 | exactly the cells within the band are stored, with their exact distinct counts |
| `SliceEstimate.FracEncloses` | scripts/study_range_slice_layouts.py:94-97 | the bucket encloses the position and the fraction is between 0 and 1 |
| `SliceEstimate.PrefixEstimate` | scripts/study_range_slice_layouts.py:100-103 | for every layout the prefix estimate misses the exact count by at most the bucket width, or 1 |
| `SliceEstimate.SuffixEstimate` | scripts/study_range_slice_layouts.py:100-103 | the same for the suffix estimate |
| `SliceEstimate.EstimateOneSided` | scripts/study_range_slice_layouts.py:50-103 | end to end: on a trapezoid layout both one-sided estimates are within n times the cap fraction, or 1, of the exact counts |
| `SliceDistinct.OverlapBound` | scripts/study_range_slice_layouts.py:124-127 | prefix plus suffix minus total never under-counts the distinct cards between two cuts, and is exact if and only if no card straddles them |
| `SliceDistinct.OverlapExact` | scripts/study_range_slice_layouts.py:124-127 | prefix plus suffix minus total is the distinct count between the cuts plus the number of cards with rows on both sides and none inside |
| `SliceEstimate.AtBound` | scripts/study_range_slice_layouts.py:134-139 | a stored cell is read exactly, and the fallback outside the band never under-counts |
| `SliceEstimate.BoundedSandwich` | scripts/study_range_slice_layouts.py:118-144 | in the band with the end buckets apart, estimate and exact count both lie between the counts of the cuts just inside and just outside, which differ by at most the two end buckets |
| `SliceEstimate.BoundedNeverFarBelow` | scripts/study_range_slice_layouts.py:118-144 | in the band or not, the estimate never falls short of the exact count by more than the two end buckets |
| `SliceEstimate.BoundedNeverFarAbove` | scripts/study_range_slice_layouts.py:118-144 | in the band or not, the estimate is at most the distinct count between the enclosing cuts plus the number of cards that straddle them |
| `SliceEstimate.BoundedError` | scripts/study_range_slice_layouts.py:118-144 | in the band, adjacent end buckets included, the estimate is within the two end buckets of the exact count |
| `SliceInterpolation.FracReconstructs` | scripts/study_range_slice_layouts.py:94-97 | bucket and fraction give the position back: that far from one cut to the next is x |
| `SliceInterpolation.OneSidedAtCut` | scripts/study_range_slice_layouts.py:100-103 | at a cut both one-sided estimates are the stored counts, for any rows |
| `SliceInterpolation.OneSidedExact` | scripts/study_range_slice_layouts.py:100-103 | for rows that are all different cards the one-sided estimates are exact at every position |
| `SliceInterpolation.BoundedAtCuts` | scripts/study_range_slice_layouts.py:130-144 | for any rows, from one cut to another the estimate is the exact count in the band, and outside it the exact count plus the cards that straddle the range |
| `SliceInterpolation.BoundedExact` | scripts/study_range_slice_layouts.py:118-144 | for rows that are all different cards, in the band or not, a range with its end buckets apart is estimated exactly |
| `SliceInterpolation.NeighbourSurplus` | scripts/study_range_slice_layouts.py:141-144 | with the ends in neighbouring buckets the surplus is the rows of the second bucket above the range times the part of the first below it; exact if and only if one of them is nothing |
| `SliceEstimate.Summarise` | scripts/study_range_slice_layouts.py:255-257 | the stored summary of a dimension satisfies everything the estimates rely on |
| `SliceExact.ThresholdIsBoundary` | scripts/study_range_slice_layouts.py:218-224 | every threshold, in the data or not, bisects to a stored value boundary, which the second bisection finds |
| `SliceExact.OneEntryPerValue` | scripts/study_range_slice_layouts.py:218-218 | the table has one entry per distinct value, and one more |
| `SliceExact.ExactOneSided` | scripts/study_range_slice_layouts.py:198-231 | the looked-up counts are the exact distinct counts below and from the threshold |
| `Nnls.SlopeByGram` | scripts/fit_cost_model.py:152-153 | the slope of the objective read off the Gram matrix and the right-hand side |
| `Nnls.Expansion` | scripts/fit_cost_model.py:150-150 | the objective at any point, expanded around any other |
| `Nnls.UpdateMinimises` | scripts/fit_cost_model.py:161-162 | the clamped update beats every non-negative value of its coordinate by at least the Gram diagonal times the squared distance |
| `Nnls.UpdateDescends` | scripts/fit_cost_model.py:161-164 | no update increases the objective, and one that moves its coordinate decreases it |
| `Nnls.SkippedColumn` | scripts/fit_cost_model.py:158-159 | a skipped column is zero: it has no slope anywhere and no part in any Gram entry |
| `Nnls.NearOptimalBound` | scripts/fit_cost_model.py:155-167 | after a sweep, no non-negative point is better by more than the largest move times an explicit slack |
| `Nnls.FixedIffOptimal` | scripts/fit_cost_model.py:155-167 | the points where no update moves are exactly the global minima over all c >= 0, skipped columns included |
| `Nnls.UnchangedIffOptimal` | scripts/fit_cost_model.py:157-166 | a full sweep changes nothing exactly at the global minima |
| `Nnls.SweepPays` | scripts/fit_cost_model.py:157-164 | a sweep lowers the objective by at least the smallest positive Gram diagonal times the square of its largest move |
| `Nnls.MovesDieOut` | scripts/fit_cost_model.py:155-166 | the sweeps that move some coordinate by e or more, from the first on, number at most the starting objective over that diagonal times e squared |
| `Nnls.Sweep` | scripts/fit_cost_model.py:156-164 | in place: the coefficients are the updates in turn, the returned delta is the largest move, all stay non-negative, the objective does not rise, and the point is near-optimal up to delta |
| `Nnls.Solve` | scripts/fit_cost_model.py:149-167 | the result is that of n full sweeps from all zeros, n being the first sweep that moved nothing by 1e-12, or 500; it is non-negative, zero in every column without a positive Gram diagonal, its objective at most the sum of the squared targets, and within the last move times the slack of every non-negative point |
| `PreferScore.ScoreIsDotProduct` | scripts/prefer_weights.py:197-220 | the score is the rounded illustration term plus the dot product of all other weights and levels |
| `PreferScore.FastRescore` | scripts/prefer_weights.py:231-260 | moving one weight moves the score by delta times level, for every component but the rounded one |
| `PreferScore.FastRescoreRounded` | scripts/prefer_weights.py:237-238 | for the rounded component the shortcut is off by at most the roundings |
| `PreferScore.RoundedToDigits` | scripts/prefer_weights.py:205-238 | the illustration term is a whole number of ten-thousandths and its level of millionths, half a unit or less from the exact value, ties to even |
| `PreferScore.RoundedComponentDiffers` | scripts/prefer_weights.py:205-206 | a move of that weight that is rounded away although its level is one |
| `PreferStep.SwapStays` | scripts/prefer_weights.py:473-476 | a card that swaps keeps swapping as the weight moves further |
| `PreferStep.OverrideStays` | scripts/prefer_weights.py:473-480 | an override stays an override, on either side and for any levels |
| `PreferStep.CountsGrow` | scripts/prefer_weights.py:458-481 | overrides and swaps, as sets and as counts, only grow with the size of the move |
| `PreferStep.TiesCanShrink` | scripts/prefer_weights.py:477-478 | tie-breaks alone do not grow: one becomes an override |
| `PreferStep.CountSwaps` | scripts/prefer_weights.py:458-481 | the loop counts exactly the overridden cards, and with the ties exactly the swapped ones |
| `PreferStep.FastSwapIsFullSwap` | scripts/prefer_weights.py:528-535 | the shortcut reports a swap exactly if full rescoring changes the representative |
| `PreferStep.ReviewList` | scripts/prefer_weights.py:528-535 | the review list by full rescoring is exactly the cards the shortcut counted, in order |
| `PreferSearch.Expand` | scripts/prefer_weights.py:503-507 | the step reached is the first doubling of a quarter to change six cards, or the one past 512; no move up to half of it changes six |
| `PreferSearch.StepIsUnique` | scripts/prefer_weights.py:503-507 | only one step is that |
| `PreferSearch.Bisect` | scripts/prefer_weights.py:508-520 | the result is the first of the closest among the midpoints the loop evaluates; in the band exactly if some interior grid point is, and then the one at the coarsest level; otherwise the bracket is one grid part wide |
| `PreferGrid.CoarsestIsUnique` | scripts/prefer_weights.py:508-520 | only one grid point is the hit at the coarsest level |
| `PreferGrid.CoarsestIsLeastIff` | scripts/prefer_weights.py:500-502 | the coarsest hit is the least one exactly if the next point of the least one's own level is no hit |
| `PreferGrid.HasLeastHit` | scripts/prefer_weights.py:500-502 | if any grid point is in the band there is a least one |
| `PreferGrid.NoneSmallerIff` | scripts/prefer_weights.py:500-502 | for a move in the band, no move in the band is smaller by a part or more exactly if one part less is below the band |
| `PreferSearch.ClosestIsUnique` | scripts/prefer_weights.py:512-513 | only one result is the first of the closest probes |
| `PreferSearch.BracketHolds` | scripts/prefer_weights.py:508-520 | every move in the band, up to the whole step, lies inside the bracket |
| `PreferSearch.FindStep` | scripts/prefer_weights.py:498-521 | overrides(a) < lo <= overrides(b) when the expansion reached the target; the grid statements and the closest probe for that step, for any number of rounds; exactly when the move is the smallest in the band to within a part; nothing outside the bracket is closer to the target |
| `PreferSearch.ProposeStep` | scripts/prefer_weights.py:498-521 | with the forty rounds of the command: the first of the closest probes of the first doubling in reach |
| `PreferSearch.MissesTheWholeStep` | scripts/prefer_weights.py:508-520 | cards for which the whole step is in the band and no interior grid point is |
| `PreferSearch.NotTheSmallest` | scripts/prefer_weights.py:485-485 | cards for which the search ends at its first probe although half that move is in the band |
| `FlavorFingerprint.GramsOf` | scripts/generate_flavor_fingerprint.py:46-54 | exactly the alphabetic substrings of one to three characters |
| `FlavorFingerprint.MissingAfter` | scripts/generate_flavor_fingerprint.py:104-105 | choosing a new gram uses up a reserved slot exactly if it is a letter |
| `FlavorFingerprint.PickBest` | scripts/generate_flavor_fingerprint.py:108-118 | the gram with the least objective, ties broken by string order |
| `FlavorFingerprint.LessIff` | scripts/generate_flavor_fingerprint.py:117-117 | string order: at the first difference the one string ends or has the smaller character |
| `FlavorFingerprint.MissingIsLeft` | scripts/generate_flavor_fingerprint.py:104-106 | the letters appended are exactly those not chosen, in increasing order |
| `FlavorFingerprint.SelectFeatures` | scripts/generate_flavor_fingerprint.py:101-122 | succeeds exactly with at least 102 candidates that are not single letters, and then gives 128 distinct features with every letter: greedy choices, each least in the objective and then in string order, and after them the missing letters in order |
| `FlavorFingerprint.MaskIsNecessary` | scripts/generate_flavor_fingerprint.py:12-15 | a needle inside a text fires no bit the text does not, for every feature table |
| `FlavorFingerprint.EveryNeedleFires` | scripts/generate_flavor_fingerprint.py:7-10 | with every letter a feature, a needle with a lower-case letter fires at least one bit |
| `SplitWords.PointsAreSorted` | api/api_resource.py:195-196 | the split points are the stable sort of 1 .. n - 1 by distance from the middle |
| `SplitWords.SplitSound` | api/api_resource.py:188-206 | a returned list spells the string, every piece a non-empty word, and is one piece or has one of two letters or more |
| `SplitWords.SplitComplete` | api/api_resource.py:188-206 | any such segmentation makes the two-sided search succeed |
| `SplitWords.SplitIffAnchored` | api/api_resource.py:179-209 | for every dictionary and every string: found exactly if alphabetic and such a segmentation exists, and the list returned is one |
| `SplitWords.SplitIffPreferred` | api/api_resource.py:195-205 | which list it is, for every dictionary and string: a word itself; otherwise the split at the first point, by distance from the middle and then from the left, where one part is a word and the other can be split, and so on inside the other part |
| `SplitWords.PreferredIsUnique` | api/api_resource.py:195-205 | only one list is that |
| `SplitWords.SplitIffSegmentable` | api/api_resource.py:179-209 | with no word shorter than three: found exactly if the alphabetic string is a concatenation of words |
| `SplitWords.LettersAreNotFound` | api/api_resource.py:193-194 | single letters that spell the string are not found |

## Left out

- The Rust query engine, its file format and its remapping by inode: an abstract staged store with atomic publication stands in for it.
- The SQL search path and the result caches outside the per-generation search cache: freshness is stated for searches the engine answers.
- The per-process lock that keeps a worker from starting two warming threads, and the five-minute memo on `import_data`: both only remove runs, so what is proved of every run still holds; a call, where one call is spoken of, is one that the memo lets through.
- A process that dies while it holds a shared lock: the import protocol models exceptions and time-outs, not kills. `DownloadRace` does model crashes.
- Settings that switch the engine or the caches off.
- The migration files' own SQL, and an error while one of them runs: the schema is the list of files executed since the last drop.
- The inside of zlib: a byte-by-byte machine with an end of member stands in for it, and any such machine is allowed.
- Reuse of a process id by another live process in the names of temporary files.
- The tables of tags and tag relations that the tag import also rewrites, and the text form of ids: equal ids are equal strings.
- The logarithm in the illustration level and in the greedy objective, and the text corpus behind the candidate grams: they are parameters.
- Printing ids are numbers in the order of their text.
- The memo inside the word search, and which characters count as alphabetic: the latter is a parameter.
- The split of the most common cards from the bounded-range table (`study_bounded`): the estimate is stated for the rows that are summarised.
- `fit_log_ratio` and its convergence, the rounding of the equi-depth layout, percentile statistics, the benchmark scripts, HTTP routing, page rendering and image copying.
- Endpoints that write single tags or scores to the card table without moving the generation on: to the protocol they are writes like those of the CubeCobra ingest, which is modelled.
- That a worker serves one request at a time: the machine allows more threads per worker than the service runs, so what is proved of every run covers its runs.
