# PullFusion: models and proofs

PullFusion is a pull-through proxy for container registries. This project models four parts of it in
Dafny and proves properties of them for all inputs and all runs, for the cache also for all
interleavings of its callers.

**The LRU blob cache.** `BlobDir` describes the cache directory and the bytes in it. `CacheSpec` and
`CacheOps` say what every operation does to the directory, the counters and the access times,
including each file operation that can fail. `Cache` (module `CacheStore`) is the cache itself, with
its fields updated in place, proved against these operations. `CacheRuns` and `CacheInclusion` prove
recency, accounting, LRU inclusion and what hits return over whole runs. `CacheSteps` splits every
operation into its single file operations and counter updates, lets readers interleave with them, and
shows that the one-step operations are uninterrupted runs of these steps. `CacheLinear` proves the
converse: every interleaving shows the files, counters and ages that its operations leave when they
are run one after the other. The bytes a reader gets are those at its `Open`. Eviction orders are any
order sorted by access time, so nothing depends on how ties are broken.

**Scoring and selection.** `MetricLog` is the append-only event table with its filters, sums and
averages; `Scoring` computes a node's score from it; `Selection` chooses the node and follows the
choice through failures; `LogRuns` follows the table through runs of inserts. `Database`,
`NodeManager` and `Downloader` are the objects that do this in place. Every clock reading is a
parameter; the candidates of one selection may be scored at different readings.

**The node list.** `NodeList` builds the list from configuration, table and additions; `NodeTable` is
the table of nodes with its batch upsert; `Merging` covers fetched mirrors and the JSON file.
`Fetcher` and `Persist` perform the merge and the save and load on the manager.

**Routes.** `Routes` gives the meaning of the route patterns, the router, and the printers they invert.

## What the proofs show about the code

- `Put` treats every error of its first `Stat` as absence. If that `Stat` fails on a blob that is
  there and survives eviction, and the write succeeds, the file is replaced but counted twice. These
  replaced files are exactly what the counters are ever off by: for one `Put` (`PutAccountsExactly`),
  over runs (`AccountsOverRuns`) and under any interleaving (`AccountingUnderInterleaving`).
- LRU inclusion holds for all traces of `Put`. A `Get` keeps the smaller cache the newest part of the
  larger one exactly when both caches hold the blob, or neither, or the smaller one is empty
  (`GetKeepsNestedIff`, over runs `NestedIffGetsAgree`); a `Get` that hits only in the larger cache can
  end inclusion (`InclusionFailsWithGets`).
- Under interleaving a `Get` may return a length that is not that of the bytes it returns. Lengths
  are always right exactly when no digest is stored with contents of different lengths
  (`SizesRightIffLengthsAgree`).
- A restart forgets when blobs were read: the first eviction after it follows the times at which they
  were stored (`RestartEvictsByStorage`).
- A `Put` that is refused for lack of room, nothing having failed, has emptied the cache
  (`FaultFreePutSucceedsIffFits`).
- A download leaves its node with score 0 exactly when the measured latency was under a millisecond,
  whether it failed or succeeded (`RetiresIffNoLatency`). Failover to other nodes is therefore
  guaranteed for such records (`FailoverTriesEveryNode`) and not for slower failures: a node that fails
  within `ms` milliseconds at least once a day keeps a score of about 5000 - 3.5 `ms`, and is selected
  every time while the other nodes score less (`QuickFailuresAreRetried`).
- The comment at `internal/nodemgr/manager.go:112` says that only nodes with a positive score are
  considered. The code also selects a node of score 0, exactly when no eligible node is better.
- A latency of half a second and no latency at all score the same (`ScoreDifference`).
- The comment at `internal/store/db.go:56` gives scores from 0 to 10000. The values are 0 and 1500 to 9996.
- A fetched mirror taken for `gcr` is never eligible (`FetchedNodeServes`).

## Model

| member | source | states |
|---|---|---|
| BlobDir.NamesKeptApart | internal/cache/cache.go:61-64 | every digest is stored under a name that directory scans recognise, and no temporary file is |
| BlobDir.FileNames | internal/cache/cache.go:61-64 | the file names in full: a digest with or without its prefix is stored as sha256-<hex>.blob, and temporary names add .tmp |
| BlobDir.BlobNameCollisions | internal/cache/cache.go:61-64 | two digests share a file exactly when they are equal or one is the other with the prefix added |
| CacheSpec.ScanAccounts | internal/cache/cache.go:40-57 | after the initial scan the counters describe the directory exactly when no blob was missed |
| CacheSpec.EvictionIsMinimal | internal/cache/cache.go:206-225 | eviction removes the removable files of the shortest oldest-first prefix that frees enough, or of all files, and nothing else |
| CacheSpec.EvictAccounts | internal/cache/cache.go:211-223 | whatever cannot be removed, the counters and times still describe the directory after eviction |
| CacheSpec.EvictTrims | internal/cache/cache.go:202-225 | without failures eviction reaches its goal or empties the cache, removes only blobs no newer than any survivor, and would have fallen short without the last one |
| CacheSpec.OlderGoFirst | internal/cache/cache.go:182-223 | under any failures no blob is evicted before an older one that was listed and could be removed, age being the access time or else the modification time |
| CacheOps.RoomIffFits | internal/cache/cache.go:101-111 | making room works exactly when the declared size is within the limit, otherwise the cache ends empty |
| CacheOps.FaultFreePutSucceedsIffFits | internal/cache/cache.go:89-138 | a fault-free Put of an absent blob succeeds exactly when its declared size is within the limit, even from an over-full start, and exceeds the limit at most by the bytes written beyond that size |
| CacheOps.PutAccountsExactly | internal/cache/cache.go:95-137 | under any failures Put keeps the accounting unless its Stat fails, room is made, the blob is still there and neither create nor copy nor rename fails, and loses it exactly then |
| CacheOps.PutOwes | internal/cache/cache.go:95-137 | under any failures, and whatever the counters were off by, Put adds exactly the size and number of the file it replaces |
| CacheOps.OverwriteBreaksAccounting | internal/cache/cache.go:96-135 | a concrete Put with a failing Stat after which one byte is counted as two |
| CacheOps.RefusalReasons | internal/cache/cache.go:101-135 | Put reports the first thing that goes wrong, and an empty listing exactly when every blob was hidden from it |
| CacheOps.RemoveOwes | internal/cache/cache.go:141-162 | Remove records exactly what it removes, whatever fails and whatever the counters were off by |
| CacheOps.TemporaryFileGone | internal/cache/cache.go:113-132 | the temporary file outlives a Put that created it exactly when the Put failed and its removal failed too |
| CacheOps.PutOnContents | internal/cache/cache.go:95-132 | a Put of a visible blob changes no bytes, a successful one shows exactly the new bytes, a failed one shows nothing new, and all survivors keep their bytes |
| CacheOps.GetOnContents | internal/cache/cache.go:68-86 | a hit returns the stored bytes and their length, and without faults a miss means absence |
| CacheOps.RemoveOnContents | internal/cache/cache.go:141-162 | Remove leaves all blobs but that one when it succeeds, all of them when it fails, and fails exactly on a failing Stat or a failing removal of a present file |
| CacheStore.SortByTime | internal/cache/cache.go:207-209 | the result is a permutation sorted by access time, with ties in no promised order |
| CacheStore.Cache.constructor | internal/cache/cache.go:26-37 | a new cache has the state the scan of its directory yields |
| CacheStore.Cache.ScanExisting | internal/cache/cache.go:40-57 | the loop over the entries counts exactly the visible blobs and takes their modification times |
| CacheStore.Cache.Get | internal/cache/cache.go:68-86 | the method has exactly the effect and result of the modelled step |
| CacheStore.Cache.Put | internal/cache/cache.go:89-138 | the method has exactly the effect and result of the modelled step, for some eviction order sorted by access time |
| CacheStore.Cache.WriteBlob | internal/cache/cache.go:113-137 | temporary file, rename and counters for every outcome of the file operations |
| CacheStore.Cache.Remove | internal/cache/cache.go:141-162 | the method has exactly the effect and result of the modelled step |
| CacheStore.Cache.Stats | internal/cache/cache.go:165-167 | reports the byte counter, the limit and the file counter |
| CacheStore.Cache.ListVictims | internal/cache/cache.go:182-200 | lists every visible blob once, with its size and its access time or else modification time |
| CacheStore.Cache.EvictLocked | internal/cache/cache.go:170-226 | evicts in an order sorted by access time, and reports a failed listing and an empty one |
| CacheStore.Cache.RemoveOldest | internal/cache/cache.go:211-223 | the loop with its running total does what the recursive eviction says |
| CacheRuns.RecencyOverRuns | internal/cache/cache.go:68-138 | after any fault-free run of Put and Get from empty, every cached blob was touched later than every touched blob that is gone, whatever the sizes |
| CacheRuns.AccountsOverRuns | internal/cache/cache.go:68-162 | through any run with any failures the counters exceed the directory by exactly the bytes and number of the replaced files, and describe it exactly when none was replaced |
| CacheRuns.ContentsWereStored | internal/cache/cache.go:68-162 | through any run with any failures every cached blob has the bytes of the Put that created its file |
| CacheRuns.HitReturnsStoredBytes | internal/cache/cache.go:68-86 | a hit at any moment of any run returns exactly these bytes and their length |
| CacheRuns.FilesWereStored | internal/cache/cache.go:68-162 | through any run with any failures every cached file has the bytes and the modification time of the Put that created it |
| CacheRuns.RestartEvictsByStorage | internal/cache/cache.go:40-57 | a restart forgets the reads: after any run and a complete scan, the first eviction takes the blobs stored longest ago |
| CacheRuns.StaleTimesHarmless | internal/cache/cache.go:80-83 | access times of absent blobs, as a late Get leaves them, change neither which calls are possible nor any answer nor what the final state shows |
| CacheInclusion.PutKeepsNested | internal/cache/cache.go:89-138 | the smaller cache stays the most recently touched part of the larger one through each request |
| CacheInclusion.GetKeepsNestedIff | internal/cache/cache.go:68-86 | a Get keeps the caches nested exactly when both hold the blob, or neither does, or the smaller one is empty |
| CacheInclusion.NestedIffGetsAgree | internal/cache/cache.go:68-138 | over any mixed requests the smaller cache is the newest part of the larger one at every moment exactly when the caches agree in that sense at every Get |
| CacheInclusion.InclusionIfGetsAgree | internal/cache/cache.go:68-138 | over such requests the larger cache holds all the smaller one holds and has at least as many hits |
| CacheInclusion.LruInclusion | internal/cache/cache.go:89-138 | so it does over any Put requests with fixed sizes |
| CacheInclusion.InclusionFailsWithGets | internal/cache/cache.go:68-138 | for any three names, runs with a Get that hits only in the larger cache, after which the smaller cache holds a blob the larger one has evicted |
| CacheSteps.StepSound | internal/cache/cache.go:68-226 | every single step of any caller keeps the counters off by exactly what the lock holder has still to record and the files that renames have replaced |
| CacheSteps.AccountingUnderInterleaving | internal/cache/cache.go:68-226 | whatever interleaved and failed, whenever nobody holds the lock usedSize and count exceed the directory by exactly the files that successful renames replaced, and describe it exactly when there was none |
| CacheSteps.StatsNeverExceedLimit | internal/cache/cache.go:101-167 | started within the limit and with readers no longer than declared, the byte counter is within the limit at every moment |
| CacheSteps.HitsAreGenuine | internal/cache/cache.go:68-86 | if all Puts of a digest deliver the same bytes, an interleaved Get returns these bytes and their length |
| CacheSteps.SizesAreRight | internal/cache/cache.go:68-86 | if all completed Puts of a digest deliver equally many bytes, every interleaved Get reports the length of the bytes it returns |
| CacheSteps.ReportedSizeCanBeStale | internal/cache/cache.go:70-85 | for any two contents that fit the limit, a run in which a Get reports the length of the one and returns the other |
| CacheSteps.SizesRightIffLengthsAgree | internal/cache/cache.go:68-86 | reported lengths are right in every interleaving exactly when no digest has contents of different lengths |
| CacheSteps.PutIsARun | internal/cache/cache.go:89-138 | Put as one step is an uninterrupted run of its file operations and counter updates |
| CacheSteps.RemoveIsARun | internal/cache/cache.go:141-162 | Remove as one step is an uninterrupted run of its file operations and counter updates |
| CacheSteps.GetIsARun | internal/cache/cache.go:68-86 | Get as one step is its Stat, Open and touch with nothing in between |
| CacheLinear.InterleavingsAreSequential | internal/cache/cache.go:68-226 | whenever nobody holds the lock, any interleaving with any failures shows the files, counters and ages left by running its operations one after the other, a touch counting as a Get at that moment |
| CacheLinear.SequentialIsCalled | internal/cache/cache.go:68-162 | that sequence holds every Put, Remove and touch exactly once, with its name and declared size, in the order in which they got the lock |
| CacheLinear.ContentsUnderInterleaving | internal/cache/cache.go:68-162 | whatever is interleaved, every cached blob has the bytes of the Put that created its file |
| CacheLinear.RecencyUnderInterleaving | internal/cache/cache.go:68-138 | from empty and without faults or Remove, whatever is interleaved, every cached blob was touched later than every touched blob that is gone |
| MetricLog.PositiveAverageSnoc | internal/store/db.go:291-299 | one more value leaves the average alone if it is not positive, and otherwise moves it towards itself |
| MetricLog.SuccessRateSnoc | internal/store/db.go:301-311 | a success never lowers the rate and a failure never raises it |
| Scoring.LatencyIsAverage | internal/store/db.go:291-294 | the latency figure times the number of the node's positive latency rows younger than 24 hours is the sum of these rows, and it is 0 if there is none |
| Scoring.SpeedIsAverage | internal/store/db.go:296-299 | likewise for speed and 48 hours |
| Scoring.SuccessIsShare | internal/store/db.go:301-311 | the success figure times the number of the node's success rows younger than seven days is the number of ones among them, and it is 0 if there is none |
| Scoring.BytesAreTotal | internal/store/db.go:313-316 | the bytes figure is the sum of all of the node's bytes rows |
| Scoring.ZeroScore | internal/store/db.go:318-337 | the score is 0 exactly when the last latency row and the last speed row of the node are absent or not positive |
| Scoring.ScoreDifference | internal/store/db.go:339-350 | between any two nonzero scores each millisecond up to a second makes 3.5 points, each 1024 of speed up to 102400 and each hundredth of the success rate 25, up to rounding, and no latency counts as half a second |
| Scoring.ScoreRange | internal/store/db.go:286-351 | every score is 0 or between 1500 and 9996, and 0 exactly when latest latency and latest speed are absent or zero |
| Scoring.LowestScoreReached | internal/store/db.go:339-350 | a log whose score is 1500 |
| Scoring.HighestScoreReached | internal/store/db.go:339-350 | a log whose score is 9996 |
| Scoring.WindowEdges | internal/store/db.go:291-311 | wherever it stands in the log, a row enters its node's average or rate exactly when it is younger than 24 hours, 48 hours or seven days |
| Scoring.BatchHistories | internal/store/db.go:255-281 | a download adds one row of each kind for its node and none for any other |
| Scoring.BytesAccumulate | internal/store/db.go:313-316 | a download adds its bytes to the node's total at every clock reading |
| Scoring.FailureNeverRaises | internal/store/db.go:255-350 | for a working node a failed download no faster than the nonzero 24-hour average never raises the score |
| Scoring.SuccessNeverLowers | internal/store/db.go:255-350 | a successful download at least as fast as both averages never lowers the score |
| Scoring.FailingAfterBatch | internal/store/db.go:318-337 | after any download the score is zero exactly when it reported neither latency nor speed |
| Scoring.FailureRevives | internal/store/db.go:318-337 | a failed download raises a zero score to 1500 or more exactly when it reports a latency |
| Scoring.SnapshotIgnoresOthers | internal/store/db.go:286-350 | rows of other nodes never change a node's snapshot |
| Scoring.ColdScore | internal/store/db.go:286-350 | once all rows of a node are seven days old its score is for ever 3250, or 0 if it is failing |
| Scoring.QuickScoresHigh | internal/store/db.go:286-351 | a node whose latencies never exceed ms, the latest less than a day old, scores at least what ms alone gives, however often it failed |
| Scoring.ScoreOfFailures | internal/store/db.go:286-351 | a node that only failed, each time after ms, scores exactly that whenever its latest failure is less than a day old |
| Scoring.LatencyOnlyValue | internal/store/db.go:339-350 | up to a second that value is 5000 less three and a half for each millisecond, rounded down |
| Selection.PicksLastBest | internal/nodemgr/manager.go:133-146 | the loop finds the last position of maximal score, and none exactly when there is no candidate |
| Selection.SelectionIsLastArgmax | internal/nodemgr/manager.go:113-151 | with a database: nothing is selected exactly when no node is eligible, otherwise the last eligible node of maximal score, and a failing node only if all are failing |
| Selection.FirstEligible | internal/nodemgr/manager.go:116-145 | without a database: the first eligible node, none exactly when no node is eligible |
| Selection.NobodySelected | internal/nodemgr/manager.go:113-151 | with or without a database nobody is selected exactly when every node is disabled or has targets without the registry |
| Selection.SelectedServes | internal/nodemgr/manager.go:113-151 | with or without a database a selected node is enabled and has no targets or the registry among them |
| Selection.OthersDoNotMatter | internal/nodemgr/manager.go:116-131 | deleting any nodes that are disabled or have targets without the registry changes neither the selected node nor its score |
| Selection.AttemptRetiresOne | internal/downloader/multi_source.go:30-41 | while some eligible node is alive, a selection followed by a record without latency and speed picks an alive node and takes out exactly that one |
| Selection.FailoverTriesEveryNode | internal/nodemgr/manager.go:113-151 | repeated, this tries different alive nodes, one fewer each time, until all of them have been tried, whatever the clock shows |
| Selection.QuickFailuresAreRetried | internal/downloader/multi_source.go:55-63 | a node that fails within ms each time is selected at every one of any number of tries less than a day apart, while the other nodes score less than ms alone gives |
| Selection.IdleNodesAreNeverTried | internal/nodemgr/manager.go:113-151 | beside a node that keeps failing in under half a second, nodes without rows of the last week are never selected |
| Selection.ConfiguredNodeServes | internal/nodemgr/manager.go:210-224 | a configured mirror is eligible for exactly the registry under which it is configured |
| Selection.FetchedNodeServes | internal/fetcher/fetcher.go:202-213 | a fetched node is eligible for exactly the one registry guessed for it, and never if that is gcr |
| LogRuns.BatchesAreAtomic | internal/store/db.go:246-281 | in every log of download batches and admin inserts with any failures, success and bytes rows both number the committed batches, and latency and speed rows exceed that by exactly the single inserts |
| Database.DB.InsertMetricEvent | internal/store/db.go:246-252 | appends the row or changes nothing |
| Database.DB.InsertDownloadEvents | internal/store/db.go:255-281 | appends all four rows in order, or none when beginning, any statement or the commit fails |
| Database.DB.SaveNodes | internal/store/db.go:163-199 | commits the upserts of the whole batch, or changes nothing when any part fails |
| Database.DB.LoadNodes | internal/store/db.go:201-242 | returns the decoded rows in order |
| NodeTable.TagsNormalised | internal/store/db.go:151-161 | storing and loading keeps the named tags among the first five in order, and doing so again changes nothing |
| NodeTable.DecodeEncode | internal/store/db.go:186-193 | a stored node comes back with all fields, its tags normalised |
| NodeTable.FiveTags | internal/store/db.go:151-161 | up to five named tags come back as they are, and of more the first five |
| NodeTable.EnabledColumn | internal/store/db.go:186-221 | a node is stored as 1 when enabled and as 0 when not, and every number but 0 is loaded as enabled |
| NodeTable.SavedRows | internal/store/db.go:163-199 | after a saved batch each URL in it has the row of its last occurrence with its former creation time, and every other row is unchanged |
| NodeTable.SavedTimes | internal/store/db.go:169-192 | a saved row is stamped with the time of the save and keeps its creation time |
| NodeTable.SaveKeepsPlaces | internal/store/db.go:177-185 | existing rows keep their order and none disappears |
| NodeTable.LoadSaveLoad | internal/store/db.go:163-242 | saving what was loaded changes nothing that loading shows |
| NodeList.NoDuplicatesUnderInterleaving | internal/nodemgr/manager.go:32-88 | through any interleaving of additions and reloads a URL occurs as often as in the latest configuration, or at most once if it is not in it |
| NodeList.AddAllShape | internal/nodemgr/manager.go:79-88 | adding any nodes appends some of them, with distinct URLs that were absent |
| NodeList.ConfiguredNodes | internal/nodemgr/manager.go:210-224 | position by position the mirror a node comes from, Docker Hub first, enabled, with its registry as only target |
| NodeList.RowsTaken | internal/nodemgr/manager.go:38-51 | each table row is taken or skipped on its own, in order: taken exactly when its URL is not in the list |
| NodeManager.Manager.constructor | internal/nodemgr/manager.go:22-55 | a new manager lists the configuration's nodes followed by the table rows with other URLs |
| NodeManager.Manager.LoadConfig | internal/nodemgr/manager.go:210-224 | one enabled node for each mirror, in order |
| NodeManager.Manager.LoadFromDB | internal/nodemgr/manager.go:32-55 | appends the rows whose URL was not in the list, or changes nothing if the table cannot be read |
| NodeManager.Manager.AddNode | internal/nodemgr/manager.go:79-88 | appends the node unless its URL is present |
| NodeManager.Manager.ReloadNodes | internal/nodemgr/manager.go:193-202 | the list becomes that of the new configuration |
| NodeManager.Manager.PersistNodes | internal/nodemgr/manager.go:57-69 | the table becomes the upsert of the whole list, or stays as it was |
| NodeManager.Manager.Candidates | internal/nodemgr/manager.go:114-131 | the positions, ascending, of exactly the nodes that are enabled and have no targets or the registry among them |
| NodeManager.Manager.SelectBest | internal/nodemgr/manager.go:113-151 | returns the selected node and leaves every eligible node with its computed score; the node is enabled and serves the registry, and there is none exactly when no listed node is so |
| NodeManager.Manager.BestOf | internal/nodemgr/manager.go:133-146 | the loop over the candidates finds the selection over the whole list |
| NodeManager.Manager.GetScoredNodes | internal/nodemgr/manager.go:92-109 | every node shows score, latency, speed, success and bytes of its snapshot |
| NodeManager.Manager.RecordMetric | internal/nodemgr/manager.go:154-157 | the log gains the row or nothing |
| NodeManager.Manager.RecordDownload | internal/nodemgr/manager.go:159-172 | the log gains the whole batch or nothing |
| Downloader.Download | internal/downloader/multi_source.go:29-77 | on every exit path the selected node, without a database the first eligible one, answers; with a database it and no other gets the record of what happened; the caller gets the response's length exactly when there was a response, and an error without request exactly when no node serves the registry |
| Downloader.RecordIsReported | internal/downloader/multi_source.go:38-72 | the four rows hold the measured milliseconds, the whole bytes per millisecond, one or zero for the response, and its whole kibibytes, zeros without a response, and become the node's latest rows |
| Downloader.RetiresIffNoLatency | internal/downloader/multi_source.go:38-72 | a recorded download leaves score 0 exactly when the measured latency is zero milliseconds, and at least 1500 otherwise |
| Downloader.ImmediateDownloadIsAttempt | internal/downloader/multi_source.go:30-72 | a recorded download under a millisecond is the step of which the failover result speaks |
| Downloader.DownloadLeavesOthers | internal/downloader/multi_source.go:38-72 | a download changes no other node's snapshot |
| Merging.ChosenUrls | internal/fetcher/fetcher.go:88-149 | a merge chooses each qualifying trimmed URL that is not known, once |
| Merging.TakenUrls | internal/fetcher/fetcher.go:88-149 | a merge adds a URL exactly when no listed node has it up to slashes at the end, and some item is public, selectable and not official and has this nonempty URL once trimmed |
| Merging.ChosenAreMade | internal/fetcher/fetcher.go:127-148 | each added node is enabled and has name, tags and guessed targets of the first such item, and no token |
| Merging.FilteredItemsDoNotMatter | internal/fetcher/fetcher.go:91-110 | leaving private, unselectable or official items out of the input changes nothing |
| Merging.TrimmedOf | internal/fetcher/fetcher.go:113 | trimming takes all slashes at the end away and nothing else |
| Merging.MergeAddsExactly | internal/fetcher/fetcher.go:183-188 | with the known URLs taken from the list every chosen node is appended, and merging the same items again chooses none |
| Merging.TargetsIgnoreCase | internal/fetcher/fetcher.go:202-213 | the guess of the registry does not depend on the case of letters |
| Merging.GuessedTargets | internal/fetcher/fetcher.go:202-213 | GHCR exactly when name or URL mention ghcr, else GCR when the name mentions gcr or the URL gcr.io, else Docker Hub |
| Merging.FirstMentionWins | internal/nodemgr/manager.go:79-88 | nodes already in the list stay as they are, in place |
| Merging.RestartReproducesList | internal/persist/persist.go:24-82 | configuration, table and saved file give the same ordered URLs, file-only nodes keep URL, name, targets and token, and the whole list is the same exactly when these were enabled and without tags |
| Fetcher.MergeIntoManager | internal/fetcher/fetcher.go:84-171 | fetched equals items equals skipped plus added, names and count of the added nodes, and the new list and known set |
| Fetcher.ExistingUrls | internal/fetcher/fetcher.go:183-186 | the set of trimmed URLs of the list |
| Fetcher.FetchAndMerge | internal/fetcher/fetcher.go:175-199 | the list grows by exactly the reported number; a URL is added exactly when it was absent and some public, selectable, unofficial item has it, with that item's fields; the new list is saved, if there is where to, exactly when it has grown |
| Persist.NodesFile.Save | internal/persist/persist.go:24-49 | the file holds one entry for each node in order, or is untouched or damaged when writing fails |
| Persist.NodesFile.Load | internal/persist/persist.go:53-82 | every entry is offered to the manager in order and counted, and a missing file counts as empty |
| Persist.Restart | cmd/pullfusion/main.go:59-62 | a manager rebuilt from the same configuration and table that loads the saved file shows the same ordered URLs |
| Routes.RoutesExclusive | internal/registry/api.go:20-24 | no path fits two of the ping, upload, manifest and blob routes |
| Routes.DispatchIsMatch | internal/registry/api.go:53-91 | a route is taken exactly when its pattern matches, with the groups of its only match |
| Routes.PrintThenDispatch | internal/registry/api.go:70-87 | printing a path and routing it gives name and last part back, even if the name contains a route segment (OCI Distribution Specification v1.1, section "Endpoints", end-2 and end-3) |
| Routes.RoutesInFull | internal/registry/api.go:20-87 | for every name and last part that the patterns admit, the manifest, blob, upload and ping paths in full are routed to just that |
| Routes.RoutedPaths | internal/registry/api.go:20-91 | and no other path is routed |
| Routes.DetectedRegistry | internal/registry/resolver.go:32-37 | names under ghcr/ or ghcr.io/ belong to GHCR, all others to Docker Hub |
| Routes.ForwardedUrl | internal/downloader/multi_source.go:35 | the URL a blob is fetched from is the node's URL followed by the path that came in |

## Left out

- CacheLinear.InterleavingsAreSequential: is about what the cache shows; the bytes of an interleaved reader are those at its `Open`, and `HitsAreGenuine` and `SizesAreRight` speak of them.
- Downloader.Download: the proxying of the response body, request headers and tokens are not modelled, and the digest must have the 19 characters that the log line slices off.
- CacheStore.Cache.Put: sizes and counters are unbounded integers; the 64-bit wrap-around needs a declared size near 2^63 and is not modelled.
- CacheStore.Cache.constructor: creating the directory is not modelled, and the directory holds regular files only, none of them written by others.
- Scoring.ScoreRange: the score is computed in exact real arithmetic; floating-point rounding is not modelled, nor are failing reads of the log.
- Merging.TargetsIgnoreCase: lower-casing covers the letters A to Z; other alphabets stay as they are.
- Digests contain no slash; joining and cleaning of paths is not modelled.
- Row ids of the node table are positions, and the targets of a node are stored exactly instead of as JSON text.
- The automatic fetch after an empty start and the remote request itself.
- HTTP serving and tunnels, tokens, configuration files, the speed tester, metrics export and dashboards.
- The database console and the statistics queries over the log.
