# PolicyEngine API: shared-cache coordination, options-hash lookup and release-test sharding

This project models three parts of the PolicyEngine API in Dafny and proves what they promise.

**The shared cache.** Many API processes answer the same economy request against one Redis-like
store. `CacheStore` says what the store means: a value in which a key is gone at the very moment it
expires, with SET NX/XX/EX, PTTL, sorted sets, transactions and the two scripts. `CacheBackend` is
the in-memory backend as the repository writes it, an object that keeps expired keys until something
touches them; every method is proved to show its callers exactly the store of `CacheStore`.
`Claims`, `ReformImpactCache`, `ReusableImpact` and `BudgetWindowCache` are the objects above it,
proved against functions on store values (`ReformImpacts`, `BoundedIndex`, `BudgetWindowState`).

Concurrency is modelled in `ReformImpacts` (runs of atomic steps), `FailureDeletion`,
`AnnualSubmission` and `BudgetWindowSubmission`: a request is a program counter; each store command,
script and transaction, each answer of the simulation gateway and each passage of time is one step;
a store access may fail at any point, and a failed write may or may not have been applied. The main
results hold for every interleaving of any number of requests. Where the code guarantees less than
its reader may hope, a lemma gives the run: `LateSubmissionOverlaps` and `SlowSubmissionAddsABatch`
show that the five minutes of a claim are needed, and `RescoringLosesARecord` that an index loses a
record when a listed one comes back with a score below one it had displaced. `ExactUnlessOneFalls`
says that nothing else can go wrong: scores that only rise, as those of an impact without a start
time do, are safe.

`EconomyRuns` follows whole runs of annual requests: a submission, or an answer from a stored job
that was listed, read, polled and read again at different moments, and then written. It proves that
whatever interleaves, a finished record holds a result certified for the request its job was
submitted for. `WorkerCertification` says what certification accepts, and `BuiltResultsCertify` that
it accepts a worker's result exactly if the worker ran the selection and a year that were asked for.
`BudgetWindowRuns` is its counterpart for budget windows: a report's key tells its options and its
window, so a completed report holds a certified result for each of its own years.

`FailureDeletion` is a DELETE of a stored failure against any other requests. The block in which
lookups fail closed is a flag of it: with the flag every answer but an exception means that each
store access succeeded, and without it a single failed read reads as nothing stored
(`OpenLookupsHideOutages`). The wait it reports is enough exactly unless the failure's end lies ahead
of this instance's clock, because another instance wrote it: then a caller who waits as told is still
early (`WaitingIsEnough`). `DeletionRuns` puts the DELETE into a run of the service and proves that it
removes a job of its own calculation, `DeletionHistory` that it is the job that the request would be
answered from, and `DeletionAlone` that an undisturbed DELETE answers exactly what it should.

`AnnualHandoff`, `BudgetWindowHistory` and `AnswerEffects` say step by step what becomes of a request:
which answer of the gateway or the store leads to which write, that each write has its reason, and
that nothing else is written. `CacheLaws` and `JobLookup` say what callers observe of the cache.

**The options-hash lookup.** `LikePattern` gives SQL LIKE a direct meaning and proves that the
translation to a regular expression keeps it; the regular expression is parsed back from the text
that the translation writes. `OptionsHash` proves that escaping is exact, that a hash built after
resolving a worker application is found by the pattern of the hash built before it exactly if the
application's name has no newline, and that a hash identifies the runtime bundle it was built for, if
no name in it holds an ampersand; with ampersands some bundles collide (`AmpersandsCollide`). Python's
`.` and `$` treat newlines specially, and the results say exactly what that changes: on text without
newlines nothing, on other text `MatchesLine`; and every text with a newline has a pattern on which
the two differ (`AgreesWithoutNewlines`). `OptionsIdentity` proves that a pattern finds only hashes of the
same options, if these are plain: names without `&` or `=` that are not empty and not `dataset`, and
texts without `&`, of which only that of None is `None`.

**The release-test scheduler.** `ShardSchedule` proves the bound 4/3 - 1/(3m) for heaviest-first
placement, over all weights, numbers of shards and placements; `TightSchedule` gives weights that
reach it for every number of shards. `ReleaseTestShards` proves the assignment loop and the coverage
check, and that runners which collect the same tests in different orders agree, split the tests, and
pass the check.

`SpmSelection`, `CalendarText`, `SpmErrors` and `WorkerCertification` hold the part without a cache:
resolving an SPM selection, its receipt, recognising its errors, and certifying a worker's result.
`ImpactExecution` says what a poll or a replay writes. `CacheCore` holds what the cache families
share, envelopes and shortened lifetimes.

A few things are represented rather than computed:

- A cache key is a value of a datatype instead of a SHA-256 digest, so different inputs have
  different keys. A stored reform impact is named by a natural number, its digest read as hexadecimal,
  which has the order that sorted sets compare members by.
- The JSON text of an impact or a claim is the value it encodes, or text that does not decode. The
  budget-window envelope is modelled as a JSON document, field by field.
- Times and shard weights are real numbers. Clocks, random reductions of a lifetime, gateway answers
  and the table of measured file durations are parameters.
- `None` stands for a missing or empty execution identifier.

Check the whole project with `dafny verify dfyconfig.toml`.

## Model

| member | source | states |
|---|---|---|
| ShardSchedule.GreedyNearOptimal | scripts/release_test_shards.py:158-163 | for non-negative weights, heaviest first, 3m times the heaviest shard is at most 4m - 1 times the heaviest shard of any placement on m shards |
| TightSchedule.BoundIsTight | scripts/release_test_shards.py:158-163 | for every number of shards m there are weights, heaviest first, whose greedy placement is exactly 4/3 - 1/(3m) times another, so the factor cannot be improved |
| ShardSchedule.GreedyStaysBalanced | scripts/release_test_shards.py:156-163 | after any number of files two shards differ by at most the largest weight placed so far |
| ShardSchedule.GreedyNearMean | scripts/release_test_shards.py:156-163 | m times a shard's excess over the largest weight is at most the sum of the other weights |
| ShardSchedule.LoadsAddUp | scripts/release_test_shards.py:162-163 | the shards' totals add up to the total weight: no file is lost or counted twice |
| ShardSchedule.GreedyIsUnique | scripts/release_test_shards.py:159-161 | always choosing the lightest shard, the lowest number first, leaves exactly one placement |
| ReleaseTestShards.AssignFilesToShards | scripts/release_test_shards.py:149-164 | the method fails exactly for less than one shard, and otherwise gives each file, in heaviest-first path order, the shard that was lightest at its turn |
| ReleaseTestShards.AssignInOrder | scripts/release_test_shards.py:156-164 | the loop over the sorted files with its running totals produces such an assignment of every file |
| ReleaseTestShards.AssignmentIsUnique | scripts/release_test_shards.py:158-164 | two assignments of the same weights are the same, whatever the dictionary order |
| ReleaseTestShards.OrderIs | scripts/release_test_shards.py:158 | files are placed heaviest first, and equally heavy ones in lexicographic order of their paths |
| Text.BeforeIsLexicographic | scripts/release_test_shards.py:158 | texts are compared by the code points at their first difference, a prefix before what extends it |
| ReleaseTestShards.AssignmentIsNearOptimal | scripts/release_test_shards.py:149-164 | the assignment's heaviest shard is within 4/3 - 1/(3m) of that of any other assignment of the same files |
| ReleaseTestShards.LoopStaysBalanced | scripts/release_test_shards.py:156-163 | at every step of the loop two shards differ by at most the heaviest file placed so far |
| ReleaseTestShards.HeaviestNearMean | scripts/release_test_shards.py:156-163 | the heaviest shard is at most (sum + (m - 1) heaviest file) / m |
| ReleaseTestShards.TestsPerFileIgnoresOrder | scripts/release_test_shards.py:140-146 | the tests counted per file depend only on which tests were collected, not on their order |
| ReleaseTestShards.NodeFileIs | scripts/release_test_shards.py:135-137 | a node ID's file is its text before the first `::`, or all of an ID without one |
| ReleaseTestShards.WeightsAre | scripts/release_test_shards.py:140-146 | a file weighs its measured time or else 0.04 for each of its collected tests, and exactly the files with collected tests have a weight |
| ReleaseTestShards.ShardNodeIds | scripts/release_test_shards.py:167-174 | a runner keeps exactly the collected tests whose file is assigned to its shard, under the assignment of what it collected |
| ReleaseTestShards.KeptInCollectionOrder | scripts/release_test_shards.py:172-174 | what a shard keeps embeds, position by position, into what it collected |
| ReleaseTestShards.ShardKeepsItsFiles | scripts/release_test_shards.py:167-174 | a shard keeps a collected test as often as it was collected if the text before its first `::` is a file of that shard, and otherwise not at all |
| ReleaseTestShards.FilesStayWhole | scripts/release_test_shards.py:167-174 | collected tests with the same text before the first `::` are kept by the same shards |
| ReleaseTestShards.RunnersAgree | scripts/release_test_shards.py:140-164 | runners that collect the same tests in any orders compute the same assignment |
| ReleaseTestShards.CoverageProblems | scripts/release_test_shards.py:231-271 | the check is sound and complete: no problem is returned exactly when every shard reported as itself, all collected the same tests, and each was run exactly once with nothing extra; every named problem is true of the reports; it fails exactly when it reaches a missing shard 1 |
| ReleaseTestShards.LabelProblems | scripts/release_test_shards.py:240-245 | the problems named are exactly the wrong labels: each report with another index or count has its entry, with what it says, and nothing else is named |
| ReleaseTestShards.CollectionProblems | scripts/release_test_shards.py:249-255 | the problems named are exactly the differing shards: each shard that collected other tests than shard 1 has its entry, with how many more and fewer, and nothing else is named |
| ReleaseTestShards.MisrunProblems | scripts/release_test_shards.py:256-271 | the problems named are exactly: of each kind the first 20 misrun tests, and how many more there are if there are more; none is named exactly when each collected test was run once and no other was run |
| ReleaseTestShards.MisrunIdsInOrder | scripts/release_test_shards.py:256-271 | the misrun tests of a kind are listed in the order they were collected if no shard ran them, and otherwise by path without repetition |
| ReleaseTestShards.SplitPassesCoverage | scripts/release_test_shards.py:167-271 | if every runner collects the same distinct tests, in whatever order, the reports of what they kept satisfy the coverage check |
| LikePattern.Expression | policyengine_api/runtime_cache/reform_impacts.py:196-213 | the loop writes the text of the pattern's regular expression, and that text parses back to it |
| LikePattern.LikeMatchesExactly | policyengine_api/runtime_cache/reform_impacts.py:196-214 | matching the translated text, parsed as a regular expression, is LIKE whose wildcards stop at newlines, for every pattern and value |
| LikePattern.LikeMatches | policyengine_api/runtime_cache/reform_impacts.py:196-214 | for every newline-free value the result is that of LIKE with `%`, `_`, backslash escapes and a literal lone backslash at the end |
| LikePattern.AgreesWithoutNewlines | policyengine_api/runtime_cache/reform_impacts.py:196-214 | the translation agrees with LIKE for every pattern exactly on the values without a newline |
| OptionsHash.ReplacementsEscape | policyengine_api/services/economy_stored_impacts.py:249-251 | the three replacements put one backslash before each backslash, percent sign and underscore |
| OptionsHash.PatternFindsExtensions | policyengine_api/services/economy_stored_impacts.py:248-254 | for every hash, the lookup pattern matches a value exactly when the value starts with the hash, minus a closing bracket plus `&`, and the rest is one line |
| OptionsHash.HashIdentifiesBundle | policyengine_api/services/economy_stored_impacts.py:224-246 | for the same options and names without ampersands, two hashes are equal exactly if dataset, versions and worker application are, a missing one counting as empty |
| HashText.HashIsWritten | policyengine_api/services/economy_stored_impacts.py:224-246 | the hash of plain options is written out in full: sorted options, dataset, model version, the known versions, the schemas of an SPM selection and a breakdown, the application |
| HashText.JoinedByAmpersands | policyengine_api/services/economy_stored_impacts.py:246 | joined parts are the parts with one ampersand between any two |
| OptionsHash.AmpersandsCollide | policyengine_api/services/economy_stored_impacts.py:229-246 | with an ampersand in a version, different bundles share a hash, whatever the options |
| OptionsHash.LookupFindsResolvedHash | policyengine_api/services/economy_stored_impacts.py:224-254 | for every options dictionary and the same versions, the hash with a resolved non-empty worker application is matched by the pattern of the hash without one, despite the stripping of `&`, exactly when the name has no newline |
| OptionsIdentity.FoundHashHasSameOptions | policyengine_api/services/economy_stored_impacts.py:224-254 | for plain options, if one request's hash is, or continues as, another's, both have the same options, whatever versions and applications follow |
| OptionsIdentity.HashIdentifiesCalculation | policyengine_api/services/economy_stored_impacts.py:224-246 | hashes of plain options are equal exactly if options, dataset, versions and worker application are |
| CacheStore.TransactionsKeepSettled | policyengine_api/runtime_cache/fake.py:240-253 | after any transaction at all only keys that exist have expiries, all in the future |
| CacheStore.PurgedAdvance | policyengine_api/runtime_cache/fake.py:45-60 | purging late, after the clock moved, leaves what purging before and after leaves |
| CacheLaws.SetIsReadBack | policyengine_api/runtime_cache/fake.py:68-92 | SET writes exactly if NX and XX allow it, what it wrote is read back, and no other key changes |
| CacheLaws.SetLasts | policyengine_api/runtime_cache/fake.py:68-92 | a value is read for exactly its lifetime, or for ever without one |
| CacheLaws.ExpiryLasts | policyengine_api/runtime_cache/fake.py:107-114 | a renewed key is there for exactly the new lifetime |
| CacheLaws.TimeToLiveIs | policyengine_api/runtime_cache/fake.py:116-125 | the milliseconds to live are the fewest after which the key is gone; -2 and -1 mean missing and without expiry |
| CacheLaws.DeletedIsGone | policyengine_api/runtime_cache/fake.py:94-105 | deleted keys hold nothing any more and no other key changes |
| CacheLaws.AddedAreMembers | policyengine_api/runtime_cache/fake.py:127-134 | the added members have their new scores, and the others keep theirs |
| CacheLaws.AddedIsMember | policyengine_api/runtime_cache/fake.py:127-134 | adding one member in a transaction is adding it alone |
| CacheLaws.RemovedAreNot | policyengine_api/runtime_cache/fake.py:152-159 | the removed members are gone, and the others keep their scores |
| CacheLaws.ComparedIsDeleted | policyengine_api/runtime_cache/fake.py:195-199 | the script deletes exactly a key that holds the value, and says so |
| CacheLaws.TimePasses | policyengine_api/runtime_cache/fake.py:45-60 | time removes a key exactly when its expiry has come and changes nothing else |
| CacheBackend.InMemoryCacheBackend.AdvanceClock | policyengine_api/runtime_cache/fake.py:45-53 | callers see the keys whose time has come disappear, and nothing else |
| CacheBackend.InMemoryCacheBackend.Purge | policyengine_api/runtime_cache/fake.py:55-60 | purging a key is invisible to callers |
| CacheBackend.InMemoryCacheBackend.GetValue | policyengine_api/runtime_cache/fake.py:62-66 | returns the value of a key that has not expired |
| CacheBackend.InMemoryCacheBackend.Set | policyengine_api/runtime_cache/fake.py:68-92 | SET with NX, XX and EX on the visible store, and whether it wrote; a lifetime that is not positive leaves the key gone |
| CacheBackend.InMemoryCacheBackend.DeleteKeys | policyengine_api/runtime_cache/fake.py:94-105 | removes the keys' values, members and expiries, and counts those that existed, each once |
| CacheBackend.InMemoryCacheBackend.ExpireKey | policyengine_api/runtime_cache/fake.py:107-114 | renews the expiry of a key that exists, and says whether it does; a lifetime that is not positive removes it |
| CacheBackend.InMemoryCacheBackend.TimeToLive | policyengine_api/runtime_cache/fake.py:116-125 | milliseconds left, rounded up; -2 for a missing key, -1 for one without expiry |
| CacheBackend.InMemoryCacheBackend.Zadd | policyengine_api/runtime_cache/fake.py:127-134 | upserts the members' scores and counts the new members |
| CacheBackend.InMemoryCacheBackend.Zrevrange | policyengine_api/runtime_cache/fake.py:136-150 | the ranks asked for, by descending score and then member |
| CacheBackend.InMemoryCacheBackend.Zrem | policyengine_api/runtime_cache/fake.py:152-159 | removes the members although it does not purge first; the count is of the members held, which for a set that has not expired are the visible ones |
| CacheBackend.InMemoryCacheBackend.Zremrangebyrank | policyengine_api/runtime_cache/fake.py:161-174 | removes and counts the members of the ranks asked for, by ascending score |
| CacheBackend.InMemoryCacheBackend.EvalCompareAndDelete | policyengine_api/runtime_cache/fake.py:195-199 | deletes the key exactly if it still holds the expected value |
| CacheBackend.InMemoryCacheBackend.EvalDeleteUnchanged | policyengine_api/runtime_cache/fake.py:201-215 | deletes the record and its two index entries exactly if it still holds the expected value |
| CacheBackend.InMemoryPipeline.Execute | policyengine_api/runtime_cache/fake.py:240-253 | replays the queued commands in order as one step, returns their replies and empties the queue |
| Claims.ExpiringClaimStore.Acquire | policyengine_api/runtime_cache/claims.py:34-62 | fails for an empty token or a lifetime that is not positive; otherwise wins exactly a free key, and leaves a held one alone |
| Claims.ExpiringClaimStore.Release | policyengine_api/runtime_cache/claims.py:64-89 | deletes the key exactly if it still holds the token |
| Claims.LateReleaseChangesNothing | policyengine_api/runtime_cache/claims.py:64-89 | a release after the claim expired changes nothing, whether or not another owner has claimed since |
| BoundedIndex.TrimmedIsNewest | policyengine_api/runtime_cache/fake.py:161-174 | removing ranks 0 to -(limit + 1) leaves exactly the members with fewer than `limit` above them |
| BoundedIndex.NewestCount | policyengine_api/runtime_cache/reform_impacts.py:432-436 | the newest members number `limit`, or are all there are |
| BoundedIndex.ReadFromTop | policyengine_api/runtime_cache/fake.py:136-150 | for any ranks, the member at place k of a descending read from rank `start` has exactly start + k members above it |
| BoundedIndex.ReadListsNewest | policyengine_api/runtime_cache/fake.py:136-150 | a read from the top lists exactly the newest members, as many as there are up to the limit, by descending score and then name |
| BoundedIndex.AdditionKeepsNewest | policyengine_api/runtime_cache/reform_impacts.py:430-437 | adding to a trimmed index and trimming again gives the trimmed history exactly unless a listed record falls below one that had been displaced |
| BoundedIndex.ExactUnlessOneFalls | policyengine_api/runtime_cache/reform_impacts.py:430-437 | over any additions, the index is the trimmed history after each of them exactly if no addition falls so |
| BoundedIndex.IndexIsHistoryTrimmedOnce | policyengine_api/runtime_cache/reform_impacts.py:430-437 | if none falls, trimming after every addition leaves what trimming the whole history once leaves |
| BoundedIndex.NeverDropsNoneFalls | policyengine_api/runtime_cache/reform_impacts.py:379-437 | records whose scores stay or rise never fall below a displaced one |
| RescoredIndex.RescoringLosesARecord | policyengine_api/runtime_cache/reform_impacts.py:379-437 | a run of 1,002 writes, in which one score drops, leaves an entry in the index that is not among the 1,000 greatest |
| CacheCore.JitteredTtl | policyengine_api/runtime_cache/core.py:185-206 | succeeds exactly for a positive lifetime, a fraction from 0 to below 1 and a reduction within the whole seconds of that fraction; the result is positive and keeps the rest of the lifetime |
| ReformImpacts.WriteEffect | policyengine_api/runtime_cache/reform_impacts.py:387-447 | the transaction writes the record (only over an existing one, if asked), enters it in its two trimmed and renewed indexes, each with its own reading of the clock, and says whether it wrote |
| ReformImpacts.WriteKeepsSettled | policyengine_api/runtime_cache/reform_impacts.py:414-437 | after a write only keys that exist have expiries, all in the future |
| JobLookup.FindsExactly | policyengine_api/runtime_cache/reform_impacts.py:492-548 | a lookup finds a record exactly if it is among its index's newest 1,000 members and its key holds an impact |
| JobLookup.LookupFindsAllMembers | policyengine_api/runtime_cache/reform_impacts.py:492-548 | in every run the limit cuts nothing off: every member whose key holds an impact is found |
| JobLookup.EntriesAreNewestFirst | policyengine_api/runtime_cache/reform_impacts.py:492-500 | the entries read are the newest members in descending order, each with what its record holds |
| JobLookup.FoundInOrder | policyengine_api/runtime_cache/reform_impacts.py:546-548 | every readable entry is returned, in order, and nothing else |
| JobLookup.WrittenScores | policyengine_api/runtime_cache/reform_impacts.py:379-437 | an entry is scored by the impact's start, or without one by the clock read for its index; other entries keep their scores |
| JobLookup.WrittenIsFound | policyengine_api/runtime_cache/reform_impacts.py:387-447 | a job just stored is found through both its indexes if fewer than 1,000 entries are newer, and is what was stored |
| ReformImpacts.SecondsLeftAgreesWithLookup | policyengine_api/runtime_cache/reform_impacts.py:463-490 | the reported wait is the least whole number of seconds after which, without further writes, a lookup no longer finds the record |
| ReformImpacts.NoSecondsLeft | policyengine_api/runtime_cache/reform_impacts.py:473-490 | there is no answer exactly without a handle or an expiring record, and the answer is 0 exactly when the index is gone |
| ReformImpacts.UpdatesNeverResurrect | policyengine_api/runtime_cache/reform_impacts.py:610-638 | in every run, a record that is gone stays gone until it is created again: every update reports failure and no lookup finds it |
| ReformImpacts.IndexesNeverExceedLimit | policyengine_api/runtime_cache/reform_impacts.py:430-437 | in every run of the cache's operations no index ever holds more than 1,000 entries |
| ReformImpacts.IndexHoldsNewestEverAdded | policyengine_api/runtime_cache/reform_impacts.py:430-437 | in every run whose scores never drop and whose steps leave the index's other members alone, the index holds exactly the 1,000 greatest entries ever added |
| ReformImpactCache.BestMatchFirst | policyengine_api/runtime_cache/reform_impacts.py:554-608 | a lookup returns exactly the listed impacts whose hash is equal or matches, and none is better than the first: exact hash, then start time, then identifier |
| ReformImpactCache.BestFirstRanks | policyengine_api/runtime_cache/reform_impacts.py:600-608 | sorting ranks the impacts best first and keeps each of them |
| ReformImpactCache.FirstMatchIsBest | policyengine_api/runtime_cache/reform_impacts.py:600-608 | the first match has the exact hash if any has, and among the like none started later or, together, has a larger identifier |
| ReformImpactCache.NoEarlierStart | policyengine_api/runtime_cache/reform_impacts.py:604 | a missing start ranks as the first moment of the year 1 |
| ReformImpactCache.BestFirstIsStable | policyengine_api/runtime_cache/reform_impacts.py:600-608 | equally good matches keep the order of the index |
| ReformImpactCache.SelectMatching | policyengine_api/runtime_cache/reform_impacts.py:590-599 | selects the impacts with the exact hash or, by the compiled pattern, an extension of it |
| ReformImpactCache.SelectedInOrder | policyengine_api/runtime_cache/reform_impacts.py:590-599 | every listed impact that matches is selected, each time it is listed, in the order of the list |
| ReformImpactCache.ReformImpactCache.Set | policyengine_api/runtime_cache/reform_impacts.py:387-447 | fails exactly without a record identifier; otherwise the whole new store is that of the write, and the answer is whether the record was written |
| ReformImpactCache.ReformImpactCache.GetByExecutionId | policyengine_api/runtime_cache/reform_impacts.py:449-461 | the impact that the job's record holds, if it holds one |
| ReformImpactCache.ReformImpactCache.ReadSecondsLeft | policyengine_api/runtime_cache/reform_impacts.py:463-490 | reads the wait from the expiries of the record and its index |
| ReformImpactCache.ReformImpactCache.FromIndex | policyengine_api/runtime_cache/reform_impacts.py:492-548 | the decoded records that the index lists, newest first, without the missing and unreadable |
| ReformImpactCache.ReformImpactCache.LookUp | policyengine_api/runtime_cache/reform_impacts.py:554-608 | the ranked matches of the scope index's newest 1,000 entries |
| ReformImpactCache.ReformImpactCache.Update | policyengine_api/runtime_cache/reform_impacts.py:610-638 | rewrites the impact under its key with the changes, or answers None and changes nothing if it is not there |
| ReformImpactCache.ReformImpactCache.DeleteFailure | policyengine_api/runtime_cache/reform_impacts.py:640-693 | fails exactly for an impact that is no failure; removes the first record of its scope that holds it, if any does |
| ReformImpactCache.ReformImpactCache.ClaimStart | policyengine_api/runtime_cache/reform_impacts.py:254-276 | fails exactly for an empty token or an invalid identifier; otherwise wins exactly a free key, for 300 seconds |
| ReformImpactCache.ReformImpactCache.GetStartClaim | policyengine_api/runtime_cache/reform_impacts.py:278-323 | the claim, none, or an error for a value that is no claim |
| ReformImpactCache.ReformImpactCache.ReleaseStart | policyengine_api/runtime_cache/reform_impacts.py:325-347 | fails exactly for an empty token or an invalid identifier; otherwise removes exactly this complete claim |
| ReusableImpact.ResolvedNamesTheAnswer | policyengine_api/services/economy_stored_impacts.py:30-48 | a resolved request's hash names the application and model version that the gateway answered, and nothing else of it changes |
| ReusableImpact.MostRecentIsBest | policyengine_api/services/economy_stored_impacts.py:183-205 | a job is selected exactly if any matches, and no matching job has an exact hash it lacks or, failing that, is newer |
| ReusableImpact.ReuseIsSound | policyengine_api/services/economy_stored_impacts.py:142-164 | a finished job is reused only if it names the worker application the request resolves to, or has exactly the refreshed hash, or nothing could be resolved; and it was listed under the request's scope with a matching hash |
| ReusableImpact.TrustedJobIsKept | policyengine_api/services/economy_stored_impacts.py:142-164 | a selected job that is computing, names the resolved application, or cannot be checked is reused; any other gives way to a job with exactly the refreshed hash, if there is one |
| ReusableImpact.NothingSelected | policyengine_api/services/economy_stored_impacts.py:142-164 | if nothing is reused, nothing matched, or what matched was given up and nothing has the refreshed hash |
| ReusableImpact.StoredJobIsReused | policyengine_api/services/economy_stored_impacts.py:142-205 | if each selection lists a job stored under the hash the request resolves to, and resolving keeps the model version, the request reuses a job instead of submitting one |
| ReusableImpact.SetupOptions.ResolveRuntimeBundle | policyengine_api/services/economy_stored_impacts.py:30-48 | resolves an unknown worker application once and rebuilds the hash from the new versions |
| ReusableImpact.SetupOptions.ShouldRefreshCachedImpact | policyengine_api/services/economy_stored_impacts.py:262-299 | the options are left alone for a computing job or an unresolvable application, and otherwise resolved, also when the answer is not to refresh |
| ReusableImpact.StoredImpacts.GetMostRecentImpact | policyengine_api/services/economy_stored_impacts.py:183-205 | the loop returns the first exact match, or else the best |
| ReusableImpact.StoredImpacts.GetReusableImpact | policyengine_api/services/economy_stored_impacts.py:142-164 | selects, checks and selects again as specified, and leaves the options resolved as specified |
| FailureDeletion.WaitingIsEnough | policyengine_api/services/reform_impacts_service.py:219-235 | a caller that waits the seconds it is told is not early exactly if the end does not lie ahead of this clock (or there is no lockout), and is told 0 exactly once the lockout has passed |
| FailureDeletion.WaitingIsNeeded | policyengine_api/services/reform_impacts_service.py:219-235 | after any fewer whole seconds the caller is still early, and there is no wait for an impact without an end |
| FailureDeletion.DeleteIsSafe | policyengine_api/services/economy_service.py:251-278 | whatever other requests do, a DELETE changes the cache only by removing a record that still holds the failure it selected for its request, kept from the entries it read and matching the request's hash, and checked; with its two index entries, and nothing else |
| DeletionHistory.ActsOnTheReusedJob | policyengine_api/services/economy_service.py:251-260 | in every run a DELETE checks, searches and removes only the job that reuse chooses from the entries its attempt read in full and the gateway's answer to it, so only a trusted one |
| DeletionHistory.NotFoundIsRight | policyengine_api/services/economy_service.py:259-260 | not found is answered only if reuse chooses no job from what the attempt read |
| DeletionHistory.EndingIsRight | policyengine_api/services/economy_service.py:261-278 | every other answer is right about that job: its status, exactly the seconds left, its removal; and one raises without a fault only if in the third attempt the failure was not there |
| DeletionHistory.RaisesAfterThreeAttempts | policyengine_api/services/economy_service.py:251-278 | a DELETE gives up, if no access failed, only after it has started over twice |
| DeletionHistory.LostRemovalMayHaveApplied | policyengine_api/runtime_cache/reform_impacts.py:661-693 | a removal whose answer is lost raises, and has happened or not |
| DeletionAlone.DeletesAlone | policyengine_api/services/economy_service.py:251-278 | undisturbed, a DELETE answers exactly what its request asks, given by the cache, the resolution and the clock |
| DeletionRuns.DeletedJobIsTheRequests | policyengine_api/services/economy_service.py:251-278 | in every run of the service, whatever happens between its steps, a DELETE removes only a job that was submitted for its own calculation: its scope and cache version, and its hash, the resolved one or one that extends it; and the run goes on without exactly that record and its entries |
| FailureDeletion.OutagesAreNotMissingRecords | policyengine_api/services/economy_service.py:254-260 | inside the block in which lookups fail closed, every answer but an exception, not-found included, means that each store access before it succeeded |
| FailureDeletion.OpenLookupsHideOutages | policyengine_api/runtime_cache/reform_impacts.py:512-548 | a failed read of a selection raises inside that block, and outside it reads as nothing stored, whatever the cache holds |
| FailureDeletion.NotFoundMeansNoMatch | policyengine_api/services/economy_service.py:254-260 | not-found is answered only after reading everything the index listed without finding a match for the request |
| FailureDeletion.DeletionEnds | policyengine_api/services/economy_service.py:251-278 | a DELETE makes at most three attempts and ends within a fixed number of steps, however often the record changes |
| AnnualSubmission.SubmissionsNeverOverlap | policyengine_api/services/economy_service.py:423-520 | in every run, of two requests for one identity and target that are both between a won claim and its release, one has held it for the whole 300 seconds |
| AnnualSubmission.ClaimBlocksOthers | policyengine_api/services/economy_service.py:469-483 | while a claim has not run out no other request wins it, and a failed hand-off keeps it until then |
| AnnualHandoff.FreeClaimIsWon | policyengine_api/services/economy_service.py:485-520 | a request wins exactly a free claim whose store answers, holds its own claim for 300 seconds from then, and submits; a held claim stays |
| AnnualHandoff.LoserWaitsForOwner | policyengine_api/services/economy_service.py:500-512 | a loser waits for the owner whose claim it reads, and changes the cache no more |
| AnnualHandoff.ClaimsAgainUpToThreeTimes | policyengine_api/services/economy_service.py:500-520 | a loser that finds no owner claims again until its third look, then raises |
| AnnualHandoff.RefusalFreesClaim | policyengine_api/services/economy_service.py:479-483 | a failed submission stores nothing and its next step frees the claim |
| AnnualHandoff.AcceptedJobIsHandedOff | policyengine_api/services/economy_service.py:469-483 | an accepted job is stored by the next step, exactly, and the step after frees the claim |
| AnnualHandoff.FailedHandoffKeepsClaim | policyengine_api/services/economy_service.py:474-478 | if storing the accepted job fails, the key holds exactly this request's claim until its 300 seconds are over, in every continuation |
| AnnualHandoff.FailedHandoffBlocksOthers | policyengine_api/services/economy_service.py:474-478 | so no other request submits before then |
| AnnualHandoff.LostAnswersMayHaveApplied | policyengine_api/services/economy_service.py:469-520 | a claim, a hand-off or a release whose answer is lost has happened or not, and the request raises or goes on all the same |
| AnnualSubmission.ReleaseFrees | policyengine_api/services/economy_service.py:479-483 | a release in time frees the claim; a release of a claim that is no longer held changes nothing |
| AnnualSubmission.LateSubmissionOverlaps | policyengine_api/services/economy_service.py:485-520 | a request that submits for longer than the claim lasts overlaps with the next |
| EconomyRuns.OnlyCertifiedResultsAreStored | policyengine_api/services/economy_impact_execution.py:39-199 | in every reachable cache a finished record holds a result that is certified for a request made for its calculation, and a breakdown's if that request asked for one, whatever polls, replays, deletions and expiry interleave |
| EconomyRuns.ResultsAreCertifiedForTheirOwnRequest | policyengine_api/services/economy_impact_execution.py:39-199 | if hashes are built from plain options, that result is certified for the very request its job was submitted for, whoever polled it |
| EconomyRuns.RecordsKeepToTheirJobs | policyengine_api/services/reform_impacts_service.py:120-262 | in every reachable cache each record is of the calculation its identifier was given to, and each scope index lists only its own |
| EconomyRuns.TerminalRecordsStayTerminal | policyengine_api/services/reform_impacts_service.py:173-262 | in every run, a finished or failed record never is computing again, whatever polls read and write late, until a job is submitted under its identifier |
| ImpactExecution.RetryableFailureExpires | policyengine_api/services/economy_impact_execution.py:170-204 | storing a retryable failure reports a wait of exactly 120 seconds, after which no lookup finds it |
| AnswerEffects.WritesForAReason | policyengine_api/services/economy_impact_execution.py:39-199 | an answer writes exactly for a certified wanted result, a failed or unwanted job, or a refusal; a running job, a certified replay and a failure write nothing |
| AnswerEffects.AnswerHasItsEffect | policyengine_api/services/economy_impact_execution.py:39-199 | in every run an answer leaves its own record exactly so, if it is still there: status, result, application, code, handle, end and lifetime; and no other record changes |
| BudgetWindowState.StateRoundTrip | policyengine_api/services/budget_window_cache.py:55-78 | every state that the model accepts survives encoding and decoding |
| BudgetWindowState.ReadableAreWritable | policyengine_api/services/budget_window_cache.py:55-78 | a state can be read back from some value exactly if it has the fields its status requires and no empty identifiers, and then the cache can write it |
| BudgetWindowState.WrittenStatesAre | policyengine_api/services/budget_window_cache.py:207-357 | a reader of a written state finds exactly the claim's token, the batch, the result or the typed failure, and the writer's diagnostic identifier |
| BudgetWindowState.EncodingIsInjective | policyengine_api/services/budget_window_cache.py:133-139 | two states have the same encoding exactly if they are equal |
| CacheCore.EnvelopeRoundTrip | policyengine_api/runtime_cache/core.py:139-182 | an envelope gives its payload to a reader of its family and version, and nothing to any other |
| BudgetWindowCache.CleanupSparesStates | policyengine_api/services/budget_window_cache.py:156-205 | the cleanup of undecodable values never removes a state that a request wrote |
| BudgetWindowCache.BudgetWindowCache.GetState | policyengine_api/services/budget_window_cache.py:156-205 | reads the state, and removes exactly a value that is none |
| BudgetWindowCache.BudgetWindowCache.ClaimBatchStart | policyengine_api/services/budget_window_cache.py:207-228 | wins exactly a report without a value, for 300 seconds |
| BudgetWindowCache.BudgetWindowCache.ClearStartingClaim | policyengine_api/services/budget_window_cache.py:230-252 | removes exactly this caller's claim |
| BudgetWindowCache.BudgetWindowCache.StoreSubmitted | policyengine_api/services/budget_window_cache.py:254-298 | replaces whatever is there by the batch for a day, and the next read finds it; fails for an empty batch identifier |
| BudgetWindowCache.BudgetWindowCache.SetCompletedResult | policyengine_api/services/budget_window_cache.py:300-315 | the next read finds the result, for the shortened lifetime |
| BudgetWindowCache.BudgetWindowCache.SetFailure | policyengine_api/services/budget_window_cache.py:317-357 | the next read finds the typed failure, for the shortened lifetime |
| BudgetWindowSubmission.OneClaimPerLifetime | policyengine_api/services/budget_window_cache.py:207-228 | in every run, after a claim is won the report holds a state without a break until 300 seconds or more have passed and time runs out on it, or until the winner clears exactly its own claim; another claim is won only after that |
| BudgetWindowSubmission.OnlyWinnersSubmit | policyengine_api/services/economy_budget_window_submission.py:114-259 | in every run, a request that is submitting won its claim when the report had no state; losers never submit |
| BudgetWindowSubmission.OneBatchPerLifetime | policyengine_api/services/economy_budget_window_submission.py:114-259 | if two requests each submit a batch of a report within 300 seconds of their claims, the report's key was without a value between the two, whichever cache operations fail and however late other requests are |
| BudgetWindowSubmission.SlowSubmissionAddsABatch | policyengine_api/services/economy_budget_window_submission.py:168-225 | without that, one lifetime of a report can see two batches |
| BudgetWindowSubmission.RemovalsAreOwn | policyengine_api/services/budget_window_cache.py:156-252 | in every run, a report's value is removed only by time, by the owner of exactly that claim, or because it is no state |
| BudgetWindowSubmission.SettledReportLasts | policyengine_api/services/budget_window_cache.py:254-386 | a submitted, completed or failed state outlasts every interleaving and failure until its time is up |
| BudgetWindowSubmission.StoredBatchShieldsReport | policyengine_api/services/economy_budget_window_submission.py:182-225 | for a day after a batch is stored no request wins a claim on its report, however late other writes and releases arrive |
| BudgetWindowHistory.EveryStateHasItsReason | policyengine_api/services/economy_budget_window_results.py:69-224 | in every run a report becomes failed, refused, submitted or completed only by the request whose previous step was answered so: a failed or empty batch or an invalid submission, a refusal or an uncertified result, an accepted batch, a certified result |
| BudgetWindowHistory.PendingWritesNothing | policyengine_api/services/economy_budget_window_results.py:214-228 | a batch that is still running makes its request write nothing |
| BudgetWindowHistory.ReplayWritesNothing | policyengine_api/services/economy_budget_window_results.py:35-67 | a stored failure, a claim and a certified result are answered as they are |
| BudgetWindowHistory.TerminalAnswerIsStored | policyengine_api/services/economy_budget_window_results.py:158-212 | each final answer is stored by the request's next step, for a month less its reduction, and ends the request as it should |
| BudgetWindowHistory.AcceptedBatchIsStored | policyengine_api/services/economy_budget_window_submission.py:182-195 | an accepted batch is stored by the next step, for a day |
| BudgetWindowHistory.FailedSubmissionClearsClaim | policyengine_api/services/economy_budget_window_submission.py:196-224 | a failed submission, or one that cannot be stored, removes exactly the request's own claim |
| BudgetWindowHistory.ReadLeadsTo | policyengine_api/services/economy_budget_window_submission.py:83-101 | a request answers from the state it reads, claims without one, and cleans up what is none |
| BudgetWindowHistory.UnreadableIsCleaned | policyengine_api/services/budget_window_cache.py:156-205 | a value that is no state is removed exactly if it is still there, and the request claims, up to three times |
| BudgetWindowHistory.FreeReportIsClaimed | policyengine_api/services/economy_budget_window_submission.py:241-250 | a claim is won exactly on a report without a value whose store answers, for 300 seconds |
| BudgetWindowHistory.LoserIsQueued | policyengine_api/services/economy_budget_window_submission.py:251-257 | a loser that reads a state is answered as queued and writes nothing |
| BudgetWindowHistory.LoserCleansUp | policyengine_api/services/budget_window_cache.py:156-205 | a loser that reads a value that is no state cleans it up |
| BudgetWindowHistory.FaultRaises | policyengine_api/services/economy_budget_window_submission.py:78-112 | a failing read or claim raises, and nothing is written after it |
| BudgetWindowHistory.ClaimsAgainUpToThreeTimes | policyengine_api/services/economy_budget_window_submission.py:239-259 | a loser that finds the report empty claims again until its third look, then raises |
| BudgetWindowHistory.LostAnswersMayHaveApplied | policyengine_api/services/economy_budget_window_submission.py:168-259 | a claim, a write or a clearing whose answer is lost has happened or not |
| BudgetWindowRuns.AnsweredResultsAreCertified | policyengine_api/services/economy_budget_window_results.py:69-205 | in every run, from any cache, a request is answered only with results that are certified for it |
| BudgetWindowRuns.CompletedResultsAreCertified | policyengine_api/services/economy_budget_window_results.py:69-205 | in every run from a cache whose results are certified, a completed report holds a result certified for its own selection and years, whichever request polled it and however requests interleave and fail |
| BudgetWindowRuns.CompletedWindowsAreComplete | policyengine_api/services/economy_budget_window_results.py:142-205 | so with a selection it holds one certified annual result for each year asked for, in order |
| BudgetWindowRuns.ReportNamesRequest | policyengine_api/services/economy_budget_window_submission.py:261-269 | requests with plain options that share a report's key have the same options, first year and size, and certify the same results |
| WorkerCertification.PeriodNamesWindow | policyengine_api/utils/budget_window.py:27-29 | two accepted windows have the same period exactly if they have the same first year and size |
| CalendarText.IsoRoundTrip | policyengine_api/spm.py:99-106 | text accepted as a date is exactly how that date is written |
| CalendarText.DateRoundTrip | policyengine_api/spm.py:99-106 | every date of the calendar is accepted as it is written |
| CalendarText.LeapYearsAre | policyengine_api/spm.py:99-106 | the years up to n have n/4 - n/100 + n/400 leap years |
| CalendarText.MonthsAre | policyengine_api/spm.py:99-106 | the months have the lengths that the usual day-count formula gives, and the year 365 or 366 days |
| SpmSelection.MergeSelectionValues | policyengine_api/spm.py:679-694 | the updates in turn produce the merged settings: the kind's area rule, the bundle's hash, the default scenario |
| SpmSelection.MergeBreaksLocationOnlyByNullId | policyengine_api/spm.py:679-694 | valid settings over valid defaults are valid except exactly when the caller sends a null area without a kind and the default is a metro |
| SpmSelection.SentSettingsWin | policyengine_api/spm.py:679-694 | what the caller sends is what is resolved and what is left out is the bundle's, with the exceptions for the hash, a null scenario and the area of another kind |
| SpmSelection.ResolvedIsSupported | policyengine_api/spm.py:632-676 | what is resolved is supported by the bundle, and each refusal has its code |
| SpmSelection.ResolvingIsIdempotent | policyengine_api/spm.py:632-694 | resolving a resolved selection returns it unchanged, and it is valid and pins the bundle's artifact |
| SpmSelection.ReceiptRoundTrip | policyengine_api/spm.py:237-326 | a receipt is built exactly if artifact, scenario, names, years and versions are in order, and reads back as the selection |
| SpmSelection.YearsAreSorted | policyengine_api/spm.py:169-184 | a receipt's years are four-digit texts, sorted as texts and without repetition |
| SpmSelection.CalendarYearIs | policyengine_api/spm.py:172-180 | a calendar year is four ASCII digits |
| SpmSelection.HashesAreHexadecimal | policyengine_api/spm.py:70 | a hash is 64 lower-case hexadecimal digits |
| SpmSelection.NamesHaveNoSpace | policyengine_api/spm.py:71 | a name has no white space; visible ASCII is allowed |
| SpmSelection.AreasAreVisible | policyengine_api/spm.py:108-119 | a metro needs an area with a visible character, and no other kind accepts one |
| SpmErrors.SpmErrorDetail | policyengine_api/spm.py:419-430 | the loop returns the first typed error of the chain, ends on circular chains too, and finds none exactly if no exception of the chain is typed |
| SpmErrors.ChainFollowsCauses | policyengine_api/spm.py:419-430 | the chain goes on with an exception's cause, or else its context |
| WorkerCertification.BuildWindowSetup | policyengine_api/utils/budget_window.py:32-69 | accepts exactly a general target, a window of 1 to 75 years and a last year up to 2099, and lists the texts of the consecutive years and the window's period |
| WorkerCertification.CalendarYearText | policyengine_api/utils/budget_window.py:21-24 | a year's text passes as a calendar year exactly from 1000 to 9999, and names that year |
| WorkerCertification.WindowCertificationIsExact | policyengine_api/worker_spm.py:118-198 | with a selection and requested years, a result is accepted exactly when it is a window with as many rows as its size, the requested years are distinct and four-digit, and each row is a non-nested annual result certified for its year |
| WorkerCertification.RequestedWindowCertification | policyengine_api/worker_spm.py:144-178 | for the years of an accepted request only the rows are at stake, unless the window starts before the year 1000: then nothing is ever certified |
| WorkerCertification.BuiltResultsCertify | policyengine_api/worker_spm.py:90-141 | a result whose receipts were built from one selection over some years is certified for a request exactly if the request resolved to that selection and asks for one of those years |
| WorkerCertification.BuiltWindowsCertify | policyengine_api/worker_spm.py:90-178 | a window whose rows were built from one selection is certified exactly if the request resolved to it, its years are the rows' labels, distinct and of four digits, the size is right, and each row covers its label |
| WorkerCertification.DefectsAreRefused | policyengine_api/worker_spm.py:118-198 | no defect of an annual result is overlooked: kind, legacy configuration, missing, invalid or differing receipts, no execution, another selection, another year |
| WorkerCertification.DefectiveRowsAreRefused | policyengine_api/worker_spm.py:118-178 | a window with a row that is not certified for its year is refused |
| WorkerCertification.NothingToCertify | policyengine_api/worker_spm.py:104-105 | without a selection every result passes |

## Left out

- HTTP routing, middleware, observability spans and logging; gateway, token and policy requests, which appear only as answers.
- SHA-256 and the JSON text itself: keys are taken to be injective and encoding to be invertible. Two texts that decode to the same impact are one value here.
- The external clock of the in-memory backend and its disabled variant.
- CacheBackend.InMemoryCacheBackend.AdvanceClock: needs a step that is not negative; turning the clock back would bring back keys that have not been purged.
- The classes model a store that answers. Failing store accesses, and what requests do about them, are modelled in the state machines.
- `DELETE` and both submission loops exist only as state machines, with every store access a step of its own, because what matters about them is what happens between those steps.
- ReformImpactCache.ReformImpactCache.Set: an explicit record lifetime must not be negative, as no caller's is; Redis would refuse one.
- ReformImpactCache.ReformImpactCache.Update: the same.
- WorkerCertification.BuildWindowSetup: takes the start year as an integer; reading it from the request's text is not modelled.
- EconomyRuns.ResultsAreCertifiedForTheirOwnRequest: options that are not plain are left open: a name that is empty, is `dataset` or holds `&` or `=`, a text that holds `&` or is a string `None`; their hashes may coincide with those of others. So for `OptionsIdentity` and `BudgetWindowRuns`.
- OptionsHash.HashIdentifiesBundle: says nothing about names with ampersands. The service's own metadata has none; `AmpersandsCollide` gives a family that collides, not the exact condition.
- OptionsIdentity.FoundHashHasSameOptions: says nothing about those names, nor about options that are not plain.
- OptionsIdentity.HashIdentifiesCalculation: says nothing about those either.
- CacheBackend.InMemoryPipeline.Execute: the replies of commands other than SET, which no caller reads.
- How certification reads a result document is a parameter of `BudgetWindowRuns`: any function from documents to the results of `WorkerCertification`.
- ReformImpacts.Step: deleting computing records is a step per record; what the code selects before it, and whether it is still current, is not modelled, so nothing is claimed about it.
- AnnualSubmission.SubmissionsNeverOverlap: does not promise one submission per result. The annual path checks for a stored record before it claims and not after, so a second request may submit once the first has released its claim.
- BudgetWindowSubmission.OneBatchPerLifetime: says nothing about two lifetimes. If storing a submitted batch fails, the code clears its claim, and the next request submits another batch in a new lifetime.
- SpmSelection.IsSpace: white space is Unicode's, as the validating expression has it, and `str.strip`'s four extra control characters are in `IsBlank`.
- The worker capability check, the reduction of country receipts and the collapsing of execution receipts: plain guards with no state.
- Floating-point rounding of weights and times, reading and writing of reports, and command lines.
- Messages: errors and problems carry what they are about, not the exact wording.
