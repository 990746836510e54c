# Djangae: sharded iteration, search, pagination, locks and retries

A model of the parts of Djangae that keep state across processes or promise more than one function can show on
its own, with proofs that they do what they are for:

- **Sharded background iteration** (`Sharding`, `ShardSafety`, `ShardResume`, `ShardCalls`, `ShardProgress`,
  `ShardStalls`, `ShardWorker`, `KeyRanges`, `Retry`): a primary-key space is cut into ranges, a marker counts shard
  tasks, every task walks its keys, re-defers itself on timeouts and errors, and the last one enqueues `finalize`. The
  marker and the task queue are a transition system whose runs interleave shard creation, workers, the queue and every
  kind of fault; the code of `_generate_shards` and `_process_shard` is proved to take only steps of that system, with
  everybody else running in between.
- **Full-text search** (`Strings`, `Tokens`, `Fields`, `TailedWords`, `SearchKeys`, `SearchIndex`, `SearchQuery`,
  `SearchMatching`, `SearchTheorems`, `SearchReadings`, `SearchRanking`, `SearchAlternatives`, `VerbatimSearch`,
  `SearchFailures`): documents are indexed as token entries at a
  revision, old revisions are collected by background jobs, and queries are scans over text keys whose results are
  compared and scored.
- **Pagination** (`Lex`, `SortKey`, `Paging`, `Pagination`): one sort key per row stands for a tuple of ordered
  fields, and cached end-of-page markers replace offsets.
- **Locks** (`Locking`): a stored record per identifier, with stealing, a reaper, and releases that delete by key.

Where the code falls short of a property, the property is proved together with the exact condition under which it
holds, and usually with an input or a run that shows the failure:

- read-ahead stores markers under the wrong pages when pages were skipped (`Paging.AlignedIffSafe`); every page of
  every session is right only with at most one page of read-ahead, or with at most three pages
  (`Paging.SessionsRightIff`, and the run of `Paging.SecondPageFirst`);
- descending fields sort the wrong way round when one value is a prefix of the other (`SortKey.KeyOrder`,
  `SortKey.ClashExample`, `Pagination.ListedIffClashFree`), and NUL in a value breaks the order, although never the
  uniqueness of the keys (`SortKey.RightOverIffNoNul`, `SortKey.NulBreaksOrder`, `SortKey.KeyInjective`);
- primary key 0 is taken for "no bound", so that a shard with negative keys and key 0 may never end and be called
  without bound (`ShardStalls.JobTerminatesIff`, `ShardStalls.ShardBoundIff`, `ShardStalls.MinusOneAndZero`);
- a finished iteration has called a key once per shard that admits it, so with `sequential_int_key_ranges` the keys in
  the overlap of the last two ranges are called twice (`ShardCalls.FinishedOnceIff`, `ShardCalls.SequentialCalls`,
  `ShardCalls.SevenAndEightTwice`), and with `datastore_key_ranges` every key where two shards meet at key 0
  (`ShardCalls.DatastoreCalledOnce`);
- a last completion that deletes the marker and then fails to commit is lost if it is retried, and finalize is never
  enqueued (`ShardProgress.GetsCountedIff`, `ShardProgress.LostForGood`);
- `sequential_int_key_ranges` exceeds the requested number of ranges (`KeyRanges.SequentialCount`,
  `KeyRanges.CountExample`);
- locks exclude each other only if steal times and the reaper respect the longest section
  (`Locking.ExclusiveIffSafe`);
- removing a document through an object with an outdated record strands its entries (`SearchIndex.StaleRemoval`,
  `SearchIndex.StaleRemovalStrands`);
- with all terms required, a word is not found by itself if clean_token changes one of its tokens
  (`VerbatimSearch.VerbatimWordFoundIff`, and words like "a+b" in `VerbatimSearch.InnerPlusIsMissed`), and entries of
  an old revision can hide a document that a single token would have found (`SearchTheorems.AcceptedUnlessHarmed`);
- a query term that holds the key separator can reach rows that cannot be scored (`SearchFailures.AnyTermFailsIff`,
  `SearchFailures.AllTermsQueryFailsIff`, `SearchFailures.TokenBarFieldQueryFails`), a branch without terms selects
  the whole table (`SearchFailures.DotFailsIff`), and a field name with nothing behind it is an exception
  (`SearchQuery.FailsIffFieldAlone`, `SearchQuery.FieldAloneFails`).

Classes (`ShardWorker.Iteration`, `SearchIndex.Index`, `Paging.Paginator`, `Locking.LockTable`) hold the state that
the code updates in place. Each carries a ghost log or is tied to a specification function, and the theorems are
about that specification. Methods named for other processes (`OthersRun`, `WorkersRun`, `Others`) stand for whatever
these may do: callers know only their contracts.

Where code and documentation differ, the model follows the code: an exception before the first callback of an
invocation is re-raised instead of re-deferred (docs/deferred.md says every exception re-defers); token keys have
five parts (the comment in models.py lists four); single symbols in a query are dropped (docs/contrib_search.md
describes searching for a "."); and the default `normalize_value` lower-cases and joins words but removes neither
punctuation nor stop words, as its comment says it does; `retry` first waits 750 ms by default (docs/utils.md gives
375), which is a parameter here.

## Model

| member | source | states |
|---|---|---|
| KeyRanges.RoundHalfEven | djangae/processing.py:82 | the result is a nearest integer to the fraction, and even when two are equally near |
| KeyRanges.SortedStrict | djangae/processing.py:77 | sorting distinct sampled keys leaves them strictly ascending |
| KeyRanges.SortedKeeps | djangae/processing.py:77 | sorting keeps every sample as often as it occurs |
| KeyRanges.SplitNearest | djangae/processing.py:81-82 | the i-th split index is the integer nearest to i * n / shards, the even one of two |
| KeyRanges.SplitStride | djangae/processing.py:81-82 | consecutive split indices are floor or ceiling of n/shards apart, for every n and shard count |
| KeyRanges.SplitIndexMonotone | djangae/processing.py:81-82 | split indices run from 0 to n, never decrease, and strictly increase when there are at least as many samples as shards |
| KeyRanges.DatastorePartition | djangae/processing.py:69-93 | at least one and at most max(1, shards) ranges; every key lies in exactly one of them |
| KeyRanges.FewSamples | djangae/processing.py:83-88 | with fewer samples than shards, the bounds are the samples, each where two consecutive ranges meet |
| KeyRanges.DatastoreBalance | djangae/processing.py:77-88 | with enough distinct samples there are exactly `shards` ranges, range i holds exactly the samples between two split indices, and these are floor or ceiling of n/shards many |
| KeyRanges.CollectRanges | djangae/processing.py:39-45 | the loop ends, with the fewest ranges whose widths add up to the gap (at least one), each where the accumulated widths put it |
| KeyRanges.SequentialIntKeyRanges | djangae/processing.py:29-50 | the exceptions for no rows and for zero shards, and otherwise the whole list of ranges, the last one overwritten |
| KeyRanges.SequentialCovers | djangae/processing.py:29-50 | every integer from the smallest to the biggest key lies in some range |
| KeyRanges.SequentialOverlap | djangae/processing.py:47-50 | two ranges share a key exactly when they are the last two and the key is one of the n*size - gap keys from biggest - size on |
| KeyRanges.SequentialCount | djangae/processing.py:34-45 | at most `shards` ranges exactly when biggest >= shards or the gap is at most `shards` |
| KeyRanges.CountExample | djangae/processing.py:34-45 | the keys from -4 to 1 in three shards get five ranges |
| KeyRanges.OverlapExample | djangae/processing.py:47-50 | the keys 1 to 11 in three shards: the ranges of which the last two share 7 and 8 |
| Sharding.SelectResume | djangae/tasks/deferred.py:380-383 | re-running a shard's ordered query from its j-th key returns exactly the results from j on |
| Sharding.TodoResume | djangae/tasks/deferred.py:449-458 | a task re-deferred from a truthy key has exactly the rest of the shard left |
| ShardSafety.StepInv | djangae/tasks/deferred.py:346-521 | every enabled step of generator, worker, queue or fault keeps the invariant: tasks sound and one per shard, counters exact, shards accounted for, what each phase allows |
| ShardSafety.RunInv | djangae/tasks/deferred.py:346-521 | the invariant holds after every run from the creation of the marker |
| ShardSafety.ResumeNoGap | djangae/tasks/deferred.py:432-458 | a task re-deferred from any position it has reached skips nothing that is not done |
| ShardSafety.DatastoreCovers | djangae/tasks/deferred.py:489-496 | shards cut by datastore_key_ranges admit every matched key, although falsy bounds are dropped |
| ShardSafety.SequentialJobCovers | djangae/tasks/deferred.py:489-496 | the same for sequential_int_key_ranges on the smallest and biggest matched key |
| ShardSafety.FinalizeOnceAfterAll | djangae/tasks/deferred.py:404-430 | in every run finalize is enqueued at most once, only after the callback has completed on every matched key, and exactly when all shards were made and no task is left |
| ShardSafety.MarkerCounts | djangae/models.py:16-29 | while the marker exists, shards_complete plus live tasks equals shard_count; it is ready exactly when shard_count is the number of ranges; it is finished exactly when finalize was enqueued |
| ShardSafety.ReadyIsPermanent | djangae/tasks/deferred.py:414-430 | a ready marker stays ready with its count until the last completion, which enqueues finalize and removes the marker exactly when its flag says so |
| ShardSafety.RemovedIffAsked | djangae/tasks/deferred.py:419-421 | in every run the marker keeps the wish it was created with; once finalize was enqueued it is gone if and only if its removal was asked for; else it is only gone after giving up |
| ShardSafety.AbortedNeverRuns | djangae/tasks/deferred.py:517-521 | once creation gave up, no callback has run, finalize was not enqueued, and the only steps left are dropping the left-over tasks one by one |
| ShardSafety.ResumeWithoutGaps | djangae/tasks/deferred.py:382-396 | at every reachable state a key of a live task's shard that is not done is still ahead of that task |
| ShardResume.NoShardStallsIff | djangae/tasks/deferred.py:449-450 | no shard has key 0 anywhere but first exactly when no negative key shares a shard with key 0 |
| ShardResume.NextTaskTodo | djangae/tasks/deferred.py:432-458 | an invocation that ends early leaves a task of the same shard with exactly the keys from its position on |
| ShardCalls.RunBalanced | djangae/tasks/deferred.py:385-458 | conservation at every point of every run, for any shard and any key: completions plus what the tasks have left equal what the shards made hold, plus the repeats |
| ShardCalls.ShardBalance | djangae/tasks/deferred.py:385-458 | for every shard at every reachable state: completions by its tasks plus keys left equal its keys plus its repeats |
| ShardCalls.ShardBound | djangae/tasks/deferred.py:385-458 | in every run, given up or not, a shard is called at most once per key and per repeat |
| ShardCalls.CrashFreeBound | djangae/tasks/deferred.py:432-458 | without hard crashes that is at most once per key and per exception other than a timeout |
| ShardCalls.FinishedKeyCalls | djangae/tasks/deferred.py:385-430 | when finalize is enqueued each key was called once per shard that admits it, plus its repeats |
| ShardCalls.FinishedOnceIff | djangae/tasks/deferred.py:385-430 | without repeats every key was called exactly once if and only if each is in exactly one shard; if every key is in some shard, repeats rule it out |
| ShardCalls.DatastoreHits | djangae/tasks/deferred.py:489-496 | every key is in exactly one shard if no two meet at key 0, whose bounds are dropped; otherwise in at least two, and in exactly two if the samples are distinct |
| ShardCalls.DatastoreCalledOnce | djangae/processing.py:69-93 | with sampled keys every key was called exactly once if and only if nothing was repeated and, if there was any key, no two shards meet at key 0; where they do, every key was called at least twice |
| ShardCalls.SequentialCalls | djangae/processing.py:29-50 | with sequential ranges that key 0 does not cut, and no repeats, the keys in the overlap of the last two ranges were called twice, the others once |
| ShardCalls.SequentialCalledOnceIff | djangae/processing.py:47-50 | every key was called exactly once if and only if key 0 does not cut the ranges and no key is in that overlap |
| ShardCalls.NaturalKeysAreSafe | djangae/tasks/deferred.py:489-496 | keys that are not negative neither stall nor are their ranges cut by key 0 |
| ShardCalls.SevenAndEightTwice | djangae/processing.py:47-50 | of the keys 1 to 11 in three shards, 7 and 8 are in two shards and the others in one |
| ShardProgress.TimeoutProgress | djangae/tasks/deferred.py:388-390 | a timeout after the first callback shortens the rest of the shard exactly when the key it stopped at is truthy |
| ShardProgress.ReadyJobTerminates | djangae/tasks/deferred.py:376-458 | without stalls, a run with f faults from readiness has at most Energy + f * (Setback + 1) steps, and no fault-free step is left exactly when finalize was enqueued |
| ShardProgress.UnfinishedHasStep | djangae/tasks/deferred.py:376-430 | until finalize is enqueued some live task has a fault-free step to take |
| ShardProgress.FinishedIsFinal | djangae/tasks/deferred.py:419-430 | after finalize nothing is enabled any more |
| ShardProgress.GetsCountedIff | djangae/tasks/deferred.py:404-431 | attempts of mark_shard_complete on one object that find the marker, the last of which commits, count the shard if and only if no failed one had deleted the marker |
| ShardProgress.DeletesIff | djangae/tasks/deferred.py:419-421 | when a completion deletes the marker |
| ShardProgress.LostForGood | djangae/tasks/deferred.py:414-430 | a shard lost that way was the last one: no step is enabled afterwards, the marker stays, and finalize was not enqueued |
| ShardStalls.TerminatesIffNoStall | djangae/tasks/deferred.py:385-458 | from any sound ready state, the runs with at most one fault are bounded in length exactly when no live task has key 0 behind another key |
| ShardStalls.JobTerminatesIff | djangae/tasks/deferred.py:385-521 | the same from the creation of the shards, as a condition on the matched keys and the ranges alone |
| ShardStalls.ShardBoundIff | djangae/tasks/deferred.py:385-458 | in every run without hard crashes every shard is called at most once per key and failure, if and only if no shard has key 0 anywhere but first |
| ShardStalls.MinusOneAndZero | djangae/tasks/deferred.py:449-450 | the keys -1 and 0 in one shard: runs of any length without a fault, and more calls than keys |
| ShardWorker.Iteration.MakeShardTransaction | djangae/tasks/deferred.py:498-515 | the transaction is the step MakeShard: count, readiness of the last shard, and the queued task |
| ShardWorker.Iteration.GenerateShards | djangae/tasks/deferred.py:482-521 | shards are made in order until the retries for one run out; then the marker is gone and nothing has run, whatever the workers did meanwhile |
| ShardWorker.Iteration.BeginShard | djangae/tasks/deferred.py:355-374 | which of vanished, not ready and ready is found, and the step each of them takes |
| ShardWorker.Iteration.Turn | djangae/tasks/deferred.py:385-396 | one turn of the loop takes exactly the step its mishap calls for |
| ShardWorker.Iteration.Fail | djangae/tasks/deferred.py:432-458 | re-raised before the first completed callback, re-deferred after it |
| ShardWorker.Iteration.MarkShardComplete | djangae/tasks/deferred.py:404-430 | the transaction is the step Complete: one more shard, finalize and the marker's removal with the last one |
| ShardWorker.Iteration.ProcessShard | djangae/tasks/deferred.py:346-460 | with arbitrary steps of others in between, the invocation's own steps are exactly its script, its task ends or stays as it was, and a completed shard is really done |
| ShardWorker.GeneratorMarker | djangae/tasks/deferred.py:498-521 | the marker outlives shard creation, and until then no callback has run |
| Retry.CallWithRetry | djangae/utils.py:135-180 | the result is that of the last call; all calls before it raised something caught, and if it did too, exactly max(1, attempts) calls were made; exactly one sleep of the specified length lies between consecutive calls |
| Retry.Backoff | djangae/utils.py:163-180 | the first sleep is the initial wait, each further one twice the one before, both capped; the random part comes on top of all but the first |
| Retry.TotalSleep | djangae/utils.py:172-180 | all sleeps together take at most max_wait each |
| Locking.StepInv | djangae/contrib/locking/models.py:35-68 | in a safe configuration every step keeps each holder the owner of its record, within its time |
| Locking.MutualExclusion | djangae/contrib/locking/models.py:35-86 | in a safe configuration every run has at most one process per identifier inside, and each holder owns the record its release deletes |
| Locking.ExclusiveIffSafe | djangae/contrib/locking/models.py:44-50 | mutual exclusion holds in every run if and only if every steal time in use and the reaper's cut-off are at least the longest section |
| Locking.TenMinutes | djangae/contrib/locking/views.py:19-40 | without stealing, sections are safe if and only if they take at most ten minutes |
| Locking.CrashBlocks | djangae/contrib/locking/models.py:38-52 | a crashed holder's record stays: the lock is obtained only by stealing it, or after the reaper's cut-off |
| Locking.LockTable.Trans | djangae/contrib/locking/models.py:36-57 | obtained exactly when there is no record or it may be stolen, and then stamped with the present |
| Locking.LockTable.Acquire | djangae/contrib/locking/models.py:33-68 | attempts at increasing positions of the log: each that does not abort is a transaction for this identifier, and the first that can succeed does; others run in between only while the maximum wait had not passed; a lock obtained is held and owned with the current timestamp |
| Locking.LockTable.Release | djangae/contrib/locking/models.py:85-86 | the record of the identifier is deleted; in a safe configuration it is the releaser's own |
| Locking.LockTable.Cleanup | djangae/contrib/locking/views.py:33-43 | exactly the records stamped before the cut-off are deleted; in a safe configuration none of them is in use |
| SearchKeys.ParseDecimal | djangae/contrib/search/models.py:69 | int(str(n)) is n, and the text of a number holds no separator |
| SearchKeys.KeyText | djangae/contrib/search/models.py:56-59 | the five parts of a key and their order |
| SearchKeys.KeyRoundTrip | djangae/contrib/search/models.py:55-69 | document id and token are recovered from every generated key |
| SearchKeys.KeyInjective | djangae/contrib/search/models.py:56-59 | different rows have different keys |
| SearchKeys.ScanIsStartswith | djangae/contrib/search/query.py:154-175 | a range scan up to start + chr(0x10FFFF) is a prefix test on keys |
| SearchKeys.ExactScan | djangae/contrib/search/query.py:154-163 | the exact filter returns precisely the keys of this index with the searched token |
| SearchKeys.PrefixScan | djangae/contrib/search/query.py:166-175 | the startswith filter returns precisely the keys of this index whose token starts with the text |
| Tokens.CollectPieces | djangae/contrib/search/tokens.py:20-26 | the loops over the symbols collect, in any order, the word, its parts at each symbol, it without each symbol, and its alphanumeric part |
| Tokens.TokenizeWordsLoop | djangae/contrib/search/tokens.py:10-31 | the loop over the words computes the specified token set |
| Tokens.TokenizeContentLoop | djangae/contrib/search/tokens.py:96-115 | words and acronyms together are the specified token set |
| Tokens.SymbolsAreAscii | djangae/contrib/search/constants.py:4-8 | the symbols at which words are split are the punctuation characters of ASCII except four |
| Tokens.PartsAreTokens | djangae/contrib/search/tokens.py:21-29 | the parts of a word at each symbol, and the word without it, are tokens of the content |
| Tokens.TokenizeMonotone | djangae/contrib/search/tokens.py:10-31 | tokens of a word are tokens of any content the word is part of |
| Tokens.WordIsToken | djangae/contrib/search/tokens.py:14-29 | a word with something alphanumeric is its own token, and so is its alphanumeric part |
| Tokens.TokenChars | djangae/contrib/search/tokens.py:10-73 | tokens consist of characters of the content and acronym symbols, never of separators or spaces |
| Tokens.TokensNonEmpty | djangae/contrib/search/tokens.py:28-73 | no token is empty |
| Tokens.TokensKeep | djangae/contrib/search/tokens.py:28-73 | no token is a single symbol |
| Tokens.SpelledTokens | djangae/contrib/search/tokens.py:34-48 | letters spelled with dots or hyphens: the spelling, the other one and the letters alone are tokens |
| Tokens.DividedDigits | djangae/contrib/search/tokens.py:51-73 | digits divided by dots only or hyphens only: the acronyms are the other division and the digits alone |
| Tokens.AcronymsPair | djangae/contrib/search/tokens.py:34-93 | the dotted and the hyphenated form of an acronym or date are acronyms of each other |
| Fields.NormalizedWords | djangae/contrib/search/fields.py:30-41 | splitting a normalised value at spaces gives its words, which are lower-case and free of white space |
| Fields.LowerInPlace | djangae/contrib/search/fields.py:38 | every character is lower-cased in its place |
| Fields.WordsConcat | djangae/contrib/search/fields.py:41 | white space divides: the words left of it are followed by those right of it |
| Fields.WordsOfOne | djangae/contrib/search/fields.py:41 | text without white space is its own only word |
| Fields.StripEnds | djangae/contrib/search/fields.py:59 | strip takes white space away at both ends, all of it and nothing else |
| Fields.NotesAre | djangae/contrib/search/fields.py:72 | the characters that may carry a hash |
| Fields.CleanTokenLoop | djangae/contrib/search/fields.py:53-75 | the loop that strips and counts plus signs computes the specified clean token |
| Fields.CleanFixpoint | djangae/contrib/search/fields.py:53-75 | tokens without plus signs, hashes and white space are left alone |
| Fields.CleanHasShape | djangae/contrib/search/fields.py:61-73 | plus signs stay only at the end and hashes only in a two-character note |
| Fields.CleanKeeps | djangae/contrib/search/fields.py:53-75 | cleaning keeps all characters but outer white space, plus signs and hashes, in their order |
| Fields.CleanKeepsAlnum | djangae/contrib/search/fields.py:53-75 | so it loses nothing alphanumeric |
| Fields.CleanIdempotent | djangae/contrib/search/fields.py:53-75 | what is cleaned once stays as it is |
| Fields.SaveAssertionsHold | djangae/contrib/search/models.py:79-81 | no token that is indexed is blank or holds the separator |
| Fields.IndexedChars | djangae/contrib/search/fields.py:43-75 | indexed tokens are made of characters of the lower-cased value and acronym symbols |
| SearchIndex.StepInv | djangae/contrib/search/index.py:23-121 | every add, remove and cleanup step keeps: entries current or covered by a job, current entries exact, no job on a current revision |
| SearchIndex.ReachableInv | djangae/contrib/search/index.py:23-232 | these hold at every reachable state |
| SearchIndex.RecordsAreLastAdded | djangae/contrib/search/index.py:164-232 | after every run the records are those of the documents added and not removed since, with the data given last |
| SearchIndex.EntriesAreOfValue | djangae/contrib/search/index.py:86-121 | at every reachable state the current entries of a document in an indexed field are the tokens of the value it was last added with, or of the default if it had none; other fields have none |
| SearchIndex.DrainIsExact | djangae/contrib/search/index.py:34-66 | draining in any order takes boundedly many steps, can go on while a job is left, and leaves exactly the live documents' tokens |
| SearchIndex.StaleRemoval | djangae/contrib/search/index.py:54-66 | removing at another revision keeps the invariant exactly when it is the current one or there is nothing to clean up |
| SearchIndex.StaleRemovalStrands | djangae/contrib/search/index.py:54-66 | a document added twice and removed at its first revision: its current entries are in the table, not current, and in no job |
| SearchIndex.StrandedStays | djangae/contrib/search/index.py:15-16 | entries that no job covers survive every cleanup |
| SearchIndex.Index.TokensToIndex | djangae/contrib/search/index.py:87-105 | the tokens stored for a value: normalised, tokenized, cleaned, without blanks |
| SearchIndex.Index.IndexDocument | djangae/contrib/search/index.py:73-121 | the loops add exactly the entries of the document's data at its revision |
| SearchIndex.Index.AddOne | djangae/contrib/search/index.py:165-197 | one document is a step Add under its own or a new id, at a fresh revision, and is reported as created exactly when it had no record |
| SearchIndex.Index.AddEach | djangae/contrib/search/index.py:164-199 | the steps of a list of documents in order, repetitions included, and which ids are reported as new |
| SearchIndex.Index.ValidateDocuments | djangae/contrib/search/index.py:139-145 | complete exactly when every document has a value in each field that may not be null |
| SearchIndex.Index.AddAll | djangae/contrib/search/index.py:139-199 | an incomplete document anywhere means an error and nothing written; otherwise every document is added in order |
| SearchIndex.Index.RemoveItem | djangae/contrib/search/index.py:49-70 | an id, or a document whose record need not be current: which of them count, the job for the revision the document carries, and the deleted record; a Remove step if its record is current or gone |
| SearchIndex.RemovalsTake | djangae/contrib/search/index.py:201-232 | ids and documents in turn: exactly theirs lose their records, unknown ids are passed over, entries are left to one job for each item that counts |
| SearchIndex.Index.RemoveAll | djangae/contrib/search/index.py:201-232 | the loop removes the items one after the other and counts them, whatever records the documents carry; if these are current or gone it takes that many Remove steps |
| SearchQuery.ScanLoop | djangae/contrib/search/query.py:58-90 | the character loop with its quote flag computes the specified list of pieces |
| SearchQuery.ScanUnquoted | djangae/contrib/search/query.py:79-88 | without quotes a branch is the words between its spaces |
| SearchQuery.ScanQuoted | djangae/contrib/search/query.py:79-88 | text inside quotes is kept in one piece |
| SearchQuery.PiecesJoin | djangae/contrib/search/query.py:79-88 | the pieces between spaces outside quotes, joined by spaces, are the text |
| SearchQuery.SplitOrJoins | djangae/contrib/search/query.py:51 | the parts joined by " or " give the text back, and no part holds another " or " |
| SearchQuery.SplitOrFirst | djangae/contrib/search/query.py:51 | the text is divided at the first " or ", and the rest likewise |
| SearchQuery.ExpandLoop | djangae/contrib/search/query.py:114-133 | expanding in place and appending yields the terms' tokens with multiplicity, in some order |
| SearchQuery.KeepLoop | djangae/contrib/search/query.py:136-143 | ignoring stop words keeps the other terms with their multiplicity |
| SearchQuery.TokenizeQueryString | djangae/contrib/search/query.py:42-151 | an IndexError exactly when some branch has an empty text, and otherwise every branch as specified |
| SearchQuery.FailsIffFieldAlone | djangae/contrib/search/query.py:71-76 | a branch fails exactly when one of its pieces between spaces outside quotes is a field name and a colon alone |
| SearchQuery.FieldAloneFails | djangae/contrib/search/query.py:71-76 | a query that is a name and a colon cannot be read |
| SearchQuery.SymbolAlone | djangae/contrib/search/query.py:64-77 | a symbol alone is dropped, unless it is a quote or a colon |
| SearchQuery.FieldWord | djangae/contrib/search/query.py:73-78 | a name, a colon and a text: that text in the field of that name |
| SearchQuery.QuotedPhrase | djangae/contrib/search/query.py:81-107 | text in quotes is an exact phrase, spaces included |
| SearchQuery.HalfQuoted | djangae/contrib/search/query.py:106-109 | a text with a quote at one end only is a word |
| SearchQuery.ExpandKeepsField | djangae/contrib/search/query.py:126-131 | the terms a word is expanded to keep its field |
| SearchQuery.TermOrigin | djangae/contrib/search/query.py:100-143 | a term is in a branch exactly when it stays and is a written term or a token of one |
| SearchQuery.BarWordIsWhole | djangae/contrib/search/query.py:114-133 | a word that keeps the separator has at most one token |
| SearchQuery.TermsAreSound | djangae/contrib/search/query.py:42-151 | every word is non-empty, holds the separator only if the query does, and is no exact phrase unless the query has a quote |
| SearchMatching.SelectsIsMatches | djangae/contrib/search/query.py:154-175 | for text free of the separator a filter selects exactly this index's matching rows in the named field |
| SearchMatching.ScorableIffBarFree | djangae/contrib/search/query.py:193-198 | a selected row's token starts with the searched text exactly when that is free of the separator |
| SearchMatching.GatherFound | djangae/contrib/search/query.py:296-301 | parsing the keys yields, per document, exactly the tokens of its fetched rows |
| SearchMatching.CompareTokens | djangae/contrib/search/query.py:206-230 | the nested loops and the acronym case give the specified verdict and the tokens left to score |
| SearchMatching.SumWithout | djangae/contrib/search/query.py:183-203 | the score does not depend on the order in which tokens are taken |
| SearchMatching.BestPotential | djangae/contrib/search/query.py:192-198 | the closest searched prefix is the shortest one |
| SearchMatching.CalculateScore | djangae/contrib/search/query.py:183-203 | the loop computes the sum of token scores, and fails exactly when a token cannot be scored |
| SearchMatching.TokenScoreRange | djangae/contrib/search/query.py:186-201 | a token adds more than 0 and at most 1: a stop word a quarter, any other word 1 exactly for an exact match |
| SearchMatching.PartScore | djangae/contrib/search/query.py:189-201 | a token not searched itself scores the part of it that a shortest searched prefix makes up |
| SearchMatching.ShorterScoresMore | djangae/contrib/search/query.py:189-201 | of two tokens found through the same text the shorter one scores more |
| SearchMatching.HigherComesFirst | djangae/contrib/search/query.py:309-311 | a document with a higher score comes before one with a lower |
| SearchMatching.LoneTokenScoresNothing | djangae/contrib/search/query.py:223-225 | a document accepted for a single token against several searched ones gets no score |
| SearchMatching.SumRange | djangae/contrib/search/query.py:183-203 | a non-empty set of found tokens scores more than 0 and at most its size |
| SearchMatching.ScoreBranch | djangae/contrib/search/query.py:287-307 | one branch adds its accepted documents' scores, or fails as specified |
| SearchMatching.Rank | djangae/contrib/search/query.py:309-311 | the ids of all scored documents, by descending score |
| SearchMatching.BuildDocumentQueryset | djangae/contrib/search/query.py:256-313 | reading errors, the branches searched, the scores of all branches, the ranked ids, and the recorded documents among them |
| SearchMatching.FoundFits | djangae/contrib/search/query.py:206-226 | without startswith found tokens are searched ones and comparing counts is comparing sets; with it each found token starts with a searched one; all can be scored |
| SearchMatching.BranchSucceeds | djangae/contrib/search/query.py:287-307 | a sound branch never fails and scores at most one per found token |
| SearchMatching.AllTermsFailIff | djangae/contrib/search/query.py:206-230 | with match_all, exactly when a branch of words fails: without terms and with startswith over a token that is no stop word, or without startswith when a term that holds the separator selects a row that cannot be scored, of a document with as many selected tokens as were searched |
| SearchMatching.EmptyBranchFailsIff | djangae/contrib/search/query.py:233-253 | a branch without terms under match_all and startswith fails exactly when the table holds a token that is no stop word |
| SearchMatching.AnyTermResult | djangae/contrib/search/query.py:275-307 | without match_all the search succeeds and finds exactly the documents with a row some term matches |
| SearchMatching.AllTermsAccept | djangae/contrib/search/query.py:211-230 | with match_all, exactly when a document is accepted for a branch, with or without terms |
| SearchMatching.AllTermsSucceedIff | djangae/contrib/search/query.py:233-253 | with match_all, sound branches and branches without terms fail exactly when there is one of the latter, startswith is on and the table holds a token that is no stop word |
| SearchMatching.AllTermsFind | djangae/contrib/search/query.py:287-307 | with match_all and any such branches, documents that hold all terms of one in their fields are found unless the search fails that way |
| SearchTheorems.FindsEveryLiveDocument | djangae/contrib/search/query.py:256-313 | at every reachable state a search without match_all finds each live document whose current data holds a searched token, before any cleanup |
| SearchTheorems.ExtrasAreOld | djangae/contrib/search/index.py:34-46 | any further result comes from an old revision of a live document that a pending job covers |
| SearchTheorems.DrainedResultsAreExact | djangae/contrib/search/query.py:256-313 | without pending jobs the results are exactly the live documents with a searched token |
| SearchTheorems.QueryIsSound | djangae/contrib/search/query.py:42-151 | a query without separator and quotes is read as words that scan and scorer can handle |
| SearchTheorems.AllTermsResultIff | djangae/contrib/search/query.py:287-313 | with match_all, when the search fails, and else the results are the recorded documents that some branch, with or without terms, accepts on the tokens found at any revision |
| SearchTheorems.AllTermsExtrasAreOld | djangae/contrib/search/index.py:34-46 | at every reachable state a result is accepted on its current tokens or owes it to old entries that a job covers; without jobs the results are exact |
| SearchTheorems.AcceptedUnlessHarmed | djangae/contrib/search/query.py:211-230 | at every reachable state the exact condition under which a document accepted on its current tokens stays accepted by the branch; otherwise it had a single one, and pending old entries keep it from being found |
| SearchTheorems.AllTermsFindLiveDocuments | djangae/contrib/search/query.py:211-226 | at every reachable state a document whose current data hold every term is found, before any cleanup |
| SearchReadings.PlainTextReads | djangae/contrib/search/query.py:58-143 | an alphanumeric lower-case word is searched as it stands, or not at all if it is an ignored stop word |
| SearchReadings.StopWordFindsNothing | djangae/contrib/search/query.py:136-143 | an ignored stop word finds nothing |
| SearchReadings.FieldWordReads | djangae/contrib/search/query.py:58-143 | the query "name:word" is read as that word in that field |
| SearchReadings.FieldWordFinds | djangae/contrib/search/query.py:154-175 | it finds exactly the documents that have the word, or with startswith a longer one, in that field |
| SearchReadings.PhraseIsNotImplemented | djangae/contrib/search/query.py:250-251 | searching for a text in quotes is the error NotImplemented |
| SearchRanking.CloserMatchComesFirst | djangae/contrib/search/query.py:183-311 | a search with startswith for a word lists a document in which it matches a shorter token before one with a longer token |
| SearchAlternatives.OrReadable | djangae/contrib/search/query.py:51-109 | "a or b" can be read if and only if a and b can |
| SearchAlternatives.OrFindsEither | djangae/contrib/search/query.py:275-307 | with or without match_all, "a or b" finds exactly the documents found for a or for b, and fails exactly when one of them does |
| SearchAlternatives.OrAddsScores | djangae/contrib/search/query.py:304-307 | the score of a document for "a or b" is the sum of its scores for a and for b |
| VerbatimSearch.RowIffClean | djangae/contrib/search/fields.py:53-75 | a token of an indexed word has a row, at its own or as a prefix, exactly when clean_token leaves it alone |
| VerbatimSearch.VerbatimWordFoundIff | djangae/contrib/search/query.py:98-133 | at every reachable state a word of an indexed value, searched as it stands, finds its document if and only if some token that stays is clean, or with match_all all of them are (or the one clean token has as many tokens as stay); startswith implies that stop words match, as in Index.search |
| VerbatimSearch.WithStopWords | djangae/contrib/search/query.py:136-143 | when stop words are matched: always found with any term, and with match_all exactly when clean_token leaves every token alone |
| VerbatimSearch.CleanWordIsFound | djangae/contrib/search/query.py:136-143 | a clean word that is no stop word is found although its alphanumeric part may be one |
| VerbatimSearch.NamesAndNotesAreFound | djangae/contrib/search/fields.py:61-73 | words with trailing plus signs, and notes with a hash, are found with match_all |
| VerbatimSearch.InnerPlusIsMissed | djangae/contrib/search/fields.py:61-73 | a word with a plus sign inside is not found with match_all, even if stop words are matched |
| SearchFailures.AnyTermFailsIff | djangae/contrib/search/query.py:192-198 | a query without quotes and match_all fails exactly when one of its terms holds the separator and selects a row whose token is no stop word |
| SearchFailures.AllTermsQueryFailsIff | djangae/contrib/search/query.py:206-230 | with match_all, exactly when one of its branches breaks: the two cases of `AllTermsFailIff` |
| SearchFailures.TokenBarFieldQueryFails | djangae/contrib/search/query.py:192-198 | the query "token, separator, field" for an indexed alphanumeric token and its field fails if and only if match_all and startswith are not both on |
| SearchFailures.DotFailsIff | djangae/contrib/search/query.py:233-253 | the query "." under match_all and startswith fails exactly when the table holds a token that is no stop word |
| SortKey.Generator | djangae/contrib/pagination/decorators.py:10-38 | the key of an instance, or the ValueError for a character that has no mirror |
| SortKey.MirrorRange | djangae/contrib/pagination/decorators.py:30-33 | a mirrored character and the original add up to 65535, and just the characters beyond that have no mirror |
| SortKey.MirrorOrder | djangae/contrib/pagination/decorators.py:30-33 | mirroring reverses the order of two texts unless one is a prefix of the other |
| SortKey.KeyOrder | djangae/contrib/pagination/decorators.py:10-38 | for all values of which NUL does not continue one to the other at the first difference: keys are ordered like the field tuples, descending where negated, exactly unless that difference is a prefix clash in a descending field |
| SortKey.PlainNeverClashes | djangae/contrib/pagination/decorators.py:30-38 | values without NUL, and without 0xFFFF where descending, always meet that condition |
| SortKey.KeyInjective | djangae/contrib/pagination/decorators.py:36-38 | rows with different primary keys have different keys, whatever their values; equal keys of rows with values as above belong to equal values |
| SortKey.ClashExample | djangae/contrib/pagination/decorators.py:30-33 | two values whose descending order is lost |
| SortKey.NulBreaksOrder | djangae/contrib/pagination/decorators.py:36-38 | the empty value and a single NUL have their keys in the wrong order, whatever the primary keys are |
| SortKey.NulExample | djangae/contrib/pagination/decorators.py:36-38 | so have "a" and "a", NUL, "!" with primary keys 1 and 2 |
| SortKey.RightOverIffNoNul | djangae/contrib/pagination/decorators.py:10-38 | for one ascending field, all rows with values over a set of characters have keys in the order of their values if and only if NUL is not in the set |
| Paging.AlignedResults | djangae/contrib/pagination/paginator.py:176-191 | with right markers a call fetches page n and the read-ahead behind it, whatever is cached |
| Paging.AlignedShown | djangae/contrib/pagination/paginator.py:176-228 | with right markers the caller sees the plain page |
| Paging.MarkerFound | djangae/contrib/pagination/paginator.py:62-84 | the marker used is that of the nearest page before that has one |
| Paging.EmptyMarkerIsNone | djangae/contrib/pagination/paginator.py:73-76 | a cached empty value is passed over as if there was none |
| Paging.MarkersStored | djangae/contrib/pagination/paginator.py:177-226 | what a call with right markers leaves in the cache: for page n its own marker, for the pages behind it that were read ahead the markers of pages as many further on as pages were skipped, for all others what was there |
| Paging.AlignedIffSafe | djangae/contrib/pagination/paginator.py:191-206 | a call leaves the markers right exactly when no page was skipped or nothing is read beyond the skipped ones |
| Paging.NextPageIffSafe | djangae/contrib/pagination/paginator.py:191-206 | page n + 2 comes out right after a call for page n exactly when that call's read-ahead was safe |
| Paging.SessionsRightIff | djangae/contrib/pagination/paginator.py:168-228 | every page of every session, in any order and with any markers lost, is the plain page if and only if at most one page is read ahead or there are at most three pages |
| Paging.ReadInOrder | djangae/contrib/pagination/paginator.py:155-228 | read from the first page on, every page is right, however many are read ahead |
| Paging.SecondPageFirst | djangae/contrib/pagination/paginator.py:191-206 | otherwise going to page 2 first and to page 4 next shows a wrong page |
| Paging.Paginator.GetMarker | djangae/contrib/pagination/paginator.py:62-84 | the nearest cached marker before the page, and how many pages lie between |
| Paging.Paginator.Evict | djangae/contrib/pagination/paginator.py:31-59 | markers and the known count may be lost at any time; right markers stay right |
| Paging.Paginator.UpdateKnownCount | djangae/contrib/pagination/paginator.py:31-38 | while it is cached the known count never shrinks |
| Paging.Paginator.StoreAhead | djangae/contrib/pagination/paginator.py:193-206 | the loop stores one marker per page of the given rows |
| Paging.Paginator.Page | djangae/contrib/pagination/paginator.py:155-228 | both errors, the rows shown, the page's own marker, the markers stored, when they stay right, and when the known count stays within the rows |
| Pagination.ListedIffClashFree | djangae/contrib/pagination/paginator.py:132-140 | rows sorted by their fields, no two first differing by a continuing NUL, are in strict key order, in reverse for a single descending field, if and only if no two clash on a prefix |
| Pagination.PagesAreRowsIff | djangae/contrib/pagination/paginator.py:168-228 | page n of every session shows the sorted rows from (n - 1) * perPage up to n * perPage if and only if at most one page is read ahead or the rows fill at most three |

## Left out

Assumptions:

- A commit of `transaction.atomic` and its on-commit enqueue are one step, and the set of matched primary keys is
  fixed. A task is consumed by the step that ends it: Cloud Tasks delivering it twice, or a crash between its last
  commit and its acknowledgement, is not part of this model; neither is an enqueue that fails after the commit.
- The guarantees of the sharded iteration are per marker: if the generating task itself is retried by the queue, it
  makes a new marker.
- Time in the sharded iteration is abstract: a timeout may occur at any position. The warning about slow callbacks is
  left out. Primary keys are integers.
- Ranges are computed over exact rationals; rounding errors of the floats are left out, and so are those of the
  scores.
- Revisions are numbers from 1 on in order of creation instead of random UUIDs; document ids never repeat. `add` and
  `remove` commit as one step with the enqueue of their cleanup, and a cleanup job runs to its end (its own sharded
  iteration is the one modelled above). An index name, a field name and the keys' characters contain no "|" and no
  U+10FFFF.
- The 5000-key limit per branch is not reached (docs/contrib_search.md gives 1000).
- Python's character classes and lower-casing, and which tokens are stop words (the list in constants.py), are
  parameters: symbols and white space are not alphanumeric, letters and digits are, and lower-casing twice is
  lower-casing once.
- A lock's holder leaves its section within a fixed time of its timestamp. Transactions and the reaper's query with
  its deletes are one step each; md5 collisions are left out.

Behaviour:

- Locking.LockTable.Acquire: waiting is bounded by a parameter `naps`, since waiting without a limit need not end.
- SearchMatching.Rank: the order among equal scores is left open.
- ShardWorker.Iteration.MarkShardComplete: one transaction that commits. Attempts that fail before it leave nothing
  behind, except when one of them deleted the marker: then the retried completion is lost, and runs reach finalize only
  if that never happens, which every run of the model assumes (`ShardProgress.GetsCountedIff` and `LostForGood`).
- ShardCalls.SequentialCalls: ranges that key 0 cuts are left to `SequentialCalledOnceIff` and `FinishedKeyCalls`.
- SortKey.KeyOrder: where NUL continues one value to the other at the first difference, the order of the keys depends
  on what follows; `NulBreaksOrder` and `NulExample` show it wrong. Primary keys are texts without NUL.
- Pagination.ListedIffClashFree: the same pairs of values are left out.
- Pagination.PagesAreRowsIff: the same.
- SearchFailures.TokenBarFieldQueryFails: token and field are alphanumeric; with other characters the text is
  expanded.
- Paging.Paginator.UpdateKnownCount: past the end of the data the count can exceed the rows; `Page` says exactly when.
- Tokens: the loops of the acronym functions over the two symbols are written as expressions.
- `Index.search` around the query: its `limit` slices the pair of results, and stop words are always matched with
  startswith.
- Exact phrases and stemming are not implemented by the code; an exact phrase is the error NotImplemented here.
- DateField, NumberField and FuzzyTextField, and values converted back from the index.
- `retry`: which exceptions are caught is a parameter, and logging is left out. In the iteration only whether its
  attempts run out is modelled.
- The identifier of a queryset, page numbers that are not integers, and the cache's expiry, which appears as loss of
  entries.
- Sort keys of unsaved instances (a random number for the key), the text of dates and numbers, and colliding names of
  generated fields.
- model_document.py (patched managers, signal handlers), MemcacheLock (documented as weak), get_in_batches and
  core/paginator.py (simple), and everything that is framework glue: handlers, routing, storage, authentication,
  backup.
