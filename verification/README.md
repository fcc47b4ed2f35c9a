# Verified model of the VK digest bot

The bot stores chat messages, publishes digests of them to VK, and forgets the
digested messages. This Dafny project models the parts where that can go wrong
and proves what the code keeps, for all inputs and for all interleavings.

Verify with `dafny verify dfyconfig.toml`.

## What is modelled

**The digest publication protocol** (`Schema`, `Protocol`, the `*Invariant`
modules, `Conservation`, `Theorems`, `RunTheorems`, `AutoBound`, `AutoAbove`,
`SignalTheorems`, `PassTheorems`, `FailureCounter`, `ChatHistory`, `Retention`,
`SharedRows`, `PostCollision`). The tables are values, each SQL statement or
transaction is a function on them (`Schema`), and a run of the system is a
sequence of states and actions (`Starts.IsRun`). Each runner is one goroutine of `executeNext` with its
program counter and locals; ingestion, retention, scheduling, the job
lifecycle, the bot's other messages, clock ticks and process restarts are
actions that may fall between any two of its steps. A failing statement may or
may not have taken effect. The hashes of the advisory lock and of the random id,
the meaningful-text test and all foreign answers are arbitrary. The
`*Invariant` modules hold one inductive invariant each; the modules named above
state what follows for runs. Where the code does not keep what it promises, a
run is built step by step (`Runs`, `SmoothDigest`, `LostSignal`, `RefusedCost`)
and an if-and-only-if over all runs says when it happens.

A run begins with any database that an earlier process may have left
(`Starts.CanStart`). `Restored` names the conditions on the tables alone, and
shows that a database whose issue numbers come from the migration meets them.

Fields marked as history in `Protocol` (inserted and expired ids, publications,
commits, posts, issued numbers, counters since the last reset) are only
written by steps, never read by them. The `*Origin` lemmas in `Theorems` show
that each such record comes from the step it claims to come from.

**The same code as objects.** `Repository` (tables as fields, one method per
statement), `Service` (`executeNext` driving the repository and a VK channel)
and `Ingestion` (scheduling map and lifecycle fields) are imperative.
`Service.ExecuteNext` is proved against the function `Service.Executed`;
`Service.StatusIff` says when each status is reported and
`Service.EveryEndIsExplained` what it then means, and
`Refinement.SoloRunIsExecuted` shows that the protocol's job, run with nothing
between its steps (`Solo`), ends in exactly the same way.

**Candidate collection and message filter** (`Preparer`, `CountInvariant`),
**the prompt budget** (`Prompt`, `Lines`), **the text formatter**
(`Hashtags`, `HashtagWords`, `Utf8`, `BoldNames`, `BoldCoverage`), **usage
reports and cost** (`UsageInvariant`, `UsageColumns`, `Reports`, `ReportMoves`,
`ReportAccounts`, `Pricing`) and **the issue-number migration** (`Migration`).

## Assumptions

- One process. Restarts drop all goroutines, their locks and the in-memory
  scheduling state; tables survive. A lock connection lives until its unlock.
- A lock or unlock call that fails or times out breaks its connection, and the
  server frees the locks of that session at once: a failed try-lock holds
  nothing, and an unlock always frees its key.
- Updates are consumed by one sequential consumer
  (`internal/vk/longpoll.go:80-138`), so row ids become visible in increasing
  order. Ids of conflicting inserts are lost, and ids may be lost otherwise.
- The batch size, retentions, hash functions and the configured random id do not
  change during a run, nor did the batch size before it. The batch size, page
  size and both retentions are positive, as configuration checks and defaults
  make them.
- Europe/Moscow has its fixed offset of three hours.
- A transaction is one atomic step.
- VK shows one message per (peer, random id), digest or not. Money is computed
  over reals.
- Each retention statement may run at any time with a cutoff at or before
  the present moment minus its retention.

## Where the code differs from its own description

- A signal can be lost without a shutdown: it is recorded when it arrives
  between the final check of the runner (`internal/app/ingestion.go:485`) and
  the deletion of its map entry (`internal/app/ingestion.go:517`), and then
  nobody acts on it. `LostSignal.SignalCanBeLost` gives the run;
  `SignalTheorems.SignalGetsAPassIff` shows that exactly the signals in this gap
  get no pass.
- `MaxAutoSummaryAttempts` bounds the attempts that pass the gate
  (`RunTheorems.RetryLimit`), not the stored counter: there are runs with every
  counter value (`FailureCounter.CounterHasNoBound`). The counter passes five
  exactly when an attempt whose state load failed is recorded while it stands
  at five (`FailureCounter.CounterPassesLimitIff`).
- The random id of a digest is a 31-bit hash, and the bot's other messages to
  the same peer carry the configured id or a random one. VK swallows a digest
  whose id was used before, although its rows are deleted.
  `PostCollision.CollisionSwallowsADigest` builds such a run for every hash,
  `PostCollision.OtherMessageSwallows` one where a reply takes the id, and
  `PostCollision.CommittedHasOwnPostIff` says for every digest of a run when it
  has a post of its own.
- A name that overlaps an earlier rejected hit of itself is not made bold:
  `BoldNames.HiddenOccurrence`. `BoldNames.BoundedOccurrencesAreBold` shows that
  only an earlier hit can hide an occurrence,
  `BoldCoverage.PlainNamesAreBold` that nothing hides a name made of letters,
  digits and underscores, and `BoldCoverage.CoveredIff` gives the exact condition
  for any senders.
- The 30-day cost can be refused although nothing is missing:
  `RefusedCost.CommitCanRefuseCost` and `RefusedCost.MidnightCanRefuseCost` give
  runs. `ReportMoves.CostShownIff` says exactly when within the history
  retention, `ReportAccounts.CostShownExactlyWhen` for every retention.
- The lock and the unique range guard the exact triple (peer, first, last) only.
  A manual run that read its rows before one more arrived takes another key, so
  a manual and an automatic digest can share rows:
  `SharedRows.ManualAndAutoCanShare` gives the run, and
  `SharedRows.ShareIffCollectedBefore` the exact condition over runs.

## Model

| member | source | states |
|---|---|---|
| Theorems.NoRowIsLost | internal/storage/postgres.go:515-520 | In every run a row once inserted is still stored with its receive time, or a retention pass deleted it when it had been kept for longer than the message retention since it arrived, or it was in the candidate list of a digest that VK accepted before its batch was committed |
| Theorems.StoredRowIsNotLost | internal/storage/postgres.go:515-520 | The same for every row stored at any point of a run, also one that the run began with |
| Retention.RetentionIsExact | internal/storage/postgres.go:528-556 | Each retention statement of a run keeps exactly the messages received, the batches published and the statistics of days that were not over, at its cutoff, which lies a retention in the past; everything else stays |
| Conservation.CommitAccountsId | internal/summary/service.go:217-226 | The delete of a commit drops only rows that its worker had collected, though collection pages at other times |
| Theorems.CollectorSeesEveryRow | internal/storage/postgres.go:284-301 | In every run each stored row lies above every last id ever committed for its peer, also by pruned batches, so collection starts from exactly all stored rows |
| RowInvariant.ResetBranchUnreachable | internal/storage/postgres.go:297-299 | The branch that answers 0 is never taken |
| Theorems.NoSendForProcessedRange | internal/summary/service.go:168-190 | While a batch row with the peer, first and last id is retained no worker sends a digest for that range, for any lock hash |
| Theorems.RangeIsExclusive | internal/storage/postgres.go:657-682 | Two workers inside the locked section of one range are the same worker |
| Theorems.LocksAreNotLeaked | internal/summary/service.go:181 | Every held lock key is the key of a live run inside its locked section, a broken lock connection freeing its key |
| PublishInvariant.RandomIdOverrides | internal/vk/client.go:587-595 | The id sent for a range is positive, has the low 31 bits of the hash of the range or is 1 when they are 0, and wins over whatever is configured or drawn |
| PublishInvariant.SameIdIff | internal/summary/service.go:484-492 | Two ranges of a peer share an id exactly when the low 31 bits of their hashes are equal, or are 0 and 1 |
| Theorems.OnePostPerRange | internal/summary/service.go:372-416 | Across failed commits, reruns, restarts and the picture-to-text fallback VK shows at most one digest per exact range, and for every committed batch a message with its id is visible |
| PostCollision.CommittedHasOwnPostIff | internal/summary/service.go:484-492 | In every run each digest committed in it was accepted by a publish call, and it has a post of its own from then on exactly when VK showed no other message of its peer before whose id, or for a digest the low 31 bits of whose hash, make the same id |
| PostCollision.DistinctDigestIsShown | internal/summary/service.go:484-492 | So a committed digest has a post of its own when its low bits are neither 0 nor 1, no other range shown for the peer has them, and no other message has them as its id |
| PostCollision.CollisionSwallowsADigest | internal/summary/service.go:484-492 | For every hash a run in which a digest is committed, its rows are gone, and VK never showed it |
| PostCollision.CollisionSwallows | internal/summary/service.go:484-492 | The same for any two single-row ranges whose low bits are equal, or 0 and 1 |
| PostCollision.SomeIdsCollide | internal/summary/service.go:484-492 | Among the first 2^31 single-row ranges of a peer there are two such, whatever the hash |
| PostCollision.OtherMessageSwallows | internal/vk/client.go:587-595 | A run in which a message that is no digest took the id first, drawn at random or configured as the id of that range |
| Theorems.IssueNumbersAreFresh | internal/storage/postgres.go:422-438 | In every run the issue numbers of committed batches and of workers in flight are pairwise distinct per peer, in flight against committed too, and below the counter, also after pruning |
| Theorems.NumbersAreHandedOutIncreasing | internal/storage/postgres.go:422-438 | Of two answered reservations for a peer the later one gets the larger number, whatever is pruned in between |
| Theorems.NumbersAreConsecutive | internal/storage/postgres.go:422-438 | The number answered is the stored counter at the beginning, or 1, plus the number of reservations for the peer that took effect before |
| Theorems.CommitAlwaysInserts | internal/storage/postgres.go:469-513 | At a commit no stored batch of the peer has the issue number or the range, so it is never refused by the unique issue index and never meets its own range |
| Schema.CommitKeepsIndexes | migrations/007_summary_issue_numbers.sql:28-30 | With both unique indexes in force a commit is rejected exactly when its batch would keep the ranges unique but not the issue numbers; otherwise both hold afterwards |
| Schema.CommitDeletes | internal/storage/postgres.go:457-526 | A commit deletes exactly the rows of its peer through its last id, also when the range is already there, and then counts nothing |
| Theorems.JobsAreNeverStuck | internal/summary/service.go:155-196 | From the lock on, a runner always holds a non-empty list, so its range and lock key exist in every step |
| Theorems.UsageEverywhere | internal/storage/postgres.go:540-627 | In every run, for any selection of (day, peer) pairs after the latest cutoff day, the daily table sums to the batch log; on the cutoff day it is at least the log; keys are unique |
| UsageInvariant.CommitUsage | internal/storage/postgres.go:509-513 | One commit keeps that agreement, whether it inserts or meets an existing range |
| Reports.DailyRowsAreGroups | migrations/012_usage_daily_stats.sql:55-77 | After the cutoff day each row of the daily table is the GROUP BY of the log for its key, and a missing row means an empty group |
| UsageColumns.ColumnsAreAggregates | migrations/012_usage_daily_stats.sql:55-77 | In every run, after the latest cutoff day, each of the 18 columns of a daily row is the SUM, COUNT or filtered aggregate of its column over the batches published on that calendar day three hours ahead of UTC |
| Theorems.NothingRunsAfterStop | internal/app/ingestion.go:84-129 | The wait-group count is the number of live jobs; after StopAndWait has returned no job runs or is accepted, and only then is the repository closed |
| Theorems.JobsStartOnlyWhenAccepted | internal/app/ingestion.go:97-122 | The wait group grows only by an accepted launch, never between the start of a wait and a new Start |
| Theorems.NothingIsAcceptedAfterCancel | internal/app/ingestion.go:84-105 | Once the lifecycle is cancelled or stopped no job is accepted until it is started again |
| PassTheorems.CancelledRunLeaves | internal/app/ingestion.go:449-513 | Once the context of an automatic job is cancelled it begins no further pass and no failure of it goes on to be recorded: where it would do either it leaves its loop |
| PassTheorems.PassesEndUnpublished | internal/app/ingestion.go:521-538 | A job comes to its final check only from an attempt that published nothing, and from a failed one only through the recording of the failure |
| Theorems.EntryIffOneOwner | internal/app/ingestion.go:425-447 | A map entry exists exactly while one thread answers for the peer, and never two |
| RunTheorems.RetryLimit | internal/summary/service.go:137-147 | Between two counter resets at most five automatic attempts pass the gate and end in a recorded failure, with manual runs and restarts interleaved |
| FailureCounter.CounterPassesLimitIff | internal/app/ingestion.go:493-513 | In every run, up to any state, the stored counter of a peer has exceeded five exactly when it did at the beginning or a failure of an attempt that never came to the gate was recorded with the counter at five or more |
| FailureCounter.RecordPassesLimitIff | internal/storage/postgres.go:385-400 | One recorded failure leaves the counter above five exactly when its attempt never came to the gate and the counter was at least five before |
| FailureCounter.CounterHasNoBound | internal/app/ingestion.go:449-491 | For every n a run of one process whose stored counter is n, by state loads that fail |
| RunTheorems.BackOffGrows | internal/storage/postgres.go:402-420 | After k rate-limited automatic attempts without a publish the threshold is at least (k+1) batches, and never below one |
| RunTheorems.LimitedAttemptSawEnough | internal/summary/service.go:290-310 | The k-th such attempt saw at least k batches of meaningful messages |
| ChatHistory.StateIsHistory | internal/storage/postgres.go:342-420 | In every run the stored threshold, notice time and failure count of a chat are what its history says: untouched after a publish; after a rate limit a batch more than was counted, never less than before, the time, and no failures; one more failure for each one recorded |
| RunTheorems.AutoDigestsAreDisjoint | internal/summary/service.go:250-258 | Automatic digests of a peer cover disjoint, increasing ranges of at least a batch of meaningful rows |
| RunTheorems.AutoPassConsumesABatch | internal/app/ingestion.go:521-538 | Each committing automatic pass lowers the ids above everything committed by at least a batch |
| AutoBound.AutoDigestsAreBounded | internal/app/ingestion.go:521-538 | In any stretch of any run, the automatic digests committed for a peer, times the batch size, are fewer than the ids above its latest automatic digest before the stretch: with no new ids the loop runs dry |
| AutoBound.AllAutoDigestsAreBounded | internal/app/ingestion.go:521-538 | Over a whole run they are, times the batch size, below the next id |
| AutoAbove.LaterAutoDigestsAreBounded | internal/app/ingestion.go:521-538 | In any stretch all automatic digests of a peer but the first fit, a batch of ids each, above everything committed for it before the stretch, by manual runs too |
| AutoBound.CountsCommits | internal/summary/service.go:223-226 | The recorded automatic commits of a peer are exactly the commit steps of its automatic jobs that took effect |
| RunTheorems.SignalGetsAPass | internal/app/ingestion.go:449-491 | A signal recorded before the final check that ends a run gets another pass of that run first |
| SignalTheorems.SignalGetsAPassIff | internal/app/ingestion.go:482-519 | For a run that ends by its final check: a recorded signal is followed by another pass of it exactly when it had not yet left its loop for the deletion |
| SignalTheorems.SignalAtClearIsDropped | internal/app/ingestion.go:515-519 | A signal recorded at the deletion is never followed by a pass of that goroutine, however its run ended |
| SignalTheorems.LeftForGood | internal/app/ingestion.go:449-491 | A goroutine that has left its loop never starts a pass again |
| LostSignal.SignalCanBeLost | internal/app/ingestion.go:482-519 | For every batch size a run in which the signals of a whole batch of messages get no pass, although nothing was stopped |
| CountInvariant.SecondSkipNeverFires | internal/summary/service.go:192-197 | In every run a job at the second count check has enough messages, so that check decides nothing |
| CountInvariant.GateIff | internal/summary/service.go:250-258 | After the last page a job goes on exactly when it has rows and, if automatic, as many meaningful messages as the threshold, if manual, one; else it reports which of the two was missing |
| CountInvariant.SentDigestsHaveContent | internal/summary/service.go:148-165 | In every run no digest is sent, manual or automatic, whose list holds no meaningful message of a member; an automatic one holds a batch of them |
| CountInvariant.CommittedDigestsHaveContent | internal/summary/service.go:148-226 | In every run each digest committed in it had such a list at its commit, and its batch counts one, or a batch of them |
| SharedRows.ShareIffCollectedBefore | internal/summary/service.go:148-182 | Of two committed digests of a peer: they share a row exactly when the highest last id ever committed was below the end of the earlier one when the worker of the later one read its start point, and that worker had already collected one of its rows when the earlier one was committed |
| SharedRows.ManualAndAutoCanShare | internal/storage/postgres.go:657-682 | For every batch size a run in which a manual and an automatic digest with different last ids are both committed and share a row |
| SharedRows.StoredRowIsShared | internal/storage/postgres.go:515-520 | A row of any list of the peer that is still stored when a digest reaching it is committed is a row of that digest |
| Repository.Repository.SaveMessage | internal/storage/postgres.go:170-211 | The new tables are those of the protocol's insert or upsert, or the old ones when the statement is lost before; id, receive time and source id of an existing row stay |
| Schema.RedeliveryRenewsOneRow | internal/storage/postgres.go:193-205 | A redelivered message keeps its one row with its id, source id and receive time; only the content of that row is renewed, and an id is used up |
| Schema.NewMessageIsAppended | internal/storage/postgres.go:174-206 | A new message gets the next id, and there is still at most one row per VK message |
| Repository.Repository.LastProcessedMessageID | internal/storage/postgres.go:284-301 | The answer is the protocol's start point for these tables |
| Schema.StartPointIff | internal/storage/postgres.go:284-301 | The start point is the highest last id among the batches of the peer, unless all its stored rows lie below that; then it is 0 |
| Repository.Repository.ListMessagesAfterID | internal/storage/postgres.go:248-282 | A page is the first rows, in id order, of the peer above the id |
| Schema.PageIsFirst | internal/storage/postgres.go:248-282 | A page is sorted, keeps to the limit, holds only rows of the peer above the id, and any such row that it does not hold has a larger id than all of a full page |
| Repository.Repository.GetSummaryChatState | internal/storage/postgres.go:342-363 | Creates a missing row and answers the stored one; a lost answer may leave it created |
| Repository.Repository.ResetSummaryChatState | internal/storage/postgres.go:365-383 | Threshold back to the default, notice and failures cleared |
| Repository.Repository.AdvanceSummaryChatRateLimit | internal/storage/postgres.go:402-420 | The threshold only rises; failures cleared |
| Repository.Repository.RecordAutoSummaryFailure | internal/storage/postgres.go:385-400 | Counts one failure and answers the count; a missing row stays missing and answers an error; a lost answer may have counted |
| Repository.Repository.ReserveSummaryIssueNumber | internal/storage/postgres.go:422-438 | Answers the next number and moves the counter past it |
| Repository.Repository.MarkBatchPublished | internal/storage/postgres.go:457-526 | All of insert, usage count and delete, or nothing when lost or refused |
| Repository.Repository.PruneExpiredData | internal/storage/postgres.go:528-556 | Each table keeps exactly what is not older than its cutoff, up to the first deletion that fails, whose effect may be there although its answer was lost; retention below one is off |
| Repository.PruningIsExact | internal/storage/postgres.go:528-556 | The same of the function that the protocol is compared with |
| Repository.PruningIsRetention | internal/storage/postgres.go:528-556 | However a pruning ends, it leaves what some number of the protocol's retention steps leave, all three when it succeeds |
| Repository.Repository.AcquireBatchLock | internal/storage/postgres.go:657-682 | Takes a free key for this worker, leaves a held one alone, and holds nothing when the call fails |
| Service.ExecuteNext | internal/summary/service.go:136-235 | Status, tables and posts are those of the specification function, and the batch lock is always released |
| Service.EveryEndIsExplained | internal/summary/service.go:136-310 | For every call, tables, held locks and outside answers: what each status says about the tables before and leaves behind; rows go only with a committed batch, and at most the range's own digest is sent |
| Service.StatusIff | internal/summary/service.go:136-310 | For every call, tables, locks and outside answers each status but an error is reported exactly when: five failures; no rows, or a manual call and no meaningful message; an automatic call and fewer of them than the threshold; a held lock; a stored batch of the range; a rate limit; or everything answered and the issue number free |
| Refinement.SoloRunIsExecuted | internal/summary/service.go:136-235 | The protocol's job run alone reaches the same status, tables and posts as the specification, for any page size and any outside answers, with its lock released |
| Solo.CollectsAll | internal/summary/service.go:440-462 | The protocol's page-by-page collection, undisturbed, decides on exactly the one-shot candidate and its count |
| Service.PublishedRunMeaning | internal/summary/service.go:210-234 | A published run takes all collected rows of its peer, adds one batch that spans them, counts the meaningful ones and carries the next number, the time and the trigger, counts its usage and resets the chat state; other peers stay |
| Service.PublishWithOptionalImage | internal/summary/service.go:372-416 | Succeeds when the picture or the text is accepted, and either way leaves at most one new post |
| Ingestion.MessageIngestionService.Start | internal/app/ingestion.go:84-95 | The protocol's lifecycle step: the previous context is cancelled, a fresh one accepts jobs |
| Ingestion.MessageIngestionService.Stop | internal/app/ingestion.go:97-105 | The protocol's step up to the wait: nothing is accepted any more |
| Ingestion.MessageIngestionService.StartBackgroundJob | internal/app/ingestion.go:110-129 | Counts a job exactly when the lifecycle accepts it, under an uncancelled context |
| Ingestion.MessageIngestionService.ClaimAutoRun | internal/app/ingestion.go:430-438 | A running entry becomes pending, else a new one is claimed for the caller, as in the protocol |
| Ingestion.MessageIngestionService.ScheduleAutoSummary | internal/app/ingestion.go:425-447 | A running entry becomes pending; else the job is launched under the current context and keeps its entry, or the launch is rejected and the entry is gone |
| Ingestion.ScheduledAloneIs | internal/app/ingestion.go:425-447 | The protocol's schedule, launch and abandon steps with nothing in between leave the same map and wait group |
| Ingestion.MessageIngestionService.FinalCheck | internal/app/ingestion.go:482-489 | Another pass exactly when pending was set, which it clears, as in the protocol |
| Ingestion.MessageIngestionService.ClearAutoSummaryRun | internal/app/ingestion.go:515-519 | Removes the peer's entry and no other |
| Ingestion.HandleAutoSummary | internal/app/ingestion.go:521-538 | Without arrivals it stops after at most two calls, and a second call finds no row of the peer |
| Preparer.CollectCandidate | internal/summary/service.go:435-482 | On a fixed table paging with any page size equals the one-shot query in id order, and its running count is the count of that list |
| Preparer.CandidateRange | internal/summary/service.go:467-482 | The candidate is exactly what the peer has stored between its first and last id |
| Preparer.CountIsNumber | internal/summary/service.go:435-482 | The running count is the number of rows of members whose text is meaningful |
| Preparer.PrepareMessages | internal/summary/preparer.go:40-78 | Keeps the meaningful rows in order with their normalised texts; raw = meaningful + dropped; the count is the collector's |
| Preparer.KeptRowsAre | internal/summary/preparer.go:40-78 | What is kept are exactly the rows of members whose text is meaningful, in their order |
| Preparer.NormalizeJoinsFields | internal/summary/preparer.go:112-116 | Normalising is joining the fields by single spaces, whatever breaks and outer spaces there were |
| Preparer.MeaningfulIff | internal/summary/preparer.go:80-116 | A text is kept exactly when its words joined by single spaces are some, long enough, no bare link or command, and hold a letter or digit; they are what is kept |
| Preparer.MeaningfulIsStable | internal/summary/preparer.go:80-86 | A kept text is kept unchanged when filtered again |
| Prompt.DistributedIsEven | internal/summary/prompt.go:167-202 | Exactly min(count, total) strictly increasing indexes in range ending at total-1, from 0, with gaps that differ by at most one |
| Prompt.DistributedIsRounded | internal/summary/prompt.go:167-202 | Pick i is the even position i(total-1)/(count-1) rounded down |
| Prompt.DistributedIndexes | internal/summary/prompt.go:182-201 | The loops return exactly those indexes: the duplicate check and the fill loop never act |
| Prompt.PickKeepsOrderAndEnd | internal/summary/prompt.go:158-165 | Picked lines are an order-preserving subsequence that ends in the last line |
| Prompt.TrimBodyLines | internal/summary/prompt.go:138-156 | The largest number of lines whose pick fits, or a prefix of the last line when none fits |
| Prompt.TrimPrompt | internal/summary/prompt.go:112-136 | At most maxChars bytes for any budget; what is kept is the prompt, a prefix, or the three head lines with the largest fitting pick |
| Hashtags.StripHashtagFields | internal/summary/formatting.go:66-79 | The loop leaves the words of the line that do not begin with '#', in their order, with single spaces between them |
| Hashtags.StripSummaryHashtags | internal/summary/formatting.go:42-64 | The two loops compute the stripper the lemmas below are about |
| HashtagWords.StripKeepsWords | internal/summary/formatting.go:42-79 | The words of the stripped text are exactly the words of the text that do not begin with '#', in their order |
| HashtagWords.StripKeepsLines | internal/summary/formatting.go:42-79 | Each line of the trimmed text is left its words without hashtags; of these lines those stay that hold text, and one blank line after such a line where another follows |
| HashtagWords.FieldsAreLaid | internal/summary/formatting.go:66-79 | Every text is its fields with spaces around and between them, and they are the only words that lay it out so |
| HashtagWords.AppendAddsTags | internal/summary/formatting.go:34-40 | The appended text has the words of the text and then the two hashtags |
| HashtagWords.AppendAddsALine | internal/summary/formatting.go:34-40 | After the lines of the trimmed text come a blank line and the hashtag line, or the hashtag line alone |
| Hashtags.StripIsIdempotent | internal/summary/formatting.go:42-64 | Stripping twice is stripping once |
| Hashtags.StripRemovesHashtags | internal/summary/formatting.go:42-79 | No field of the result starts with '#', and it has no outer or doubled blank line |
| Hashtags.StripUndoesAppend | internal/summary/formatting.go:34-40 | strip(append(s)) = strip(s) for every text |
| BoldNames.UniqueSenderNames | internal/summary/formatting.go:132-147 | The non-empty trimmed names, each once, in order of first appearance |
| BoldNames.ByLengthSorts | internal/summary/formatting.go:87-89 | Longest first, the same names, equally long names in their old order |
| BoldNames.BuildBoldNames | internal/summary/formatting.go:81-129 | The ranges are exactly those that text and senders determine when the hits of longer names, then of earlier senders, are kept first; every range is a hit of a sender's name on name boundaries, ranges are pairwise disjoint, items give their UTF-16 offset and length, and every boundary-valid hit of every name meets a range at least as long |
| BoldNames.MarkName | internal/summary/formatting.go:93-119 | The inner loop adds exactly the boundary-valid hits of the name that meet no range kept before, settles all its hits and keeps what was marked |
| BoldNames.MarkHit | internal/summary/formatting.go:100-117 | One hit is marked when it may be and meets no range; afterwards every hit that may be bold is covered |
| BoldNames.BoundedOccurrencesAreBold | internal/summary/formatting.go:95-110 | A boundary-valid occurrence that the scan of its name hits meets a range at least as long; one that it does not hit begins inside an earlier hit of the name |
| BoldCoverage.PlainNamesAreBold | internal/summary/formatting.go:93-118 | On valid UTF-8, a sender's name made of letters, digits and underscores meets a range at least as long wherever it stands alone |
| BoldCoverage.SingleNameCoveredIff | internal/summary/formatting.go:93-118 | With one sender, an occurrence of the name meets a range exactly when a boundary-valid hit of the name overlaps it |
| BoldCoverage.CoveredIff | internal/summary/formatting.go:87-118 | With any senders, a place meets a range of a given length or more exactly when a boundary-valid hit of a name that long overlaps it and no kept hit of a name ranked before overlaps that hit |
| BoldCoverage.NothingReachesOver | internal/summary/formatting.go:149-167 | No occurrence of a name of name characters reaches over a place where the name stands alone |
| BoldNames.HiddenOccurrence | internal/summary/formatting.go:95-107 | In "xa a a" the lone "a a" is never made bold |
| BoldNames.OccurrenceIsHit | internal/summary/formatting.go:96-103 | Only an earlier hit of the same name hides an occurrence from the scan |
| BoldNames.OverlapsIff | internal/summary/formatting.go:169-176 | Two stretches overlap exactly when they share a byte |
| BoldNames.BoundaryOnCharacters | internal/summary/formatting.go:149-163 | On valid UTF-8 the boundary test looks at the characters before and after |
| BoldNames.BoldRangeSelectsName | internal/summary/formatting.go:112-117 | On valid UTF-8 a range is a whole occurrence of the name on characters, alone in the text; Offset is the number of characters before it and Length that of the name, each counted twice outside the basic plane; the units selected decode to the name |
| BoldNames.ItemsAreDisjoint | internal/summary/formatting.go:169-176 | Disjoint byte ranges give disjoint UTF-16 ranges |
| BoldNames.TrimChars | internal/summary/formatting.go:136 | Trimming bytes of valid UTF-8 trims characters |
| Utf8.MatchIsOnCharacters | internal/summary/formatting.go:96-102 | A byte match of one valid text in another falls on whole characters (section 3 of RFC 3629) |
| Utf8.DecodeLastEncode | internal/summary/formatting.go:151 | Decoding backwards finds the last character whatever precedes it |
| Utf8.DecodeRuneIs | internal/summary/formatting.go:157 | Bytes that begin with the encoding of a character decode to it, all others to one byte of error |
| Utf8.DecodeLastRuneIs | internal/summary/formatting.go:151 | The same backwards, for bytes that end in one |
| Utf8.RunesOfEncode | internal/summary/formatting.go:178-180 | Decoding an encoded text gives it back |
| Utf8.Utf16Append | internal/summary/formatting.go:178-180 | UTF-16 units are additive |
| Utf8.Utf16RoundTrip | internal/summary/formatting.go:178-180 | The units of a text are 16-bit numbers, one for each character and one more for each outside the basic plane, and decode to the text (section 2.2 of RFC 2781) |
| Reports.RequestsByDay | internal/storage/usage.go:232-260 | The map has each day of the rows with its requests in row order |
| Reports.LlmUsageDays | internal/storage/usage.go:8-41 | Totals of the asked window, and the requests of the window in some order |
| Reports.RequestsAddUp | internal/storage/usage.go:232-243 | The requests of a window add up to the sums of the batch log over it |
| Reports.DetailsAreLogged | internal/storage/usage.go:232-260 | The details of a report are exactly the requests of the batch log on its days |
| UsageColumns.DetailsAreCalls | internal/storage/usage.go:28-40 | A request is in the details of a report of n days exactly when a batch published today or on the n-1 days before, on a day asked for, records that model and those tokens |
| Reports.ReportIsComplete | internal/app/pricing.go:137-141 | A report within the history retention has matching totals and details when no commit and no Moscow midnight lies between its reads, whatever else happens |
| Reports.CostShownIffPriced | internal/app/pricing.go:113-142 | Then it shows a cost exactly when every request that used tokens has a price |
| ReportMoves.LogMovesBy | internal/storage/postgres.go:469-513 | In every run, on days after the latest cutoff day the batch log grows by exactly the requests of the digests committed, in their order |
| ReportMoves.ReportMovesBy | internal/storage/usage.go:19-40 | In every run, for reports within the history retention, the details read at m plus the days dropped since i equal the totals read at i plus what was committed in between |
| ReportMoves.CostShownIff | internal/app/pricing.go:113-142 | In every run, for reports within the history retention, a cost is shown exactly when every request that used tokens has a price and the digests committed between the reads used as many tokens as the dropped days |
| ReportAccounts.CostShownExactlyWhen | internal/app/pricing.go:113-142 | In every run, for every retention and number of days, a cost is shown exactly when all is priced and the totals read at i, with the days dropped and the batches deleted by retention since, weigh what the log held at i and what was committed since |
| ReportAccounts.LogAccount | internal/storage/postgres.go:540-548 | In every run, on any days, the log at m and what retention deleted since i are the log at i and what was committed since |
| ReportAccounts.TableAgainstLog | internal/storage/postgres.go:540-627 | In every run, on any days and for every token column, the daily table and the log drift apart by exactly what retention deleted from the one and not from the other |
| RefusedCost.CommitCanRefuseCost | internal/storage/usage.go:19-40 | A run in which a 30-day cost is refused because a digest with tokens was committed between the reads, and shown when the totals are read again |
| RefusedCost.MidnightCanRefuseCost | internal/storage/usage.go:28-36 | A run in which it is refused because Moscow midnight fell between the reads |
| Reports.CommitBetweenReads | internal/storage/usage.go:19-40 | One digest committed between the reads of one table refuses the report exactly when it used tokens |
| Reports.MidnightBetweenReads | internal/storage/usage.go:28-36 | One midnight between the reads of one table refuses it exactly when the dropped day used tokens |
| Pricing.RecordedLlmCost | internal/app/pricing.go:121-142 | A cost exactly when every request that used tokens has a price and the three totals match; then the sum of the charges |
| Pricing.RecordedCostIgnoresOrder | internal/storage/usage.go:37-39 | The order of the requests does not matter |
| Pricing.NothingCostsNothing | internal/app/pricing.go:25-42 | A request without tokens costs nothing |
| Pricing.OneMoreOutputToken | internal/app/pricing.go:25-42 | One output token more costs the output price of a token, half more for Luna above 272,000 input tokens |
| Pricing.OneMoreInputToken | internal/app/pricing.go:25-42 | One input token more costs the input price of a token, twice that in long context, and nothing while the cached count exceeds the input |
| Pricing.OneMoreCachedToken | internal/app/pricing.go:25-42 | One cached token more costs the cached price instead of the input price |
| Pricing.ChargeIs | internal/app/pricing.go:121-142 | Requests without input and output tokens are not charged |
| Pricing.MonthIsSumOfDays | internal/app/pricing.go:121-142 | When every day has a cost the month has one and it is their sum |
| Pricing.MonthShownAtMostDays | internal/app/pricing.go:106-111 | The displayed month is at most the sum of the displayed days |
| Pricing.RoundingAddsLessThanACentADay | internal/app/pricing.go:106-111 | Rounding up adds less than one cent a day |
| Pricing.ChargeNotNegative | internal/app/pricing.go:25-42 | With non-negative prices no request is charged a negative amount, also in long context and with more cached than input tokens |
| Migration.BackfillIsUnique | migrations/007_summary_issue_numbers.sql:10-20 | The backfill leaves distinct numbers per peer exactly when numbers already present do not clash; a fresh column always qualifies |
| Migration.FreshBackfill | migrations/007_summary_issue_numbers.sql:20-30 | On a fresh column each peer gets 1 to n and its counter n + 1 |
| Migration.BackfillFollowsPublication | migrations/007_summary_issue_numbers.sql:10-20 | The backfill numbers the digests of a peer in the order of publication, and of their ids at the same time |
| Migration.MigratedNumbersAreBelow | migrations/007_summary_issue_numbers.sql:22-29 | After the migration every stored issue number lies below its peer's counter, and no counter has fallen |
| Migration.NextNumberIsFree | internal/storage/postgres.go:422-438 | From then on the next number reserved is free, its insert is accepted by the unique index, and the numbers stay below the counters |
| Restored.MigratedTablesCanStart | migrations/007_summary_issue_numbers.sql:10-30 | A database whose issue numbers and counters come from the migration is one that runs begin with, so what holds in every run holds on it |
| Restored.FitTablesCanStart | internal/storage/postgres.go:457-526 | So is every database whose rows lie above the digests of their peer, whose issue numbers are distinct and below the counters, whose automatic digests are spaced by batches, and whose daily table agrees with the log |

## Left out

- HTTP, JSON, multipart upload, LLM, image and VK clients: only their success, failure or rate limit is modelled.
- Rate-limit notices, progress messages, replies and reports: only that each may take a random id of its peer.
- Previous summaries, prompt wording, price tables, captions, charts, keyboards and reports' text: constants and layout.
- The long-poll consumer and its bounded retries: only its sequential order is used, as an assumption.
- Redelivery of a VK message after its row was digested: it becomes a new row with a new id; rows are identified by id.
- Sequence resets, operator deletions and loss of a lock connection before its unlock.
- Several processes at once: the scheduler map and the wait group are per process.
- A change of the batch size: the back-off statements and the database to begin with assume one batch size.
- Time zones other than Europe/Moscow in the reports: the callers pass no other.
- The averages and chat counts of the reports, and the image-generation cost: sums without further conditions.
- Float rounding: costs are reals. Integers are unbounded: counts stay far below 64 bits.
- Regular expressions and Unicode letter classes: parameters. White space is the Unicode property as Go lists it.
- Invalid UTF-8 in the hashtag stripper: texts there are sequences of characters. The bold-name scan works on all bytes.
- Service.ExecuteNext: one run without interference; interference is what the protocol is for.
- Preparer.CollectCandidate: a fixed table; collection on a changing table is part of the protocol.
- Ingestion.HandleAutoSummary: no interference; with interference the bounds are those of AutoBound and AutoAbove.
- Ingestion.MessageIngestionService.Stop: the wait itself, which is a separate step of the protocol.
- Ingestion.MessageIngestionService.ScheduleAutoSummary: its three critical sections with nothing in between; the protocol interleaves them.
- Repository.Repository.SaveMessage: of the overwritten columns only text and direction; the others decide nothing in the model.
- Theorems.LocksAreNotLeaked: assumes that a broken lock connection frees its key at once.
- Preparer.PrepareMessages: sender names, reply previews and times of the prepared messages; only row id and text are kept.
- Reports.LlmUsageDays: summary and chat counts, the latency average and other time zones.
- Service.EveryEndIsExplained: says what each status means; Service.StatusIff says when it must be reported.
- Migration.NextNumberIsFree: one reservation and its commit at a time; Restored.MigratedTablesCanStart covers the interleaved runs.
