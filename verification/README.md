# Verification of the report generator and its feedback worker

A Dafny model of the parts of the repository that hold state, loops or arithmetic, and of what they promise.
`dafny verify dfyconfig.toml` checks all of it.

| files | what they model |
|---|---|
| `Prelude.dfy` | options, sorting by a strict order, dictionary order of strings |
| `FeedbackProtocol.dfy`, `FeedbackSafety.dfy`, `FeedbackLookups.dfy`, `FeedbackSpacing.dfy`, `FeedbackWipes.dfy`, `FeedbackAttachments.dfy`, `FeedbackRollback.dfy` | the feedback worker as a transition system: requests interleave at awaits over a key-value store with expiry and an attachment bucket; a run is any sequence of steps of any number of requests |
| `FeedbackWorker.dfy` | the same worker as an object whose methods update its stores; whatever it does is a run of the protocol |
| `RateLimit.dfy`, `RateLimiter.dfy`, `FeedbackBudget.dfy` | the promise-chain lock and the count of keys per bucket, as a protocol and as an object, and what it means for the worker |
| `Mysqladmin.dfy`, `MysqladminParser.dfy`, `MysqladminMerge.dfy`, `MysqladminStaging.dfy` | counter series: the parser as functions and as an object, the merge of snapshots, and that both routes agree |
| `FindingsInputs.dfy`, `PtMext.dfy`, `Conservation.dfy` | totals and rates, the reference implementation of the deltas, and what a total adds up to in raw values |
| `RedoSizing.dfy`, `RedoResets.dfy`, `RedoBounds.dfy`, `MergedCapture.dfy`, `RateAgreement.dfy` | average and rolling peak of the redo log, their relation to each other and to the generic rate |
| `Processlist.dfy`, `ProcesslistStaging.dfy` | grouping of active queries and its three stages |
| `Semaphores.dfy`, `Netstat.dfy`, `NetstatRows.dfy`, `TopClock.dfy` | line-driven parsers |
| `WindowedStats.dfy`, `HumanInt.dfy` | chart statistics over a window, integers with separators |

Floats are reals, NaN is a separate value, times are seconds. Input lines are taken after tokenising. Awaited calls
either succeed or throw without effect, and which of the two is arbitrary. Code that changes things step by step is a
method or a class here, tied by its contract to a function or a run; the properties are lemmas about those.

Three claims of the repository's comments do not hold of its code. The model follows the code, shows an input where the
claim fails and states exactly when it holds:

- "no code path can ever wipe a successful done record" (feedback-worker/src/idempotency.ts:67-69): a request that read
  the key before the record was stored may write its reservation over it. `FeedbackWipes.DoneIsWiped`,
  `FeedbackWipes.WipedExactlyInTheGap`, `FeedbackWipes.WipedExactlyByStaleReads`.
- larger windows "would only dilute the rate" (render/redo_sizing.go:564-568): they do exactly when the stretch added is
  no faster than the window. `RedoBounds.PeakCanBeBelowAverage`, `MergedCapture.BurstsAreACapture`,
  `RedoBounds.WideningDilutesExactly`.
- pre-existing objects "may already be referenced by a successful issue and must remain"
  (feedback-worker/src/index.ts:342-344): an object created by a failing request may be referenced by the time it is
  rolled back. `FeedbackRollback.OverlapLosesAttachment`, `FeedbackRollback.LostExactlyByRollback`.

Lesser observations are stated in the same way: the parser and pt-mext differ in the first column when a name repeats in
the first sample; a half-open zoom window that misses all samples is swapped and takes in one; a counter that appears
late adds its raw tally to its total; and the missing-queue diagnostic of the netstat parser is unreachable.

## Model

| member | source | states |
|---|---|---|
| `FeedbackSafety.EveryInterleavingIsSafe` | feedback-worker/src/index.ts:213-443 | For every run of any number of requests, in any interleaving and with any failures: stored responses and 200 replies name an issue created for the key; the limiter's slots are used once each and exactly by the requests it let through; whatever was stored or created belongs to one of those, an issue each at most |
| `FeedbackSafety.DuplicatesLeaveNoTrace` | feedback-worker/src/index.ts:221-290 | A request answered by replay, 409 or 429 has created no issue, stored nothing and used no rate slot, in every interleaving |
| `FeedbackLookups.LookupAnswersLastWrite` | feedback-worker/src/idempotency.ts:139-179 | After any run, a read of a key answers with an issue if and only if the last write of the key stored its response less than 300 s ago, with 409 if and only if it reserved the key less than 60 s ago, and finds the key free otherwise |
| `FeedbackLookups.AnswersAreExplained` | feedback-worker/src/index.ts:105-444 | In every run a request fails if and only if one of its calls before the issue threw, is limited if and only if the limiter denied it, gets to its issue if and only if it created one |
| `FeedbackSpacing.SameKeyIssuesAreSpaced` | feedback-worker/src/idempotency.ts:82-179 | With atomic reservations, handlers done within 60 s of reserving and every response stored, two issues for one key are at least 300 s apart in every interleaving |
| `FeedbackSpacing.ReplaysItsIssue` | feedback-worker/src/idempotency.ts:139-179 | Under the same hypotheses, for 300 s after its creation an issue whose creator has replied is what the store answers for its key |
| `FeedbackWipes.WipedExactlyInTheGap` | feedback-worker/src/idempotency.ts:59-69 | Some continuation turns a live stored response back into a reservation before it expires if and only if a request for the key is now between its read and its write; the comment there says that no path can |
| `FeedbackWipes.WipedExactlyByStaleReads` | feedback-worker/src/idempotency.ts:139-159 | Over whole runs: a step wipes a live response if and only if it writes the reservation of a request that read the key before a response was stored for it |
| `FeedbackWipes.DoneIsWiped` | feedback-worker/src/idempotency.ts:59-69 | A run after which the store replays an issue, and a next step that turns it into a reservation |
| `FeedbackSpacing.AtomicReserveNeverWipes` | feedback-worker/src/idempotency.ts:139-159 | With atomic reservations no step of any run wipes a live stored response |
| `FeedbackSpacing.RaceMakesTwins` | feedback-worker/src/idempotency.ts:16-41 | Without atomicity: a run, timely and with all responses stored, that creates two issues for one key at the same time |
| `FeedbackSpacing.OverrunMakesTwins` | feedback-worker/src/idempotency.ts:82-83 | Without the 60 s bound: a run with atomic reservations that creates two issues for one key at the same time |
| `FeedbackSpacing.LostResponseMakesTwins` | feedback-worker/src/index.ts:73-90 | When all three attempts to store the response fail: a timely run with two issues for one key 60 s apart |
| `FeedbackAttachments.BucketIsReferenced` | feedback-worker/src/index.ts:305-345 | When requests do not overlap, none is lost and deletions succeed, between requests the bucket holds exactly the attachments of the issues created |
| `FeedbackAttachments.ReferencedStays` | feedback-worker/src/index.ts:305-345 | While requests do not overlap, every attachment of an issue is in the bucket at all times after, whatever crashes and whichever deletions fail |
| `FeedbackAttachments.FailureRestoresBucket` | feedback-worker/src/r2-upload.ts:53-77 | While requests do not overlap, a request that is not lost and whose own deletions succeed leaves the bucket as it found it, plus its attachments if it got an issue; earlier requests may have crashed or failed to delete |
| `FeedbackRollback.LostExactlyByRollback` | feedback-worker/src/index.ts:341-345 | From a state of any run, some continuation loses an object if and only if a request that created it, or is about to, has neither got an issue nor replied nor passed it in its cleanup |
| `FeedbackRollback.OverlapLosesAttachment` | feedback-worker/src/index.ts:341-345 | A run of two overlapping requests after which an attachment of the one issue is gone |
| `FeedbackWorker.Worker.ReserveResponse` | feedback-worker/src/idempotency.ts:139-159 | Done, inflight or reserved, as the record of the key says; a reservation is written for 60 s; two steps of the protocol |
| `FeedbackWorker.Worker.CacheResponse` | feedback-worker/src/idempotency.ts:166-179 | The done record is written for 300 s, or nothing if the call throws |
| `FeedbackWorker.Worker.CacheResponseWithRetry` | feedback-worker/src/index.ts:73-90 | Up to three attempts, then the reply goes out anyway |
| `FeedbackWorker.Worker.UploadAttachment` | feedback-worker/src/r2-upload.ts:53-72 | Afterwards the object is there; `created` says whether this call put it there; a throw changes nothing |
| `FeedbackWorker.Worker.DeleteAttachment` | feedback-worker/src/r2-upload.ts:74-77 | Only objects created by this request are deleted |
| `FeedbackWorker.Worker.CleanupCreatedAttachments` | feedback-worker/src/index.ts:100-103 | Removes nothing but what this request created, and all of that if deletions succeed |
| `FeedbackWorker.Worker.HandleFeedback` | feedback-worker/src/index.ts:105-444 | One request from arrival to reply: what it answers given the record of its key, its expiry and the time, and what it leaves in the store of responses, the bucket, the issues and the slots; a duplicate changes none of them; if no call throws, the reply is determined by the record and the verdict of the limiter |
| `FeedbackWorker.WorkerIsSafe` | feedback-worker/src/index.ts:105-444 | Every state of the imperative worker is a state of a run, so the safety of runs holds of it |
| `RateLimit.EntersInTurn` | feedback-worker/src/ratelimit.ts:71-92 | Mutual exclusion and arrival order: past the lock, all earlier requests for the prefix have left or all later ones are waiting |
| `RateLimit.SlotIsFreedExactlyWhenDrained` | feedback-worker/src/ratelimit.ts:86-91 | The map has no promise for a prefix if and only if every request for it has left |
| `RateLimit.NoDeadlock` | feedback-worker/src/ratelimit.ts:71-92 | While a request for a prefix has not left, some request for that prefix can take a step |
| `RateLimit.StepsAreProgress` | feedback-worker/src/ratelimit.ts:71-92 | Every step of a request present brings the queue closer to empty |
| `RateLimit.PrefixDrains` | feedback-worker/src/ratelimit.ts:71-92 | From every reachable state the requests for a prefix can all leave by steps of their own, and its slot is then free: a stalled prefix blocks no other |
| `RateLimit.QueueDrains` | feedback-worker/src/ratelimit.ts:71-92 | From every reachable state all requests present can leave, and the map is then empty |
| `RateLimit.CountsAreConsecutive` | feedback-worker/src/ratelimit.ts:105-127 | Allowed requests of a bucket are told consecutive counts in order of arrival, never above 5, in every interleaving |
| `RateLimit.BucketNeverExceedsLimit` | feedback-worker/src/ratelimit.ts:105-127 | A bucket never comes to hold more than 5 keys |
| `RateLimit.DeniedOnlyWhenFull` | feedback-worker/src/ratelimit.ts:105-116 | In every interleaving a request is denied only if its bucket holds 5 keys, and is told their number, of 6 at most |
| `RateLimiter.Limiter.CheckRateLimit` | feedback-worker/src/ratelimit.ts:71-128 | One call on the imperative limiter while others run at every await: it waits for its turn, an allowed call is told its place in the bucket, at most 5, and the lock is released in every case; if nobody else is inside, what it does to the store is exact |
| `FeedbackBudget.IssuesWithinBudget` | feedback-worker/src/idempotency.ts:36-37 | However requests race on a key, the issues of one client and hour are at most 5, less what the bucket held before |
| `MysqladminParser.MysqladminParser.AtBoundaryFor` | parse/mysqladmin.go:199-206 | Whether the column is a boundary, never for column 0 |
| `MysqladminParser.MysqladminParser.ReadRow` | parse/mysqladmin.go:134-182 | One data row on the object is one step of the specification |
| `MysqladminParser.MysqladminParser.ParseOneFile` | parse/mysqladmin.go:110-183 | Reading a file updates the object as the specification reads the file |
| `MysqladminParser.MysqladminParser.Finish` | parse/mysqladmin.go:210-260 | Padded series, sorted names, the one-second ladder; nothing without samples or names |
| `Mysqladmin.FileTracks` | parse/mysqladmin.go:110-231 | For every name, what the parser appends for a file is the series of a one-variable reference reading, NaN after a boundary |
| `Mysqladmin.ParseKeepsValid` | parse/mysqladmin.go:110-183 | Series never outgrow the columns, names are distinct and classified once |
| `Mysqladmin.GaugeIsLastReading` | parse/mysqladmin.go:134-182 | Each slot of a gauge is its last raw reading in that sample |
| `Mysqladmin.GaugeIsMissing` | parse/mysqladmin.go:134-182 | The slot is missing if and only if the sample has no reading of it |
| `MysqladminMerge.MergeMysqladminData` | model/mysqladmin_merge.go:13-93 | Nothing, the only snapshot, or the merge: sorted names, concatenated padded series with NaN for later raw tallies, offsets, times, counter lookup |
| `MysqladminMerge.KeptExactly` | model/mysqladmin_merge.go:14-19 | What is merged is every snapshot that has samples |
| `MysqladminMerge.CollectNames` | model/mysqladmin_merge.go:27-36 | The sorted union of names, in whatever order the map is read |
| `Prelude.DictionaryOrder` | model/mysqladmin_merge.go:36 | The order of names: at the first difference the smaller character comes first, and a prefix comes first |
| `MysqladminStaging.OneParserEqualsMerge` | parse/mysqladmin.go:95-260 | One parser with resets gives the same names, sample count, series, counter lookup and boundaries as merging the files parsed alone |
| `FindingsInputs.CounterTotal` | findings/inputs.go:26-49 | The sum of the values present after the first slot |
| `FindingsInputs.CaptureSeconds` | findings/inputs.go:115-146 | The time within snapshots, gaps between them excluded |
| `FindingsInputs.CounterRatePerSec` | findings/inputs.go:60-70 | Total over seconds, present exactly when there is a total and time |
| `FindingsInputs.GaugeMax` | findings/inputs.go:74-103 | The largest value present of a gauge |
| `PtMext.RunMext` | _references/pt-mext/pt-mext-improved.cpp:36-54 | The reference loop computes the reference columns and statistics |
| `PtMext.StatsAreExtremes` | _references/pt-mext/pt-mext-improved.cpp:49-53 | For a name at most once per sample, the least and greatest reported bound its deltas after the first column and are attained, except that 0 counts as a delta for the greatest, and for the least of a name absent from the second column |
| `PtMext.AverageCountsFirstColumn` | _references/pt-mext/pt-mext-improved.cpp:49-53 | The average reported is the total over the number of the last column with the name, the first column included, cut off towards zero |
| `PtMext.ParserRefinesReference` | _references/pt-mext/pt-mext-improved.cpp:42-48 | Every slot of a counter but the first is the reference's, NaN where it has none, one slot per column; the first agrees if and only if the name did not replace a nonzero value in the first sample |
| `PtMext.OnceNeverOverwrites` | parse/mysqladmin.go:176-182 | A name that occurs at most once per sample never does that |
| `PtMext.OnceExactly` | parse/mysqladmin.go:176-182 | What that means: no two readings of the name in one sample |
| `PtMext.TotalRefinesReference` | _references/pt-mext/pt-mext-improved.cpp:49-50 | The report's total of such a counter is pt-mext's |
| `Conservation.TotalIsGainPlusLate` | findings/inputs.go:26-49 | Through parse and merge, a counter's total is the sum over snapshots of last raw value minus first, plus the raw tallies of snapshots in which it appears late |
| `Conservation.GainExactly` | parse/mysqladmin.go:152-171 | In raw values: the gain is the last reading less the first, the late tally the first reading unless that is in the first sample |
| `Conservation.ConservedExactly` | parse/mysqladmin.go:145-183 | The total is the sum of the gains if and only if the late tallies add up to 0 |
| `Conservation.PresentFirstIsNotLate` | parse/mysqladmin.go:152-171 | They do when every snapshot that carries the counter has it in its first sample |
| `Conservation.LateTallyCounts` | parse/mysqladmin.go:152-171 | A snapshot in which a counter gains nothing but appears in the second sample: its total is the raw tally |
| `Conservation.LateSnapshot` | parse/mysqladmin.go:152-171 | There is such a snapshot |
| `RedoSizing.SplitBlocks` | render/redo_sizing.go:394-418 | The blocks are all maximal runs of values, in order |
| `RedoSizing.SumBlocks` | render/redo_sizing.go:431-457 | Clamped bytes and seconds over the blocks with a delta and a positive span |
| `RedoSizing.RollBlock` | render/redo_sizing.go:518-584 | The peak over one block bounds and attains the rates of the shortest long-enough windows |
| `RedoSizing.ComputeRollingPeak` | render/redo_sizing.go:488-587 | Where time does not go back within a block: the exact maximum over all blocks and end samples of the rate of the shortest window of at least the required span, that span being the target or the longest usable block |
| `RedoSizing.ReadObservedRedoRate` | render/redo_sizing.go:358-467 | For any data: unavailable without fit data or time; otherwise bytes over seconds, the peak and whether anything was written |
| `RedoSizing.TimelessBlockIsIgnored` | render/redo_sizing.go:441-445 | A block in which no time passes adds neither bytes nor seconds |
| `RedoResets.ResetIsNoWrite` | render/redo_sizing.go:594-600 | With the negative delta of a reset put to zero, blocks, average, peak and everything else shown are the same |
| `RedoResets.WritesIffPositive` | render/redo_sizing.go:431-457 | The average is never negative, and the panel says that something was written if and only if it is positive |
| `RedoBounds.WideningDilutesExactly` | render/redo_sizing.go:561-568 | Widening a window lowers its rate or keeps it if and only if the stretch added is no faster; the comment there says always |
| `RedoBounds.PeakCanBeBelowAverage` | render/redo_sizing.go:494-586 | Two bursts at the ends of a block a second longer than the window: the peak is 1, the average 1800/901 |
| `RedoBounds.AverageAtMostTwicePeak` | render/redo_sizing.go:431-586 | On the one-second ladder a block of at least 900 s averages at most 1800/901 of the peak, which the two bursts attain, so less than twice |
| `RedoBounds.LoneShortBlockPeaksAtAverage` | render/redo_sizing.go:358-467 | When one block alone is usable and is shorter than 900 s, the panel's peak is its average and its window the block |
| `MergedCapture.CaptureIsMarked` | model/mysqladmin_merge.go:53-84 | In a capture no counter delta spans a snapshot, and samples within one are a second apart |
| `MergedCapture.CaptureIsInOrder` | model/mysqladmin_merge.go:53-84 | Within every block of a capture time goes forward, even if snapshots overlap |
| `MergedCapture.RateCapture` | render/redo_sizing.go:358-467 | On every capture, overlapping snapshots and resets of the counter included, the peak shown bounds the averages of long blocks by that factor, and the panel's average agrees with the generic rate exactly as far as `RateAgreement.RatesAgreeExactly` says |
| `MergedCapture.BurstsAreACapture` | parse/mysqladmin.go:236-243 | The two bursts are the counter of a snapshot as the parser leaves it |
| `MergedCapture.ParsedAlone` | parse/mysqladmin.go:210-260 | What a file parses to is such a snapshot |
| `MergedCapture.SnapshotsKeepTheirTimes` | model/mysqladmin_merge.go:53-84 | In a capture, sample i of a snapshot is i seconds after the start of that snapshot |
| `RateAgreement.SecondsAndBytes` | findings/inputs.go:115-146 | The panel's seconds fall short of the snapshots' by the time of missing samples; its bytes exceed the counter's total by what the counter fell at resets |
| `RateAgreement.RatesAgreeExactly` | render/redo_sizing.go:379-458 | The panel's average is never below the generic rate, and equals it if and only if the counter was not reset and no sample is missing inside a snapshot or nothing was written |
| `Processlist.AbsorbAssociates` | model/model.go:696-724 | Merging three sightings associates when absent row counts are 0 and present ones not negative |
| `Processlist.RowsAssociateExactly` | model/model.go:713-724 | Exactly when it does for row counts in general |
| `Processlist.UnsoundRowsDoNotAssociate` | model/model.go:713-724 | Three row counts, negative ones among them, for which merging in stages differs from merging in order |
| `Processlist.MergeAllObservedProcesslistQueries` | model/model.go:684-747 | The list of the groups of one merge of all sightings in order: slowest first, then by examined rows, sent rows and fingerprint |
| `Processlist.MergeObservedProcesslistQueries` | model/model.go:673-679 | Its first ten: if a group is left out, ten are shown and none is faster |
| `Processlist.ListIsUnique` | model/model.go:729-746 | There is one such list, whatever the order in which the map is read |
| `Processlist.SnippetComesFromFirst` | model/model.go:690-694 | A group shows the text of its first sighting |
| `Processlist.GroupCountsSightings` | model/model.go:690-696 | A fingerprint has a group if and only if it was sighted, and the group counts all its sightings |
| `Processlist.AgeComesFromSlowest` | model/model.go:703-712 | A group's age and context are those of the first of its slowest sightings |
| `Processlist.GroupSpansSightings` | model/model.go:696-724 | A group's first and last times and its row counts bound those of all its sightings and are each attained by one |
| `ProcesslistStaging.FlushRow` | parse/processlist.go:174-199 | Merging two lists of one into the table is adding the sighting |
| `ProcesslistStaging.EligibleExactly` | model/model.go:643-650 | Which rows count: a command that is not Sleep or Daemon in any case of letters, and a text that is not NULL |
| `ProcesslistStaging.SightingFields` | model/model.go:652-667 | Every field of a sighting: milliseconds before a thousand times the seconds, examined and sent rows, both times, labels |
| `ProcesslistStaging.CollectQueries` | parse/processlist.go:174-199 | The queries of a file: the sorted groups of its eligible rows; nothing without samples |
| `ProcesslistStaging.ConcatQueries` | render/concat.go:402-409 | The query lists of the snapshots with samples, merged and capped; nothing if there are none |
| `ProcesslistStaging.TableConcat` | model/model.go:684-727 | Merging two lists of sound sightings is merging their tables |
| `ProcesslistStaging.StagedEqualsOneMerge` | render/concat.go:402-409 | Row by row, per file, across snapshots, then capped: the first ten groups of one merge of all sightings, the slowest ones, and the number of all samples |
| `Semaphores.Scan` | parse/innodbstatus.go:84-139 | The counts are those of the multiset pairing each waiting thread with the mutex on its next non-blank line, all positive |
| `Semaphores.SitesExactly` | parse/innodbstatus.go:84-139 | A site is in the breakdown if and only if a thread line of the section waits there, with the mutex that the next non-blank line names |
| `Semaphores.ListIsUnique` | model/model.go:465-478 | The sorted list does not depend on the order in which the map is read |
| `Semaphores.OneSitePerThread` | parse/innodbstatus.go:213-216 | There are as many sites, with multiplicity, as waiting threads |
| `Semaphores.ParseInnodbStatus` | parse/innodbstatus.go:56-247 | Thread count and breakdown for every sequence of lines, most waits first; the mismatch diagnostic is unreachable |
| `Netstat.ParseNetstat` | parse/netstat.go:37-317 | The one-pass parser returns the samples of a two-pass reading that first looks for UDP and TCP evidence in the whole file; ambiguity is reported exactly when ESTAB rows come without evidence |
| `Netstat.DeferringIsExact` | parse/netstat.go:105-126 | Deferring ESTAB rows changes nothing in a poll's sample, which depends on that poll alone |
| `Netstat.ShapesAgree` | parse/netstat.go:178-233 | A state-first row and the same row with its protocol in front count under the same state and raise the same queue flags |
| `Netstat.CanonIsStable` | parse/netstat.go:342-389 | Canonical TCP states are their own canonical form, so both notations are counted together |
| `NetstatRows.NormalizesExactly` | parse/netstat.go:342-389 | A token is a state if and only if it is one of the eleven names or the spelling that ss gives it, and then stands for that name; ESTAB is ESTABLISHED, UNCONN is UDP |
| `NetstatRows.NetstatTcp` | parse/netstat.go:171-184 | Columns of netstat: protocol, queues, addresses, state; or no state |
| `NetstatRows.SsTcp` | parse/netstat.go:171-184 | Columns of ss with the protocol: state, then queues |
| `NetstatRows.Udp` | parse/netstat.go:187-194 | UDP rows in both notations |
| `NetstatRows.StateComesFirst` | parse/netstat.go:195-233 | Columns of ss without protocol: state, then queues; an established socket is deferred |
| `NetstatRows.SampleCountsStates` | parse/netstat.go:250-312 | In a sample each state has the number of its rows; established sockets without protocol count as UDP if and only if the file has an unconnected UDP socket and no other TCP state in front |
| `NetstatRows.PollsAreDelimited` | parse/netstat.go:126-160 | A time line begins a poll, with its time or the start, and the rows up to the next are its rows |
| `Netstat.SamplesCountRows` | parse/netstat.go:250-312 | Every sample counts exactly the accepted rows of one poll |
| `Netstat.ReadFields` | parse/netstat.go:163-257 | One row by its shape; the missing-queue diagnostic is unreachable |
| `TopClock.UnwrappingIsExact` | parse/top.go:62-86 | All header times are recovered if and only if the first is within half a day of the start (at exactly half a day, on its date) and no gap is negative or reaches a day |
| `TopClock.NeverBackwards` | parse/top.go:66-86 | A time precedes the one before if and only if the clock drops by more than a day |
| `TopClock.SamplesAscend` | parse/top.go:62-125 | With valid clocks the samples come out in the order of time |
| `TopClock.ReadSamples` | parse/top.go:50-127 | Which rows become samples, and that each has the time of its header |
| `TopClock.SamplesExactly` | parse/top.go:88-125 | There is a sample if and only if there is such a row: its fields and the time of its header |
| `WindowedStats.LowerBound` | render/assets/app-js/05.js:83-91 | The samples before the index are those before the value |
| `WindowedStats.UpperBound` | render/assets/app-js/05.js:94-102 | The samples before the index are those not after the value |
| `WindowedStats.FilterIsScan` | render/assets/app-js/05.js:58-79 | Filtering all samples is scanning an index range |
| `WindowedStats.ComputeWindowedStats` | render/assets/app-js/05.js:47-80 | On a sorted axis, every series gets least, greatest, mean and count of its values between the ends of the window, both included and in either order, an open end being that of the axis |
| `WindowedStats.NoWindowIsEverything` | render/assets/app-js/05.js:54-55 | Without a window every sample is inside |
| `WindowedStats.WindowIsBetween` | render/assets/app-js/05.js:54-56 | A window with both ends shows the times between them, in whichever order they are given |
| `WindowedStats.InsideExactly` | render/assets/app-js/05.js:63-72 | Inside are the values present whose time is neither before the lower end nor after the upper |
| `WindowedStats.OpenStartExactly` | render/assets/app-js/05.js:54-56 | A window without start shows exactly the samples up to its end if and only if the end is not before the first sample |
| `WindowedStats.OpenEndExactly` | render/assets/app-js/05.js:54-56 | A window without end shows exactly the samples from its start if and only if the start is not after the last sample |
| `HumanInt.HumanInt` | reportutil/reportutil.go:42-74 | For every 64-bit integer, the least included: the text reads back as the number, digits are in groups of three from the right, no superfluous zero |
| `HumanInt.StripCommas` | reportutil/reportutil.go:55-70 | Removing the commas undoes the grouping |
| `HumanInt.CommasGroup` | reportutil/reportutil.go:55-70 | Counted from the right every fourth character is a comma, the others are digits, the first is a digit |
| `HumanInt.GroupsAreThousands` | reportutil/reportutil.go:55-70 | A group of three digits is less than a thousand, and makes what is before it a thousand times as much |
| `HumanInt.DecimalReads` | reportutil/reportutil.go:44-49 | The decimal of a number reads back as the number, without leading zero |

## Left out

- File, archive and network I/O, HTTP, JWT, GraphQL, JSON, hashing and regular expressions: lines come tokenised, keys, digests and outcomes are inputs.
- The size, JSON and payload gates before the reservation, malformed stored records, the label cache, logging, reply bodies and retry delays: they change no state that the properties are about.
- Token, labels and issue creation are one step with a definite outcome; label paging, which may outlast the reservation, appears only as time passing.
- The key-value stores are consistent; eventual consistency across isolates is disclaimed by the code. Rate-limit keys do not expire and suffixes are distinct, within one hour of one isolate.
- FeedbackWorker.Worker.CleanupCreatedAttachments: deletions run one after another, in the source they run at once; which of them succeed is arbitrary in both.
- FeedbackWorker.Worker.HandleFeedback: calls of the object do not overlap; overlapping requests are covered by the protocol.
- RateLimiter.Limiter.CheckRateLimit: a random suffix is taken to be one not in use; what other requests do at an await is known only by the contract of `Await`.
- FeedbackSpacing.SameKeyIssuesAreSpaced: atomic reservations, the 60 s bound and stored responses are hypotheses, because the code does not enforce them; a run shows for each that it is needed.
- FeedbackAttachments.ReferencedStays: assumes requests that do not overlap, for the reason shown by FeedbackRollback.OverlapLosesAttachment.
- Floating-point rounding, and overflow of 64-bit counters and deltas; only `HumanInt` works on exact machine integers.
- MysqladminMerge.MergeMysqladminData: the filter writes into the backing array of its argument, which the model does not show.
- MysqladminStaging.OneParserEqualsMerge: says nothing of the timestamps, since the parser has a single ladder for all files.
- The table that classifies counters and gauges, the printing of pt-mext, and diagnostics unless named above.
- RedoSizing.ComputeRollingPeak: says nothing of the peak's value when time goes back within a block, which no capture has.
- Configured redo space, the panel's text and the advisor's rules and thresholds.
- The rest of the process list: rows come assembled from their lines, and the count maps per sample, the label lists and the boundaries are not modelled; case folding is that of ASCII, and white space is taken as trimmed.
- Semaphores.ParseInnodbStatus: the scalars of the other sections are not modelled.
- Netstat.ParseNetstat: the counts of a poll are a multiset rather than a map, and the note about a missing time line is not modelled.
- The rest of `top`: sorting, the top-3 ranking and the series per process are not modelled; a table heading has the usual twelve columns.
- WindowedStats.ComputeWindowedStats: asks for a sorted axis, on which the binary searches rely; strings as sample values and arrays of more than 2^31 samples are not modelled.
- Templates, charts, the zoom store, the dialog, run collapsing and version lookup.
