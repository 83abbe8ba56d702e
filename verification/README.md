# Verified model of rusty_time

rusty_time is a time daemon: an NTP client that disciplines the clock, an NTP server, and
Network Time Security on both sides. This project models its decision-making parts in Dafny
and proves what they keep over every input and every run. `dafny verify dfyconfig.toml`
checks all of it.

## What is modelled

- **The server's client table** (`ClientTypes`, `ClientIndex`, `RecencyList`, `TableState`,
  `ClientTable`, `ClientPolicy`, `TokenBucket`, `ClientRuns`, `ClientLimits`,
  `ClientAnswers`, `ClientHistory`, `StaleHandles`). The index is an array of buckets that
  store no key, with linear probing and backward-shift deletion; the recency list is threaded
  through the slots. Both are classes that change in place, and each public method is proved
  against a specification on values (`ClientPolicy`): a map, a recency sequence, two token
  buckets and counters. The claims about whole runs are lemmas about that specification.
- **The clock loop** (`LineFit`, `Residuals`, `Regression*`, `SampleRegister`,
  `DisciplinePolicy`, `Discipline`, `DisciplineRuns`, `DisciplineMeaning`, `Ledger`,
  `Controller`, `ControllerRuns`). The register with its cached minimum and weights, the
  multi-pass weighted regression, the discipline's state machine, and the controller that
  re-expresses stored samples when the clock is moved. `Ledger` says what the stored samples
  owe to the corrections the clock received; the `...Meaning` modules say what plans and
  estimates are for, without the parts they are computed from.
- **Falseticker selection** (`StableSort`, `Selection`, `SelectionOrder`, `SourceSelect`,
  `SelectionMeaning`), the sweep of section 11.2.1 of RFC 5905, with the quorum of the daemon.
- **The protected exchange** (`ExtensionFields`, `Aead`, `Cookies`, `NtpPacket`,
  `NtsExchange`, `NtsMeaning`, `NtsRoundTrip`, `NtsSession`, `ServerReply`,
  `NtsService`, `NtsRuns`), sections 5.3 to 5.7 and 6 of RFC 8915 over the field layout of
  RFC 7822.
- **Codecs and arithmetic** (`KeyRecords`, `Store`, `StoreLog`, `CivilDates`, `TickSplit`).

`f64` is `real`. Square roots are avoided by keeping variances, except for the standard
deviation handed to the discipline, for which the root is any function. The hash is any
function of the key, and the bucket count is a power of two, so masking is a remainder.
Generations are kept modulo 2^32, as the code keeps them. The cipher is any pair of
functions where opening undoes sealing and sealing adds sixteen octets, and the encoding of
text any pair that undo each other and write plain characters as one octet; lemmas show that
these laws can be met. The random octets, the clock readings and the file's contents are
arguments. `history`, `clock`, `entries`, `tickets`, `tenancy` and the like are ghost state:
they record what happened and decide nothing.

Some definitions are wrapped in a recursion of fixed depth (`...Through`, `Sealed`,
`Tracked`) with a lemma that opens it. The wrapper changes no value; it keeps the solver
from unfolding a large body wherever the name occurs.

## Findings

Properties that turned out not to hold without a condition, each with an input that shows
it and the condition under which it holds:

- A handle outlives its occupancy: after 2^32 changes of tenant it resolves again
  (`StaleHandles.StaleHandleComesBack`; exactly the multiples of 2^32 by
  `TableState.ResolvesWhileCurrent`).
- Touching intervals are decided by the order the sources come in
  (`Selection.TouchingDependsOnOrder`; exact condition `SelectionOrder.OrderMatters`).
- For a nominal tick of 10 to 999 microseconds the tick and the residual do not add up to
  what was asked (`TickSplit.CoarseTickFallsShort`, `TickSplit.DeliversExactly`).
- Samples too close in time for a slope do not follow a change of rate
  (`RegressionExact.CrowdedSamples`; exact condition for a fit `LineFit.FitOfSlewed`).
- A step in the very middle of an even window is never trimmed as a change of regime, however
  large, because the median magnitude is then that of the larger level
  (`RegressionTrims.MiddleStepNeverShows`; exact condition for a step in the oldest half or
  less `RegressionTrims.StepLosesQuarter`).
- A drain booked between its plan and its end is retired early and delivers less than its
  budget, so with several sources it generally falls short (`Controller.RunDrain`). Steering
  while an unbooked drain runs breaks the stored history (`Controller.MultiController.Steer`).
- A sample is stamped with the midpoint of its exchange and stored after it, and the drain
  that ran in between is never booked on it: with a drain running, its offset is off by what
  that drain delivered (`Ledger.StoredUnbooked`; exact condition for a call
  `Controller.MultiController.Observe`, for a run `ControllerRuns.RunClock`).
- A request with short placeholders gets a reply longer than itself
  (`NtsRoundTrip.ShortPlaceholdersOutgrow`; exact condition `NtsService.RepliesAreBounded`).
- The session's store settles at nine cookies, not at its target of eight
  (`NtsSession.RefillLevel`).
- A session does not remember that it accepted a reply: handed a copy of it, it banks the
  same cookies again and sends each twice (`NtsRuns.ReplyCopied`). The daemon checks no reply
  a second time; then no cookie is sent twice (`NtsRuns.Exchanges`; exact condition for one
  exchange `NtsRuns.Loopback`).
- An empty cookie in a stored batch hides those behind it (`Store.BatchComesBack`).
- A plaintext of 2^31 - 28 octets or more, once sealed, loses the file it is written to
  (`Store.LoadsShortPlaintext`; exact condition for all of a store `StoreLog.RebuildsMap`).
- A record's type is cut to fifteen bits and its body to 65535 octets
  (`KeyRecords.CarriedExactly`).

## Model

| member | source | states |
|---|---|---|
| ClientIndex.Index.constructor | crates/rusty_time-core/src/server.rs:355-380 | An empty index over a power-of-two number of buckets, at least four times the capacity, so that masking is taking the remainder. |
| ClientIndex.NextPowerOfTwo | crates/rusty_time-core/src/server.rs:355-360 | The power of two that is at least the number asked for and less than twice it. |
| ClientIndex.NextIsMasked | crates/rusty_time-core/src/server.rs:396-412 | The masked increment of a probe is one cyclic step. |
| ClientIndex.DistIsMasked | crates/rusty_time-core/src/server.rs:435-467 | The masked wrapping subtraction of a removal is the cyclic distance. |
| ClientIndex.FreeBucketExists | crates/rusty_time-core/src/server.rs:396-412 | With fewer keys than buckets some bucket is free, which is what ends every probe. |
| ClientIndex.ScanEndsAbsent | crates/rusty_time-core/src/server.rs:396-412 | A scan from a key's ideal bucket that ends on a free bucket proves the key absent, because no live entry has a gap on its path: no tombstone is needed. |
| ClientIndex.Index.Probe | crates/rusty_time-core/src/server.rs:396-412 | Returns exactly the bucket that holds the key, and nothing exactly when the key is not in the map; it terminates. |
| ClientIndex.Index.Get | crates/rusty_time-core/src/server.rs:415-419 | Agrees with a plain map from keys to slots. |
| ClientIndex.Index.Insert | crates/rusty_time-core/src/server.rs:421-433 | Is map update: the key leads to the new slot, every other key where it led before; the length grows by one for a new key only; no path gets a gap. |
| ClientIndex.Index.Remove | crates/rusty_time-core/src/server.rs:435-467 | Backward-shift deletion is map removal: one key is gone, every other is still found, and no path has a gap afterwards. |
| RecencyList.UnlinkOmits | crates/rusty_time-core/src/server.rs:584-599 | Rewriting the two neighbours' links takes exactly one member out of the doubly linked list and keeps the order of the rest. |
| RecencyList.LinkPrepends | crates/rusty_time-core/src/server.rs:602-615 | Hanging a detached slot in front makes it the first member and keeps the others in order. |
| ClientTable.ClientTable.Unlink | crates/rusty_time-core/src/server.rs:584-599 | The slots spell out the old list without that member; keys, records and generations are as they were. |
| ClientTable.ClientTable.LinkFront | crates/rusty_time-core/src/server.rs:602-615 | The slots spell out the old list with the new member in front; keys, records and generations are as they were. |
| ClientTable.ClientTable.Touch | crates/rusty_time-core/src/server.rs:625-631 | The slots spell out the old list with that member moved to the front. |
| ClientTable.ClientTable.EvictOne | crates/rusty_time-core/src/server.rs:687-699 | Drops the tail: its key leaves the index, its slot is set aside, one eviction is counted; an empty table stays as it is. |
| ClientTable.ClientTable.AllocSlot | crates/rusty_time-core/src/server.rs:702-728 | Reuses the slot set aside with the next generation, or opens one more; the newcomer is first in the list. |
| ClientTable.ClientTable.constructor | crates/rusty_time-core/src/server.rs:566-581 | A representation of the empty table, of at least one client. |
| ClientTable.ClientTable.AdmitHandle | crates/rusty_time-core/src/server.rs:752-834 | Refines the specification of one admission on a map, a recency sequence, two token buckets and counters; the handle returned leads to the client admitted; of the handles issued before exactly those stay current whose key stays tabled; only a newcomer to a full table gives a slot another tenant. |
| ClientTable.ClientTable.Resolve | crates/rusty_time-core/src/server.rs:731-735 | A handle yields its slot exactly while the slot carries its generation. |
| ClientTable.ClientTable.ResponseModeAt | crates/rusty_time-core/src/server.rs:853-887 | Refines the choice of basic or interleaved for the client the handle leads to, and changes no other client's record. |
| ClientTable.ClientTable.NoteResponseAt | crates/rusty_time-core/src/server.rs:898-909 | Changes the record of the client the handle leads to and no other; a stale handle changes nothing. |
| ClientTable.ClientTable.NoteTransmitAt | crates/rusty_time-core/src/server.rs:927-931 | The same for the transmit time. |
| ClientTable.ClientTable.NoteRefused | crates/rusty_time-core/src/server.rs:933-935 | Counts a refusal and touches no client. |
| ClientTable.ClientTable.Get | crates/rusty_time-core/src/server.rs:659-662 | Agrees with the map of records. |
| ClientTable.ClientTable.Len | crates/rusty_time-core/src/server.rs:651-653 | The number of clients, never more than the capacity. |
| ClientTable.ClientTable.MostRecent | crates/rusty_time-core/src/server.rs:675-684 | The first so many keys of the recency sequence, each with its record. |
| ClientPolicy.AdmitEvicts | crates/rusty_time-core/src/server.rs:783-797 | An admission evicts exactly when it lets a new key into a full table. |
| ClientRuns.RunKeepsShape | crates/rusty_time-core/src/server.rs:752-834 | In every run the table stays a map of distinct keys in recency order and never exceeds its capacity. |
| ClientRuns.MostRecentFirstMeaning | crates/rusty_time-core/src/server.rs:675-684 | The reference order: each admitted key once, by descending last admission. |
| ClientRuns.RunIsLeastRecentlyUsed | crates/rusty_time-core/src/server.rs:783-797 | After any run from the empty table its keys are exactly the first `capacity` of that order: a full table has always evicted the least recently admitted key. |
| ClientHistory.RunKeepsSeen | crates/rusty_time-core/src/server.rs:675-684 | In a run at non-decreasing times the recency order is the order of descending `last_seen`, so the most recent clients are those. |
| ClientHistory.InterleavedAnswersAreOwn | crates/rusty_time-core/src/server.rs:853-887 | After any run an interleaved answer is given if and only if the client echoes the non-zero receive time last reported to it and has a transmit time; and the time it carries was noted during that client's current occupancy. |
| ClientLimits.RunKeepsAccounts | crates/rusty_time-core/src/server.rs:752-834 | In every run the drops not yet leaked, of all records and the global ceiling, are covered by the drops counted. |
| ClientLimits.RunCounters | crates/rusty_time-core/src/server.rs:752-834 | In every run requests equal responses plus drops, and kisses times the leak period are at most the drops. |
| ClientLimits.GlobalCeiling | crates/rusty_time-core/src/server.rs:759-777 | Over any stretch of a run at non-decreasing times the answers to all clients are at most the global burst plus the global rate times the time elapsed. |
| ClientLimits.ClientCeiling | crates/rusty_time-core/src/server.rs:752-834 | While a client stays tabled, the answers it gets over any stretch are at most its burst plus one per two to the interval seconds. |
| ClientAnswers.AnsweredExactly | crates/rusty_time-core/src/server.rs:752-834 | In every run a request is answered if and only if one more answer keeps every window of time within its burst and earnings, for all clients together where there is a ceiling and for this client since it last entered; of what is dropped one in each period draws a kiss. |
| ClientAnswers.SteadyIsAnswered | crates/rusty_time-core/src/server.rs:803-834 | Without a ceiling a client that asks no more often than once in two to the interval seconds is answered every time, whoever else asks and however often it is put out of the table. |
| ClientAnswers.CountersTold | crates/rusty_time-core/src/server.rs:752-834 | In every run the counters count what they are named for, and each record what its client was answered and refused since it entered. |
| ClientAnswers.InterleavedExactly | crates/rusty_time-core/src/server.rs:853-931 | In every run an answer is interleaved if and only if the client echoes the receive time last reported to it since it entered and a transmit time was noted since; it carries the last one noted. |
| TokenBucket.TokenMeans | crates/rusty_time-core/src/server.rs:803-834 | A bucket that was refilled and spent from holds a token if and only if one more answer keeps every window since it was filled within the burst and the earnings of that window. |
| TableState.ResolvesWhileCurrent | crates/rusty_time-core/src/server.rs:731-742 | An issued handle resolves if and only if its slot has changed tenants a multiple of 2^32 times since; short of that, if and only if its own occupancy lasts, and then it leads to its own key. |
| TableState.OwnerIsTabled | crates/rusty_time-core/src/server.rs:731-735 | Whatever a handle leads to is the record of a tabled key. |
| TableState.InvalidNeverResolves | crates/rusty_time-core/src/server.rs:513-520 | The handle of a shed request never resolves. |
| StaleHandles.StaleHandleComesBack | crates/rusty_time-core/src/server.rs:702-735 | A run of 2^32 admissions after which a stale handle resolves again, to another client's record. |
| LineFit.WlsFit | crates/rusty_time-core/src/filter.rs:1174-1203 | The two accumulator passes compute the weighted fit the lemmas below are about. |
| LineFit.FitIsLeast | crates/rusty_time-core/src/filter.rs:1174-1203 | Where the times spread enough for a slope, every other line has a strictly greater weighted squared loss. |
| LineFit.FlatFitIsLeast | crates/rusty_time-core/src/filter.rs:1174-1203 | Otherwise the slope is zero and every other horizontal line has a strictly greater loss. |
| LineFit.ReseatedIsLeast | crates/rusty_time-core/src/filter.rs:879-918 | The offset re-seated on sharper weights is the only minimiser among lines of the fixed slope. |
| LineFit.FitOfSlewed | crates/rusty_time-core/src/filter.rs:502-527 | Fitting commutes with a correction of the stored samples if and only if no rate changes or the times spread enough for a slope. |
| Residuals.ResidualsWellMixed | crates/rusty_time-core/src/filter.rs:1132-1148 | The early exit decides exactly whether there are as many runs of like-signed residuals as asked for. |
| Residuals.HalfGapAndMad | crates/rusty_time-core/src/filter.rs:965-1027 | Computes the gap between the means of the two halves and the median magnitude. |
| Residuals.CountingFindsMedian | crates/rusty_time-core/src/filter.rs:1049-1083 | The scaled median is below a bound exactly when more than half of the scaled values are. |
| Residuals.SpikeThresholdFrom | crates/rusty_time-core/src/filter.rs:1049-1083 | Deciding by counting returns the threshold of the definition, and only where the worst droppable residual exceeds it. |
| Residuals.SpikeKeepMask | crates/rusty_time-core/src/filter.rs:1098-1116 | For at most 64 rows bit `i` of the word is set exactly when the direct filter keeps row `i`. |
| Residuals.KeepRows | crates/rusty_time-core/src/filter.rs:776-803 | Filtering by the word and by the residuals keep the same rows. |
| RegressionPasses.AdaptWindow | crates/rusty_time-core/src/filter.rs:670-725 | The loop over tails picks the window of the definition, seeded with all of it. |
| RegressionPasses.TrimHistory | crates/rusty_time-core/src/filter.rs:743-765 | The cursor loop drops the quarters the definition drops. |
| RegressionPasses.TrimSpikes | crates/rusty_time-core/src/filter.rs:771-816 | Drops the interior spikes and refits, where enough rows remain. |
| RegressionPasses.SharpOffset | crates/rusty_time-core/src/filter.rs:851-921 | Re-seats the offset where the two floors differ. |
| RegressionPasses.RegressRows | crates/rusty_time-core/src/filter.rs:664-940 | All passes in order compute the estimate the lemmas below are about. |
| RegressionRows.UsedRows | crates/rusty_time-core/src/filter.rs:664-816 | Whatever the window choice and both trims do, the rows used are a subsequence of the window in order, at least three, ending in its three newest. |
| RegressionSlew.RegressionCommutes | crates/rusty_time-core/src/filter.rs:550-940 | Regressing corrected rows gives the estimate corrected, with the same rows used and the same dispersion, through every pass. |
| RegressionExact.LineFitAt | crates/rusty_time-core/src/filter.rs:1174-1203 | The fit through samples on one line predicts that line if and only if there is no slope, the times spread enough, or it is asked at the mean time. |
| RegressionExact.LineIsExact | crates/rusty_time-core/src/filter.rs:550-940 | Samples on one line pass all passes untrimmed and give its value at `now`, its slope and no dispersion. |
| RegressionExact.CrowdedSamples | crates/rusty_time-core/src/filter.rs:1174-1203 | Three samples taken at one time: the estimate follows a correction if and only if no rate changes or it is asked at that time. |
| Regression.SpacedIsSpread | crates/rusty_time-core/src/filter.rs:1174-1203 | Two samples a millisecond and a half apart already spread enough for a slope, whatever their weights. |
| Regression.WeightMeaning | crates/rusty_time-core/src/filter.rs:463-477 | The least delayed sample weighs one, the more delayed less, none less than a millionth. |
| RegressionMeaning.EstimateMeans | crates/rusty_time-core/src/filter.rs:550-940 | Every estimate: the rows it rests on, in order and with the three newest; their weighted loss about the least squares line with two degrees of freedom gone is its variance, nothing if and only if they all lie on it; the frequency is the slope where four rows span eight seconds; the offset is that of the line of this slope that fits best on the weights of the offset, where these differ. |
| RegressionMeaning.VarianceMeans | crates/rusty_time-core/src/filter.rs:1205-1239 | The variance is the mean weighted square of the residuals with two degrees of freedom gone, and nothing if and only if every row is on the line. |
| RegressionMeaning.CollinearMeans | crates/rusty_time-core/src/filter.rs:1205-1239 | Where the times spread enough for a slope, there is no dispersion if and only if the rows lie on some line. |
| RegressionMeaning.OffsetMeans | crates/rusty_time-core/src/filter.rs:851-921 | Where the two floors differ the offset is the only minimiser among lines of the fitted slope on the sharper weights; otherwise it is the fit's. |
| RegressionMeaning.WindowIsBest | crates/rusty_time-core/src/filter.rs:670-725 | The window chosen predicts the offset no worse than any tried, and is shorter than the whole only where it predicts it better. |
| RegressionTrims.MixedLosesNothing | crates/rusty_time-core/src/filter.rs:743-765 | Residuals that change sign often enough, as alternating ones do, cost no history, however large they are. |
| RegressionTrims.StepLosesQuarter | crates/rusty_time-core/src/filter.rs:743-765 | Residuals at one level in the oldest half or less and at another behind it lose the oldest quarter if and only if the step shows against the median magnitude. |
| RegressionTrims.MiddleStepNeverShows | crates/rusty_time-core/src/filter.rs:743-765 | A step in the very middle of an even window never does, however large. |
| RegressionTrims.EarlierStepShows | crates/rusty_time-core/src/filter.rs:743-765 | An earlier one with nothing behind it does so if and only if it exceeds three nanoseconds, spread over its half. |
| RegressionTrims.SpikeIsDropped | crates/rusty_time-core/src/filter.rs:771-816 | A single larger residual before the newest three is dropped, and nothing with it, if and only if it exceeds 4.4478 times the others and a nanosecond. |
| SampleRegister.SampleRegister.Push | crates/rusty_time-core/src/filter.rs:421-451 | The window is the newest `capacity` samples, the storage at most twice that, the cached minimum that of the window. |
| SampleRegister.SampleRegister.SyncWeights | crates/rusty_time-core/src/filter.rs:463-477 | Every cached weight equals the formula afterwards if and only if the key had moved or all but the newest were right before. |
| SampleRegister.SampleRegister.Clear | crates/rusty_time-core/src/filter.rs:480-486 | Empties the window and the cache. |
| SampleRegister.SampleRegister.SlewSamples | crates/rusty_time-core/src/filter.rs:502-527 | Corrects every sample of the window and leaves the cache right. |
| SampleRegister.SampleRegister.Best | crates/rusty_time-core/src/filter.rs:539-546 | The first of the least delayed among the newest eight. |
| SampleRegister.SampleRegister.Regress | crates/rusty_time-core/src/filter.rs:550-940 | The estimate on the cached weights; where at most one push came since the last, it is the estimate of the window with every weight computed from scratch. |
| SampleRegister.MinDelayMeaning | crates/rusty_time-core/src/filter.rs:421-451 | The minimum is attained and below every delay. |
| SampleRegister.RowsWeigh | crates/rusty_time-core/src/filter.rs:463-477 | The rows regressed carry the window's samples, each weighed by its delay against the least delay of the window. |
| SampleRegister.EstimateCommutes | crates/rusty_time-core/src/filter.rs:502-527 | Correcting the register and then estimating is estimating and then correcting: the offset falls by what the clock gained by then, the frequency by the change. |
| SampleRegister.SampleRegister.SetWeightFloorRatio | crates/rusty_time-core/src/filter.rs:231-233 | The floor ratio of the slope, never below a ten-thousandth; the cache stays right. |
| SampleRegister.SampleRegister.SetOffsetWeightFloorRatio | crates/rusty_time-core/src/filter.rs:249-251 | The same for the offset. |
| Ledger.RunOnKeepsBooks | crates/rusty_time-core/src/client.rs:317-333 | Booking exactly the drain that ran keeps every stored offset equal to its raw value less the correction received since, plus frequency times age; booking anything else breaks it. |
| Ledger.StoredUnbooked | crates/rusty_time-core/src/client.rs:338-342 | A sample stored as taken agrees with the correction received by the time on its stamp if and only if no drain ran from then until it was stored. |
| Ledger.CommandKeepsBooks | crates/rusty_time-core/src/client.rs:395-462 | Tilting and shifting a history by a command keeps its books, and conversely. |
| Ledger.BooksAfterCommand | crates/rusty_time-core/src/client.rs:395-462 | A command keeps the books if and only if no unbooked drain ran into it or there is nothing stored. |
| Ledger.UndoCommand | crates/rusty_time-core/src/client.rs:179-193 | Correcting by a command and then by its opposite at the same time puts every sample back. |
| Controller.MultiController.constructor | crates/rusty_time-core/src/client.rs:138-161 | At least one empty register, each tuned field by field as configured. |
| Controller.MultiController.SettleDrain | crates/rusty_time-core/src/client.rs:317-333 | Books on every register exactly the drain that ran since it was last booked; the budget shrinks by as much, down to nothing. |
| Controller.MultiController.View | crates/rusty_time-core/src/client.rs:353-382 | Reports the regression of the window with every weight exact, or repeats its best sample below three. |
| Controller.MultiController.Observe | crates/rusty_time-core/src/client.rs:338-342 | Settles the drain, stores the sample as taken, and reports the window's view; the books of all registers stay right if and only if no drain is running or the sample is stamped with the time of the observation. |
| Controller.MultiController.Steer | crates/rusty_time-core/src/client.rs:395-462 | Takes over the discipline's plan: command fields, every register, undo record. The books stay right if and only if the running drain was booked up to now or nothing is stored. |
| Controller.MultiController.PollDrain | crates/rusty_time-core/src/client.rs:263-301 | Retires the drain exactly when that time has come, booking what the clock received; otherwise nothing changes. |
| Controller.RunDrain | crates/rusty_time-core/src/client.rs:249-333 | A drain planned, booked at any number of later times and retired when due delivers the offset planned, on its side of zero, if and only if none of the bookings came later than the plan, and a smaller part of it otherwise; one spent before its last booking is never retired. |
| Controller.MultiController.RevertLastPlan | crates/rusty_time-core/src/client.rs:179-193 | Puts back the command fields and slews every register by the opposite; directly after its plan every history and the books are as before. |
| Controller.SteerRefused | crates/rusty_time-daemon/src/sync.rs:600-626 | Steering and taking back at once leaves registers, command fields and books exactly as they were. |
| Controller.MultiController.ConfirmLastPlan | crates/rusty_time-core/src/client.rs:196-198 | The plan can no longer be taken back; the books are untouched. |
| Controller.MultiController.PreloadFrequency | crates/rusty_time-core/src/client.rs:238-240 | Seeds the commanded frequency; with nothing stored the books stay right. |
| Controller.MultiController.OnSample | crates/rusty_time-core/src/client.rs:485-499 | Observes and steers at once, by the decision of the discipline on the view; the books stay right if and only if no drain was running or the sample is stamped now. |
| ControllerRuns.RunClock | crates/rusty_time-daemon/src/sync.rs:425-626 | Over any run of polls, measurements, plans taken and plans refused, on any number of sources: the books of every register are right at the end if and only if they were at the start and no sample was stored while a drain ran on past its stamp. |
| ControllerRuns.SteerAndSettle | crates/rusty_time-core/src/client.rs:263-462 | After a plan was taken the clock gains what the fields of its command say and no more: a step at once, a drain by its share of the time and on the side of its offset; it runs at the frequency of the plan; every stored sample moves by as much; and of an accepted offset nothing is left after the step, or when the drain has run for as long as its offset takes. |
| Discipline.Discipline.TakePollInterval | crates/rusty_time-core/src/discipline.rs:866-883 | Consumes one burst slot where there is one. |
| Discipline.Discipline.OnEstimateWithLeap | crates/rusty_time-core/src/discipline.rs:563-847 | Refines one decision of the specification: state and plan, through step, refusal, adaptation and drain. |
| DisciplinePolicy.AcquireShare | crates/rusty_time-core/src/discipline.rs:533-540 | A positive share of the budget, at most all of it. |
| DisciplineRuns.RunKeepsBounds | crates/rusty_time-core/src/discipline.rs:563-847 | In every run poll, frequency, drain rate and burst budget stay in their configured bounds. |
| DisciplineRuns.OffBeatIsBounded | crates/rusty_time-core/src/discipline.rs:749-755 | Whatever the configuration, at most sixteen plans of a run leave the poll interval for a burst. |
| DisciplineRuns.BurstIsBounded | crates/rusty_time-core/src/discipline.rs:749-755 | The plans spaced as a burst are exactly the burst slots used and the plans whose poll is as short; where the shortest poll is longer, there are none of these. |
| DisciplineRuns.GuardHolds | crates/rusty_time-core/src/discipline.rs:601-641 | After the early updates no command of a run moves the clock by more than the limit, or two seconds for an announced leap; a refused plan moves nothing. |
| DisciplineRuns.RefusalsCount | crates/rusty_time-core/src/discipline.rs:617-645 | The counter is the number of plans refused in a row at the end of the run, up to where it saturates. |
| DisciplineRuns.GivesUpExactly | crates/rusty_time-core/src/discipline.rs:617-640 | The last plan gives up if and only if the refusals in a row exceed an allowance that is not negative. |
| DisciplineMeaning.PlanCorrects | crates/rusty_time-core/src/discipline.rs:586-660 | The last plan of any run is refused if and only if its offset is beyond the limit, late, and no announced leap; it steps if and only if the offset is a leap to step or beyond the threshold while steps are allowed; an accepted plan leaves nothing of the offset, a refused one moves nothing. |
| DisciplineMeaning.FrequencyFollows | crates/rusty_time-core/src/discipline.rs:662-674 | A slew runs the clock at the new frequency; an accepted slew takes in a trusted error whole, or up to the bound nearest to it, and nothing else changes the frequency. |
| DisciplineMeaning.PollFollows | crates/rusty_time-core/src/discipline.rs:715-729 | The poll interval doubles if and only if the estimate is followed and, with those before it, makes the quiet streak asked for, and there is room; it halves if and only if the estimate is followed and loud and there is room. |
| DisciplineMeaning.BurstExactly | crates/rusty_time-core/src/discipline.rs:749-755 | With the burst on, the first four plans are two seconds apart and after them up to twelve more whose correction is outstanding; every other plan waits the poll interval. |
| DisciplineMeaning.DrainLasts | crates/rusty_time-core/src/discipline.rs:757-847 | A drain lasts exactly to its deadline, the next measurement early on and the correction time later, unless its rate stands at the ceiling and it takes longer. |
| Selection.CoverIsMet | crates/rusty_time-core/src/select.rs:41-83 | The sweep passes through the coverage of every value where no interval begins as another ends. |
| Selection.PickedInterval | crates/rusty_time-core/src/select.rs:41-83 | The interval picked is not empty, its ends lie in a strict majority; every such value in that many intervals lies inside, and none lies in more. |
| Selection.NothingPicked | crates/rusty_time-core/src/select.rs:41-83 | Where nothing is picked no such value has a majority. |
| Selection.TouchFreePick | crates/rusty_time-core/src/select.rs:41-83 | Without touching intervals the pick is the top coverage with its least and greatest value. |
| Selection.TouchFreeNoPick | crates/rusty_time-core/src/select.rs:41-83 | And something is picked if and only if some value has a majority. |
| Selection.OrderDoesNotMatter | crates/rusty_time-core/src/select.rs:41-83 | Without touching intervals the order of the sources does not matter. |
| Selection.TouchingDependsOnOrder | crates/rusty_time-core/src/select.rs:41-83 | Two touching intervals: picked in one order, not in the other. |
| SelectionOrder.OrderMatters | crates/rusty_time-core/src/select.rs:41-83 | For all sources: their order is irrelevant if and only if no value has a majority or nothing begins as another ends at either end of the top coverage. |
| Selection.MajorityKeepsTruth | crates/rusty_time-core/src/select.rs:41-83 | With a truthful majority both picked ends lie in a truthful interval, within its width of the truth. |
| SelectionMeaning.TruthIsKept | crates/rusty_time-core/src/select.rs:29-83 | Where a strict majority of the sources are within their distance of the truth, both ends of the pick are within twice that distance of one of them. |
| SelectionMeaning.BestInOrder | crates/rusty_time-core/src/select.rs:89-105 | The survivors are the sources whose intervals meet the pick, by lowest stratum and then smallest distance. |
| SelectionMeaning.MeanBalances | crates/rusty_time-core/src/select.rs:107-118 | The combined offset is the one value at which the survivors, weighed by the inverse of their distance, balance. |
| SourceSelect.FindInterval | crates/rusty_time-core/src/select.rs:54-83 | The loop over falsetickers finds the pick, or shows there is none. |
| SourceSelect.BestMeaning | crates/rusty_time-core/src/select.rs:89-105 | The truechimers are exactly the sources whose intervals meet the pick, best first, at least as many as cover it. |
| SourceSelect.MeanBetween | crates/rusty_time-core/src/select.rs:107-118 | The combined offset lies between any bounds on the survivors' offsets. |
| SourceSelect.Select | crates/rusty_time-core/src/select.rs:27-119 | Selects exactly when the sweep meets a majority; then at least that many survive and the offset lies between theirs. |
| SourceSelect.SelectedIndex | crates/rusty_time-daemon/src/sync.rs:773-814 | Only a source with an estimate, of a quorum heard where more than one counts, in the pick and best in it; none exactly when there is no quorum or no pick. |
| SelectionMeaning.QuorumIs | crates/rusty_time-daemon/src/sync.rs:788-795 | The quorum counts the sources with an estimate or not yet given up, and hears those with an estimate. |
| ExtensionFields.WriteField | crates/rusty_time-nts/src/ef.rs:70-76 | Appends the field with its padding. |
| ExtensionFields.WriteFieldParts | crates/rusty_time-nts/src/ef.rs:83-93 | The same octets as for the pieces joined. |
| ExtensionFields.WriteZeroField | crates/rusty_time-nts/src/ef.rs:100-106 | The same octets as for a body of zeros. |
| ExtensionFields.WriteAuthenticator | crates/rusty_time-nts/src/ef.rs:197-218 | The same octets as the field with the authenticator's body. |
| ExtensionFields.ReadsWritten | crates/rusty_time-nts/src/ef.rs:120-140 | A written field reads back as written, padded, and reading goes on behind it. |
| ExtensionFields.FieldsPartition | crates/rusty_time-nts/src/ef.rs:120-140 | The fields and what is left over make up the tail, octet for octet. |
| Cookies.KeyRing.RotateIn | crates/rusty_time-nts/src/cookie.rs:75-80 | Keeps the newest keys up to the retention, the new one current. |
| Cookies.KeyRing.Find | crates/rusty_time-nts/src/cookie.rs:86-88 | The first key of that number. |
| Cookies.RedeemsExactly | crates/rusty_time-nts/src/cookie.rs:175-199 | A cookie redeems to its session keys where its master key is the first of its number; where ciphertexts are bound to the keys in play, in no other ring, which says why. |
| Cookies.RingCanBeBound | crates/rusty_time-nts/src/cookie.rs:51-67 | That law can be met together with opening what was sealed, for every ring. |
| Cookies.RetainedRedeems | crates/rusty_time-nts/src/cookie.rs:175-199 | In a uniquely numbered ring every retained key redeems its cookies. |
| Cookies.CookieOutlivesRotations | crates/rusty_time-nts/src/cookie.rs:75-125 | A cookie survives as many rotations as the ring retains older keys. |
| Cookies.MintFieldsInto | crates/rusty_time-nts/src/cookie.rs:141-172 | Emits exactly the fields of repeated minting and writing. |
| NtsExchange.ProtectRequest | crates/rusty_time-nts/src/ef.rs:148-176 | Builds identifier, cookie, placeholders and an authenticator over all of it. |
| NtsExchange.AskingGathered | crates/rusty_time-daemon/src/server.rs:1028-1046 | What the server gathers is what the client put in, whatever the length of the placeholders. |
| NtsExchange.AnswerNts | crates/rusty_time-daemon/src/server.rs:1089-1175 | Refines the answer to an admitted request: plain, silent, refused or sealed. |
| NtsExchange.VerifyResponse | crates/rusty_time-nts/src/ef.rs:233-309 | Refines the client's check in its order: identifier, authenticator, tag, cookies. |
| NtsMeaning.PeekOctets | crates/rusty_time-nts/src/ef.rs:120-140 | A field is sixteen bits of type, sixteen of its whole length and a body; one below sixteen octets, not of whole words, or longer than what is there, is none. |
| NtsMeaning.AnswerMeans | crates/rusty_time-daemon/src/server.rs:1028-1175 | Every answer, on the octets of the request: plain time without an authenticator, nothing without a cookie and an identifier before it, a refusal where the cookie does not redeem, and a sealed reply if and only if what is laid out in the first authenticator opens, under the key in the cookie, over all the octets before it; nothing otherwise. |
| NtsMeaning.VerifiedMeans | crates/rusty_time-nts/src/ef.rs:233-309 | A reply is accepted if and only if the last identifier before its first authenticator is that of the request in flight and what is laid out there opens over all the octets before it; which failure is told in every other case. |
| NtsMeaning.LateReplyIsRefused | crates/rusty_time-nts/src/ef.rs:233-309 | The authentic reply to another request is refused for its identifier. |
| NtsRoundTrip.RequestLength | crates/rusty_time-nts/src/ef.rs:148-176 | 124 octets and 104 for the cookie and each placeholder. |
| NtsRoundTrip.ExchangeSucceeds | crates/rusty_time-daemon/src/server.rs:1035-1175 | A request with a cookie of a retained key is answered, by no more than was asked; the client accepts and gets min(1 + placeholders, 8) cookies that redeem to the same keys. |
| NtsRoundTrip.AnswerLength | crates/rusty_time-daemon/src/server.rs:1110-1175 | A refusal is never longer than the request; the length of a sealed reply follows from the identifier and the number of placeholders. |
| NtsRoundTrip.ShortPlaceholdersOutgrow | crates/rusty_time-daemon/src/server.rs:1035-1125 | Seven placeholders of sixteen octets: 340 octets asked, 956 answered. |
| NtsService.AdmittedExchange | crates/rusty_time-daemon/src/server.rs:930-1175 | For every admitted client packet so protected the whole responder answers with the right header and all of the above. |
| NtsService.RepliesAreBounded | crates/rusty_time-daemon/src/server.rs:930-1175 | For every packet: refused and dropped ones are not answered, kisses and plain time are 48 octets, and a reply is longer than its request if and only if the request is admitted, its cookie redeems, its authenticator verifies, and it is shorter than its identifier and counted placeholders call for. |
| NtsService.ReplyTells | crates/rusty_time-daemon/src/server.rs:976-1087 | Whatever is replied, octet by octet: version, poll and origin are those of the request; a kiss says RATE or NTSN; a reply that tells the time carries leap, stratum, precision, root delay, root dispersion, reference and the two marked times in their places. |
| NtsService.ReplyIsRemembered | crates/rusty_time-daemon/src/server.rs:976-1000 | The receive time in a reply is the one remembered of its client: echoed, it makes the next answer an interleaved one as soon as a transmit time is noted. |
| NtsRuns.Loopback | crates/rusty_time-daemon/src/nts_session.rs:147-178 | A session, the client table and the responder together, with any rotation of keys in between: the reply verifies if and only if it arrives, the client is admitted and the cookie redeems; then the cookies minted for its first nonces are banked, which redeem; otherwise nothing is; what was ever stored stays free of repeats if and only if the nonces used differ and their cookies are new. |
| NtsRuns.BankedDistinct | crates/rusty_time-daemon/src/nts_session.rs:169-178 | That condition, for any record of a store and any reply. |
| NtsRuns.Exchanges | crates/rusty_time-daemon/src/nts_session.rs:147-178 | Over any number of exchanges, admitted or not, lost or not, through any rotations, no cookie is sent twice, where the server's nonces are new and pairwise different. |
| NtsRuns.ReplyCopied | crates/rusty_time-daemon/src/nts_session.rs:169-178 | One reply checked twice: its eight cookies are banked twice and each is sent twice. |
| NtsSession.NtsSession.Protect | crates/rusty_time-daemon/src/nts_session.rs:147-166 | Spends the oldest cookie and asks for enough to refill; each cookie is sent at most once. |
| NtsSession.NtsSession.Verify | crates/rusty_time-daemon/src/nts_session.rs:169-178 | Banks what there is room for of an accepted reply, nothing of another. |
| NtsSession.NtsSession.ForgetCookies | crates/rusty_time-daemon/src/nts_session.rs:97-99 | Drops the store; what was sent stays sent. |
| NtsSession.NtsSession.SpendAll | crates/rusty_time-daemon/src/nts_session.rs:147-166 | Spending the whole store sends each cookie held, in order, and nothing else. |
| NtsSession.NtsSession.AcceptedTwice | crates/rusty_time-daemon/src/nts_session.rs:169-178 | Any accepted reply checked a second time while there is room is banked a second time, and its cookies are sent twice. |
| NtsSession.RefillLevel | crates/rusty_time-daemon/src/nts_session.rs:147-178 | The level after one exchange, from every level, also of a session resumed with more cookies than there is room for. |
| ServerReply.MarkedMeaning | crates/rusty_time-core/src/server.rs:75-78 | The two marked stamps differ, each moves by at most one unit, and marking again changes nothing. |
| ServerReply.BuildReplyIn | crates/rusty_time-daemon/src/server.rs:930-1176 | Refines the responder on the table: refused packets cost nothing, others are charged before any cipher, and the handle returned leads to the client that asked. |
| NtpPacket.Write | crates/rusty_time-core/src/ntp.rs:277-290 | Fills the 48 octets with the image of the header. |
| NtpPacket.ParseOfWritten | crates/rusty_time-core/src/ntp.rs:243-290 | Parsing what was written gives the packet back if and only if its version is 3 or 4. |
| NtpPacket.WrittenOfParse | crates/rusty_time-core/src/ntp.rs:243-290 | Writing what was parsed gives the 48 octets back. |
| NtpPacket.ExtensionIter.Next | crates/rusty_time-core/src/ntp.rs:331-349 | Yields the next item of the tail and shortens it; an opaque item is the last. |
| NtpPacket.TrailersPartition | crates/rusty_time-core/src/ntp.rs:331-349 | The items make up the tail, octet for octet. |
| KeyRecords.WriteRecord | crates/rusty_time-nts/src/records.rs:95-100 | Appends fifteen bits of type and at most 65535 octets of body. |
| KeyRecords.RecordIter.Next | crates/rusty_time-nts/src/records.rs:62-91 | Yields the next item of the definition; a break or an end of message is the last. |
| KeyRecords.PeekedOctets | crates/rusty_time-nts/src/records.rs:62-91 | The octets of a record: a critical bit and fifteen of type, sixteen of length, and so many of body. |
| KeyRecords.RecordsOfWritten | crates/rusty_time-nts/src/records.rs:62-100 | Whatever is written reads back as carried, up to the first end of message and no further. |
| KeyRecords.CarriedExactly | crates/rusty_time-nts/src/records.rs:95-100 | A record comes back as handed over if and only if its type and body fit. |
| KeyRecords.ReadsWhatIsThere | crates/rusty_time-nts/src/records.rs:62-91 | What is read was there, octet for octet; a tail is left only behind an end of message or a break. |
| Store.UnhexOfHex | crates/rusty_time-daemon/src/store.rs:660-681 | Reading undoes writing of hexadecimal text. |
| Store.UnhexOf | crates/rusty_time-daemon/src/store.rs:669-681 | Refines the definition: nothing for odd length or a character that is no digit. |
| Store.SealedUnseals | crates/rusty_time-daemon/src/store.rs:227-264 | What is sealed under a key of the store opens under it. |
| Store.CookieSlotsDiffer | crates/rusty_time-daemon/src/store.rs:267-269 | No two cookie entries, of one server or two, share a key. |
| Store.Store.PutCookies | crates/rusty_time-daemon/src/store.rs:338-356 | Afterwards the cookies found are the batch cut at 64 and at its first empty one, never an older one; no other server's cookies change; only an older entry that does not open makes it fail. |
| Store.Store.GetCookies | crates/rusty_time-daemon/src/store.rs:358-369 | Finds the cookies of the definition. |
| Store.BatchComesBack | crates/rusty_time-daemon/src/store.rs:338-369 | A batch comes back whole if and only if it has at most 64 cookies and none is empty. |
| StoreLog.ReplayOfLog | crates/rusty_time-daemon/src/store.rs:612-657 | Replaying a log puts its entries one after the other. |
| StoreLog.LongTextLosesTheFile | crates/rusty_time-daemon/src/store.rs:520-536 | A text of digits of 2^32 characters or more, anywhere in a log whose earlier entries fit, makes the file unreadable. |
| Store.LoadsShortPlaintext | crates/rusty_time-daemon/src/store.rs:227-536 | A sealed value is loaded with the entries before and behind it if and only if its plaintext is shorter than 2^31 - 28 octets; a longer one makes the whole file unreadable. |
| Store.Store.Flush | crates/rusty_time-daemon/src/store.rs:500-536 | Writes a log whose entries make up the values. |
| Store.Store.LoadFromDisk | crates/rusty_time-daemon/src/store.rs:612-657 | Replays a file, and fails exactly where the definition does. |
| Store.Restart | crates/rusty_time-daemon/src/store.rs:500-657 | A store flushed and opened again holds what it held if and only if none of its keys and values exceeds its length field. |
| StoreLog.RebuildsMap | crates/rusty_time-daemon/src/store.rs:500-657 | A log of a map's entries rebuilds the map if and only if all of it fits. |
| CivilDates.CountSteps | crates/rusty_time-nts/src/dates.rs:110-118 | Consecutive dates of the proleptic Gregorian calendar differ by exactly one, both ways. |
| CivilDates.CountGrows | crates/rusty_time-nts/src/dates.rs:110-118 | The count grows strictly with the date. |
| CivilDates.CountOfStepped | crates/rusty_time-nts/src/dates.rs:110-118 | The count of the date found by stepping `n` days from the epoch is `n`. |
| CivilDates.CountIsStepping | crates/rusty_time-nts/src/dates.rs:110-118 | And every valid date is found by stepping as many days as it counts. |
| TickSplit.DeliversClamped | crates/rusty_time-clock/src/slew.rs:73-106 | For a tick of at least 1000 microseconds, or one that cannot move, tick and residual deliver the request clamped to the ceiling, each within its limit. |
| TickSplit.CoarseTickFallsShort | crates/rusty_time-clock/src/slew.rs:73-106 | For every tick from 10 to 999 microseconds some request within the ceiling is not delivered. |
| TickSplit.DeliversExactly | crates/rusty_time-clock/src/slew.rs:73-106 | Every request is delivered up to the ceiling if and only if the tick is outside that range. |

## Left out

- SampleRegister.EstimateCommutes: with a change of rate it asks for samples a millisecond and a half apart; closer ones can be corrected exactly too, and the exact condition is given for one fit (`LineFit.FitOfSlewed`) and for three samples at one time (`RegressionExact.CrowdedSamples`), not for the whole chain of passes.
- NtsRuns.Exchanges: key establishment is not part of the run, so a store that has run empty stays empty; and a packet that verifies is the server's reply to the request, as that of an attacker without the keys cannot be.
- Controller.MultiController.RevertLastPlan: puts back the registers and the command fields, not the inner discipline and not the time of the last plan; neither does the code.
- Controller.MultiController.OnSample: the square root of the variance is a parameter.
- IEEE 754 rounding, infinities and NaN, among them the guard's refusal of an offset that is not a number and the comparison of such offsets in selection.
- Wrap-around of the statistics counters and of the update counter.
- The regression's options that are off by default: density weighting, dispersion-scaled floor, age decay; and the discipline's integral gain with its averaged offset.
- The register's reused row buffers and its debug assertions.
- The hold path, which stops the drain without telling the controller, and the rest of the daemon's main loop.
- Failing clock reads, failing random sources and a cipher that fails to seal.
- The quality of the hash mixer and its seed.
- TLS, key export, and the inside of AES-SIV, AES-GCM, Argon2 and SpaceDB, whose entries are a plain map here; sessions and budgets of SpaceDB, merging of replicas, and the write-then-rename of the file.
- The order in which flushing visits the keys of a collection: the model proves its result for every order.
- Master keys, client sessions and drift records of the store, which are single sealed entries.
- Certificate dates: `time`, `element` and `validity`; only the day count is modelled.
- `from_unix`, `seconds_since`, `offset_delay` and `total_ppm`: one expression each.
- The macOS and Windows slew conversions, the virtual clock, reference clocks, sockets, batched system calls, configuration and command line, reports and the firmware.
