# Job decision engine: proofs about its hard parts

This project models six parts of the job decision engine in Dafny and proves what they keep over every input, every
run and every interleaving. `dafny verify dfyconfig.toml` checks all of it.

**Evaluation queue** (`EvaluationQueue`, `QueueInvariants`, `QueueBounds`, `QueueSafety`, `QueueReturns`,
`QueueArrivals`, `QueueRunner`, `QueueCounters`). Many runs select rows of one table, lease them with a fresh lease id for five minutes, renew, and
complete, retry, defer or hand a row to manual review. Each SQL statement or committed transaction is one step; runs,
the clock and crashes interleave freely. `QueueRunner` is one run as the program executes it, over a store updated in
place, with arbitrary behaviour of the others between its statements; it performs exactly the steps of the state
machine. Schedules start from a table without leases; rows that arrive later are covered by `QueueArrivals`.
Two limits of the design are proved exactly: the attempt count may exceed its maximum by the number of overlapping
runs minus one (the lease statement does not check it again), and a row in manual review can still be completed by the
run whose lease was left on it. A third is a defect at one value: `max_attempts = 0` is 3 for the worker (`|| 3`) but 0
for SQL (`COALESCE`). Over a whole table the bound holds in every schedule exactly when no row starts above it and no
row that can be taken has attempts left under a maximum of 0 (or below, which deferrals raise to 0).

**Mail to fetch tasks** (`BoundedRunner`, `MailPipeline`, `MailWorkers`, `ParseEmails`). Ingestion stages a message
before relabelling it; the parser runs batches of alerts through a bounded runner that fails fast, under a time
budget. Each parse of an alert may find other cards than the one before, and other parts of the system change alerts
meanwhile. A concurrency of 0 or less starts no lane, so a batch is then marked attempted and nothing of it is
handled.

**PNG and ICO writer** (`Crc32`, `CrcDivision`, `Bytes`, `PngChunks`, `Raster`, `DesktopIcon`, `Scanlines`). The
table-driven CRC against long division by the generator polynomial (sections 3.4 and 15 of RFC 2083), chunk framing
against a checking reader (section 3.2 of RFC 2083) and against the weights of the bytes written, and the drawing calls
against the regions they paint, found again scanline by scanline. A line thickness of -2/3 or less is cut by the scan
box; every other thickness paints the whole stroke.

**Lane choice** (`LaneChoice`, `LaneGeometry`, `LaneCap`). Cosine similarity over exact reals, tied to distances by the
law of cosines, the best-lane loop with its -1 sentinel, which is sound by the Cauchy-Schwarz inequality, and the cut to
three jobs per lane.

**Review, approve, generate** (`ReviewCorrections`, `ReviewSession`, `ReviewApprovals`, `ReviewScreen`). The session
keys across reruns, with a polled background job. No run starts a job for a review with an open problem. A running job is not dropped when the comparison or the approval under it is replaced,
so documents of another draft or approval can appear; exactly when is proved.

**Tables, locks and trees** (`Deduplicate`, `Reconcile`, `ReconcileRuns`, `WorkerLock`, `WorkerOverlap`,
`ArtifactWalk`). Three deletion passes, state rules fired to a fixpoint, the singleton lock of the task worker, and a
directory walk with an explicit stack. The clean-up's comments say it keeps the oldest row of a group; it keeps the
smallest id, and ids are random, so an older row can go: exactly when it stays is proved. Rule 1 of the reconciliation
counts jobs it cannot queue anything for; which jobs those are, and when they keep a job behind them from ever being
queued, is proved exactly. A worker that loses its database session without dying loses its lock too and keeps
working; that is the only way two workers come to do mandatory work at once, and `WorkerOverlap` says exactly which
event does it and from which states.

`Common` holds optional values and counting, `Sorting` the stable sort both the lane cut and the walk rely on.
Identifiers are numbers, tables are maps or sequences, and provider, mailbox and API calls are arbitrary outcomes.

## Model

| member | source | states |
|---|---|---|
| QueueInvariants.RunKeeps | scripts/evaluate_queue.ts:78-472 | over every schedule: the lease on a row is an open entry of the ledger of granted leases, runs never share a lease, attempt rows come from granted leases with their numbers, and results, attempts and maximum agree with that ledger |
| QueueBounds.AttemptBound | scripts/evaluate_queue.ts:171-224 | with W run slots, no schedule takes any row past max_attempts + W - 1 attempts, so one run at a time never exceeds the maximum; rows may start anywhere within the bound |
| QueueBounds.RunBound | scripts/evaluate_queue.ts:85-224 | the strengthened invariant: attempts made plus attempts still claimable by unused snapshots stay within the bound |
| QueueBounds.Overshoot | scripts/evaluate_queue.ts:212-224 | W runs that all select a row before any leases it cost it W further attempts |
| QueueBounds.BoundIsReached | scripts/evaluate_queue.ts:212-224 | the bound is tight: some schedule reaches max_attempts + W - 1 for every W |
| QueueBounds.ZeroMaxOvershoots | scripts/evaluate_queue.ts:171-223 | in any table, a selectable row with attempts left and a maximum of 0 or less can be taken past the bound, because worker and SQL read 0 differently |
| QueueBounds.BoundHoldsExactly | scripts/evaluate_queue.ts:171-223 | for every table: all schedules keep all rows within the bound if and only if no row starts above it and no reclaimable row has attempts left under a maximum of 0 or less |
| QueueSafety.OneEvaluationPerCompletedRow | scripts/evaluate_queue.ts:309-391 | in every schedule a row has exactly one evaluation if it is completed and none otherwise |
| QueueSafety.CompletedIsFinal | scripts/evaluate_queue.ts:309-391 | a completed row never changes again and never gets a second evaluation |
| QueueSafety.SettledRowsNeverChange | scripts/evaluate_queue.ts:176-224 | no continuation of any schedule changes a row that is completed, superseded, archived or in review and carries no lease |
| QueueSafety.ReplacedHolderWritesNothing | scripts/evaluate_queue.ts:234-467 | a run whose lease was replaced changes no table, whatever it sends |
| QueueSafety.LostFenceStaysLost | scripts/evaluate_queue.ts:212-224 | a lease id that a row no longer carries never comes back to it |
| QueueSafety.UnexpiredLeaseExcludesOthers | scripts/evaluate_queue.ts:176-224 | until a lease expires its row changes only by what the holder sends |
| QueueSafety.AttemptRowsAreDistinct | scripts/evaluate_queue.ts:358-423 | attempt rows of a row carry different numbers and are at most the leases granted on it |
| QueueSafety.AttemptsAreConserved | scripts/evaluate_queue.ts:212-224 | attempt_count grows by exactly the leases granted and max_attempts by exactly the rate-limited deferrals |
| QueueSafety.ManualReviewCostsRealAttempts | scripts/evaluate_queue.ts:171-209 | a row enters manual review only after at least (initial maximum - initial attempts) of its leases ended without a rate limit, and with no lease live, even when the deciding snapshot is stale |
| QueueSafety.UnheldReviewNeverChanges | scripts/evaluate_queue.ts:176-187 | a row in manual review whose lease no run holds stays as it is in every continuation |
| QueueSafety.ReviewIsFinalExactly | scripts/evaluate_queue.ts:176-187 | some continuation changes a row in manual review if and only if a run still holds the lease left on it |
| QueueSafety.HolderLeavesReview | scripts/evaluate_queue.ts:369-391 | that holder can always take the row out again, completing it if its evaluation succeeds |
| QueueSafety.ReviewThenCompleted | scripts/evaluate_queue.ts:171-391 | a schedule exists that sends a row to manual review and completes it afterwards |
| QueueSafety.BackoffDoublesToItsCap | scripts/evaluate_queue.ts:40-44 | the backoff is 30 seconds to half an hour, doubling until the half hour, which it reaches from the sixth attempt on; `GivenBackRowWaits` says what rows do with it |
| QueueReturns.GivenBackRowWaits | scripts/evaluate_queue.ts:392-472 | after failed attempt n no selection of any continuation returns the unchanged row for min(30 * 2^n, 1800) seconds, and from that second on any idle run can select it; after a rate limit the same holds of the time the provider asked for |
| QueueReturns.LeaseLastsFiveMinutes | scripts/evaluate_queue.ts:211-247 | a lease granted or renewed keeps the unchanged row from every selection for exactly 300 seconds, and from every one after that no longer |
| QueueReturns.StaleRowIsRetired | src/pipeline/evaluationQueueLineage.ts:139-241 | a stale row that waits or whose lease ran out is superseded, or skipped if archived, and no later event changes it |
| QueueReturns.LoneRowsTurn | scripts/evaluate_queue.ts:171-224 | a run that selects a row alone works on it if attempts are left, three unless the row says otherwise, and sends it to manual review if not |
| QueueReturns.DeferralsAreFree | scripts/evaluate_queue.ts:411-471 | giving a row back clears lease and expiry; a rate limit raises its maximum by the attempt it used, to four where none was set, and a failure leaves it |
| QueueReturns.SuccessIsCommitted | scripts/evaluate_queue.ts:309-391 | a success under a held lease writes one evaluation and one attempt row with that lease and completes that row alone |
| QueueReturns.ReturnedLeasesAreAccounted | scripts/evaluate_queue.ts:309-471 | in every schedule a lease that was given back left exactly one attempt row, with its row and number, and an evaluation if it succeeded |
| QueueRunner.Store.SelectRows | src/pipeline/evaluationQueueLineage.ts:42-241 | stale rows are superseded first and nothing else changes; then the selectable candidates are returned in their order up to the limit |
| QueueRunner.PickedFacts | src/pipeline/evaluationQueueLineage.ts:42-137 | the selection is different selectable rows within the limit, in the order of the candidates, and passes over a selectable candidate only when better ones reached the limit |
| QueueRunner.Store.FenceForReview | scripts/evaluate_queue.ts:176-204 | the review update fires exactly when the row is takeable and its stored attempts are used up |
| QueueRunner.Store.AcquireLease | scripts/evaluate_queue.ts:211-224 | a lease is granted exactly on a takeable row, with a fresh id, the next attempt number and a five-minute expiry; otherwise nothing changes |
| QueueRunner.Store.Renew | scripts/evaluate_queue.ts:234-247 | only the current holder's expiry moves |
| QueueRunner.Store.Complete | scripts/evaluate_queue.ts:309-391 | evaluation, attempt row and completed status commit together exactly when the lease is still held, and otherwise nothing is written |
| QueueRunner.Store.RecordFailure | scripts/evaluate_queue.ts:402-451 | the attempt row is written exactly when the lease is still held |
| QueueRunner.Store.Retry | scripts/evaluate_queue.ts:453-471 | the in-place update is the machine's retry step: the holder's row waits and loses its lease, another's row is untouched; for how long it waits is `QueueReturns.GivenBackRowWaits` |
| QueueRunner.Store.DeferForCapacity | scripts/evaluate_queue.ts:411-427 | the holder's row waits until the given time with its maximum raised by one; another's row is untouched |
| QueueRunner.GiveBack | scripts/evaluate_queue.ts:392-472 | the failure path is a schedule of the state machine and counts under one heading |
| QueueRunner.KeepAlive | scripts/evaluate_queue.ts:234-247 | any number of timer renewals, with others' statements around each, is a schedule of the state machine and leaves the run's own state alone |
| QueueRunner.WorkLease | scripts/evaluate_queue.ts:225-472 | an evaluation under a lease, with any renewals and any behaviour of the others in between, is a schedule of the state machine |
| QueueRunner.HandleItem | scripts/evaluate_queue.ts:167-472 | one turn of the item loop is a schedule of the state machine and counts at most one outcome |
| QueueRunner.DrainItems | scripts/evaluate_queue.ts:167-473 | the loop over the selection is a schedule and counts at most as many outcomes as items |
| QueueRunner.EvaluateQueue | scripts/evaluate_queue.ts:46-490 | a whole run, with any interference and any crash, is a schedule of the state machine, and its reported counters are that schedule's tally |
| QueueCounters.EveryEvaluationIsCountedOnce | scripts/evaluate_queue.ts:385-490 | over any schedule the evaluation rows written equal the sum of all runs' processed counters |
| QueueCounters.FailuresAreReported | scripts/evaluate_queue.ts:392-490 | over any schedule the rate-limited deferrals, and separately the failed attempts sent to retry, are at most what the runs report under that heading |
| QueueCounters.ReviewsAreReported | scripts/evaluate_queue.ts:171-209 | over any schedule the runs together report exactly the moves of a row to manual review |
| QueueArrivals.ArrivingLaterIsBeingThere | scripts/evaluate_queue.ts:85-95 | a row queued in the middle of a schedule leads where the same table holding it from the start leads, so results over all schedules hold for growing tables |
| Crc32.UpdateIsEightShifts | scripts/prepare_desktop_assets.ts:17-36 | one table step equals eight single-bit steps of the reflected register |
| Crc32.ShiftsAreInjective | scripts/prepare_desktop_assets.ts:21-23 | any number of single-bit steps keeps different registers different |
| Crc32.FeedIsInjective | scripts/prepare_desktop_assets.ts:29-36 | equal input keeps different registers different |
| Crc32.BurstIsDetected | scripts/prepare_desktop_assets.ts:29-36 | any damage confined to four consecutive bytes changes the checksum |
| Crc32.OneByteIsDetected | scripts/prepare_desktop_assets.ts:29-36 | equal-length byte strings differing in exactly one byte have different checksums |
| CrcDivision.FeedIsBitSerial | scripts/prepare_desktop_assets.ts:17-36 | the table-driven register equals the bit-serial register of section 3.4 of RFC 2083 for every byte string and start value |
| CrcDivision.PolynomialIsGenerator | scripts/prepare_desktop_assets.ts:22 | the constant holds exactly the coefficients of the standard generator, in reflected order |
| CrcDivision.ShiftDivides | scripts/prepare_desktop_assets.ts:22 | a single-bit step is one step of long division by the generator over GF(2) |
| CrcDivision.FeedDivides | scripts/prepare_desktop_assets.ts:29-36 | the register left by any bits is the message polynomial minus a multiple of the generator |
| CrcDivision.DividendCoefficient | scripts/prepare_desktop_assets.ts:29-36 | which coefficients the divided polynomial has, bit by bit: message bits shifted up by 32, the start register added |
| CrcDivision.RemainderIsUnique | scripts/prepare_desktop_assets.ts:29-36 | at most one polynomial of degree below 32 is left over from a division by the generator |
| CrcDivision.ChecksumIsRemainder | scripts/prepare_desktop_assets.ts:29-36 | the checksum, with its final complement undone, is the unique remainder of the message polynomial with initial complement |
| Bytes.BigEndianRoundTrip | scripts/prepare_desktop_assets.ts:40-43 | a number below 2^32 is read back from its four big-endian bytes |
| Bytes.BigEndianIsOnto | scripts/prepare_desktop_assets.ts:40-43 | and every four bytes are written back from the number they read as |
| Bytes.WordBytesInjective | scripts/prepare_desktop_assets.ts:42-43 | different checksums have different bytes |
| Bytes.LittleEndianRoundTrip | scripts/prepare_desktop_assets.ts:147-148 | a number below 2^32 is read back from its four little-endian bytes |
| Bytes.ValueIsTheNumber | scripts/prepare_desktop_assets.ts:40-43 | the value of a byte, read off its eight bits, is the number the byte is |
| Bytes.BigEndianWeighs | scripts/prepare_desktop_assets.ts:40-41 | the four bytes written for a length weigh it with 2^24, 2^16, 2^8 and 1 in that order |
| Bytes.WordBytesWeigh | scripts/prepare_desktop_assets.ts:42-43 | and so do the four bytes written for a checksum |
| Bytes.LittleEndianWeighs | scripts/prepare_desktop_assets.ts:147-148 | in the icon the weights run the other way |
| PngChunks.CrcTable.Make | scripts/prepare_desktop_assets.ts:17-27 | the nested loops build exactly the 256 entries the register algebra speaks about |
| PngChunks.CrcTable.Compute | scripts/prepare_desktop_assets.ts:29-36 | the loop over the lazily built table returns the checksum whose meaning is proved by division |
| PngChunks.PngChunk | scripts/prepare_desktop_assets.ts:38-45 | the bytes of a chunk are written exactly when its length fits four bytes; where each of them stands is `ChunkLayout` |
| PngChunks.ChunkLayout | scripts/prepare_desktop_assets.ts:38-45 | the first four bytes of a written chunk weigh its length, type and data follow, and the last four weigh the checksum of what stands between, the most significant byte first in both |
| PngChunks.IendBytes | scripts/prepare_desktop_assets.ts:132 | the end chunk is the twelve bytes 00 00 00 00 49 45 4E 44 AE 42 60 82 |
| PngChunks.StreamRoundTrip | scripts/prepare_desktop_assets.ts:38-45 | a reader that checks length and CRC returns exactly the chunks written, for every list |
| PngChunks.AcceptedIsWritten | scripts/prepare_desktop_assets.ts:38-45 | whatever that reader accepts is byte for byte what the writer writes for the chunks it returns |
| PngChunks.PngRoundTrip | scripts/prepare_desktop_assets.ts:128-133 | bytes read as a list of chunks if and only if they are the file written for that list |
| PngChunks.OnlyTheChecksumIsAccepted | scripts/prepare_desktop_assets.ts:42-44 | a framed chunk is accepted if and only if its CRC field is its own checksum, so any damage to that field is rejected |
| PngChunks.DamageIsRejected | scripts/prepare_desktop_assets.ts:38-45 | a chunk damaged within four consecutive bytes of type and data is never accepted |
| PngChunks.CreateIcoFromPng | scripts/prepare_desktop_assets.ts:136-150 | the icon file is written for every size and PNG below 2^32 bytes, and its entry points at the whole PNG |
| PngChunks.IcoRoundTrip | scripts/prepare_desktop_assets.ts:136-150 | following the entry's offset and length gives back exactly the PNG, for every size |
| PngChunks.IcoLayout | scripts/prepare_desktop_assets.ts:136-150 | every field of the icon header by its position: type, count, size with 0 for 256 and more, one plane, 32 bits, length and offset of the PNG |
| Raster.PixelInside | scripts/prepare_desktop_assets.ts:47-54 | an in-range pixel's bytes lie inside the buffer and never on a filter byte |
| Raster.PixelsApart | scripts/prepare_desktop_assets.ts:47-54 | distinct pixels share no byte |
| Raster.PlotPixel | scripts/prepare_desktop_assets.ts:47-54 | drawing a pixel, in range or not, changes that pixel alone |
| Raster.PlotFilter | scripts/prepare_desktop_assets.ts:47-54 | drawing a pixel leaves every filter byte alone |
| Raster.SetPixel | scripts/prepare_desktop_assets.ts:47-54 | the in-place write is that change, and a coordinate outside the canvas writes nothing |
| Raster.FillRect | scripts/prepare_desktop_assets.ts:56-62 | paints exactly rectangle and canvas in common, for negative and oversized coordinates too |
| Raster.FillRoundedRect | scripts/prepare_desktop_assets.ts:64-76 | paints exactly the rounded region and canvas in common |
| Raster.RoundedIs | scripts/prepare_desktop_assets.ts:65-71 | for every size and radius, the region is the pixels of the box within the radius of an anchor point: the straight part, or the far corner's center where corners overlap |
| Raster.RoundedIsDilation | scripts/prepare_desktop_assets.ts:65-71 | when the radius fits the box, being near an anchor point alone decides |
| Raster.BarIsLens | scripts/prepare_desktop_assets.ts:113 | a bar exactly two radii high, like the icon's base line, is the pixels near both of its middle rows |
| Raster.DrawThickLine | scripts/prepare_desktop_assets.ts:78-99 | paints exactly the pixels of the scan box that pass the distance test |
| Raster.LineHit | scripts/prepare_desktop_assets.ts:88-96 | the loop body decides that test, painting nothing for a segment of length 0 |
| Raster.ProjectionIsNearest | scripts/prepare_desktop_assets.ts:90-93 | the clamped projection is at least as near as every point of the segment |
| Raster.LineTestIsExact | scripts/prepare_desktop_assets.ts:90-94 | a pixel passes if and only if some point of the segment is within half the thickness |
| Raster.LineIsStroke | scripts/prepare_desktop_assets.ts:79-94 | for thickness > -2/3 the scan box misses no such pixel, so the painted region is the whole stroke |
| Raster.ThinLineIsCut | scripts/prepare_desktop_assets.ts:79-94 | for every thickness from -2/3 down there is a segment of which the box misses a pixel |
| Raster.LineIsStrokeExactly | scripts/prepare_desktop_assets.ts:78-99 | every segment that is not a point is painted as its whole stroke if and only if the thickness is above -2/3 |
| DesktopIcon.DrawAll | scripts/prepare_desktop_assets.ts:47-99 | for every sequence of drawing calls with any coordinates, filter bytes stay 0 and each pixel shows the last call that covers it |
| DesktopIcon.AnySequenceShows | scripts/prepare_desktop_assets.ts:47-99 | the same for any sequence of buffers, each the one before with one region painted |
| DesktopIcon.DrawIcon | scripts/prepare_desktop_assets.ts:101-117 | for every canvas size all filter bytes are 0 and each pixel shows the last of the eleven layers that covers it |
| DesktopIcon.IconSamples | scripts/prepare_desktop_assets.ts:107-113 | the colors of seven pixels of the icon: the transparent corner, frame, panel, three bars and the base line |
| DesktopIcon.StrokeSamples | scripts/prepare_desktop_assets.ts:114-117 | the colors of the stroke where it starts and turns, and of its shadow below the turn |
| DesktopIcon.CreateDesktopIconPng | scripts/prepare_desktop_assets.ts:101-134 | the file reads back as exactly the header, the compressed raster and the end chunk |
| Scanlines.DecoderFindsPixels | scripts/prepare_desktop_assets.ts:47-54 | a decoder that cuts the buffer into scanlines and the scanlines into pixels finds the pixel of column x in line y, red, green, blue and alpha in that order, and the filter byte in front of its line |
| Scanlines.RectanglesTile | scripts/prepare_desktop_assets.ts:56-62 | a rectangle of side 1 is one pixel, and rectangles side by side or on top of each other make up the wider or higher one |
| Scanlines.FileLayout | scripts/prepare_desktop_assets.ts:119-134 | the file is the signature, the header chunk with width and height weighed by four bytes each and the five option bytes, the image data and the end chunk |
| BoundedRunner.EverySchedule | scripts/parse_emails.ts:288-308 | started items are a prefix, each in flight or settled and never both or twice; in flight are never more than the concurrency, never more than were started, and none for a negative concurrency |
| BoundedRunner.FullUse | scripts/parse_emails.ts:295 | some schedule has exactly the smaller of concurrency and length in flight, so no lane is missing |
| BoundedRunner.ErrorStopsStarts | scripts/parse_emails.ts:296-307 | after an error no item starts and the error that will be rethrown is fixed |
| BoundedRunner.WhenFinished | scripts/parse_emails.ts:293-307 | when the call returns every started item has settled, and without an error all items have, if and only if there was a lane |
| BoundedRunner.NoLanes | scripts/parse_emails.ts:295 | a concurrency of 0 or less starts nothing |
| BoundedRunner.StepsAreFinite | scripts/parse_emails.ts:295-306 | every step uses up work, so every schedule ends |
| BoundedRunner.NeverStuck | scripts/parse_emails.ts:295-306 | until every lane is done some step can happen |
| MailPipeline.RunKeeps | scripts/parse_emails.ts:110-281 | over every schedule with crashes, with any extraction at each parse and with other writers: one row per message, relabelled messages have a row, every observation has its fetch task, pending alerts have observations |
| MailPipeline.NoMailIsLost | scripts/ingest_gmail.ts:54-91 | a message is still under its source label or has exactly one alert row |
| MailPipeline.LeavesTheLabelExactly | scripts/ingest_gmail.ts:54-91 | a message leaves its source label exactly when the ingestion that staged it gets through to the mailbox, and it has its row then |
| MailPipeline.StagedStays | scripts/parse_emails.ts:162-268 | whatever a schedule staged keeps its observations and fetch tasks, whatever happens later |
| MailPipeline.PendingMeansStaged | scripts/parse_emails.ts:162-268 | in every schedule a pending alert was staged, and each card of each of its stagings has an observation and a fetch task |
| MailPipeline.PendingComesWithFetch | scripts/parse_emails.ts:251-267 | the parser's step that makes an alert pending makes all its observations FETCH_PENDING; another part of the system makes only staged alerts pending |
| MailPipeline.RestagingIsIdempotent | scripts/parse_emails.ts:110-117 | staging an alert a second time leaves all tables as they are |
| MailPipeline.RestagingAddsNothing | scripts/parse_emails.ts:110-117 | staging again what the schedule staged before, however long ago, adds no observation and no task |
| MailWorkers.MailStore.StageAll | scripts/parse_emails.ts:162-281 | the loop over cards commits everything together or, at the first invalid card, nothing |
| MailWorkers.IngestGmail | scripts/ingest_gmail.ts:54-91 | however the loop ends, no message was relabelled without a row and no row was lost or doubled; on return every message has one, and unless the mailbox is read only exactly those whose turn went through were relabelled |
| MailWorkers.IngestGmailWithRetry | scripts/ingest_gmail.ts:107-134 | returns the first success, else rethrows the last of all attempts, three unless configured; waits once between two attempts, for the time its error calls for |
| MailWorkers.DelayDoublesToItsCap | scripts/ingest_gmail.ts:121-123 | the delay starts at a minute or a second and doubles up to three minutes or half a minute |
| ParseEmails.SelectFacts | src/ingestion/emailParserReplay.ts:75-107 | a batch is different alerts not attempted before, unprocessed or, in a replay only, blocked for a missing link or a failed extraction; at most the limit, and none only if none is left |
| ParseEmails.InterleaveIsFair | src/ingestion/emailParserReplay.ts:84-106 | a replay batch takes the first alerts of each kind, as many of both as it can, and lets one kind fill up only when the other runs out |
| ParseEmails.ReplayBatchIsFair | src/ingestion/emailParserReplay.ts:84-106 | so is every replay batch that is selected, from any table and for any limit |
| ParseEmails.PlainBatchIsFirst | src/ingestion/emailParserReplay.ts:75-83 | a plain batch takes the alerts first received, in that order |
| ParseEmails.StageEmail | scripts/parse_emails.ts:118-281 | for each extraction result the alert ends blocked, failed with all else rolled back, or fully staged |
| ParseEmails.StagedExactly | scripts/parse_emails.ts:118-281 | the four ends of an alert, column by column, and that observations and tasks are written for all its cards or for none |
| ParseEmails.AfterStagingFacts | scripts/parse_emails.ts:118-281 | whatever the tables hold, staging touches one alert only, makes it pending only with every card found staged, blocks it only if none was found, and takes it out of the backlog unless it failed |
| ParseEmails.HandleEmail | scripts/parse_emails.ts:367-399 | an alert is put off exactly from the deadline on; otherwise it counts as parsed with all its cards, without vacancy or failed by what the extractor found and whether it could be staged, and as nothing if its error is fatal; backlog and set-aside alerts change to match |
| ParseEmails.AdvanceLane | scripts/parse_emails.ts:293-305 | one lane step keeps the counters in balance with the settled items |
| ParseEmails.RunBatch | scripts/parse_emails.ts:367-399 | whatever order lanes settle in, a batch without error counts every alert once and touches no other; the error it rethrows is the first one thrown, by one of its alerts |
| ParseEmails.ParseBatch | scripts/parse_emails.ts:350-401 | nothing is selected from the deadline on; a batch never repeats an attempted alert, and the loop goes on only after attempting new ones and not once stopped |
| ParseEmails.ProgressTwice | scripts/parse_emails.ts:350-401 | what one alert's parsing may do to the tables is what a whole run may do |
| ParseEmails.Parse | scripts/parse_emails.ts:310-448 | from any tables, replays of alerts an earlier extractor blocked included, the run terminates; parsed + without vacancy + failed + deferred is the number of distinct alerts selected; the backlog falls by exactly those parsed, without vacancy or blocked, and the alerts set aside grow by the last two; it stops only when the clock showed the deadline; alerts become pending only fully staged and consistent tables stay consistent |
| LaneChoice.CauchySchwarz | scripts/evaluate_jobs.ts:375-384 | dot^2 <= normA * normB for vectors of equal length |
| LaneChoice.CosineSimilarity | scripts/evaluate_jobs.ts:375-384 | the accumulating loop computes the score of the specification, NaN when the second vector is shorter; what that score means is `LaneGeometry.LawOfCosines` and the rows after it |
| LaneChoice.CosineInRange | scripts/evaluate_jobs.ts:375-384 | every score that is a number lies in [-1, 1], also for unequal lengths |
| LaneChoice.BestLane | scripts/evaluate_jobs.ts:449-457 | the loop returns the first lane with the greatest score above -1, or the default with -1 |
| LaneChoice.SentinelIsSound | scripts/evaluate_jobs.ts:449-457 | with the default lane first and no NaN, that lane is the first of maximal similarity, ties at -1 included |
| LaneGeometry.LawOfCosines | scripts/evaluate_jobs.ts:375-384 | for nonzero vectors the score is the cosine of their angle: squared distance = normA + normB - 2 * score * sqrt(normA) * sqrt(normB) |
| LaneGeometry.MultiplesScoreOne | scripts/evaluate_jobs.ts:375-384 | a nonzero vector scores 1 with itself and every positive multiple, and -1 with every negative one |
| LaneGeometry.ScoresExist | scripts/evaluate_jobs.ts:375-383 | a score is NaN if and only if the first vector is nonzero and longer, and 0 if either is zero |
| LaneGeometry.NearerScoresHigher | scripts/evaluate_jobs.ts:375-384 | of two prototypes of one length, one scores higher if and only if its squared distance from the job is smaller |
| LaneGeometry.NearestLaneIsTaken | scripts/evaluate_jobs.ts:449-457 | with prototypes of one length the lane the loop takes is the nearest to the job, the first of several as near |
| LaneGeometry.NothingToCompare | scripts/evaluate_jobs.ts:449-450 | without lanes the result is CORE_AI_DATA with -1 |
| LaneChoice.CheckedCosineSimilarity | scripts/compare_embedding_backends.ts:43-55 | the loop computes the checked score of the specification, by one root of the product; when it answers, and with what, is `LaneGeometry.CheckedScores` |
| LaneChoice.CosinesAgree | scripts/compare_embedding_backends.ts:43-55 | both cosine functions give the same number wherever the checked one answers |
| LaneGeometry.CheckedScores | scripts/compare_embedding_backends.ts:43-55 | the checked version answers if and only if both vectors are nonzero and of one dimension, and its answer obeys the law of cosines |
| LaneGeometry.CheckedMultiplesScoreOne | scripts/compare_embedding_backends.ts:43-55 | it too gives 1 for positive and -1 for negative multiples |
| LaneChoice.MinimumBelowMean | scripts/compare_embedding_backends.ts:72-73 | the reported minimum is one of the cosines and at most the reported mean |
| LaneChoice.OkMeansMinimumMeetsThreshold | scripts/compare_embedding_backends.ts:64-76 | a comparison is ok if and only if it is not empty, all embeddings succeeded and the minimum meets the threshold |
| LaneCap.GroupByLane | scripts/evaluate_jobs.ts:468-472 | the map holds each lane's jobs in their order and nothing else |
| LaneCap.CapPerLane | scripts/evaluate_jobs.ts:468-487 | per lane the evaluated jobs are the first three of the stable descending order and the skipped ones the rest |
| LaneCap.TiesKeepTheirOrder | scripts/evaluate_jobs.ts:476-477 | jobs of equal score keep the order they came in, so ties at the cut go to the earlier jobs |
| LaneCap.CapKeepsTheBest | scripts/evaluate_jobs.ts:474-487 | per lane nothing is lost or invented, min(3, n) are evaluated, and each scores at least as much as every skipped one |
| ReviewCorrections.RenderRows | streamlit_manual_application.py:313-366 | the list built row by row is the corrections of the group, and a problem is reported exactly when some row has one |
| ReviewCorrections.RenderCorrections | streamlit_manual_application.py:369-418 | MUST rows first, then the others; a problem anywhere is reported |
| ReviewCorrections.ReviewIs | streamlit_manual_application.py:352-365 | a correction is listed for exactly the rows whose choice differs from the default |
| ReviewCorrections.OverlayReproduces | streamlit_manual_application.py:304-366 | overlaying the corrections on the defaults gives back every row's choice |
| ReviewCorrections.CorrectionsDetermineChoices | streamlit_manual_application.py:1101-1107 | two lists are equal if and only if every row's choice is, so comparing lists compares decisions |
| ReviewCorrections.AcceptAllLeavesMustRows | streamlit_manual_application.py:401-413 | after accepting all suggestions only MUST rows are corrected |
| ReviewApprovals.ProblemIsInTheCorrections | streamlit_manual_application.py:352-366 | a problem is reported if and only if some row is accepted without evidence or has a gap sentence of one to nine characters, and if and only if some correction is |
| ReviewApprovals.FlawOnScreen | streamlit_manual_application.py:335-351 | what that means on the screen: nothing chosen for an accepted row, or too short a text where a gap text is asked for |
| ReviewApprovals.RowIsCorrectedExactly | streamlit_manual_application.py:311-366 | a row is corrected exactly when its controls differ from the suggestion, with the evidence and the gap text its decision keeps |
| ReviewApprovals.MustRowsComeFirst | streamlit_manual_application.py:388-418 | the corrections of MUST rows stand before those of optional rows |
| ReviewSession.RunKeeps | streamlit_manual_application.py:885-1107 | in every run documents imply an approval, which implies a comparison; and until documents exist the approval is for the draft and corrections on record |
| ReviewSession.StartsAreFaithful | streamlit_manual_application.py:1097-1145 | in every run, a job started while no documents exist is for the recorded approval of the draft under review, given with exactly the corrections on the screen; and no job starts while one runs |
| ReviewApprovals.ApprovalIsGivenExactly | streamlit_manual_application.py:1056-1107 | from every session, so in every run: the corrections remembered as approved change exactly when Approve is pressed on a ready comparison of the inputs on the screen and no row has a problem; that records an approval of the draft under review with the corrections shown, and otherwise only a revision changes it; nothing is started anywhere but at a review |
| ReviewApprovals.ChangedInputsDropEverything | streamlit_manual_application.py:885-901 | inputs that changed drop comparison, approval and documents, and nothing starts |
| ReviewApprovals.RunIsSound | streamlit_manual_application.py:1056-1095 | in every run over screens rendered from rows, all corrections approved, recorded or under generation are without a problem |
| ReviewApprovals.OnlyCompleteReviewsAreGenerated | streamlit_manual_application.py:1065-1145 | in no run does a job start, revisions included, for corrections with an accepted row without evidence or a gap sentence of one to nine characters, nor with such a row on the screen while no documents exist |
| ReviewApprovals.JobIsPolledOnce | streamlit_manual_application.py:514-580 | what one status check does to every part of the session, for every answer |
| ReviewApprovals.PollDecidesButtons | streamlit_manual_application.py:544-580 | with a job in the session Generate starts another in the same rerun unless the job is still waited for or answered nonsense |
| ReviewApprovals.GenerateStartsExactly | streamlit_manual_application.py:1123-1140 | Generate starts one job for the draft under review and the recorded approval exactly when its request gets through |
| ReviewApprovals.RetryStartsExactly | streamlit_manual_application.py:592-627 | Retry starts one revision job with the approved corrections exactly when the documents have a deterministic summary and both requests get through |
| ReviewSession.PollClearsTheJob | streamlit_manual_application.py:544-580 | a rerun that gets past the poll has no running job left |
| ReviewSession.AgreementIsKeptExactly | streamlit_manual_application.py:885-889 | comparison, approval, documents and job stay for one draft across an event if and only if it does not bring in another draft while a job runs |
| ReviewSession.UnstrandedRunsAgree | streamlit_manual_application.py:514-541 | in every run without such an event the documents on the screen are for the draft under review |
| ReviewSession.StrandedJobIsShown | streamlit_manual_application.py:514-541 | after such an event one rerun can show the old draft's documents under the new draft |
| ReviewSession.StrandingHappens | streamlit_manual_application.py:635-669 | a run from the empty session, for any two drafts: a job starts for one, the other is opened and approved, and the first one's documents are shown under it |
| ReviewSession.MatchIsKeptExactly | streamlit_manual_application.py:1083-1145 | a rerun keeps documents and recorded approval together for all API answers if and only if the approval it polls with is the running job's, or a revision job will replace it and Generate is not pressed |
| ReviewSession.UnovertakenRunsMatch | streamlit_manual_application.py:1083-1145 | in every run without such a rerun the documents on the screen were made under the recorded approval |
| ReviewSession.OvertakingHappens | streamlit_manual_application.py:1083-1123 | a run from the empty session in which a draft is approved again while its job runs, and the job's documents appear under the new approval |
| ReviewScreen.SessionKeys.FinishDocumentJob | streamlit_manual_application.py:514-541 | a finished job leaves the session before its result is checked; success installs documents, and the approval of a revision |
| ReviewScreen.SessionKeys.StartDocumentJob | streamlit_manual_application.py:494-511 | a refused request changes nothing; an accepted one is applied at once if finished and reruns the page otherwise |
| ReviewScreen.SessionKeys.PollDocumentJob | streamlit_manual_application.py:544-580 | one status check drops, settles, gives up on, or keeps the job |
| ReviewScreen.SessionKeys.RetrySummary | streamlit_manual_application.py:592-627 | a retry starts a job for a new revision carrying the approved corrections |
| ReviewScreen.SessionKeys.DrawButtons | streamlit_manual_application.py:1123-1157 | Generate needs no running job; Retry needs documents with a deterministic summary |
| ReviewScreen.SessionKeys.Render | streamlit_manual_application.py:878-1157 | the script with its early returns changes the session keys and starts jobs exactly as the session machine does; what it takes to record an approval is `ReviewApprovals.ApprovalIsGivenExactly` |
| ReviewScreen.SessionKeys.OpenPipelineJobForReview | streamlit_manual_application.py:635-669 | asks a second time exactly after a concurrent update, opens exactly when the last answer is a comparison, and marks exactly the two refusals that stand |
| Deduplicate.CleanedIsClean | scripts/deduplicate.ts:20-47 | afterwards no two rows share a non-null URL or a title and company, and none matches the final table |
| Deduplicate.DeletedExactly | scripts/deduplicate.ts:21-47 | which rows each statement deletes, column by column, missing values included |
| Deduplicate.UnidentifiedRowsStay | scripts/deduplicate.ts:20-47 | a row without URL and without title or company is never deleted and never makes another one go |
| Deduplicate.CleanIsStable | scripts/deduplicate.ts:20-47 | a run leaves a table as it is if and only if it is already clean, so a second run deletes nothing |
| Deduplicate.SmallestStays | scripts/deduplicate.ts:21-37 | a row that loses a pass has a duplicate of smaller id that survives that pass |
| Deduplicate.OldestStaysExactly | scripts/deduplicate.ts:21-37 | a pass keeps a row at least as old for every row, as its comment promises, if and only if the smallest id of each group belongs to its oldest row |
| Deduplicate.OlderRowCanGo | scripts/deduplicate.ts:21-28 | of two rows with one URL where the older has the larger id, the older is deleted |
| Deduplicate.OlderRowGoes | scripts/deduplicate.ts:21-28 | a concrete table on which that happens |
| Deduplicate.OldestRepresents | scripts/deduplicate.ts:20-37 | when both passes keep the oldest of each group, every row's chain ends at a surviving row at least as old |
| Deduplicate.OrderedIdsFollowAge | scripts/deduplicate.ts:20-37 | ids given out in order of creation, at least among duplicates, make both passes keep the oldest |
| Deduplicate.EveryRowIsRepresented | scripts/deduplicate.ts:20-37 | every row reaches a row surviving both passes by at most two duplicate links with falling ids |
| Deduplicate.ChainIsUnique | scripts/deduplicate.ts:20-37 | there is only one such way, so a deleted row stands behind exactly one survivor |
| Deduplicate.SmallestRowStays | scripts/deduplicate.ts:20-37 | the row of smallest id survives both passes |
| Deduplicate.PassOrderMatters | scripts/deduplicate.ts:20-37 | in the other order the two passes would delete a row that this order keeps |
| Deduplicate.StagingTable.DeleteDuplicates | scripts/deduplicate.ts:21-37 | deletes in one step the rows that had a duplicate of smaller id, and counts them |
| Deduplicate.StagingTable.DeleteEvaluated | scripts/deduplicate.ts:39-47 | deletes in one step the rows already evaluated, and counts them |
| Deduplicate.StagingTable.RunDeduplication | scripts/deduplicate.ts:20-52 | the three counts account for every row that disappeared and are all 0 if and only if nothing changed |
| Reconcile.UniqueNormalForm | scripts/reconcile_states.ts:42-114 | from every job, whatever order rules 2, 3 and 4 fire in, firing stops after the same number of steps, at most two, with the job one pass computes |
| Reconcile.FiringKeepsPass | scripts/reconcile_states.ts:42-114 | no rule undoes or preempts another |
| Reconcile.PassIsNormal | scripts/reconcile_states.ts:42-114 | after a pass no rule matches, and a pass changes a job if and only if some rule matched |
| Reconcile.PassTouches | scripts/reconcile_states.ts:59-108 | a pass changes only the two state columns, which then agree, and fills in a missing rejection reason only for jobs that end unmatched |
| Reconcile.PassByColumns | scripts/reconcile_states.ts:42-125 | where a pass leaves each job in terms of its columns, and which jobs count as completed |
| Reconcile.AwaitingAreFirst | scripts/reconcile_states.ts:128-147 | counted for routing are jobs that passed the gate and wait without lane, disposition or task under way: all of them, or the first 200 |
| Reconcile.AppliedExceedsDry | scripts/reconcile_states.ts:42-114 | the applied total exceeds the dry-run total by exactly the jobs rules 2 and 4 both move |
| Reconcile.SecondRunUpdatesNothing | scripts/reconcile_states.ts:42-175 | three updates over the table equal the pass over each job, and a second applied run updates nothing |
| Reconcile.CountedAgainExactly | scripts/reconcile_states.ts:128-170 | a job counted for routing is counted again after the run if and only if it has no version, is archived, or its task was queued and settled before |
| ReconcileRuns.StuckKeepsItsPlace | scripts/reconcile_states.ts:128-170 | such a job, once counted, is counted by every later run |
| ReconcileRuns.StuckJobsStarveTheRest | scripts/reconcile_states.ts:145 | 200 such jobs in front keep every job behind them from being returned or queued by any later run |
| ReconcileRuns.QueuedInTheEndExactly | scripts/reconcile_states.ts:128-170 | a waiting job for which a task can be queued is queued by some later run if and only if fewer than 200 such hopeless jobs wait before it |
| Reconcile.EnqueueAllActivates | src/tasks/pipelineTasks.ts:181-239 | queueing a list of jobs gives each of them an active task unless nothing can come of it |
| Reconcile.JobTable.RunRule | scripts/reconcile_states.ts:42-114 | counts the matching rows and, only when applying, moves exactly those |
| Reconcile.JobTable.RouteLanes | scripts/reconcile_states.ts:128-170 | counts the waiting jobs, at most 200, and only when applying queues tasks for them |
| Reconcile.JobTable.Reconcile | scripts/reconcile_states.ts:42-175 | an applied run leaves every job in its normal form and reports the applied total; a dry run reports the dry total and changes nothing |
| WorkerLock.ListedNotEmpty | src/tasks/stageTaskWorker.ts:85-99 | chosen types are never empty, never repeated, and are exactly the listed ones when a list is given |
| WorkerLock.TypesWithoutList | src/tasks/stageTaskWorker.ts:85-99 | without a list a worker takes the nine mandatory types, with the opt-in all ten, in order; a list is refused if and only if it names nothing or something unknown |
| WorkerLock.PreflightExactly | scripts/process_pipeline_tasks.ts:397-421 | without an extraction route a worker with the optional type alone stops, and any other goes on with all its types but that one |
| WorkerLock.ChoiceIsSound | scripts/process_pipeline_tasks.ts:377-421 | after the lock is chosen the types shrink by at most the optional one and never to nothing; the second lock is for workers with no mandatory type, and only them |
| WorkerLock.RunKeeps | scripts/process_pipeline_tasks.ts:423-786 | over every interleaving with failures, deaths and lost sessions, a lock's holder is the one connected worker in a section of that lock |
| WorkerLock.AtMostOneRunsMandatory | scripts/process_pipeline_tasks.ts:458-468 | while no worker inside has lost its session, at most one worker inside can process a mandatory type |
| WorkerLock.CutOffWorkerIsJoined | scripts/process_pipeline_tasks.ts:458-468 | once a worker inside loses its session, the next one to try runs beside it |
| WorkerOverlap.ExclusionIsKeptExactly | scripts/process_pipeline_tasks.ts:458-468 | one event breaks the exclusion of mandatory work if and only if it lets a worker take the first lock while one that lost its session is still at work inside |
| WorkerOverlap.ExclusiveThroughoutExactly | scripts/process_pipeline_tasks.ts:458-468 | a whole run is exclusive throughout if and only if it holds no such event |
| WorkerOverlap.OverlapIsPossibleExactly | scripts/process_pipeline_tasks.ts:458-468 | some continuation of a run lets two workers do mandatory work at once if and only if two workers are inside or can still get there |
| WorkerOverlap.BringIn | scripts/process_pipeline_tasks.ts:423-468 | any worker that can still get inside can be brought in without disturbing those at work |
| WorkerOverlap.TwoWorkersOverlap | scripts/process_pipeline_tasks.ts:458-468 | the shortest such run of two workers |
| WorkerLock.TryEntersExactly | scripts/process_pipeline_tasks.ts:458-468 | a try succeeds if and only if the worker is connected and no connected worker is in a section of the same lock |
| WorkerLock.OnlyTheHolderUnlocks | scripts/process_pipeline_tasks.ts:783-786 | no event of another worker takes a held lock away |
| WorkerLock.AdvisoryLocks.Try | scripts/process_pipeline_tasks.ts:459-460 | takes a lock exactly when it is free |
| WorkerLock.AdvisoryLocks.Unlock | scripts/process_pipeline_tasks.ts:783-785 | frees a lock only for the session that holds it |
| WorkerLock.ProcessPipelineTasks | scripts/process_pipeline_tasks.ts:377-786 | whichever way a run ends it leaves the locks as it found them; it works on the chosen types exactly when its lock was free |
| ArtifactWalk.ListArtifacts | scripts/desktop_release_evidence.ts:87-111 | the stack loop terminates for every tree and returns, sorted by path, each owed artifact as often as it is owed |
| ArtifactWalk.ReadEntry | scripts/desktop_release_evidence.ts:93-107 | one directory entry moves what it owes from the tree to the found list or the stack |
| ArtifactWalk.ReadDirectory | scripts/desktop_release_evidence.ts:91-108 | reading a directory loses and invents nothing |
| ArtifactWalk.ListingIsReachable | scripts/desktop_release_evidence.ts:91-108 | an artifact is owed once if its path reaches it through folders that may be entered, and not at all otherwise |
| ArtifactWalk.ArtifactsAreReachable | scripts/desktop_release_evidence.ts:87-111 | the result holds a file if and only if it is wanted and reachable without entering a skipped folder, and none twice |
| ArtifactWalk.NothingBelowSkipped | scripts/desktop_release_evidence.ts:94-97 | no listed file lies below a subdirectory named win-unpacked, at any depth |
| ArtifactWalk.WantedExactly | scripts/desktop_release_evidence.ts:98 | a file is wanted if and only if its name in small letters ends in .exe, .blockmap, .yml or .yaml |
| Sorting.SortBySorts | scripts/desktop_release_evidence.ts:110 | for every total and transitive comparison the sort gives a sorted permutation |
| Sorting.SortByIsStable | scripts/evaluate_jobs.ts:476 | elements that tie keep the order they had |
| ArtifactWalk.MetadataMatchesArtifact | scripts/desktop_release_evidence.ts:121-126 | true if and only if an artifact lies at the non-empty path named by the metadata, up to slashes; null only without metadata |
| ArtifactWalk.SeparatorsDoNotMatter | scripts/desktop_release_evidence.ts:125 | that comparison gives the same answer for paths listed with either separator |
| ArtifactWalk.MetadataNamesTheFile | scripts/desktop_release_evidence.ts:121-126 | a path of names without slashes matches the metadata if and only if the metadata, split at its slashes of either kind, is that path |

## Left out

- SQL isolation levels and planning: one statement or one committed transaction is one step; the unique index on active queue rows is not part of the model.
- The updates of canonical jobs and the payload columns inside the queue's transactions, and the link from attempt rows to queue rows: the model tags attempt rows with their lease.
- QueueSafety.UnheldReviewNeverChanges: speaks of evaluation runs only; the audited requeue (src/pipeline/requeueManualReview.ts) puts a row in manual review back in line with its attempts reset.
- QueueSafety.ReviewIsFinalExactly: speaks of evaluation runs only, for the same reason.
- QueueSafety.AttemptRowsAreDistinct: speaks of evaluation runs only; the audited requeue inserts an attempt row of its own.
- Other writers of the queue: archiving a job (src/services/jobArchive.ts) skips its waiting rows, and the explanation enqueuer adds rows.
- Other writers of raw alerts: any change of an alert's columns elsewhere is one arbitrary step, except that it makes only alerts with an observation pending; observations and fetch tasks are never deleted.
- The branch for a queue item without a job version: the selection joins on the version, so no selected item lacks one.
- The heartbeat timer's period: a run's renewals may happen any number of times, at any moment of an evaluation; log output and provider-call summaries are left out.
- QueueReturns.GivenBackRowWaits: attempt numbers of 0 and more, as every lease of a row with a non-negative count has; the waits of under half a minute that a negative count would give are not represented.
- Identifiers from random UUIDs: a fresh id is assumed different from all earlier ones.
- The joins of the queue selection on jobs, versions, decisions and profiles: an arbitrary ordered list of candidates.
- Staging rows without a creation time: the column allows null, and every row of the model has one.
- Payload hashes and task keys: assumed injective, as the comments in the parser rely on.
- The tie-breaking columns of the alert selection: alerts are numbered in the order the query sorts by, time of receipt and then id.
- Link-summary counters, the source run's final status and the broken-funnel warning of the parser: folds over the same outcomes.
- The extractor that turns a mail body into cards: an arbitrary function of the alert.
- Deflate compression: an arbitrary function from bytes to bytes, so the image data chunk is proved to hold its output, not to decompress.
- Non-integer or NaN coordinates of the drawing calls; lengths of 2^32 bytes and more end with an error.
- LaneChoice.CosineSimilarity: exact reals instead of rounded doubles, with the square root as a parameter that squares back.
- Streamlit widgets, messages and layout: their values are arbitrary inputs of a rerun; the fetch, upload and role-choice controls and the download and application links are left out.
- ReviewCorrections.RenderRows: widget keys are per requirement, so requirement keys are taken as unique where the theorems need it; the gap text is taken after trimming.
- ReviewScreen.SessionKeys.RetrySummary: the reuse of an earlier AI-written letter is a request option and is not represented.
- Reconcile.JobTable.RouteLanes: which 200 of more waiting jobs the database returns is unspecified; the model takes the first ones.
- Update timestamps and the workspace filter of the table scripts: a table holds one workspace.
- The work a task worker does inside its section, its reports and the queue-health sums.
- Signature inspection of artifacts and the remaining evidence fields.
- Profile data, schema export, packaging, validators and command-line parsing: single branches or data.
