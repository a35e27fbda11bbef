# Yams: a verified model

Yams is a local search service over Markdown pages. This project models the parts of it whose
correctness is not visible in any one function, and proves what they promise over all inputs,
all schedules and all runs. The files follow the program:

| files | part of the program |
|---|---|
| `Service.dfy`, `ServiceLoop.dfy` | the bounded service loop, its workers, queue, idle clock and shutdown token |
| `Frame.dfy`, `Client.dfy`, `Argv.dfy` | length-prefixed framing, the client's exchange and fallback decision, the argument vector |
| `Vectors.dfy`, `Gc.dfy` | content-addressed vector keys, the write-once cache, publication and collection under the mutation lease |
| `Rank.dfy`, `Select.dfy`, `Snippet.dfy`, `Search.dfy` | the search kernel, from dense ranking to the response |
| `Chunk.dfy`, `Frontmatter.dfy`, `Layout.dfy` | chunking, line splitting and frontmatter, symbolic-link resolution |
| `Wrappers.dfy`, `Bytes.dfy`, `Lists.dfy`, `Strings.dfy`, `Unicode.dfy` | shared vocabulary |

`dafny verify dfyconfig.toml` checks everything.

How the model is built:

- Concurrency is a state machine over events. `Service.Run` cuts the loop thread at every point
  where a worker, an outside `request()` or the clock may interleave with it; a theorem about
  `Run(cfg, events)` for all `events` covers every interleaving. `ServiceLoop.Server` is the same
  loop as a structured program that updates its own variables, and `ServiceLoop.ServeUntil` proves
  that it follows the machine. `Gc.Run` does the same for processes that share the cache, the
  project indexes and the lease; a SQLite transaction is one atomic update of a map.
- Streams are byte sequences with a schedule of how they arrive (short counts, interruptions,
  failures, clock readings); a schedule that ends is a stream that fails.
- Scores are exact reals; the four-decimal public score is a parameter `round`, assumed monotone
  and idempotent only where a lemma says so. Cosines are inputs.
- SHA-256 is a parameter of type `Digest`; nothing is assumed about it.
- The Unicode alphanumeric and lowercase tables are parameters; whitespace and line separators
  are written out.
- The filesystem seen by the path resolver is a parameter that does not change during a call. Path
  text is taken as already split into components; an ordinary component is by type a name other
  than `.` and `..`, so resolved paths hold neither.

Six claims that the documentation or the constants suggest are slightly stronger than the code.
The model follows the code; for each there is an input and the exact condition is proved:

- A client may fall back to direct execution after its whole request was written, exactly when
  the first clock reading after the last byte is past the deadline
  (`Client.DirectAfterDeliveryExactlyWhenLate`, with `Client.LateDeliveryExists`).
- An argument vector round-trips exactly when neither the query nor the project is literally
  `--write` and `k` was not saturated (`Argv.ArgvRoundTrip`, with
  `Argv.SearchForWriteFlagIsRefused`).
- A page at dense rank r is not overtaken from rank s merely because 1/(60+r) - 1/(60+s) exceeds
  0.2/61: that holds exactly for r up to 25, because beyond the dense candidates only the lexical
  match counts. In general a page is never overtaken exactly when the dense shares differ by more
  than the largest lexical share (`Rank.RankBoundHoldsExactlyForCandidates` and
  `Rank.DisplacementExactlyWhen`, with `Rank.RankTwentySixIsOvertaken`).
- A synchronizer does not hold the lease from its last reuse decision to its commit: references of
  unchanged pages are looked up under a first lease that is dropped before embedding. Among
  cooperating processes with a sound cache this is safe (`Gc.CooperativeSyncIsComplete`); in general
  a completed synchronization leaves every reference of its project cached exactly when no key found
  then has vanished since and the references it could not inspect are cached
  (`Gc.CompletedSyncExactlyWhen`, with `Gc.QuarantineBetweenEpochsDangles`).
- A candidate window of a snippet does not always hold the term it is centred on: it does exactly when
  the term still fits after the start has moved back to a word and the end has not moved back to a space
  before it (`Snippet.CandidateHoldsSpanExactlyWhen`, with `Snippet.CandidateCanMissSpan`).
- A writer that publishes without the lease can be left with a dangling reference, exactly when
  neither pass saw it and it was in the initial snapshot (`Gc.SweepIsSafeExactlyWhen`, with
  `Gc.LeaselessPublicationCanDangle`).

Two branches of the source are proved unreachable: the flush in `append_piece` that makes room for
a boundary (`Chunk.AppendPiece`), and the append in `select` for an exact page outside slots that
are not full (`Select.FillSlots`). A connection refused because of its peer does not count as
progress, so it does not restart the idle clock.

## Model

| member | source | states |
|---|---|---|
| `Service.RunKeepsInv` | crates/yams-service/src/service.rs:246-467 | in every interleaving: counters equal the connections with each fate, the queue and the clocks stay consistent, and each program point owns exactly the connection it should |
| `Service.Conservation` | crates/yams-service/src/service.rs:246-467 | at every point of every run accepted = rejected + completed + active + pending (+ the one in hand), active <= 8, pending <= 64, and the saturating decrement never saturates |
| `Service.ExitReport` | crates/yams-service/src/service.rs:285-300 | a clean exit accounts for every accepted connection; a stuck one is short by exactly the undrained workers and only after 30 s |
| `Service.FatesAreFinal` | crates/yams-service/src/service.rs:302-443 | over whole runs each connection has one fate: refusal and completion are final and exclude each other |
| `Service.NothingReservedAfterClosure` | crates/yams-service/src/service.rs:51-77 | once `request()` has returned, no later step reserves an execution |
| `Service.ActiveNeverRisesAfterObservation` | crates/yams-service/src/service.rs:285-300 | once the loop has observed closure, the number of active workers never rises again |
| `Service.ClosureIsNoticed` | crates/yams-service/src/service.rs:277-466 | once the token is closed, seven steps of the loop thread suffice for it to notice, whatever is interleaved, unless an I/O error ends the loop |
| `Service.DrainIsBounded` | crates/yams-service/src/service.rs:285-300 | the drain period is bounded: once it is over, thirteen steps of the loop thread reach the exit, whatever is interleaved |
| `Service.FinishedWorkersEndTheDrain` | crates/yams-service/src/service.rs:279-300 | without waiting for it: once no worker is live, sixteen steps of a loop that has noticed closure reach the exit |
| `Service.IdleClockIsSound` | crates/yams-service/src/service.rs:449-465 | at every turn the idle clock's base is not before the last activity: since then the loop has been quiet throughout |
| `Service.IdleShutdownNeedsQuietStretch` | crates/yams-service/src/service.rs:449-465 | the idle timeout fires only after a continuous stretch, at least as long as the timeout, with no active work, no pending admission and no progress |
| `Service.IdleShutdownIsClean` | crates/yams-service/src/service.rs:449-465 | a shutdown triggered by idleness rejects nothing more, is never stuck and accounts for every connection |
| `Service.QueueOrderAndPunctuality` | crates/yams-service/src/service.rs:302-443 | at every point of every run the queue is in acceptance order with nondecreasing deadlines, and a request runs only if its frame was read before its own deadline |
| `Service.EvictedExpiresFirst` | crates/yams-service/src/service.rs:428-441 | a fresh connection pushes a waiting one out only at the cap, and then the one that has waited longest and would expire first |
| `Service.ActingRefusesExactlyWhen` | crates/yams-service/src/service.rs:302-428 | with the token open, the connection acted on is refused if and only if its deadline has passed, it is broken, or it is complete while eight workers are active |
| `Service.CompleteRequestRuns` | crates/yams-service/src/service.rs:330-405 | in every run, a complete request in time, fresh or queued, with a worker free and the token open is running after three steps of the loop thread, whatever is interleaved short of a `request()` |
| `Service.PromptRequestRuns` | crates/yams-service/src/service.rs:330-405 | from the poll: a request that is there when it is polled and stays within its deadline is running after seven steps |
| `Service.PromptConnectionRuns` | crates/yams-service/src/service.rs:371-405 | from listening: the next connection of a valid peer whose request is there within two seconds is running after nine steps |
| `Service.LateOrBrokenRequestIsRefused` | crates/yams-service/src/service.rs:302-428 | a broken request, or one whose deadline has passed before it is read or by the check after the read, is refused after three steps |
| `Service.ScanPollsEveryPending` | crates/yams-service/src/service.rs:302-365 | every admission that waits when a scan begins is polled before the scan ends, whatever is removed on the way |
| `Service.TurnIsBounded` | crates/yams-service/src/service.rs:277-466 | from any point of any run the loop thread is back at the head of its loop, or has left it, within 600 of its own steps |
| `Service.QuietStretchShutsDown` | crates/yams-service/src/service.rs:449-465 | conversely, after a quiet stretch as long as the timeout the idle point closes the token |
| `Service.RestingServiceShutsDown` | crates/yams-service/src/service.rs:449-465 | a service at rest that finds neither a connection nor an error for the timeout closes its token within seven more steps of the loop thread |
| `Service.InvalidPeerIsRefused` | crates/yams-service/src/service.rs:371-385 | a connection whose peer is not valid is refused for good, and is no progress |
| `Service.AbortsExactlyWhen` | crates/yams-service/src/service.rs:371-465 | the loop thread gives up if and only if the listener, the accepted stream or the idle wait fails |
| `ServiceLoop.Server.Await` | crates/yams-service/src/service.rs:734-776 | between two steps of the loop thread any worker, caller or clock event may happen, and only those change the shared state |
| `ServiceLoop.Server.DrainCompletions` | crates/yams-service/src/service.rs:279-283 | the completion loop takes the machine's drain steps until none is left |
| `ServiceLoop.Server.WindDown` | crates/yams-service/src/service.rs:285-300 | refusing the queue and leaving or waiting takes the machine's closing steps |
| `ServiceLoop.Server.Poll` | crates/yams-service/src/service.rs:679-694 | a poll with its two deadline checks takes the machine's polling steps |
| `ServiceLoop.Server.Execute` | crates/yams-service/src/service.rs:330-345 | reserve, spawn and count follow the machine; a closed token refuses and restarts the loop |
| `ServiceLoop.Server.ScanPending` | crates/yams-service/src/service.rs:302-365 | the index loop with removals in the middle of the queue follows the machine |
| `ServiceLoop.Server.AcceptOne` | crates/yams-service/src/service.rs:371-447 | accepting, checking, polling and admitting or queueing one connection follows the machine |
| `ServiceLoop.Server.ObserveIdle` | crates/yams-service/src/service.rs:449-465 | the idle branches follow the machine |
| `ServiceLoop.Server.Turn` | crates/yams-service/src/service.rs:277-466 | one turn of the loop, with every `continue`, follows the machine |
| `ServiceLoop.LeavingIsFinal` | crates/yams-service/src/service.rs:285-300 | once the loop has left, no later event changes its report |
| `ServiceLoop.ServeUntil` | crates/yams-service/src/service.rs:246-467 | the structured loop reports exactly when the machine leaves, with the machine's counters: clean reports balance, stuck ones fall short |
| `Frame.FrameReader.Want` | crates/yams-protocol/src/frame.rs:87-97 | the number of bytes the frame still needs |
| `Frame.FrameReader.Feed` | crates/yams-protocol/src/frame.rs:99-145 | the verdict and the new contents depend only on the bytes; a failing feed leaves the reader unchanged |
| `Frame.FrameReader.Completed` | crates/yams-protocol/src/frame.rs:147-151 | a body exactly when a whole frame was received, and then that body |
| `Frame.FragmentationAgrees` | crates/yams-protocol/src/frame.rs:69-198 | feeding any fragmentation agrees with the one-shot reader on the concatenation |
| `Frame.WantedReadNeverOverruns` | crates/yams-protocol/src/frame.rs:87-145 | a read bounded by `want` never takes a byte of the next frame and completes exactly at 4 + declared bytes |
| `Frame.ReadExact` | crates/yams-protocol/src/frame.rs:355-369 | under any schedule success means exactly the next bytes were taken, and it succeeds if and only if the stream has them and the schedule carries them |
| `Frame.ReadFrame` | crates/yams-protocol/src/frame.rs:170-187 | under any schedule a successful read is the one-shot reader's body and leaves the rest; it succeeds if and only if there is a frame and the schedule carries its header and its body |
| `Frame.WriteAll` | crates/yams-protocol/src/frame.rs:371-385 | under any schedule the bytes that left are a prefix of the input, and all of it exactly on success, which is exactly when the schedule carries them |
| `Frame.WriteFrame` | crates/yams-protocol/src/frame.rs:190-202 | a body over the limit sends nothing; otherwise what left is a prefix of the encoding, and it succeeds if and only if the schedule carries header and body |
| `Frame.CarriedExactlyWhen` | crates/yams-protocol/src/frame.rs:355-385 | a schedule carries bytes if and only if some beginning of it only moves bytes and is interrupted, and moves enough: an interruption alone never fails a transfer |
| `Frame.FrameRoundTrip` | crates/yams-protocol/src/frame.rs:170-202 | an encoded frame reads back as its body and leaves what follows |
| `Frame.ReadFrameIsEncoded` | crates/yams-protocol/src/frame.rs:170-202 | conversely every frame that reads is the encoding of its body |
| `Frame.FramesRoundTrip` | crates/yams-protocol/src/frame.rs:170-202 | the encodings of any list of bodies read back as the same bodies, whatever follows them |
| `Frame.WriteFrames` | crates/yams-protocol/src/frame.rs:190-202 | under any schedule a writer has sent some whole frames and a proper part of the next, none of it if that one is too large |
| `Frame.WriteThenRead` | crates/yams-protocol/src/frame.rs:170-202 | frames written under any schedule and read under any other: the bodies read are the first of those written, all of them if the reader succeeds, and the reader succeeds only if the writer did |
| `Frame.PollReader` | crates/yams-service/src/service.rs:696-718 | the polling loop computes `PolledBy`, holds exactly the next bytes of the stream and finishes with the first frame |
| `Frame.PollTakesItsFrame` | crates/yams-service/src/service.rs:696-718 | a poll never takes a byte beyond its frame, completes with that frame, and fails only on a hard error, the end of the stream or an oversized declaration |
| `Frame.PollEndsExactlyWhen` | crates/yams-service/src/service.rs:696-718 | with a whole frame on its way the poll completes if and only if the schedule brings it before anything blocks or breaks, and is incomplete if and only if something blocks first |
| `Bytes.BigEndianRoundTrip` | crates/yams-protocol/src/frame.rs:190-202 | a length that fits its field is recovered from its big-endian bytes |
| `Bytes.MostSignificantFirst` | crates/yams-protocol/src/frame.rs:190-202 | the first byte is the most significant one |
| `Client.PollUntil` | crates/yams-protocol/src/frame.rs:684-706 | the retry loop computes the outcome of waiting, deadline included |
| `Client.WriteAllNonblocking` | crates/yams-protocol/src/frame.rs:625-649 | the write loop computes `Written`, including the check after the last byte |
| `Client.DeadlineMeansUnsentOrLate` | crates/yams-protocol/src/frame.rs:625-649 | the writer fails with a byte unsent exactly when the last byte never moves; otherwise the next clock reading alone decides between success and a deadline error after delivery |
| `Client.ReadFrameNonblocking` | crates/yams-protocol/src/frame.rs:652-681 | the loop around the frame reader computes `ReadBy` |
| `Client.ReadByIsOneShot` | crates/yams-protocol/src/frame.rs:652-681 | a response that is read is the first frame of the peer's bytes and nothing after it is taken |
| `Client.ReadByExactlyWhen` | crates/yams-protocol/src/frame.rs:652-681 | a response is read if and only if, on the script alone, its frame arrives before a late reading and the reading after its last byte is in time |
| `Client.ReceivedByIsOneShot` | crates/yams-cli/src/client.rs:129-186 | a completion that is received is the body of the first frame of the bytes left in the stream |
| `Client.ReceivedByExactlyWhen` | crates/yams-cli/src/client.rs:129-186 | a completion is received if and only if, on the script alone, its frame arrives in time |
| `Client.ExchangeStages` | crates/yams-protocol/src/frame.rs:297-337 | the read phase starts only after the whole frame was written, a deadline error never comes from it and comes after the last byte exactly when the next reading is late, and an accepted reply is the decoded first frame of the peer |
| `Client.ExchangeExactlyWhen` | crates/yams-protocol/src/frame.rs:297-337 | the exchange succeeds if and only if the request leaves and the first frame of the peer answers it in time and decodes, and then it is that message |
| `Client.DirectOnlyBeforeDelivery` | crates/yams-cli/src/client.rs:57-127 | direct execution is authorized only in runs that never entered the response-read phase, and with fewer bytes written than the frame has unless the first clock reading after the last byte was late |
| `Client.DirectAfterDeliveryExactlyWhenLate` | crates/yams-cli/src/client.rs:57-127 | it is authorized after the whole frame was written if and only if, running the writes alone, the last byte moves and the next clock reading is past the deadline |
| `Client.LateDeliveryExists` | crates/yams-protocol/src/frame.rs:641-648 | for every request that fits, such a run exists |
| `Client.DirectExactlyWhen` | crates/yams-cli/src/client.rs:57-127 | direct execution is authorized if and only if the query is too long, no service is there, or the service was reached and, on the script alone, the clock runs out before the request is written |
| `Client.SuccessIsACompleteConversation` | crates/yams-cli/src/client.rs:57-127 | success needs an acceptance frame and then a completion with the accepted id |
| `Client.DoneExactlyWhen` | crates/yams-cli/src/client.rs:57-127 | success if and only if the first two frames are an acceptance and a completion with its id, and the script delivers both in time |
| `Argv.ParseArgv` | crates/yams-protocol/src/message.rs:90-159 | the index loop computes the recursive meaning of an argument vector |
| `Argv.ScanComposes` | crates/yams-protocol/src/message.rs:90-159 | arguments act one after the other, so a later one overrides an earlier one |
| `Argv.KindFlagsMean` | crates/yams-protocol/src/message.rs:90-159 | what each flag that chooses the operation means, after any arguments |
| `Argv.OptionsMean` | crates/yams-protocol/src/message.rs:90-159 | what each switch and each option with a value means, after any arguments |
| `Argv.MissingValueClears` | crates/yams-protocol/src/message.rs:90-159 | an option whose value is missing at the end clears it, except that `-k` keeps the value it had |
| `Argv.SeparatorTakesLast` | crates/yams-protocol/src/message.rs:90-159 | behind the separator only the last argument counts, and it is the query whatever it looks like |
| `Argv.OtherArguments` | crates/yams-protocol/src/message.rs:90-159 | before it an argument that is no option is the query, or ignored if it looks like one |
| `Argv.PrintArgv` | crates/yams-cli/src/client.rs:310-350 | the pushes build the printed vector of a request, or none for a write |
| `Argv.ScanPrinted` | crates/yams-cli/src/client.rs:283-350 | scanning a printed request restores every field, whatever option-like text its values hold; only a saturated `k` differs |
| `Argv.ArgvRoundTrip` | crates/yams-cli/src/client.rs:283-350 | printing and scanning gives the typed operation if and only if no value is literally `--write` and `k` is unsaturated |
| `Argv.DecimalDenotes` | crates/yams-cli/src/client.rs:283-350 | a printed count is a decimal spelling that denotes it, without leading zeros |
| `Argv.SearchForWriteFlagIsRefused` | crates/yams-protocol/src/message.rs:90-92 | a search for the text `--write` is refused although it is not a write |
| `Vectors.ParseKey` | crates/yams-store/src/vector.rs:57-80 | the digit loop parses, or names the length or the first bad digit |
| `Vectors.HexRoundTrip` | crates/yams-store/src/vector.rs:45-72 | every printed key parses to itself |
| `Vectors.HexIsCanonical` | crates/yams-store/src/vector.rs:45-72 | every text that parses is the one spelling of its key |
| `Vectors.ParseFailsExactlyWhen` | crates/yams-store/src/vector.rs:57-80 | a text is refused if and only if it has not 64 characters, or for its first pair that is not two lowercase hexadecimal digits |
| `Vectors.PreimageIsInjective` | crates/yams-store/src/vector.rs:83-104 | the hashed bytes determine signature, role and text |
| `Vectors.PreimageReads` | crates/yams-store/src/vector.rs:83-104 | the hashed bytes read back as the signature, the label `passage` or `query`, and the text, each behind its 64-bit length |
| `Vectors.KeysAreContentAddresses` | crates/yams-store/src/vector.rs:83-104 | equal keys come from equal inputs or exhibit a digest collision |
| `Vectors.EncodedKeyBatches` | crates/yams-store/src/vector.rs:563-577 | batches lose and reorder nothing, fit a statement, and only the last is short |
| `Vectors.VectorCache.InsertBatch` | crates/yams-store/src/vector.rs:355-402 | all or nothing: every record is stored and no existing row changes, or no row changes at all; read as a map from keys, the table follows the insertion step of the collection protocol |
| `Vectors.VectorCache.Missing` | crates/yams-store/src/vector.rs:318-353 | for any number of keys, exactly the requested keys that are absent |
| `Vectors.VectorCache.GetMany` | crates/yams-store/src/vector.rs:404-457 | the restriction of the table to the requested keys, or an error exactly when one of those rows is unreadable |
| `Vectors.VectorCache.SweepSnapshot` | crates/yams-store/src/vector.rs:477-530 | deletes exactly stored and initial and not referenced, reports every row once, and deletes nothing if a row's hash is not a key; read as a map from keys, table and report follow the sweep step of the collection protocol |
| `Vectors.InsertedTable` | crates/yams-store/src/vector.rs:355-402 | rows added by hash are, by key, exactly the missing records |
| `Vectors.SweptTable` | crates/yams-store/src/vector.rs:477-530 | rows deleted by hash are, by key, exactly the doomed ones |
| `Gc.ReferencesStayCached` | crates/yams-store/src/vector.rs:199-205 | in every interleaving of lease-holding synchronizers, collectors and readers every published reference stays cached |
| `Gc.CollectionIsExact` | crates/yams-store/src/management.rs:453-494 | a collection that reaches its sweep leaves exactly the referenced keys with unchanged rows and reports kept + removed = stored |
| `Gc.CollectionCompletes` | crates/yams-store/src/management.rs:453-494 | left alone with a sound cache and readable indexes, a collection reaches its sweep in whatever order it visits them |
| `Gc.FreeLeaseIsGranted` | crates/yams-store/src/secure.rs:611-665 | a lease is granted if and only if no conflicting one is held, and a synchronizer's second one only to an up-to-date checked plan |
| `Gc.SharedLeaseFreezesContent` | crates/yams-store/src/secure.rs:611-665 | while a shared lease is held neither the cache nor any reference changes |
| `Gc.LateKeysSurvive` | crates/yams-store/src/management.rs:453-494 | whatever any writer does, a key stored after the initial snapshot survives that sweep |
| `Gc.UnreadableIndexStopsTheSweep` | crates/yams-store/src/management.rs:713-731 | an epoch that met an unreadable index deletes nothing |
| `Gc.EarlyReferencesSurvive` | crates/yams-store/src/management.rs:453-494 | a reference published by anyone before the second pass, and kept, is spared |
| `Gc.SweepIsSafeExactlyWhen` | crates/yams-store/src/management.rs:453-494 | a sweep keeps every reference cached if and only if each was seen by a pass or stored after the snapshot |
| `Gc.SnapshotIsSafeExactlyWhen` | crates/yams-store/src/management.rs:453-494 | taking the snapshot keeps publication if and only if the cache was readable or nothing is referenced, since quarantine empties it |
| `Gc.LeaselessPublicationCanDangle` | crates/yams-store/src/vector.rs:199-205 | a run whose only uncooperative events are publications without the lease ends with a dangling reference |
| `Gc.UnseenKeyDangles` | crates/yams-store/src/management.rs:453-494 | publishing a snapshot key that no pass saw, between the passes and the sweep, always dangles it |
| `Gc.RunKeepsDiscipline` | crates/yams-store/src/sync.rs:633-784 | in every run, whatever uncooperative writers or a damaged cache do, a plan of the current generation describes the index and verified keys are stored |
| `Gc.CommitPublishes` | crates/yams-store/src/sync.rs:800-853 | in every reachable state a commit makes the project's references exactly the old ones less the dropped plus the requested, advances the generation by one, changes no other index and gives up the lease |
| `Gc.PlannedReferencesArePublished` | crates/yams-store/src/sync.rs:633-853 | whatever anyone does between the planning and the commit, the commit drops exactly what the plan was to drop and publishes everything it was made for, beyond it only reused references |
| `Gc.CommittedKeysStay` | crates/yams-store/src/sync.rs:633-853 | end to end among cooperating processes: every requested key of a committed plan is referenced and cached after any later run that publishes nothing else for the project |
| `Gc.SyncCompletes` | crates/yams-store/src/sync.rs:633-853 | left alone with a sound cache and a readable index, a synchronization reaches its commit with everything it keeps and requests stored |
| `Gc.CommitIsCompleteExactlyWhen` | crates/yams-store/src/sync.rs:785-853 | a commit leaves its project's references cached if and only if those it keeps without having stored them are cached |
| `Gc.CompletedSyncExactlyWhen` | crates/yams-store/src/sync.rs:633-853 | over any run between the two lease epochs, the commit leaves every reference of the project cached if and only if no key found by the first epoch has vanished and the uninspected references are cached |
| `Gc.CooperativeSyncIsComplete` | crates/yams-store/src/sync.rs:633-853 | in every run of cooperating processes a completed synchronization leaves every reference of its project cached |
| `Gc.QuarantineBetweenEpochs` | crates/yams-store/src/management.rs:453-475 | after a quarantine between the epochs the synchronization still commits, and is complete if and only if it stores again everything it keeps |
| `Gc.QuarantineBetweenEpochsDangles` | crates/yams-store/src/sync.rs:633-655 | a concrete run in which it commits and leaves its own reference dangling |
| `Rank.DenseRankIsBest` | crates/yams-core/src/rank.rs:193-225 | one entry per page, its maximal-cosine chunk with the smallest id on ties, in descending order, no page lost |
| `Rank.DenseOrderIs` | crates/yams-core/src/rank.rs:193-225 | pages stand in the order of their best cosine, then of their paths; a page's chunk has the largest cosine, then the smallest ordinal |
| `Rank.BaselineBoundsScores` | crates/yams-core/src/rank.rs:193-225 | the first dense score bounds every dense score |
| `Rank.RrfExplained` | crates/yams-core/src/rank.rs:283-324 | the nested loops record, for each page, its share from every source that ranks it and their sum; invalid weights are refused |
| `Rank.OnePerSource` | crates/yams-core/src/rank.rs:283-324 | at most one contribution per source, in source order |
| `Rank.FusionIsExplained` | crates/yams-core/src/rank.rs:501-509 | the explained map for the shipped sources holds exactly the fused pages with their scores |
| `Rank.OrderIsDense` | crates/yams-core/src/rank.rs:456-532 | the fused order holds exactly the candidates of both sources, all of them dense |
| `Rank.OrderFitsDense` | crates/yams-core/src/rank.rs:456-532 | the fused order is never longer than the dense ranking, so the search's limit cuts nothing |
| `Rank.OrderIsUnique` | crates/yams-core/src/rank.rs:509-531 | it is the only arrangement by total descending, then page ascending |
| `Rank.LexicalPagesAre` | crates/yams-core/src/rank.rs:456-500 | the lexical source is the first chunk of each of the first twenty-five pages of the stream, in stream order |
| `Rank.UsableIsFilter` | crates/yams-core/src/rank.rs:456-500 | the usable pages are those of them with a dense entry, in the same order |
| `Rank.FusedTotalIsBothShares` | crates/yams-core/src/rank.rs:501-509 | a total is the share of the dense rank within the candidates plus the share of the rank among the usable lexical pages |
| `Rank.FusedTotalBounds` | crates/yams-core/src/rank.rs:501-509 | so it is the dense share plus at most 0.2/61 |
| `Rank.TopCandidatesComeFirst` | crates/yams-core/src/rank.rs:456-532 | every dense top-25 page precedes every other page |
| `Rank.DisplacementIsBounded` | crates/yams-core/src/rank.rs:456-532 | a page whose dense share exceeds another's by more than 0.2/61, or by exactly that with the smaller path, precedes it under every lexical stream |
| `Rank.ReachIsTaken` | crates/yams-core/src/rank.rs:456-532 | otherwise some lexical stream of dense chunks puts both in the order and the other one first |
| `Rank.DisplacementExactlyWhen` | crates/yams-core/src/rank.rs:456-532 | a page stays ahead under every lexical stream if and only if the dense shares differ by that much |
| `Rank.RankBoundHoldsExactlyForCandidates` | crates/yams-core/src/rank.rs:456-532 | for ranks with 1/(60+r) - 1/(60+s) > 0.2/61, rank r stays ahead of rank s under every lexical stream if and only if r <= 25 |
| `Rank.RankTwentySixIsOvertaken` | crates/yams-core/src/rank.rs:456-532 | among sixty pages, rank 60 precedes rank 26 when both match and it matches better |
| `Rank.FirstIsWithinSixteen` | crates/yams-core/src/rank.rs:456-532 | the first fused page has dense rank at most 16 |
| `Rank.SixteenIsTight` | crates/yams-core/src/rank.rs:456-532 | rank 16 does lead as soon as it alone matches lexically |
| `Rank.HybridFollows` | crates/yams-core/src/rank.rs:456-532 | every returned entry carries its page's dense rank, and the entries follow the fused order, or the dense one if no lexical page is usable |
| `Rank.HybridLexical` | crates/yams-core/src/rank.rs:509-532 | a fused entry names its page's first lexical chunk and place if and only if the page is among the lexical ones; a dense-only entry names none |
| `Rank.HybridTopComesFirst` | crates/yams-core/src/rank.rs:456-532 | fused or not, every dense top-25 page is returned before every other page |
| `Rank.HybridFirstIsWithinSixteen` | crates/yams-core/src/rank.rs:456-532 | fused or not, the first returned page has dense rank at most 16 |
| `Rank.HybridDisplacementExactlyWhen` | crates/yams-core/src/rank.rs:456-532 | a page is returned ahead of another under every lexical stream and every limit if and only if the dense shares differ by more than 0.2/61, page order breaking a tie |
| `Select.SingleTokenIsOneRun` | crates/yams-core/src/select.rs:335-357 | there is a single token exactly when the identifier bytes form one run, and it is that run |
| `Select.ScanSingleToken` | crates/yams-core/src/select.rs:335-357 | the byte scan that gives up at the second token computes it |
| `Select.ContainsExactlyWhen` | crates/yams-core/src/select.rs:359-374 | a text contains a token if and only if it is the token with text around it that does not touch it with an ASCII letter, digit or underscore |
| `Select.RescuableExactlyWhen` | crates/yams-core/src/select.rs:302-333 | a token is narrow enough if and only if some byte of it is an underscore, a digit, or a capital behind a small first letter |
| `Select.ExactMatchMeaning` | crates/yams-core/src/select.rs:302-333 | the rescue fires if and only if one page contains the token, it leads the lexical ranking, and the chunk is its first that does |
| `Select.FillSlots` | crates/yams-core/src/select.rs:590-611 | the slot changes made in place; appending is never needed |
| `Select.ShownIsBounded` | crates/yams-core/src/select.rs:571-611 | the swap keeps the number of slots, marks nothing but the matched page, and always holds it when it was ranked |
| `Select.SelectedIsRanked` | crates/yams-core/src/select.rs:571-589 | hits stand in the order of final ranks, and a page's hit is its best-ranked entry |
| `Select.ShownIsPrefix` | crates/yams-core/src/select.rs:590-611 | the slots are the first selected hits, except that the last may be an exact match from further down; only the exact match is marked |
| `Select.ApplyGate` | crates/yams-core/src/select.rs:665-746 | the loop computes the kept hits and the whole verdict |
| `Select.MaximumScore` | crates/yams-core/src/select.rs:748-752 | the loop computes the largest score |
| `Select.GatePartitions` | crates/yams-core/src/select.rs:665-746 | every hit is kept or dropped, once and in order; nothing exact is dropped and every rescue is kept |
| `Select.KeptExactlyWhen` | crates/yams-core/src/select.rs:665-746 | a shown hit is kept if and only if it is exact, or the baseline reaches the floor and no shown hit scores more than the gap above it |
| `Select.VerdictTells` | crates/yams-core/src/select.rs:665-746 | the verdict names every dropped hit once and in order under the rule that dropped it, every rescue, and the best score left |
| `Select.GateIsMonotone` | crates/yams-core/src/select.rs:665-746 | raising the gap or lowering the floor only keeps more, in the same order |
| `Select.GateEmptiesExactlyWhen` | crates/yams-core/src/select.rs:665-746 | the gate empties nonempty slots if and only if the floor fires and nothing is exact |
| `Select.ExactSurvives` | crates/yams-core/src/select.rs:665-746 | an exact hit survives both gate branches |
| `Select.Select` | crates/yams-core/src/select.rs:556-636 | the method succeeds if and only if the signals are valid and a baseline is present, and then concludes from the slots; otherwise it names the first invalid hit or the missing baseline |
| `Select.ValidateHit` | crates/yams-core/src/select.rs:754-774 | the loop accepts exactly hits with positive ranks and nonnegative weights |
| `Select.NewConfig` | crates/yams-core/src/select.rs:31-56 | a configuration is accepted if and only if its floor is a cosine and its gap is not negative |
| `Select.UnsureExactlyWhen` | crates/yams-core/src/select.rs:556-636 | with a slot and a ranked page, Unsure exactly when the gate applies, the baseline is below the floor and nothing shown is exact |
| `Select.ExactMatchIsReturned` | crates/yams-core/src/select.rs:556-636 | a ranked exact match is returned, marked, with exit Ok and no more hits than slots |
| `Snippet.Collapse` | crates/yams-core/src/snippet.rs:217-232 | the loop computes the collapsed text |
| `Snippet.CollapseKeepsText` | crates/yams-core/src/snippet.rs:217-232 | every visible character survives in order, only single inner spaces remain, and collapsing is idempotent |
| `Snippet.CollapseKeepsWords` | crates/yams-core/src/snippet.rs:217-232 | whitespace between two parts becomes exactly one space, unless one of them is blank: words stay apart and stay whole |
| `Snippet.CanonicalTerms` | crates/yams-core/src/snippet.rs:238-258 | accepted if and only if every term is valid and equal names have equal weights, and the ordered list the loop builds is the canonical one |
| `Snippet.StrictIsUnique` | crates/yams-core/src/snippet.rs:238-258 | only one list in strict name order has given members |
| `Snippet.CanonicalIsStrict` | crates/yams-core/src/snippet.rs:238-258 | the canonical terms are the lowercase terms, strictly ordered by name |
| `Snippet.LoweredJoins` | crates/yams-core/src/snippet.rs:238-258 | lowercasing works character by character |
| `Snippet.TermSpans` | crates/yams-core/src/snippet.rs:267-299 | exactly the whole-word, case-insensitive occurrences of the weighted terms |
| `Snippet.WholeWordsOccur` | crates/yams-core/src/snippet.rs:267-299 | a word of equal lowercase characters is an occurrence if and only if no identifier character touches it |
| `Snippet.CoversExactlyWhen` | crates/yams-core/src/snippet.rs:327-338 | a window covers a term if and only if an occurrence of it lies inside |
| `Snippet.ScoresDiffer` | crates/yams-core/src/snippet.rs:327-338 | covering one more term adds exactly its weight, however often it occurs |
| `Snippet.Snap` | crates/yams-core/src/snippet.rs:305-325 | the window fits the width, starts at the word the start falls in, and ends at the last space within the width, or at the width if there is none, or at the end of the text |
| `Snippet.CenteredBalances` | crates/yams-core/src/snippet.rs:183-201 | a span that fits is inside the window before snapping and centred up to one character, unless the text ends too close to it |
| `Snippet.WideSpanStartsWindow` | crates/yams-core/src/snippet.rs:183-201 | a window for a span that does not fit starts with it, or ends with the text |
| `Snippet.CandidateHoldsSpanExactlyWhen` | crates/yams-core/src/snippet.rs:183-325 | a candidate window holds its own span if and only if the span still fits after the start has moved back to a word and the end is not moved back to a space before it |
| `Snippet.CandidateCanMissSpan` | crates/yams-core/src/snippet.rs:183-325 | a concrete text and a term that fits, for which the candidate window does not hold it |
| `Snippet.Choose` | crates/yams-core/src/snippet.rs:183-201 | the head window unless some candidate beats head + gain, and then the earliest candidate of maximal score |
| `Snippet.MakeSnippet` | crates/yams-core/src/snippet.rs:145-202 | for valid inputs and only those, a contiguous nonempty slice of the collapsed text of at most `width` characters with exact clip flags, chosen as above |
| `Search.IndexChunks` | crates/yams-core/src/search.rs:349-361 | accepts exactly distinct chunks of known pages and builds their index |
| `Search.ValidateDense` | crates/yams-core/src/search.rs:516-539 | accepts exactly when every chunk has exactly one dense candidate and no other candidate exists |
| `Search.ValidateLexical` | crates/yams-core/src/search.rs:541-582 | accepts exactly known distinct chunks with consecutive ranks and nondecreasing BM25 |
| `Search.ValidateStatistics` | crates/yams-core/src/search.rs:584-613 | accepts exactly matching counts and, for a corpus, the query's term set without duplicates |
| `Search.RankedIsSelectable` | crates/yams-core/src/search.rs:380-424 | the ranking of a well-formed request names only loaded chunks and is never refused by selection |
| `Search.ComposeSearch` | crates/yams-core/src/search.rs:340-514 | answers exactly the well-formed requests with usable snippet weights, with the outcome of selection, explanations and faithful snippets |
| `Search.LeaderIsRanked` | crates/yams-core/src/search.rs:434-444 | the lexical leader is always in the fused ranking |
| `Search.ExactMatchAlwaysReturned` | crates/yams-core/src/search.rs:362-473 | end to end: if the exact-identifier match finds a page, then for every k >= 1, floor and gap the response holds it marked exact, with exit Ok |
| `Search.EveryHitIsExplained` | crates/yams-core/src/search.rs:496-506 | every returned hit, gated or not, has the explanation it was ranked with |
| `Search.OutcomeIsShown` | crates/yams-core/src/search.rs:446-475 | the returned hits are a subsequence of the ungated hits |
| `Search.ShownFollowsRanking` | crates/yams-core/src/search.rs:446-475 | the slots show the best-ranked pages in ranked order; only the last may instead show an exact match ranked below them |
| `Search.LeftOutRanksLower` | crates/yams-core/src/search.rs:446-475 | whatever is ranked and not shown is ranked below every page shown in its place |
| `Search.HitsFollowRanking` | crates/yams-core/src/search.rs:446-506 | of two returned hits the first is the better-ranked page, unless the second is exact |
| `Search.HitsQuoteTheirChunk` | crates/yams-core/src/search.rs:446-506 | every returned hit quotes the loaded text of the exact match's chunk, else of its first lexical chunk, else of its best dense chunk, with its own rounded dense score and its explanation |
| `Search.ExplanationTells` | crates/yams-core/src/search.rs:380-424 | an explanation holds the page's dense place, its place among the lexical pages and, if the ranking was fused, the total of both shares |
| `Search.BaselineBoundsResponse` | crates/yams-core/src/search.rs:453-495 | the baseline bounds every returned score, and every returned text is a chunk of the returned page |
| `Search.BaselineIsBestScore` | crates/yams-core/src/search.rs:453-495 | the baseline is the rounded score of the best chunk of the corpus, and there is none exactly for an empty corpus |
| `Search.UnsureResponseExactlyWhen` | crates/yams-core/src/search.rs:446-475 | for a nonempty corpus and k >= 1 the exit is Unsure exactly when the gate applies, the baseline is below the floor and nothing shown is exact |
| `Chunk.LogicalLines` | crates/yams-core/src/chunk.rs:149-171 | the cursor loop computes the lines, a carriage return and line feed being one break |
| `Chunk.LinesAreTheTiling` | crates/yams-core/src/chunk.rs:149-171 | a list of lines tiles the text with whole breaks, the last line possibly without one, if and only if it is that list |
| `Chunk.SplitParagraphs` | crates/yams-core/src/chunk.rs:133-184 | the loop computes the paragraphs; a paragraph of nonblank lines is never empty |
| `Chunk.BlankEndsParagraph` | crates/yams-core/src/chunk.rs:133-147 | a blank line ends the paragraph of the lines before it |
| `Chunk.ParagraphIsItsLines` | crates/yams-core/src/chunk.rs:173-184 | a paragraph is its lines with single line feeds between them, without the whitespace before the first and after the last |
| `Chunk.ParagraphsAreTidy` | crates/yams-core/src/chunk.rs:133-184 | every paragraph has visible ends and no empty line, and together they keep every visible character in order |
| `Chunk.HardWrap` | crates/yams-core/src/chunk.rs:186-200 | the visited parts are the 1200-character cuts of the line |
| `Chunk.WrappedRebuilds` | crates/yams-core/src/chunk.rs:186-200 | the parts concatenate to the line, all but the last have exactly 1200 characters and none is empty |
| `Chunk.AppendPiece` | crates/yams-core/src/chunk.rs:76-100 | the loop adds boundary and text as one piece, terminates, and never takes the flush for a boundary |
| `Chunk.AddAppends` | crates/yams-core/src/chunk.rs:76-100 | adding a piece keeps the size bounds and appends exactly the piece |
| `Chunk.AddExactly` | crates/yams-core/src/chunk.rs:76-100 | a piece stays pending below 400 characters, closes its chunk from 400 to 1200, and beyond is cut where the chunk has exactly 1200 |
| `Chunk.ChunkText` | crates/yams-core/src/chunk.rs:31-57 | the nested loops add every piece of every line of every paragraph in order |
| `Chunk.ChunksRebuildParagraphs` | crates/yams-core/src/chunk.rs:31-100 | the chunks concatenate to the paragraphs joined by blank lines |
| `Chunk.ChunksKeepVisible` | crates/yams-core/src/chunk.rs:31-200 | the non-whitespace characters of the input survive in order |
| `Chunk.ChunkSizes` | crates/yams-core/src/chunk.rs:31-100 | every chunk has 1 to 1200 characters and all but the last at least 400 |
| `Frontmatter.AppendExplicit` | crates/yams-core/src/frontmatter.rs:55-89 | the second stage appends what one pass finds in the native line |
| `Frontmatter.LinesWithSeparators` | crates/yams-core/src/frontmatter.rs:27-53 | two-stage splitting equals one pass over the full separator set |
| `Frontmatter.TilingIsOnePass` | crates/yams-core/src/frontmatter.rs:27-104 | a list of lines tiles the text with separator-free contents and whole separators if and only if it is that pass |
| `Frontmatter.LinesRebuildSource` | crates/yams-core/src/frontmatter.rs:27-104 | contents plus separators rebuild the source |
| `Frontmatter.SeparatorsAre` | crates/yams-core/src/frontmatter.rs:55-104 | the separators are exactly the ten of `str.splitlines` |
| `Frontmatter.PairedSeparator` | crates/yams-core/src/frontmatter.rs:55-104 | only a carriage return with its line feed is a separator of two characters |
| `Frontmatter.ParseFrontmatter` | crates/yams-core/src/frontmatter.rs:125-175 | the loops compute what the page means: the fields and body of a leading block, or the untouched source |
| `Frontmatter.BlockExactlyWhen` | crates/yams-core/src/frontmatter.rs:125-160 | a block is a first line that is the fence, the next line that is the fence, and readable fields between, at least one |
| `Frontmatter.FieldsExactlyWhen` | crates/yams-core/src/frontmatter.rs:125-160 | lines are read if and only if none is blank, each is a field or a continuation and a continuation does not come first; every key has the value of its last field line |
| `Frontmatter.FieldLineExactlyWhen` | crates/yams-core/src/frontmatter.rs:106-115 | a line is a field if and only if it is a valid key, a colon and a value, which is trimmed |
| `Frontmatter.ValidKeyExactlyWhen` | crates/yams-core/src/frontmatter.rs:106-115 | a key is an ASCII letter or underscore followed by ASCII letters, digits, underscores, dots and hyphens |
| `Frontmatter.PrintedValueReads` | crates/yams-core/src/frontmatter.rs:117-122 | every plain value, printed bare or in quotes, reads back as itself |
| `Frontmatter.UnquoteTakesQuotes` | crates/yams-core/src/frontmatter.rs:117-122 | two equal quotes around anything are taken off, once; nothing else changes a value |
| `Frontmatter.PageIsSourceOrSuffix` | crates/yams-core/src/frontmatter.rs:125-184 | untouched source and no fields, or fields and a suffix of the source after its byte-order mark whose lines are the remaining ones from the first that is not empty |
| `Frontmatter.PageRoundTrip` | crates/yams-core/src/frontmatter.rs:106-175 | printed fields and body, every plain value being printable, quoted where it has to be, parse back to the same fields and exactly that body, with or without a byte-order mark |
| `Layout.ResolveAbsoluteWeak` | crates/yams-cli/src/layout.rs:260-310 | the loop with its recursion terminates and computes `Resolve` |
| `Layout.ResultIsLinkFree` | crates/yams-cli/src/layout.rs:260-310 | no prefix of a resolved path is a symbolic link |
| `Layout.ResolutionIsIdempotent` | crates/yams-cli/src/layout.rs:250-310 | resolving a resolved path returns it unchanged |
| `Layout.DotDotUndoesName` | crates/yams-cli/src/layout.rs:270-272 | a name followed by `..` leads back to where it started, if nothing on the way is a link |
| `Layout.DotDotStaysAtRoot` | crates/yams-cli/src/layout.rs:270-272 | the root is its own parent |
| `Layout.NameIsKept` | crates/yams-cli/src/layout.rs:273-310 | a name that is no link is kept, whether it exists or not |
| `Layout.LinkStandsForTarget` | crates/yams-cli/src/layout.rs:273-310 | a link stands for its target, walked from the root or from its own directory, and what remains is walked from there |
| `Layout.UnreadableIsReported` | crates/yams-cli/src/layout.rs:273-310 | an unreadable or inaccessible entry is reported with its path |
| `Layout.ChainResolvesUpToForty` | crates/yams-cli/src/layout.rs:260-310 | a chain of links resolves if and only if it has at most forty |
| `Layout.NestedRefinesWalk` | crates/yams-cli/src/layout.rs:260-310 | whenever a work-list resolver answers, the nested one gives the same answer or reports too many links |
| `Layout.EndlessLinksAreReported` | crates/yams-cli/src/layout.rs:260-310 | a resolution that never ends is reported as too many links |
| `Layout.TooManyLinksExactlyWhen` | crates/yams-cli/src/layout.rs:260-310 | too many links are reported if and only if more than forty links are open at once, each followed while the target of the one before it was still being walked |

## Left out

- Floating point: cosine arithmetic, `f32` normalization and rounding of sums; scores are exact reals.
- `query_terms`, `term_weights` and logarithms: the query's term set and the term weights are inputs of the search model.
- Page names and labels, which the kernel copies through unchanged.
- SQLite, FTS5, schema migration and integrity checks beyond atomic updates and snapshot reads.
- Quarantine's renaming of files: in the model it empties the cache.
- Which pages a plan replaces and what they embed to: a plan is its sets of dropped, reused and requested keys, and pages replaced for a missing reference request a set that holds at least the missing keys.
- The loops inside `gc_under_lease` and `live_keys` are steps of the shared state machine rather than methods, because other processes run between them.
- What a worker does with its request (`execute_request`, `bounded_completion`): a worker is live, then has released its slot.
- Message encoding with serde and command-line parsing with clap: frames carry bytes, and a decoder is a parameter.
- Blocking reads and writes with socket timeouts; the nonblocking forms the client uses are modelled.
- Windows path prefixes, tilde expansion and changes of the filesystem during a resolution.
- Descriptor pinning, ownership and mode checks, socket binding, the model cache, rendering, the wiki crate.
- Titles, embedding text and the chunk ordinal's 32-bit limit.
- Search.ComposeSearch: which of several faults an ill-formed request reports is not stated, only that it is refused.
- Snippet.MakeSnippet: the exact error of a refused input is not stated, only that it is refused.
