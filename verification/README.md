# A verified model of trstctl's enterprise core

This project models, in Dafny, the parts of trstctl whose guarantees range over whole inputs, whole runs or
every interleaving, and proves those guarantees for all of them:

- **KMIP** (`ee/kmip`): the TTLV codec and its limits, frames on a byte stream, request decoding and response
  encoding, the object store with key buffers on the heap, and the dispatch of a whole request batch.
- **Federation** (`ee/federation`): workers that copy peers' event logs, failing and interleaving at every call.
- **Metering** (`ee/billing`): the usage recorder's flushes against concurrent recording, and the daily rollup.
- **Fleet re-issuance and post-quantum migration** (`ee/fleet`, `ee/pqcmigration`): staged, resumable runs.
- **Managed keys** (`ee/managedkeys`), **break-glass access** (`ee/provider`) and **incident remediation**
  (`ee/incident`, with the blast radius of `internal/graph`): state machines whose promises are about call traces.
- **Path substitution** (`mcpRESTPath` in `internal/api`).

`dafny verify dfyconfig.toml` checks everything.

## How it is organised

Code that changes things step by step is a class or a method with loops, proved against a specification
function; what the source promises is then proved of that function. Where several callers or machines
interleave, the atomic operations form a transition system (`Do`, `Run`), its theorems hold for every sequence
of steps, and the class runs among arbitrary steps of everyone else. Collaborators whose code is elsewhere (a
key provider, an event sink, a health check, an auditor) are methods that answer anything their interface
allows, failures included. Where a promise is about which calls are made, they keep a journal of the calls they
got, and the caller's contract says what the journal holds. Clock readings are inputs.

| files | what they hold |
|---|---|
| `Bytes`, `Text`, `Names` | big-endian integers, Go strings as bytes, decimal numerals, lists of ids and their order |
| `Ttlv`, `TtlvParser` | the codec as functions with its theorems; the parser and encoder as they run |
| `Framing` | reading frames from a stream |
| `KmipMessages`, `KmipStore`, `KmipServer` | messages, the object store, the server |
| `KmipRequests`, `KmipPayloads` | which frames ask for what, and what a client's request decodes to |
| `KmipHistory`, `KmipClient` | what the store holds after any history; what a client reads in the answers |
| `Federation`, `FederationLog`, `FederationWorker` | the replication protocol; where the local log's events come from; a worker running in it |
| `Usage`, `Metering` | usage arithmetic; recorder and store |
| `MeteringRuns`, `MeteringRecords` | conservation over runs; what the records say beside their values |
| `MeteringSystem`, `Rollup` | recorder and store running among others; the daily rollup |
| `Fleet`, `FleetCalls`, `FleetRun` | traces and resumption; the calls behind a trace; a fleet run |
| `FleetRollback` | what rollbacks leave behind |
| `Migration` | a migration run |
| `ManagedKeys`, `ManagedKeyIndex`, `ManagedKeyService` | the key lifecycle over runs; the index as it is; the service on the heap |
| `ManagedKeyAnswers`, `ManagedKeyRaces` | records, replies and events against the provider's answers; destructive calls that overlap |
| `BreakGlass`, `BreakGlassRuns`, `BreakGlassService` | the grant protocol; its theorems; the calls |
| `BreakGlassActors` | who stands behind each entry of the log |
| `CredentialGraph`, `Incident` | the blast radius; remediation traces and the workflow |
| `PathSubst`, `PathValues` | route templates; whose values a path holds |
| `PathClash` | placeholders that get in each other's way |

## Where the code does not do what it says

Each of these is proved, with the exact condition under which the promise holds.

- TTLV: comparing a length with `uint32(MaxFrameSize)` is harmless exactly when the limit is below 2^32 or its
  low 32 bits are all ones (`Ttlv.LengthCapHarmless`).
- Framing: a stream cut right after an eight-byte header reads as a clean end (`Framing.CleanEndMeaning`).
- Federation: nothing is lost in every behaviour exactly when no two configured peers share an id, which `New`
  does not check (`Federation.SafeExactlyWhenIdsDistinct`). Every peer's events are first imported in the peer's
  order in every behaviour exactly when no peer purges (`Federation.InOrderExactlyWhenKept`): one purged while
  two workers run can arrive after its successor.
- Metering: usage is conserved for all totals up to a bound exactly when the bound fits an int64
  (`MeteringRuns.ConservationBoundIsExact`), and for a key exactly when no gauge is written to it
  (`MeteringRuns.ConservedExactlyWhenNotGauged`).
- Rollup: how records are grouped never matters, exactly when no key has records of both kinds
  (`Rollup.GroupingIsFreeExactlyWhenKindsAreFixed`).
- Fleet: the KRL of a completed run lists every target recorded under its run id exactly when no target was
  recorded before the run (`FleetRun.KrlIsCompleteExactlyWhenFirst`); `FleetRun.KrlOmitsEarlierRun` has the two
  runs after which one is missing.
- Fleet: after any runs of one id, completed or not, every recorded credential has a replacement that stands
  exactly when no run rolled one back (`FleetRollback.RecordedStandsExactlyWithoutRollback`), because the mark
  outlives the rollback and later runs skip the credential (`FleetRollback.CompletedWithoutReplacement`).
- Managed keys: a lost event leaves the log behind the record exactly when the call changed the record
  (`ManagedKeys.StepAgreement`). The index separates tenants exactly when no tenant id continues another after
  a NUL (`ManagedKeys.IndexSeparatesTenants`), and exactly then does every destructive call follow an approval
  for the tenant whose key it is (`ManagedKeyIndex.DualControlExactlyWhenApart`). Calls that overlap on a record
  can leave it under two ids and destroy what nobody was asked about; all runs are free of both exactly when no
  call finds a record between another's find and its re-indexing (`ManagedKeyRaces.GoodExactlyWhenSerial`).
- Break-glass: use counts are exact exactly when no consent was written back after the grant was used
  (`BreakGlassRuns.CountsExactUnlessLate`), and states only move forward exactly when no decision is written
  over a settled outcome it contradicts (`BreakGlassRuns.StepMoves`). A decision nothing else disturbed is such
  a write exactly when it is a refusal and the grant has expired since it was checked
  (`BreakGlassRuns.UndisturbedDecision`, `BreakGlassRuns.RefusalAcrossExpiry`). An access is audited before the
  expiry, but its snapshot can be returned after it; all are returned in time exactly when no access ends
  overdue (`BreakGlassRuns.SnapshotsInTimeUnlessOverdue`, `BreakGlassRuns.SnapshotAfterExpiry`).
- Incident: a report is recorded under its idempotency key even when it is partial, so a retry with that key
  makes no call (`Incident.Workflow.Remediate`), although its documentation says a retry resumes. Replacing and
  revoking a credential leaves no workload without one exactly when the replacement's id is not the revoked one,
  unless its holder has another, and is not the last credential of another workload
  (`Incident.NoOutageExactlyForSafeReplacements`).
- Path substitution: replacing names one after another is filling them all at once, whatever the values, exactly
  when no name has its turn before a placeholder that ends in its marker
  (`PathClash.SimultaneousExactlyWithoutClash`).

## Model

| member | source | states |
|---|---|---|
| Ttlv.ItemSound | ee/kmip/ttlv.go:235-288 | whatever parseItem accepts is a well-formed tree within depth and field limits, the bytes consumed are its encoding up to padding, and the shared field counter grew by its number of nodes |
| Ttlv.ItemComplete | ee/kmip/ttlv.go:235-288 | conversely, a frame that begins with an encoding of a tree the limits have room for is parsed to that tree, its size and its count |
| Ttlv.MatchesIsUpToPadding | ee/kmip/ttlv.go:319-324 | the structural reading of bytes and "equal to the encoding except in padding" are the same relation |
| Ttlv.ParseAcceptsExactlyEncodings | ee/kmip/ttlv.go:129-147 | a frame parses to t if and only if t is well formed, within the normalised limits, and the frame is its encoding up to padding bytes |
| Ttlv.ParseAfterEncode | ee/kmip/wire.go:380-419 | parsing an encoding gives back the tree when the limits admit it and fails otherwise |
| Ttlv.EncodingDetermines | ee/kmip/wire.go:380-419 | a frame encodes, up to padding, at most one well-formed tree |
| Ttlv.EncodeAfterParse | ee/kmip/ttlv.go:129-147 | re-encoding an accepted frame keeps its length and every byte that is not padding |
| Ttlv.EncodeHeader | ee/kmip/wire.go:410-419 | an encoding has the computed size and opens with the tag, type and length of its root |
| Ttlv.LengthCapHarmless | ee/kmip/ttlv.go:249-252 | the uint32 comparison never refuses a tree the frame limit admits, if and only if the conversion loses nothing |
| Ttlv.WithinBelow32Bits | ee/kmip/ttlv.go:235-288 | below 2^32 the limits amount to size, number of nodes and height |
| Ttlv.Normalize | ee/kmip/ttlv.go:290-301 | every limit ends up positive, and each limit that is positive is kept |
| TtlvParser.Parser.Item | ee/kmip/ttlv.go:235-288 | the parser object returns what the parse function says and leaves its field counter there |
| TtlvParser.Parser.Children | ee/kmip/ttlv.go:263-271 | the loop over a structure's value parses exactly the children the function does, stopping where it stops |
| TtlvParser.ParseWithLimits | ee/kmip/ttlv.go:129-147 | the whole parse: limits, empty frame, one item, no trailing bytes |
| TtlvParser.FillItem | ee/kmip/wire.go:410-419 | filling a zeroed buffer in place yields header, value and zero padding |
| Framing.Stream.ReadFull | ee/kmip/wire.go:26-38 | io.ReadFull: all bytes, or end of input only when nothing was read, or a short read |
| Framing.ReadFrame | ee/kmip/wire.go:21-40 | reading one frame consumes and returns what the front of the input says, or the error it says |
| Framing.ReadLoop | ee/kmip/runtime.go:113-140 | the connection loop returns every frame up to the first error |
| Framing.FramesAreSelfDelimiting | ee/kmip/wire.go:21-40 | any concatenation of frames within the cap is read back as exactly those frames and then end of input |
| Framing.ReadLoopLosesNothing | ee/kmip/wire.go:21-40 | every input is the frames returned followed by a tail that starts no frame |
| Framing.CleanEndMeaning | ee/kmip/wire.go:26-38 | a clean end is reported if and only if nothing is left or exactly a header announcing more is left |
| Framing.WhatIsLeft | ee/kmip/wire.go:21-40 | a frame over the cap stays on the stream but for its header; every other error comes with the stream read to its end |
| Framing.EncodingIsFrame | ee/kmip/wire.go:410-419 | the encoding of a tree is a frame |
| Framing.TreesAreSelfDelimiting | ee/kmip/runtime.go:113-140 | a pipelined stream of encoded trees is read back tree by tree |
| KmipMessages.FirstChild | ee/kmip/ttlv.go:210-217 | the first child with the tag, found if and only if there is one |
| KmipMessages.ChildrenByTag | ee/kmip/ttlv.go:220-228 | all children with the tag, in order |
| KmipMessages.DecodeRequestMessage | ee/kmip/ttlv.go:151-207 | the imperative decoder accepts exactly the frames the decoding function accepts, with the same request, and `KmipRequests.DecodesExactlyRequests` says which those are; every refusal is one malformed-request error |
| KmipMessages.DecodeBatch | ee/kmip/ttlv.go:183-195 | the loop over batch items decodes them in order and stops at the first bad one; `KmipRequests.DecodeItemExactly` says what each decodes to |
| KmipRequests.DecodeItemExactly | ee/kmip/ttlv.go:183-195 | an item decodes to an operation and a payload, if and only if it is a structure whose first operation field is that number and whose first request payload, if it has one, is that node |
| KmipRequests.DecodesExactlyRequests | ee/kmip/ttlv.go:151-207 | a frame decodes to a version and a list of operations with payloads, if and only if it is the encoding, up to padding, of a tree within the limits whose first header announces that version and that many items, and whose batch items in order first name those operations and first carry those payloads, or none |
| KmipRequests.WrongCountIsMalformed | ee/kmip/ttlv.go:196-198 | a header count other than the number of batch items makes the frame malformed |
| KmipRequests.RequestRoundTrip | ee/kmip/ttlv.go:151-207 | what a client encodes, for any version, operations and payloads the parser has room for, is decoded to exactly those, in order |
| KmipRequests.MiscountedMessage | ee/kmip/ttlv.go:196-198 | the same message with another count in its header is malformed |
| KmipRequests.ByTagExactly | ee/kmip/ttlv.go:220-228 | the children of a tag are those at exactly the positions that carry it, in order |
| KmipPayloads.IdentifierExactly | ee/kmip/wire.go:284-297 | a payload names an object, if and only if its first identifier is text that is that id with white space around it, and not only white space |
| KmipPayloads.NormalizedNameExactly | ee/kmip/wire.go:252-254 | an attribute name normalizes to a key exactly when it spells it, letter case and separators aside |
| KmipPayloads.CreateSpecMeaning | ee/kmip/wire.go:207-238 | a create payload asks for its first object type with the algorithm and length that the last well-typed attribute of each name sets, or AES and 256 where none does; otherwise the failure for what is missing |
| KmipPayloads.LocateMeaning | ee/kmip/wire.go:256-282 | a locate filters by the first attribute that names an algorithm, which must be AES; without one, or without a payload, it asks for everything |
| KmipMessages.EncodeBatchItem | ee/kmip/wire.go:360-378 | the joined bytes are the encoding of the batch item's tree |
| KmipMessages.EncodeResponse | ee/kmip/wire.go:337-358 | the bytes are the encoding of the response tree with header, batch count and items |
| KmipMessages.ResponseTreeReads | ee/kmip/wire.go:337-378 | reading the response tree gives the batch count and each item's operation, status, reason, message and payload |
| KmipMessages.ResponseDecodes | ee/kmip/wire.go:337-378 | a response within the reader's limits and seven levels parses to the tree that was encoded and reads as exactly the items, in order |
| KmipStore.RunKeepsInv | ee/kmip/kmip.go:102-248 | in every state of every run a destroyed object holds no key and identifiers stay below the counter |
| KmipStore.IdentifiersAreNeverReused | ee/kmip/kmip.go:121-129 | no two registrations of a run get the same identifier, across Close too |
| KmipStore.LeavingActiveIsFinal | ee/kmip/kmip.go:235-248 | an identifier handed out and not active is never active again, so never located, fetched or rekeyed |
| KmipStore.DestroyedStaysKeyless | ee/kmip/kmip.go:205-220 | from the moment an identifier is destroyed it never holds a key again, whatever is done to it later, a revocation included |
| KmipStore.VersionCountsReKeys | ee/kmip/kmip.go:177-197 | an object's version is one plus the number of times it was rekeyed, revoked and destroyed objects included |
| KmipStore.Wipe | internal/crypto/secret/buffer.go:78-83 | every byte of the buffer is zero afterwards |
| KmipStore.Server.Create | ee/kmip/kmip.go:102-111 | authenticated and with randomness: a new active object of 32 bytes under the next identifier; otherwise the error that applies and no change; the server's history grows by that operation or not at all |
| KmipStore.Server.RegisterKey | ee/kmip/kmip.go:114-119 | the object holds a copy; the caller's buffer is not the server's; the server's history grows by that operation or not at all |
| KmipStore.Server.Insert | ee/kmip/kmip.go:121-129 | one object more, under a fresh identifier, all others as they were |
| KmipStore.Server.GetObject | ee/kmip/kmip.go:142-158 | for an active object a view with a fresh copy of its key; the store unchanged in every case |
| KmipStore.Server.Locate | ee/kmip/kmip.go:161-174 | exactly the active identifiers of the algorithm, each once |
| KmipStore.Server.ReKeyObject | ee/kmip/kmip.go:177-197 | new key and version for an active object; the old buffer wiped in place, every other object untouched, and every view handed out earlier keeps its bytes; the server's history grows by that operation or not at all |
| KmipStore.Server.RevokeObject | ee/kmip/kmip.go:200-202 | a known object becomes revoked and keeps everything else; otherwise the error that applies and no change; the server's history grows by that operation or not at all |
| KmipStore.Server.DestroyObject | ee/kmip/kmip.go:205-220 | the object is destroyed, its buffer zeroed and dropped; the rest untouched, and every view handed out earlier keeps its bytes; the server's history grows by that operation or not at all |
| KmipStore.Server.CloseAll | ee/kmip/kmip.go:224-233 | every key buffer zeroed, every object dropped, the counter kept, and every view handed out earlier keeps its bytes; the server's history grows by that operation or not at all |
| KmipStore.CallersCannotDisturb | ee/kmip/kmip.go:114-158 | whatever is written to the buffers callers were given or gave, and to nothing else, the server and every object stay as they were |
| KmipStore.Scribble | ee/kmip/kmip.go:142-158 | a caller overwriting a buffer it shares with the server leaves the server valid and its objects unchanged |
| KmipServer.ParseCreatePayload | ee/kmip/wire.go:207-238 | the loop over attributes yields the algorithm and length the payload specifies, or the error |
| KmipServer.HandleCreate | ee/kmip/wire.go:101-123 | the item served is the one the specification relates to the store before and after a create |
| KmipServer.HandleLocate | ee/kmip/wire.go:125-142 | the payload lists the located identifiers; the store unchanged |
| KmipServer.TakeKey | ee/kmip/wire.go:149-153 | the key read out of the view is the stored one, and the view is zero when the call returns |
| KmipServer.HandleGet | ee/kmip/wire.go:144-171 | the reply is built from the stored key, which `KmipClient.ClientReadsGet` shows a client reads in it; the view it was copied from is fresh and wiped, and the stored key is not |
| KmipServer.HandleChange | ee/kmip/wire.go:173-199 | revoke and destroy answer with the identifier and change that object only |
| KmipServer.HandleItem | ee/kmip/wire.go:57-97 | the dispatch: every operation code leads to its handler or to the unsupported failure |
| KmipServer.ServeBatch | ee/kmip/wire.go:56-97 | items are served one by one, each on the store the earlier ones left |
| KmipServer.HandleFrame | ee/kmip/wire.go:47-99 | the reply is always the encoding of a response: the failure that applies, or one item per request item, in order; the server's history only grows, so what holds of runs holds from one frame to a later one |
| KmipServer.RequestFits | ee/kmip/ttlv.go:151-207 | a decodable request has at most as many items as the parser admits fields |
| KmipServer.AnswersAreSendable | ee/kmip/wire.go:306-335 | every served item is one the encoder represents faithfully |
| KmipServer.ClientReadsResponse | ee/kmip/wire.go:47-99 | a client whose limits admit the reply reads exactly the served items, in order, under a matching count, success exactly where the handler succeeded |
| KmipClient.ClientReadsGet | ee/kmip/wire.go:144-171 | the answer to a Get reads as success exactly for an authenticated caller and an active object, and then the payload holds that id, the stored key bytes, AES, raw format and eight times their number as length; otherwise the failure reason for it |
| KmipClient.ClientReadsCreate | ee/kmip/wire.go:101-123 | the answer to a Create names an identifier never handed out before, under which the store now holds an active 32-byte AES key, all other objects unchanged; or a failure, for the reason given, with the store unchanged |
| KmipClient.ClientReadsLocate | ee/kmip/wire.go:125-142 | the answer to a Locate lists exactly the active objects the filter selects, each once |
| KmipClient.ClientReadsChange | ee/kmip/wire.go:173-199 | the answer to a Revoke or Destroy repeats the id, and exactly that object is revoked with its key, or destroyed without it |
| KmipClient.NothingWithoutAuthentication | ee/kmip/kmip.go:82-92 | without an accepted certificate every item is refused and the store stays as it is |
| KmipClient.ResponseIsHeaded | ee/kmip/wire.go:337-358 | a response announces the version asked for, or 1 and 2 for parts below the least, the clock and the number of items |
| KmipClient.CreateThenGet | ee/kmip/wire.go:47-99 | a client that sends Create and then Get for the identifier it read in the answer reads 32 bytes: the key the store holds under that new identifier |
| KmipClient.RequestsFit | ee/kmip/ttlv.go:290-301 | those requests are within the default limits for any identifier of up to 0xe0000 bytes |
| KmipHistory.RegisteredHolds | ee/kmip/kmip.go:114-131 | after a registration the object is active, at version 1, with the registered algorithm and key, until an operation names it or the server closes |
| KmipHistory.RekeyedHolds | ee/kmip/kmip.go:177-198 | after a rotation it holds the new key at the next version, all else as it was |
| KmipHistory.RetiredHolds | ee/kmip/kmip.go:200-248 | a revoked object keeps its key and version; a destroyed one loses the key |
| KmipHistory.RetiredIsNotRekeyed | ee/kmip/kmip.go:177-198 | rotating the key of an object that is not active changes nothing |
| KmipHistory.KnownExactly | ee/kmip/kmip.go:121-131 | an id is known, if and only if it was registered since the last close |
| KmipHistory.CounterCounts | ee/kmip/kmip.go:121-131 | the counter behind identifiers is the number of registrations |
| Federation.StepKeepsInv | ee/federation/federation.go:155-187 | every single step, by any worker or peer, keeps the replication invariant |
| Federation.RunKeepsInv | ee/federation/federation.go:155-187 | so does every behaviour: any interleaving of workers, growth and purging of logs, and failures |
| Federation.CheckpointsNeverGoBack | internal/store/federation.go:48-61 | between any two moments of a behaviour no checkpoint moves back |
| Federation.ImportsFollowPeerOrder | ee/federation/federation.go:155-187 | when an event is imported, every earlier event its peer holds then or at any later time is already in the local log, which only grows at its end |
| Federation.OvertakenIsPurged | ee/federation/federation.go:155-187 | an event that is still to be imported when a later one of its peer has been is one the peer no longer holds |
| Federation.PurgedEventArrivesLate | ee/federation/federation.go:155-187 | for any peers, a behaviour of two workers in which an event purged after it was fetched is imported after its successor |
| Federation.InOrderExactlyWhenKept | ee/federation/federation.go:155-187 | first imports follow every peer's order in all behaviours, if and only if peers do not purge, or there is none |
| Federation.DuplicateIdsLoseEvents | ee/federation/federation.go:71-118 | two peers with one id: an explicit behaviour in which an event below the checkpoint is missing |
| Federation.SafeExactlyWhenIdsDistinct | ee/federation/federation.go:155-187 | nothing lost, imports a prefix and no duplicates in every state of every behaviour, if and only if peer ids are distinct |
| Federation.CaughtUpIsQuiet | ee/federation/federation.go:155-187 | once caught up, any further steps without new events change neither log, read model nor checkpoints |
| FederationLog.ImportsAreAsPublished | ee/federation/federation.go:155-187 | in every behaviour, whatever peers purge, an import is of the event its peer published under that sequence number, and only imported events are applied |
| FederationLog.LocalIsWhatArrived | ee/federation/federation.go:161-166 | the local log is exactly what was appended or imported, in order; with deduplication each event once, where it first arrived |
| FederationLog.NothingIsInvented | ee/federation/federation.go:161-166 | every event in the local log was appended locally or published by a peer |
| FederationWorker.Worker.ImportOne | ee/federation/federation.go:161-178 | the replay callback: import, apply and the two checkpoints, each of which can fail with or without effect, stopping at any failure in a state of a behaviour |
| FederationWorker.Worker.ReplicatePeer | ee/federation/federation.go:155-187 | a success has carried the checkpoint past every event the peer's log held at the start, whatever else ran meanwhile |
| FederationWorker.Worker.RunOnce | ee/federation/federation.go:143-153 | every peer in turn, stopping at the first error; a success has reached all of them |
| FederationWorker.SuccessfulRunIsThenQuiet | ee/federation/federation.go:143-153 | after a successful run during which no log grew, nothing any worker does imports, applies or advances anything until one grows |
| Usage.PeriodStart | ee/billing/billing.go:22-24 | the start of the hour the instant is in |
| Usage.PlusAssociative | ee/billing/billing.go:102-138 | int64 addition with wrap-around is associative |
| Metering.MemStore.AddCounters | ee/billing/store.go:41-70 | all positive deltas added to their records, or, when the write fails, none |
| Metering.MemStore.SetGauge | ee/billing/store.go:72-91 | the record is overwritten with the gauge |
| Metering.BatchAddsEachOnce | ee/billing/store.go:41-70 | in whatever order a batch is listed, writing it adds each positive value once to its own key |
| Metering.Recorder.Record | ee/billing/recorder.go:33-41 | the delta is added to its hour's entry; nameless and non-positive ones are ignored |
| Metering.Recorder.PutBack | ee/billing/recorder.go:60-66 | after a failed write every delta is added back on top of what came since |
| Metering.Recorder.Write | ee/billing/recorder.go:56-60 | the unlocked write: the whole batch is stored or nothing is |
| Metering.Recorder.Flush | ee/billing/recorder.go:43-69 | run alone, everything pending is stored and gone, or still pending and the store unchanged |
| MeteringRuns.NothingLostOrCountedTwice | ee/billing/recorder.go:33-69 | in every state of every interleaving of records and flushes, stored plus pending plus in flight is exactly what was accepted |
| MeteringRuns.DrainedMeansStored | ee/billing/recorder.go:43-69 | with nothing pending or in flight the store holds the whole usage |
| MeteringRuns.ConservationBoundIsExact | ee/billing/recorder.go:33-69 | conservation for all totals up to a bound, if and only if the bound fits an int64 |
| MeteringRuns.OverflowLosesUsage | ee/billing/recorder.go:33-41 | two deltas whose sum is one past the largest int64 are not conserved |
| MeteringRuns.GaugeBreaksConservation | ee/billing/store.go:72-91 | under any key a gauge leaves a value no delta accounts for |
| MeteringRuns.ConservedExactlyWhenNotGauged | ee/billing/store.go:72-91 | for any set of keys that may be gauged, a key is conserved in every run within int64, if and only if it is not in the set |
| MeteringRecords.RecordsAreAboutTheirKeys | ee/billing/store.go:41-91 | in every run the record under a key has its tenant, slug, meter and hour, ends one hour later, and is a gauge if and only if a gauge was ever set there |
| MeteringRecords.GaugeIsLastWord | ee/billing/store.go:72-91 | a gauge replaces whatever was stored, and its value stays until the key is written again |
| MeteringSystem.System.Flush | ee/billing/recorder.go:43-69 | recorder and store stay where a run of the interleaved system leads, through a flush that others interrupt at every lock it gives up; its last step is the write, or the return, of the very batch it took; ungauged usage within int64 is conserved |
| MeteringSystem.System.WriteLast | ee/billing/recorder.go:56-69 | the batch taken last is the one written, or put back when the write fails, whatever others write or put back meanwhile |
| MeteringSystem.KeysAlwaysOk | ee/billing/recorder.go:33-69 | in every run only named keys are ever pending or in flight |
| Rollup.RollUp | ee/billing/billing.go:102-138 | the loop with its aggregate map and order list computes one record per tenant, meter and day, in order of first occurrence |
| Rollup.FirstOfIsFirst | ee/billing/billing.go:102-138 | the order is that of first occurrence |
| Rollup.FirstOfHasNoDuplicates | ee/billing/billing.go:102-138 | no key is reported twice |
| Rollup.RollupReports | ee/billing/billing.go:102-138 | for a key whose records have one kind, a counter reports the int64 sum of its day, a gauge the largest, over that day and with the slug and unit of the first |
| Rollup.OfKeyIsFilter | ee/billing/billing.go:102-138 | the records summed up are those of the tenant, meter and day, each as often as it was given |
| Rollup.RollupIsHomomorphism | ee/billing/billing.go:102-138 | rolling up parts and then their rollups is rolling up everything, when each key has one kind |
| Rollup.RollupIsIdempotent | ee/billing/billing.go:102-138 | a rollup is its own rollup, mixed kinds included |
| Rollup.MixedKindsBreakHomomorphism | ee/billing/billing.go:123-129 | under any key, two counters and a gauge roll up differently at once and in parts |
| Rollup.GroupingIsFreeExactlyWhenKindsAreFixed | ee/billing/billing.go:102-138 | for the records a catalogue of keys and kinds admits the grouping never matters, if and only if each key has one kind |
| Fleet.RecordedIsNotReissued | ee/fleet/fleet.go:138-160 | a credential with a recorded mark is not re-issued by any later run |
| Fleet.ResumeNeverDuplicates | ee/fleet/fleet.go:138-160 | over any sequence of runs, however each stopped, a credential is re-issued at most once more than runs stopped between its re-issue and its mark |
| FleetRun.EffectiveStageSize | ee/fleet/fleet.go:75-92 | a stage size that is not positive becomes the default and a positive one is kept, so stages are never empty |
| FleetRun.StagesForIsCeiling | ee/fleet/fleet.go:130-137 | the number of stages is the size divided by the stage size, rounded up |
| FleetRun.OrderedAt | ee/fleet/fleet.go:109-191 | every call of a run's trace was made only when the protocol allows it |
| FleetRun.RotationComesFirst | ee/fleet/fleet.go:114-122 | for an SSH CA the key is rotated before anything is re-issued |
| FleetRun.TrustComesLast | ee/fleet/fleet.go:177-186 | trust is redistributed and the KRL published only after every stage was healthy, and the KRL lists what this run re-issued |
| FleetRun.KrlIsCompleteExactlyWhenFirst | ee/fleet/fleet.go:177-186 | what a completed run re-issued is every target recorded under its id, if and only if none was recorded before it |
| FleetRun.KrlOmitsEarlierRun | ee/fleet/fleet.go:177-186 | an interrupted run and its resumption, whose KRL lists nothing |
| FleetRun.FailedCheckEnds | ee/fleet/fleet.go:161-173 | a run that goes on has had no failed health check |
| FleetRun.RollbackGetsTheStage | ee/fleet/fleet.go:161-173 | a rollback is handed exactly the new ids of the stage whose check failed |
| FleetCalls.MemoryProgress.Mark | ee/fleet/fleet.go:220-228 | the credential is recorded for its run and nothing else changes |
| FleetCalls.MemoryProgress.Completed | ee/fleet/fleet.go:209-217 | a copy of what was recorded for the run |
| FleetCalls.ReissuedOnlyIfAllowed | ee/fleet/fleet.go:143-150 | in the calls of a guarded run every re-issue comes right after the guard allowed that credential |
| FleetRun.Rollout.Handle | ee/fleet/fleet.go:138-160 | one credential: skipped if recorded, denied by the guard, or re-issued and marked, with the event that says which and exactly the calls that go with it |
| FleetRun.Rollout.Stage | ee/fleet/fleet.go:137-160 | a stage takes its credentials in order and stops at the first failure |
| FleetRun.Rollout.Check | ee/fleet/fleet.go:161-173 | the check leaves the run between stages, or ended and, where a rollback is configured, rolled back |
| FleetRun.Rollout.Undo | ee/fleet/fleet.go:161-173 | after a failed check the run has ended at that stage, its new ids handed to the rollback where there is one |
| FleetRun.Rollout.Begin | ee/fleet/fleet.go:114-127 | the opening calls, in that order, with the recorded progress as it stands |
| FleetRun.Rollout.OneStage | ee/fleet/fleet.go:131-174 | a stage and its health check leave the run between stages, or ended; reported unhealthy exactly when the check failed, and then stopped at that stage and rolled back if it can be |
| FleetRun.Rollout.Stages | ee/fleet/fleet.go:129-175 | the staged loop covers every target or ends; a failed stage is reported exactly when a check failed, and it is that stage |
| FleetRun.Rollout.Reestablish | ee/fleet/fleet.go:177-186 | trust, then the KRL of this run's re-issues |
| FleetRun.Rollout.RunStages | ee/fleet/fleet.go:129-191 | the stages and, for an SSH CA, the trust that follows, with a report that is true of the trace |
| FleetRun.Rollout.ReissueFleet | ee/fleet/fleet.go:109-191 | completed exactly when no call failed; re-issued, skipped and failed add up to the credentials dealt with, and stages are counted once all are done; rolled back exactly when a health check failed, with that stage reported and the trace ending in its rollback; the calls made are those of the trace, which is ordered, works through the targets and agrees with the recorded progress; the KRL is complete exactly when nothing was recorded before |
| FleetRun.CheckedRunHasNoFailure | ee/fleet/fleet.go:138-173 | a run that a health check stopped had no failed re-issue or mark |
| Fleet.RunsMakeHistory | ee/fleet/fleet.go:109-191 | a run that starts from the recorded progress of a history extends it |
| Fleet.ListedInOrder | ee/fleet/fleet.go:157-158 | new ids and replaced credentials are listed one for one, in order, for exactly the re-issuances that were recorded |
| Fleet.StageIsItsOwnPart | ee/fleet/fleet.go:137-157 | the ids a rollback gets are those of the trace since the last health check |
| FleetRun.ReissueUntilDone | ee/fleet/fleet.go:109-191 | any number of runs of one id over one store, under changing configurations and however each ends: every run is ordered, the store holds exactly what the runs recorded, nothing recorded is re-issued, and the bound on re-issues holds |
| FleetRollback.OneMark | ee/fleet/fleet.go:138-160 | over all runs of an id a credential has one recorded re-issue |
| FleetRollback.RollbackUndoes | ee/fleet/fleet.go:161-173 | a rollback that was handed any id leaves a recorded credential whose only recorded replacement it was |
| FleetRollback.RecordedStandsExactlyWithoutRollback | ee/fleet/fleet.go:138-173 | every recorded credential has a replacement no run has rolled back, if and only if no run rolled one back |
| FleetRollback.CompletedWithoutReplacement | ee/fleet/fleet.go:138-191 | a rolled-back run and a second one of its id that completes, after which the only credential has no replacement |
| Migration.AfterIs | ee/pqcmigration/pqcmigration.go:138-149 | exactly the worked-off assets are at the target algorithm, every other node is as it was |
| Migration.RemainingAreTheDenied | ee/pqcmigration/pqcmigration.go:91-135 | after a run without failure the assets still vulnerable are exactly those policy refused |
| Migration.RemainingCount | ee/pqcmigration/pqcmigration.go:126-127 | and the reported remainder is their number |
| Migration.RecordedIsReconciled | ee/pqcmigration/pqcmigration.go:104-111 | an asset recorded by an interrupted run is not vulnerable after the next run without failure |
| Migration.Orchestrator.VulnerableAssets | ee/pqcmigration/pqcmigration.go:64-78 | every vulnerable asset of the inventory, once, in the order of their ids |
| Names.SortIds | internal/graph/graph.go:97-104 | the ids in sorted order |
| Names.SortedIsUnique | internal/graph/graph.go:97-104 | which those ids determine, so a run takes its assets in one order only |
| Migration.Orchestrator.MarkMigrated | ee/pqcmigration/pqcmigration.go:138-149 | the node, if there is one, is at the target and marked |
| Migration.Orchestrator.Handle | ee/pqcmigration/pqcmigration.go:104-125 | one asset: skipped, denied or re-issued and marked, with exactly the calls that go with it |
| Migration.Orchestrator.WorkThrough | ee/pqcmigration/pqcmigration.go:104-125 | the loop: inventory and progress are those of the events so far, and without failure every asset is migrated or skipped |
| Migration.Orchestrator.Migrate | ee/pqcmigration/pqcmigration.go:91-135 | refuses a target that is not post-quantum; otherwise takes exactly the crypto assets with a quantum-vulnerable algorithm, enrolled equals migrated plus skipped, remaining is what is left, completed exactly when nothing is, and no recorded asset is re-issued |
| Migration.MigrateUntilDone | ee/pqcmigration/pqcmigration.go:91-135 | any number of migrations under one run id form a history over the progress store, so the bound on re-issues holds for them too |
| ManagedKeys.IndexSeparatesTenants | ee/managedkeys/managedkeys.go:167-167 | index keys of two tenants never meet, if and only if neither id continues the other after a NUL |
| ManagedKeys.FoundIsOwn | ee/managedkeys/managedkeys.go:269-274 | the record found is the caller's tenant's, with the id asked for |
| ManagedKeys.ReindexedKeepsIndex | ee/managedkeys/managedkeys.go:284-289 | moving a rotated record keeps every record under its own tenant and id, each id once |
| ManagedKeys.RunKeepsInv | ee/managedkeys/managedkeys.go:254-299 | in every run: one place per record, rotations naming the version before, and under dual control every destructive provider call right after the gate was asked about that action on that tenant's key and said yes |
| ManagedKeyIndex.IndexIsInjective | ee/managedkeys/managedkeys.go:269-289 | no record is reached by two index keys |
| ManagedKeyIndex.ExactIsRun | ee/managedkeys/managedkeys.go:173-299 | the index of references to records, which for arbitrary tenant ids may be shared, shows the run of the simpler model whenever index keys of tenants never meet |
| ManagedKeyIndex.ReplyIsReply | ee/managedkeys/managedkeys.go:173-299 | and the caller gets the reply of the simpler model |
| ManagedKeyIndex.WrongApproval | ee/managedkeys/managedkeys.go:167-167 | for tenants whose ids are not apart, a run in which the gate's yes to one tenant's key lets the provider revoke the other's |
| ManagedKeyIndex.DualControlExactlyWhenApart | ee/managedkeys/managedkeys.go:254-299 | under dual control every destructive call of every run follows the gate's yes to it for the key's own tenant, if and only if the tenants' ids are apart |
| ManagedKeys.StepAgreement | ee/managedkeys/managedkeys.go:254-299 | one call keeps the log's last word equal to the records, if and only if it is not a change whose event was lost |
| ManagedKeys.LogMatchesRecords | ee/managedkeys/managedkeys.go:173-299 | in every run without a silent change the last event of every live key is its current generation |
| ManagedKeys.FirstSilentChangeShows | ee/managedkeys/managedkeys.go:293-296 | right after the first silent change of a run the log is behind |
| ManagedKeys.OtherTenantsUntouched | ee/managedkeys/managedkeys.go:254-299 | a call for one tenant leaves every other tenant's records as they were |
| ManagedKeys.SharedRecord | ee/managedkeys/managedkeys.go:167-167 | without the condition on tenant ids a run exists in which two tenants share a record |
| ManagedKeys.SuccessIsRecorded | ee/managedkeys/managedkeys.go:173-299 | a fresh success names a live record in that state, and the log agrees with it |
| ManagedKeys.ReplayGetsFirstResult | ee/managedkeys/managedkeys.go:303-308 | after a success every later call with its idempotency key gets that result and does nothing, whatever happened in between |
| ManagedKeys.RefusalChangesNothing | ee/managedkeys/managedkeys.go:254-299 | a refused call changes no record, and unless the provider itself failed it made no destructive call |
| ManagedKeyService.Service.Generate | ee/managedkeys/managedkeys.go:173-194 | for any tenant, the service's heap stays a faithful image of a run extended by this call, and the caller gets that run's reply |
| ManagedKeyService.Service.Ask | ee/managedkeys/managedkeys.go:262-268 | the gate, where there is one, is asked about exactly this action, and its answer is the one acted on |
| ManagedKeyService.Service.Apply | ee/managedkeys/managedkeys.go:202-247 | the provider call, noted with its answer, and the change of one record in place to what it answered, all other records untouched |
| ManagedKeyService.Service.Reindex | ee/managedkeys/managedkeys.go:284-289 | a record whose id changed is found under the new id only |
| ManagedKeyService.Service.EmitFor | ee/managedkeys/managedkeys.go:312-339 | the event describes the record, and only with it is a result returned and kept |
| ManagedKeyService.Service.Carry | ee/managedkeys/managedkeys.go:269-289 | the provider is called once, on the record's own key, after the gate's yes; the record and the index then show the answer |
| ManagedKeyService.Service.Destructive | ee/managedkeys/managedkeys.go:254-299 | for any tenant, rotate, revoke and zeroize on heap records take exactly the model's step and give its reply, and the gate and the provider got exactly the model's calls in its order; `RecordsAreAnswers` and `RepliesAreAnswers` say what that makes of records and replies |
| ManagedKeyService.Service.RecordsAreAnswers | ee/managedkeys/managedkeys.go:112-118 | every record in the index is as the provider last answered for it: id, algorithm and public key of its last mint, one version per mint, and the state of its last successful revoke or zeroize since |
| ManagedKeyService.Service.RepliesAreAnswers | ee/managedkeys/managedkeys.go:331-339 | every success that is no replay reports the provider's answer to a call made for it |
| ManagedKeyAnswers.RecordsAreAsSaid | ee/managedkeys/managedkeys.go:173-299 | the same in every run, for any tenants |
| ManagedKeyAnswers.SuccessReports | ee/managedkeys/managedkeys.go:254-339 | a success logs one event and replies with one result, both carrying the id, version, algorithm and public key the provider answered with, and for a rotation the version it supersedes |
| ManagedKeyAnswers.ReplyIsAnswer | ee/managedkeys/managedkeys.go:254-339 | in every run each reply is the answer of a noted call |
| ManagedKeyService.Service.DualControl | ee/managedkeys/managedkeys.go:254-299 | of a gated service the journal of gate and provider shows every destructive call right after a yes to it, for tenants that are apart, which is exactly when it must |
| ManagedKeyRaces.ApprovedExactlyUnlessStale | ee/managedkeys/managedkeys.go:254-299 | with calls interleaved at every step, every destructive call was approved for what it destroyed, if and only if none told the provider about a record whose id had changed since it was asked about |
| ManagedKeyRaces.HeldOnceExactlyUnlessDisplaced | ee/managedkeys/managedkeys.go:269-289 | throughout a run no record is under two ids, if and only if no call re-indexed one that another had moved |
| ManagedKeyRaces.SerialIsGood | ee/managedkeys/managedkeys.go:254-299 | neither happens in a run in which no call finds a record between another's find and its re-indexing |
| ManagedKeyRaces.TwoRotationsOverlap | ee/managedkeys/managedkeys.go:269-289 | two rotations of one key at once: it ends up under both new ids, and the provider was told to rotate one nobody was asked about |
| ManagedKeyRaces.GoodExactlyWhenSerial | ee/managedkeys/managedkeys.go:254-299 | all runs are free of both, if and only if calls on one record do not overlap from find to re-indexing |
| ManagedKeyRaces.RecordsComeWhole | ee/managedkeys/managedkeys.go:202-219 | whatever calls overlap, id, algorithm and public key of a record come from one answer of the provider |
| BreakGlass.MaxTtl | ee/provider/service.go:103-106 | the maximum is positive, and a positive configured one is kept |
| BreakGlass.GrantIdsAreUnique | ee/provider/store.go:223-232 | zero-padded grant ids of different numbers differ |
| BreakGlass.ValueOfId | ee/provider/store.go:223-232 | the number in a grant id is written in decimal, with zeros up to six digits and none beyond |
| BreakGlass.StepKeepsInv | ee/provider/service.go:161-262 | every store operation or clock tick keeps the invariant over grants, calls in flight and the log |
| BreakGlass.RunKeepsInv | ee/provider/service.go:161-262 | so does every run, with calls interleaving at every operation |
| BreakGlassRuns.EverySnapshotHasItsStory | ee/provider/service.go:161-262 | each snapshot follows a request by the operator who got it, an approval by the tenant it shows and an access audited before an expiry within the maximum, in that order |
| BreakGlassRuns.SnapshotsInTimeUnlessOverdue | ee/provider/service.go:241-262 | every snapshot of a run was returned before its grant expired, if and only if no access of the run ended after the expiry |
| BreakGlassRuns.SnapshotAfterExpiry | ee/provider/service.go:241-262 | one use of an approved grant, audited before the expiry, whose snapshot is returned at it |
| BreakGlassRuns.StepMoves | ee/provider/store.go:103-116 | a step moves every grant's state forward only, if and only if it is not a decision written over an outcome it contradicts |
| BreakGlassRuns.StatesMoveOnward | ee/provider/store.go:103-116 | from any point of a run without such a write: pending to active, denied or expired, active to expired, and nothing else |
| BreakGlassRuns.CountsExactUnlessLate | ee/provider/store.go:254-264 | at the end of a run every use count is the number of snapshots returned, if and only if no consent was written after the grant was used |
| BreakGlassRuns.UndisturbedDecision | ee/provider/service.go:195-227 | a decision with nothing between its read and its write loses no count, and contradicts an outcome if and only if it refuses a grant that has expired meanwhile |
| BreakGlassRuns.RefusalAcrossExpiry | ee/provider/service.go:195-227 | one refusal of a grant, read before and written after the expiry, by which an expired grant becomes a denied one |
| BreakGlassRuns.OverlappingDecisions | ee/provider/service.go:195-227 | a run in which two decisions at once deny a used grant and lose its count |
| BreakGlassService.Call.RequestBreakGlass | ee/provider/service.go:161-193 | turned away for the first of licence, operator (id, second factor, role), reason and duration that fails, and then nothing changes; otherwise a pending grant on the asked terms, with the trimmed reason and unused, exists, even if its audit failed |
| BreakGlassService.Call.ConsentBreakGlass | ee/provider/service.go:195-227 | only the grant's tenant decides, only a grant pending when checked, and the decision stands even if its audit failed |
| BreakGlassService.Call.BreakGlassResults | ee/provider/service.go:229-262 | refused to an actor without id, second factor or role; a success is a logged snapshot of the grant's tenant for the operator who asked, at a time the grant was active; otherwise the error for the check that failed, and nothing counted |
| BreakGlassService.RefusalMeaning | ee/provider/service.go:161-180 | which requests are turned away and why, by the fields of the request |
| BreakGlassActors.EveryEntryIsVouched | ee/provider/service.go:161-262 | in every run a request, decision, access or snapshot in the log goes back to a call by an actor with id, second factor and role, or by the grant's tenant, made with the licence it needs |
| BreakGlassActors.EverySnapshotHasItsActors | ee/provider/service.go:161-262 | before every snapshot stand the request and the access of one identified operator and the consent of the tenant whose snapshot it is |
| BreakGlassActors.StateMeaning | ee/provider/store.go:103-116 | the state of a grant at a time, by its fields: revoked, else denied, else active while consented and unexpired, else expired or pending |
| Incident.NeverAnOutage | ee/incident/incident.go:156-182 | between any two points of a trace in which revocations follow replacements, however calls fail and even if a failed call took effect, no workload loses its last valid credential |
| Incident.NoOutageExactlyForSafeReplacements | ee/incident/incident.go:156-182 | a re-issue and the revocation after it take no workload's last credential, if and only if the new id is neither the revoked one, unless its holder has another, nor another workload's last |
| Incident.ValidCredentialMeaning | ee/incident/incident.go:156-182 | the flag HasValidCredential, always set, is true of the world exactly when the workload had a valid credential before or a replacement was issued |
| Incident.CompletedMeansAllDone | ee/incident/incident.go:125-151 | Completed, if and only if every call on every target succeeded, three per target |
| Incident.Workflow.RemediateOne | ee/incident/incident.go:156-182 | the calls made and the result are those of the remediator's answers, reissue before revoke before rotate |
| Incident.Workflow.Targets | ee/incident/incident.go:125-131 | the credential first, then exactly the credentials downstream of it in the graph, each once and in order of id |
| CredentialGraph.Reachable | internal/graph/graph.go:148-168 | the breadth-first search returns exactly the other nodes that edges between nodes lead to, each once, sorted by id |
| CredentialGraph.Follow | internal/graph/graph.go:152-165 | following one node's edges keeps what is found downstream and complete but for what waits |
| Incident.OnePlan | ee/incident/incident.go:125-131 | there is one such list of targets only, and no credential is in it twice |
| Incident.ReportTells | ee/incident/incident.go:125-182 | field by field each step of a report says which calls were made for its credential in the whole remediation and how they went, failed steps included; per credential they come in order, each once, and none after a failure |
| Incident.Workflow.RemediateAll | ee/incident/incident.go:125-151 | one result per target in order, complete exactly when all succeeded |
| Incident.Workflow.Remediate | ee/incident/incident.go:108-123 | a key is required; a repeated key gets the recorded report and makes no call; otherwise the report of a new run over the credential and all downstream of it; no outage in any case |
| PathSubst.PathEscape | internal/api/aisurface_handlers.go:551-551 | the escaped value has no brace and no slash |
| PathSubst.UnescapeAfterEscape | internal/api/aisurface_handlers.go:551-551 | unescaping gives the value back |
| PathSubst.RenderAfterParse | internal/api/aisurface_handlers.go:556-575 | every text is literals and placeholders in turn, and an unclosed rest |
| PathSubst.ParamNames | internal/api/aisurface_handlers.go:556-575 | the scanning loop finds the placeholders' trimmed non-empty names, in order |
| PathSubst.ReplaceFillsOne | internal/api/aisurface_handlers.go:551-551 | replacing one marker fills that placeholder wherever it is and no other, in every text where no other placeholder ends in it |
| PathSubst.RestPath | internal/api/aisurface_handlers.go:536-554 | what the answering function says, of which `PathValues` says when it fails, naming what, and what the path holds otherwise |
| PathValues.MissingExactly | internal/api/aisurface_handlers.go:539-550 | it fails naming a parameter, if and only if that is the bare name of the first placeholder for which neither the parameters under bare or full name nor, for the only placeholder, the subject give more than white space |
| PathValues.SubjectNeverOverrides | internal/api/aisurface_handlers.go:545-547 | where the parameters give every value the subject makes no difference |
| PathValues.PathHoldsValues | internal/api/aisurface_handlers.go:536-554 | where no placeholders clash, an answered path is the template with each name filled by the escape of exactly what the caller gave for it, trimmed |
| PathValues.PlainTextStays | internal/api/aisurface_handlers.go:551-551 | a value goes in as it is exactly when it is made of letters, digits and the characters a path segment may hold unescaped |
| Text.TrimSpaceExactly | internal/api/aisurface_handlers.go:541-541 | trimming cuts all white space at both ends and nothing else |
| PathSubst.SuccessiveIsSimultaneous | internal/api/aisurface_handlers.go:536-554 | replacing names one after another is one simultaneous substitution, for every template in which no name has its turn before a placeholder that ends in its marker |
| PathClash.SuccessiveFates | internal/api/aisurface_handlers.go:536-554 | with one long value for every name, what the turns make of each piece of a template: filled, left, or cut short |
| PathClash.SimultaneousExactlyWithoutClash | internal/api/aisurface_handlers.go:536-554 | for all values given, one after another is all at once, if and only if no name has such a turn |
| PathSubst.NamesAreTrimmed | internal/api/aisurface_handlers.go:568-571 | a placeholder is among the names exactly when it is non-empty and without space around it |
| PathSubst.NoPlaceholderLeft | internal/api/aisurface_handlers.go:536-554 | no opening brace is left, if and only if every placeholder was such a name and every brace was closed |
| PathSubst.SlashesKept | internal/api/aisurface_handlers.go:536-554 | the path has as many slashes as the template, if and only if no filled placeholder has one in its name |

## Left out

- KmipMessages.DecodeRequestMessage: the source's error texts, which differ by the missing or ill-typed field, are one kind of error here, as the server answers all of them with the same failure reason.
- KmipServer.HandleFrame: error texts and the substring test that picks a failure reason are modelled by the kind of error; %q quoting is not modelled.
- KmipServer.ClientReadsResponse: stated for limits below 2^32 and at least seven levels, which is what a response needs.
- KmipStore.Server.Create: random bytes and the authenticator's verdict are arbitrary answers; audit records are not modelled.
- Text.TrimSpace: trims ASCII white space only, so attribute names and path values with other Unicode space are not covered; lower-casing is ASCII too.
- CredentialGraph.Reachable: the filter by edge type and the grouping by kind of an impact are left out.
- Framing.ReadLoop: sockets, TLS and deadlines are left out; the stream is the bytes that will arrive.
- Federation.RunKeepsInv: the relation between the projection checkpoint and the read model's contents is left out; the projection checkpoint is a step that may fail.
- Metering.MemStore.AddCounters: the failure is the store's own all-or-nothing one; a database that fails half-way is not modelled.
- FleetRun.Rollout.ReissueFleet: audit records are left out, and targets are assumed distinct, as a query by issuer returns them.
- Migration.Orchestrator.Migrate: edges of the graph and the other attributes of a node are left out.
- ManagedKeyService.Service.Destructive: on the heap calls run one at a time; overlapping ones are modelled on values, where a provider call and the change of the record it leads to are one step, and events and idempotency keys are left out. A provider is assumed never to give one id to two keys.
- BreakGlassService.Call.BreakGlassResults: the snapshot's contents other than its tenant are left out.
- Incident.Workflow.Remediate: two calls with one key at the same time, which the source answers with an in-progress error, are not modelled; reports are kept as values rather than as JSON.
- Track of managed keys, the tenant band and tenant lifecycle of the provider, Preview of an incident, quotas and queries of billing: they would only add easy members.
- Governance, white-label, silo and collector packages, command-line and HTTP wiring: not part of this model.
