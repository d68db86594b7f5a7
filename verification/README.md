# GOLC: commit pipeline, event stream, Art-Net output, verified install, command registry

A Dafny model of the parts of GOLC, a lighting-control system, in which the hard
behaviour lives, with proofs about whole runs, every interleaving and every input.

* **Event stream** (`EventStream`, `EventDelivery`, `EventClients`,
  `EventCounterexamples`). The ring behind `GET /v1/events` refines an unbounded log.
  Publishing (a locked step, then one unlocked send per subscriber), subscribing, the
  connection handlers and reconnecting clients form a step system; runs are arbitrary
  lists of actions. `Last-Event-ID` is the header of section 9.2.4 of the WHATWG HTML
  standard.
* **Commit pipeline** (`CommitPipeline`, `CommitServer`, `CommitTheorems`,
  `CommitReplies`, `CommitCommands`, `CommitHistory`, `CommitEvents`, `StateEvents`).
  Single mutations, dry runs, idempotent replays and atomic batches under one mutex,
  against a show file other processes may write at any point. `If-Match`
  is section 3.1 of RFC 7232, the 412 reply its section 4.2. `CommitServer` runs the
  code's loops and early returns; each method is proved equal to a function of
  `CommitPipeline`, and the theorems are about those functions over any list of attempts.
  `StateEvents` puts pipeline and event stream together.
* **Art-Net output** (`Fixtures`, `ChannelMap`, `Safety`, `MasterUpdates`, `Desk`,
  `Output`, `Footprints`, `Packet`, `Worker`, `Sends`, `SendStarts`, `SendOutcomes`,
  `SendTicks`, `SendCounters`). One tick from frame to packet: desk overrides, blackout and masters,
  the channel map of each universe, the ArtDmx packet of the Art-Net 4 specification
  ("ArtDmx packet definition"), the asynchronous sends as a step system, and the account
  of their outcomes in the health counters. Levels are real numbers.
* **Art-Net daemon** (`Targets`, `Health`, `Flags`, `Daemon`, `DaemonServer`). The target
  map, the health object that outlives every worker, and the flag format between the
  command-line client and the daemon.
* **Verified install** (`ArchiveNames`, `FileTree`, `Install`, `InstallTheorems`,
  `InstallArchive`, `InstallExtraction`, `Containment`, `InstallStaged`,
  `InstallAcceptance`, `InstallTampering`, `InstallAliases`, `InstallWitnesses`).
  Entry names, inspection, extraction, manifest and check over a directory tree in which
  names are resolved through symlinks as a POSIX kernel does.
* **Command registry** (`Router`, `RouterOrder`). Keys, registration, construction in
  sorted order and longest-prefix lookup.

`Prelude`, `Text`, `Strconv` and `Sequences` hold the small amount of Go library
behaviour and permutation reasoning the rest needs.

Properties that turned out false of the code have a concrete witness and the exact
condition beside them:

* overlapping publishers reorder a client's events (`EventCounterexamples.OverlapReorders`,
  `EventClients.OverlapCanReorder`), and a full channel skips one
  (`EventCounterexamples.FullChannelSkips`, `EventClients.ClientReadsContiguousHistory`);
* a ring without room is not exact (`EventStream.CatchUpNeedsCapacity`);
* overlapping master changes lose one (`MasterUpdates.OverlapLosesUpdate`,
  `MasterUpdates.StoreKeepsOthersIff`);
* blackout can be painted over (`Footprints.OverpaintedStaysLit`, `Footprints.DarkSlotIff`),
  and a partial desk override stops its universe (`Footprints.PartialOverrideFails`,
  `Footprints.EncodesIff`);
* a late outcome changes the target an entry shows (`Health.StaleOutcomeShowsEnabled`,
  `Health.EntryShowsLatest`);
* flag names with an equals sign are not read back (`Flags.PrintedFlagsRecovered`);
* an entry name that cleans to white space is refused the second time
  (`ArchiveNames.NormalizeIdempotentIff`);
* extraction does not always stay inside its tree: links that inspection accepts one by one
  can lead a later name out of it (`InstallWitnesses.InspectionIsNotContainment`);
  `Containment.ContainedIff` and `InstallStaged.ExtractionContainedIff` say exactly when;
* an installed archive is not always recognised: one that writes through its own symlink
  (`InstallWitnesses.ClashIsNotRecognised`, `InstallWitnesses.AliasFailsInventory`), one
  with a symlink in the manifest's place (`InstallWitnesses.ManifestThroughLink`), one with
  an empty directory (`InstallWitnesses.BareDirectory`); `InstallStaged.InstallRoundTrip`
  says exactly which.

Where code and comment differ the code is followed: the comment at
internal/artnet/packet.go:57 puts the Sub-Net in the low nibble of byte 14, while
`PortAddress` and the function's own description put it in the high one.

## Model

| member | source | states |
|---|---|---|
| `EventStream.CatchUpIsExact` | internal/api/events.go:224-293 | for every history and every parsed non-negative id, the bounded ring answers as the unbounded log: the suffix after the id, or a resync exactly when the id was never issued or part of that suffix was evicted |
| `EventStream.CatchUpNeedsCapacity` | internal/api/events.go:224-293 | that answer is exact for all histories and ids if and only if the capacity is at least one |
| `EventStream.CatchUpIsRecent` | internal/api/events.go:224-293 | whatever the header holds, what is replayed is the newest part of the history |
| `EventStream.Decide` | internal/api/events.go:237-292 | the branches and the replay loop compute the catch-up decision |
| `EventStream.EventBroadcaster.Publish` | internal/api/events.go:193-207 | the locked step stamps the next consecutive id, the ring stays the last min(n, capacity) events of the log, and every current subscriber is listed once |
| `EventStream.EventBroadcaster.Subscribe` | internal/api/events.go:224-293 | registers one new channel and returns exactly the log's suffix or a resync |
| `EventStream.EventBroadcaster.Unsubscribe` | internal/api/events.go:230-234 | removes that channel only and keeps the ring |
| `EventDelivery.RunInv` | internal/api/events.go:193-234 | under every interleaving the ring refines the log, a connection's lead is a replay or a resync, and every event since it subscribed is accounted for |
| `EventDelivery.ChannelFills` | internal/api/events.go:209-214 | a channel is empty at the start, one fuller for each event it accepts and one emptier for each live event its handler sends |
| `EventDelivery.ChannelsBounded` | internal/api/events.go:209-214 | under every interleaving no channel holds more than its capacity |
| `EventDelivery.HistoryHoldsDrafts` | internal/api/events.go:193-207 | under every interleaving the n-th event of the history has id n and the revision and payload of the n-th publication |
| `EventClients.AtMostOnce` | internal/api/events.go:193-234 | under every interleaving an event reaches a connection at most once, by replay or by channel, never both |
| `EventClients.ExactlyOnePlace` | internal/api/events.go:193-234 | each event published while a connection is subscribed is at any moment in exactly one of: accepted, dropped, still to be offered |
| `EventClients.MissedOnlyWhenFull` | internal/api/events.go:209-214 | an event a subscribed connection missed was offered to it when its channel was full |
| `EventClients.ClientReadsContiguousHistory` | internal/api/events.go:468-505 | over any run with serialised publishers, a client that reconnects any number of times echoing its last id reads, since its last resync, a strictly increasing duplicate-free part of the history; it is one contiguous stretch if and only if on none of its own connections it has read past an id that connection's channel dropped |
| `EventClients.OwnChannelsNeverFull` | internal/api/events.go:468-505 | if no channel the client itself opened dropped an id between the first and the last event it has read, it has missed nothing there, whatever other connections dropped |
| `EventClients.SkippedWhenOwnChannelFull` | internal/api/events.go:209-214 | every id a client has stepped over was offered to one of its own channels at a step that found that channel full |
| `EventClients.OverlapCanReorder` | internal/api/events.go:193-214 | serialising is needed: from any reachable state, an event still on offer to a subscribed channel with two free slots can be overtaken by a new publication |
| `EventClients.EndedHearNothing` | internal/api/events.go:230-234 | a closed connection is offered nothing published later, and a disconnected client reads nothing until it connects again |
| `EventCounterexamples.OverlapReorders` | internal/api/events.go:421-425 | two overlapping publications can reach a client in the wrong order |
| `EventCounterexamples.FullChannelSkips` | internal/api/events.go:209-214 | even with serialised publishers a full channel makes a client step over an id for good |
| `CommitServer.Server.Mutate` | internal/api/mutate.go:180-265 | the locked sequence of a single mutation changes show, idempotency store and fired events exactly as the pipeline function says |
| `CommitServer.Server.Execute` | internal/api/mutate.go:226-265 | the part from the revision check to the stored response, with outside writes before execution and before the re-read |
| `CommitServer.Server.LookupKey` | internal/api/idempotency.go:96-109 | an unexpired entry is returned, an expired one is deleted |
| `CommitServer.Server.DryRunMutate` | internal/api/dryrun.go:29-58 | a dry run replies from a throwaway copy, changes neither show nor store, and fires one dry-run event |
| `CommitServer.Server.FireObservers` | internal/api/observer.go:98-105 | appends exactly one event |
| `CommitServer.Server.Preflight` | internal/api/batch.go:208-243 | translates and scope-checks sub-requests in order and stops, with one failure event, at the first refused one |
| `CommitServer.Server.RunOnCopy` | internal/api/batch.go:308-327 | runs the commands one after the other on the copy up to the first failure, collecting trimmed outputs |
| `CommitServer.Server.FireForAll` | internal/api/batch.go:268-276 | fires one event per sub-request, in order |
| `CommitServer.Server.RunBatch` | internal/api/batch.go:184-392 | the whole batch changes the state exactly as the pipeline function says |
| `CommitServer.Server.CommitBatch` | internal/api/batch.go:301-392 | copy, execute, re-check the base revision, save once, fan out |
| `CommitTheorems.IfMatchRoundTrip` | internal/api/revision.go:25-36 | every 64-bit revision written bare or as a quoted entity tag is read back |
| `CommitReplies.SingleStatus` | internal/api/mutate.go:180-235 | a mutation is answered 412 if and only if it is authorised, no dry run and no replay, and its If-Match revision differs from the readable one on disk; 403 if and only if its scope is declared and not granted |
| `CommitReplies.BatchStatus` | internal/api/batch.go:184-392 | a batch is answered 412 if and only if it is planned, its base revision readable, and its If-Match names another revision or another process saves before the re-check of a batch that ran through; 403 if and only if its first sub-request translates and the authoring scope is not granted |
| `CommitCommands.ScopeOfDomain` | internal/api/mutate.go:37-75 | the first word of a route alone decides its scope, domain by domain |
| `CommitCommands.ReachesCommandIff` | internal/api/mutate.go:180-265 | an authorised mutation that is neither a dry run nor a replay runs its own route and arguments if and only if its If-Match is absent or names the readable revision on disk; then content, revision, output, diagnostic and status are those of the command (0, 2 or other exit codes); otherwise the show is untouched, with 400 exactly for a header that does not parse and 500 exactly for an unreadable revision |
| `CommitCommands.IfMatchMeans` | internal/api/revision.go:25-36 | a blank header asks for nothing; any other names a revision exactly if what is left without white space and quotes around it is a 64-bit integer |
| `CommitCommands.DryRunPreviews` | internal/api/dryrun.go:29-58 | a dry run answers as the command would on the content of the moment and leaves show and stored replies alone |
| `CommitCommands.LookupMeans` | internal/api/idempotency.go:96-109 | a stored reply is found until it has expired, and then it is gone |
| `CommitCommands.StoredRepliesApart` | internal/api/idempotency.go:96-118 | no attempt reads or changes a stored reply but a mutation of the same actor, route and key |
| `CommitCommands.TranslationRoundTrip` | internal/api/batch.go:68-110 | a sub-request becomes a command if and only if it posts to the pools with a name and comma-free requirements; the command names the pool, and splitting its third argument at commas gives the requirements back |
| `CommitCommands.BatchOutcome` | internal/api/batch.go:278-392 | a planned batch is applied if and only if its base is readable, its If-Match absent or current, all commands succeed, nobody else saves in between and nothing fails; 400 and 500 are each given exactly |
| `CommitCommands.UnplannedBatch` | internal/api/batch.go:184-243 | an empty batch or one that cannot be planned leaves the show alone and is answered 403 or 400 |
| `CommitTheorems.RunRaises` | internal/api/mutate.go:202-265 | the revision on disk never falls over any run |
| `CommitTheorems.AppliedPinsRevision` | internal/api/revision.go:25-65 | an applied attempt with an If-Match revision found exactly that revision and left a higher one |
| `CommitTheorems.OneWinnerPerRevision` | internal/api/mutate.go:202-265 | over any run of mutations, batches, dry runs, replays and outside writes, at most one applied attempt carries a given If-Match revision |
| `CommitTheorems.BatchAllOrNothing` | internal/api/batch.go:278-392 | a refused batch has not written the show; an applied one saw no other writer and moved the revision by exactly one |
| `CommitTheorems.BatchMeansItsParts` | internal/api/batch.go:278-392 | an applied batch leaves the content, and reports the results, of its sub-requests issued one by one as single mutations; only the revision count differs |
| `CommitTheorems.BatchAppliesIff` | internal/api/batch.go:278-392 | without faults or other writers an admissible batch is applied if and only if each part would succeed as a single mutation |
| `CommitTheorems.SinglesDisk` | internal/api/mutate.go:236-264 | single mutations issued one by one compose their contents and add up their saves |
| `CommitTheorems.SinglesFollow` | internal/api/mutate.go:236-264 | they all succeed, with the commands' own outputs, exactly when no command fails |
| `CommitHistory.RepliesRepeat` | internal/api/mutate.go:209-224 | within the time to live every attempt with the same actor, route and key gets the first stored reply and changes nothing |
| `CommitHistory.ExecutionsFarApart` | internal/api/idempotency.go:96-118 | two executions of the same actor, route and key are more than the time to live apart |
| `CommitHistory.PublishedIsCommitted` | internal/api/events.go:393-406 | over any run the published state events are exactly the committed mutations with a readable revision plus one per sub-request of each committed batch, in commit order |
| `CommitHistory.PublishedRevisionsAscend` | internal/api/events.go:393-406 | their revisions never decrease and stay within what was on disk |
| `CommitEvents.MutationFiresOnce` | internal/api/mutate.go:180-265 | every mutation, whatever becomes of it, fires exactly one event, with the request's route, arguments, actor and correlation id and with label, status and revisions of the reply that is given |
| `CommitEvents.AppliedBatchFires` | internal/api/batch.go:268-392 | an applied batch fires one success per sub-request in order, each with its own command, the caller and the one new revision |
| `CommitEvents.RefusedBatchFires` | internal/api/batch.go:184-392 | a refused batch fires failures only, with the caller and the status of the reply: none if empty, one for a sub-request that is refused or fails, otherwise one per sub-request |
| `CommitEvents.VetoedBatchTells` | internal/api/batch.go:208-243 | a batch that cannot be planned fails at its first inadmissible sub-request, under the command it asks for or, without one, under what it names |
| `CommitEvents.FailedBatchTells` | internal/api/batch.go:308-327 | a batch whose commands do not all succeed fails at the first that does not, with the number of successes before it |
| `CommitEvents.PublishedPayload` | internal/api/events.go:393-406 | the payload published for an applied mutation holds its own domain, route, revision and actor |
| `CommitEvents.DomainIsFirstWord` | internal/api/events.go:373-382 | the domain of a route is its first word |
| `StateEvents.JointHistory` | internal/api/events.go:393-406 | over any joint run, in which attempts publish their changes one by one between script publications and all other stream steps, the state events of the history followed by those the latest attempt still owes are the committed changes in commit order |
| `StateEvents.JointNeverGoesBack` | internal/api/events.go:468-505 | over any joint run whose publications do not overlap, the state events a client reads over any number of reconnections never go back in revision, and none is newer than the show on disk |
| `ChannelMap.ScaleToByte` | internal/artnet/channelmap.go:118-126 | 255 exactly at full or above, otherwise the level times 255 truncated |
| `ChannelMap.ScaleIsMonotone` | internal/artnet/channelmap.go:118-126 | a higher level never gives a lower byte |
| `ChannelMap.Encode` | internal/artnet/channelmap.go:65-112 | the nested loops produce, per universe, the last byte painted on each channel, or the first error in instance and channel order |
| `ChannelMap.EncodeInstance` | internal/artnet/channelmap.go:93-108 | the inner loop writes one instance's channels or reports its first failing one |
| `ChannelMap.GroupByUniverse` | internal/artnet/worker.go:192-195 | each universe gets its own instances in list order |
| `ChannelMap.EncodePerUniverse` | internal/artnet/worker.go:359-369 | encoding a universe from its own instances agrees with encoding all of them at once |
| `ChannelMap.EncodeFailsSomewhere` | internal/artnet/worker.go:359-369 | encoding all instances succeeds if and only if every universe alone succeeds; otherwise the universe returned fails alone |
| `Footprints.LastLandingWins` | internal/artnet/channelmap.go:93-109 | a channel shows the scaled value of the last instance in list order that lands on it |
| `Footprints.NothingLands` | internal/artnet/channelmap.go:65-112 | a channel nothing lands on is 0 |
| `Footprints.EncodesIff` | internal/artnet/channelmap.go:65-112 | encoding succeeds if and only if every instance has a layout and every driven instance has a value and a place for each channel |
| `Footprints.EncodeErrorTells` | internal/artnet/channelmap.go:65-112 | a failed encode tells what is wrong with the first instance that cannot be encoded, and there the first channel in wiring order without a value or a place |
| `Footprints.PartialOverrideFails` | internal/artnet/desk.go:206-212 | a desk override that covers only some channels of an instance the frame does not drive makes its universe fail |
| `Footprints.OwnerDecides` | internal/artnet/channelmap.go:65-112 | with footprints that do not overlap, only the owner of a channel decides what it shows |
| `Footprints.DarkByLastLanding` | internal/artnet/safety.go:199-214 | under blackout or stop-all a channel is 0 if the last instance in list order that lands on it has an intensity there, or none lands, and otherwise what any other safety state sends |
| `Footprints.DarkSlotIff` | internal/artnet/safety.go:199-214 | with fitting layouts and distinct ids an intensity channel of a driven instance is 0 under blackout for all frames, overrides and masters if and only if no instance listed later paints it with another capability; and whether or not the instance is driven, if and only if no other instance does |
| `Footprints.OverpaintedStaysLit` | internal/artnet/channelmap.go:93-109 | an instance that paints a channel with another capability can keep it at 255 through blackout in every such rig |
| `Footprints.DarkSlots` | internal/artnet/safety.go:199-214 | with footprints that do not overlap, every intensity channel is sent as 0 and every other channel as in any other safety state |
| `Footprints.OverlapStaysLit` | internal/artnet/safety.go:199-214 | with overlapping footprints a blacked-out channel can stay at 255 |
| `Safety.EffectiveMultiplier` | internal/artnet/safety.go:189-197 | grand master times every level of the instance's groups |
| `Safety.MultiplierPermutes` | internal/artnet/safety.go:189-197 | the multiplier does not depend on the order of the groups |
| `Safety.GrandScales` | internal/artnet/safety.go:189-197 | k times the grand master is k times every multiplier |
| `Safety.GroupScales` | internal/artnet/safety.go:189-197 | k times a group's level is k times the multiplier of an instance listed in it once, and leaves the others alone |
| `Safety.UngroupedMultiplier` | internal/artnet/safety.go:189-197 | without a mastered group the multiplier is the grand master |
| `Safety.MultiplierMono` | internal/artnet/safety.go:189-197 | lowering any master never raises a multiplier, which stays in [0,1] |
| `Safety.ScaledMono` | internal/artnet/safety.go:219-229 | the clamped scaled level grows with the multiplier for every programmed value |
| `Safety.ClampMeans` | internal/artnet/safety.go:175-183 | below 0 is 0, above 1 is 1, anything else is kept |
| `Safety.ApplyOverrides` | internal/artnet/safety.go:256-277 | a fresh frame, each instance's intensity zeroed or scaled, everything else kept |
| `Safety.MasteredMeans` | internal/artnet/safety.go:199-277 | intensity v is sent as 0 in a dark state and otherwise as v times the multiplier, clamped; every other attribute is kept |
| `Safety.BuildMembership` | internal/artnet/worker.go:122-135 | an instance is listed once under each group that refers to it, in group order |
| `Safety.HasMember` | internal/artnet/worker.go:126-131 | the innermost loop finds whether a group refers to the instance |
| `Safety.MembershipMeans` | internal/artnet/worker.go:122-135 | an id belongs to a group if and only if an instance of that id fills a place, by pool and pool member, that a group of that id refers to |
| `Safety.GroupOrderIrrelevant` | internal/artnet/worker.go:122-135 | permuting the groups leaves the overridden frame unchanged |
| `Safety.SafetyState.SetMaster` | internal/artnet/safety.go:145-170 | a level outside [0,1] is rejected without effect; otherwise one level changes and all others stay |
| `Safety.SafetyState.SetBlackout` | internal/artnet/safety.go:103-105 | changes the blackout flag only |
| `Safety.SafetyState.SetStopAll` | internal/artnet/safety.go:109-111 | changes the stop-all flag only |
| `MasterUpdates.SnapshotsSound` | internal/artnet/safety.go:145-170 | under every interleaving of loads and stores each published snapshot is in range and is one complete change of an earlier one |
| `MasterUpdates.UndisturbedKeepsOthers` | internal/artnet/safety.go:145-170 | with no store between its load and its store a setter preserves every other level |
| `MasterUpdates.StoreKeepsOthersIff` | internal/artnet/safety.go:145-170 | a store preserves the levels it does not set if and only if they are still those its load saw |
| `MasterUpdates.OverlapLosesUpdate` | internal/artnet/safety.go:145-170 | two overlapping setters can lose the first one's level |
| `Desk.DeskIsLastWriterWins` | internal/artnet/desk.go:111-196 | after any sequence of calls the nested map holds, per instance and capability, what the last call that touched it left |
| `Desk.DeskWellFormed` | internal/artnet/desk.go:111-196 | every held value is of a supported capability and in [0,1] |
| `Desk.NoEmptyEntries` | internal/artnet/desk.go:139-166 | an instance has an entry if and only if some capability of it is held |
| `Desk.DeskState.SetAttribute` | internal/artnet/desk.go:111-132 | validates capability then value; an accepted call publishes a fresh snapshot with a fresh attribute map for the instance and shares the others, a rejected one publishes none; no snapshot or attribute map that existed before changes |
| `Desk.DeskState.CopyEntry` | internal/artnet/desk.go:122-127 | the attribute map of an instance is copied into a fresh object, empty if it has none |
| `Desk.CopyValues` | internal/artnet/desk.go:122-160 | copies an attribute map into a fresh object, without one capability if so asked |
| `Desk.DeskState.ClearAttribute` | internal/artnet/desk.go:139-166 | releases one value in a fresh attribute map and shares the others; a call with nothing to release keeps the published snapshot |
| `Desk.DeskState.ClearInstance` | internal/artnet/desk.go:171-187 | releases one instance; a call with nothing to release keeps the published snapshot |
| `Desk.DeskState.ClearAll` | internal/artnet/desk.go:191-196 | publishes a fresh empty snapshot |
| `Desk.DeskState.CurrentOverrides` | internal/artnet/desk.go:61-69 | a reader gets the published snapshot, which holds what all calls so far have left |
| `Desk.SupportedCapability` | internal/artnet/desk.go:85-92 | accepts exactly the declared capabilities |
| `Desk.SupportedIff` | internal/fixture/model.go:46-60 | the capabilities a desk can hold |
| `Desk.CopyWithout` | internal/artnet/desk.go:152-181 | copies a map without one key |
| `Desk.ApplyDesk` | internal/artnet/desk.go:213-226 | overlays every override on the frame, synthesising missing instances |
| `Desk.DeskWinsOverFrame` | internal/artnet/desk.go:213-226 | a tick sees the last value the desk still holds, otherwise the frame's own |
| `Output.SafetyNeverChangesErrors` | internal/artnet/worker.go:346-384 | no safety state decides whether a universe encodes or with which error |
| `Output.LoweringNeverRaises` | internal/artnet/safety.go:219-277 | turning the safety state down never raises any byte and never moves one whose last painter is not an intensity |
| `Output.IdentityIsTransparent` | internal/artnet/safety.go:256-277 | with no blackout and all masters at full the bytes are the frame's own |
| `Output.MasteredAtMostUnmastered` | internal/artnet/safety.go:219-277 | no mastered byte exceeds the unmastered one, and errors are the same |
| `Output.DarkLevels` | internal/artnet/safety.go:204-277 | under blackout or stop-all a channel is 0 if its last painter is an intensity and otherwise what any other safety state sends, without assuming anything about footprints |
| `Output.LevelsArePainted` | internal/artnet/worker.go:359-369 | the levels of a universe, including the all-zero default, are the bytes painted on it |
| `Packet.EncodeArtDmx` | internal/artnet/packet.go:45-62 | fills the 18-byte header and the data of the packet whose 15-bit address is the given one; fails exactly for odd lengths or lengths outside 2 to 512 |
| `Packet.PutHeader` | internal/artnet/packet.go:50-60 | the header bytes |
| `Packet.WireBytes` | internal/artnet/packet.go:45-62 | every byte of a packet: "Art-Net", opcode 0x5000 low byte first, version 14, sequence, physical port, address low byte first, length high byte first, data |
| `Packet.WireFormat` | internal/artnet/packet.go:45-62 | printing and a strict reader of the format are inverse on exactly the well-formed contents |
| `Packet.RoundTrip` | internal/artnet/packet.go:45-62 | a packet is read back unchanged if and only if its address fits 15 bits, and channel o is byte 18 + o |
| `Packet.AddressIsLowByte` | internal/artnet/packet.go:71-76 | the Port-Address is the universe modulo 256: Net 0, Sub-Net in the high nibble, Universe in the low one, for negative numbers too |
| `Packet.SameAddressIff` | internal/artnet/packet.go:71-76 | two universes share a Port-Address if and only if they agree modulo 256 |
| `Packet.ValidUniversesDistinct` | internal/artnet/target.go:55-73 | two different universes in 1 to 255 never share a Port-Address |
| `Packet.NextSeq` | internal/artnet/packet.go:83-88 | never 0 |
| `Packet.KthSequence` | internal/artnet/packet.go:83-88 | the k-th value is ((k - 1) mod 255) + 1 |
| `Worker.Worker.constructor` | internal/artnet/worker.go:180-226 | the health object tracks exactly the map's keys and universes; instances grouped per universe, membership as built, universes sorted and each once, counters empty, and one unconnected state per target, universe by universe in list order |
| `Worker.BuildStates` | internal/artnet/worker.go:219-223 | the nested loop builds exactly the map's targets |
| `Worker.Worker.Start` | internal/artnet/worker.go:254-264 | exactly the targets whose dial succeeds become connected; the health object hears one failed send per failed dial, in walk order, and nothing else |
| `Worker.Worker.DialUniverse` | internal/artnet/worker.go:256-263 | the same for one universe, leaving the others alone |
| `Worker.Worker.NextSeqFor` | internal/artnet/worker.go:308-314 | advances one universe's counter and no other |
| `Worker.Worker.UniverseLevels` | internal/artnet/worker.go:360-368 | the levels of one universe, or its encode error |
| `Worker.Worker.BuildPacket` | internal/artnet/worker.go:360-375 | if the universe encodes, its levels are recorded and it gets one packet and one counter step; nothing otherwise |
| `Worker.Worker.Tick` | internal/artnet/worker.go:346-375 | desk, then safety, then one packet per universe that encodes, whose levels readers of the health object then see; the frame time is recorded; an idle tick does nothing |
| `Worker.PacketsCarryLevels` | internal/artnet/worker.go:359-375 | every packet of a tick parses, carries its universe's Port-Address and its levels at byte 18 |
| `Worker.PacketIffEncodes` | internal/artnet/worker.go:359-375 | a universe gets a packet if and only if it is configured and encodes |
| `Worker.DarkPackets` | internal/artnet/worker.go:346-384 | under blackout or stop-all, whatever frame, desk and masters, each data byte of each packet is 0 if an intensity has the last word on it and otherwise what any other safety state would send |
| `Worker.DarkPacketSlots` | internal/artnet/worker.go:346-384 | the same by the rig: each data byte of each packet is 0 if the last instance in list order that lands on its channel has an intensity there, or none lands, and otherwise what any other safety state would send |
| `Worker.BuildStepAgrees` | internal/artnet/worker.go:359-375 | the build step of the send system does what a tick does to counters and packets |
| `SendTicks.TicksBuildTheirPackets` | internal/artnet/worker.go:346-414 | wherever the send goroutines stand, after any number of ticks of builds and offers the packets built and the counters are those of the ticks alone |
| `Sends.OneInFlight` | internal/artnet/worker.go:393-414 | under every interleaving a target has at most one send in flight, and its busy flag is up exactly while it has one |
| `Sends.WritesInTickOrder` | internal/artnet/worker.go:393-414 | under every interleaving a target is written packets of its own universe, each built after the one before |
| `Sends.KthPacketSequence` | internal/artnet/worker.go:308-314 | the k-th packet of a universe carries ((k - 1) mod 255) + 1 whatever other universes and sends do |
| `SendStarts.EveryPacketAccounted` | internal/artnet/worker.go:377-414 | under every interleaving and at every moment, for an enabled and connected target: the packets built for its universe are those sent or about to be sent, in order, those skipped at an offer that found its busy flag up, and the newest while still on offer |
| `SendStarts.OfferStarts` | internal/artnet/worker.go:393-412 | an offer to an idle target launches exactly one send, of the newest packet; to a busy one it launches none |
| `SendStarts.SendCompletes` | internal/artnet/worker.go:402-413 | a send that runs to its end writes its packet once, reports the result once, takes the busy flag down and touches nothing else |
| `SendOutcomes.OneOutcomeEach` | internal/artnet/worker.go:377-414 | under every interleaving and at every moment: a disabled target is written nothing and reports nothing; one without a connection reports one refusal per packet offered; a connected one reports the results of its writes, each once and in order, but for a write not recorded yet |
| `SendCounters.CountersAccountForSends` | internal/artnet/worker.go:254-414 | whatever the health object heard before and hears from others, while a target's key stays listed its success and failure counters have grown by exactly its failed dial, its refused offers, its recorded writes and what others reported under its key |
| `SendCounters.DaemonKeysOwn` | internal/artnet/daemon.go:681-762 | in a daemon's map no two targets share a key, so that account holds of every target |
| `Targets.ValidIff` | internal/artnet/target.go:67-85 | a target is valid if and only if its universe is 1 to 255, its address specific and not broadcast, and its port open or at most 65535 |
| `Targets.RefusedFor` | internal/artnet/target.go:67-85 | which check refuses a target |
| `Targets.SameKeyIff` | internal/artnet/target.go:32-53 | two targets have one key if and only if universe, printed address and port agree, a port left open being 6454 |
| `Targets.FindDuplicate` | internal/artnet/target.go:93-103 | none exactly when all keys differ; otherwise the first target whose key came before |
| `Targets.SetEnabled` | internal/artnet/target.go:111-126 | a copy with the matching target toggled, or nothing found |
| `Targets.AddOrReplace` | internal/artnet/daemon.go:709-722 | the target replaces the one with its key or is appended |
| `Targets.ConfiguredProper` | internal/artnet/daemon.go:709-725 | adding or replacing a valid target keeps a list valid, duplicate-free and of one universe |
| `Targets.ConfiguredMeans` | internal/artnet/daemon.go:709-722 | afterwards the list holds that target and every other one with another key, and the keys grew by exactly its key |
| `Targets.ConfiguredInPlace` | internal/artnet/daemon.go:709-722 | a target with the key is replaced where it stands, a new one goes to the end |
| `Targets.ToggledProper` | internal/artnet/target.go:111-126 | toggling keeps a list proper |
| `Targets.ToggledMeans` | internal/artnet/target.go:111-126 | toggling changes the matching flag only, and no key |
| `Health.Health.Configure` | internal/artnet/health.go:161-187 | for any walk of the map the configured keys and universes become exactly those of the map, known keys keep their counters, and readers see it |
| `Health.ListingKeys` | internal/artnet/health.go:166-179 | the keys met are those of the map's targets, whatever the order of the walk |
| `Health.Health.RecordSend` | internal/artnet/health.go:209-234 | counts one outcome if the key is configured, otherwise changes nothing |
| `Health.Health.RecordUniverseValues` | internal/artnet/health.go:262-271 | keeps the levels of configured universes only |
| `Health.CountersFaithful` | internal/artnet/health.go:161-234 | over any run of reconfigurations and outcomes, a key's counters are the outcomes that arrived while the latest configuration listed it, it is reachable exactly once a send succeeded, and it shows the error of the latest such outcome |
| `Health.CountersNeverFall` | internal/artnet/health.go:161-234 | no counter falls across any number of reconfigurations |
| `Health.EntryShowsLatest` | internal/artnet/health.go:209-218 | an entry shows the target of the latest listing or accepted outcome |
| `Health.StaleOutcomeShowsEnabled` | internal/artnet/worker.go:408-413 | an outcome of a stopped worker can show a disabled target as enabled |
| `Daemon.RunProper` | internal/artnet/daemon.go:681-762 | from an empty start, after any requests, every list is valid, duplicate-free, not empty and filed under its own universe |
| `Daemon.AddressesDistinct` | internal/artnet/daemon.go:681-762 | no two configured universes share a Port-Address |
| `Daemon.NeverDuplicate` | internal/artnet/daemon.go:723-725 | the duplicate check after an update can never reject |
| `Daemon.RepliesMean` | internal/artnet/daemon.go:681-762 | from an empty start each reply is exactly a usage error, a rejection of an invalid target, not found, or done |
| `Daemon.DaemonIsLastWriterWins` | internal/artnet/daemon.go:681-762 | after any requests the lists hold exactly the targets of a flat last-writer-wins map from key to target |
| `DaemonServer.Server.Reconfigure` | internal/artnet/daemon.go:174-207 | the fresh worker holds exactly the map's targets, connected as dialled, and the health object has heard exactly the new listing and the failed dials |
| `DaemonServer.Server.HandleConfigure` | internal/artnet/daemon.go:681-732 | parse, validate, update, reconfigure: map and reply as specified; a change leaves a fresh worker of exactly the new map and a health object in step, a refusal leaves worker and health alone |
| `DaemonServer.Server.HandleSetEnabled` | internal/artnet/daemon.go:738-762 | the same for enable and disable |
| `DaemonServer.Server.constructor` | internal/artnet/daemon.go:217-263 | from any target map the first worker and the health object are in step with it |
| `Flags.ParseFlags` | internal/artnet/daemon.go:955-975 | the daemon's loop reads the flags of an argument list or reports the first misuse |
| `Flags.ParseArtnetArgs` | internal/command/artnet.go:211-240 | the client's loop does the same with names that stand alone, so without such names both sides agree |
| `Flags.MisuseIsRefused` | internal/artnet/daemon.go:955-975 | an argument without two dashes, a last name without its value and a value for a name that stands alone are refused as such |
| `Flags.LastValuesMeans` | internal/artnet/daemon.go:955-975 | the flags read are the last value given for each name |
| `Flags.PrintedFlagsRecovered` | internal/artnet/daemon.go:955-975 | for any list of flag and value pairs, in either spelling, the last value of each name is read back if and only if no name holds an equals sign |
| `Flags.ForwardedUnchanged` | internal/command/artnet.go:778-828 | every universe, address, port and enabled value the client reads and forwards is read by the daemon unchanged |
| `Flags.SelectorUnchanged` | internal/command/artnet.go:742-784 | the same for the selector of a target to enable or disable |
| `Flags.FlagsMean` | internal/artnet/daemon.go:681-700 | universe and address are required, the port is 0 and the target enabled unless the flags say otherwise, and what does not parse is refused |
| `ArchiveNames.NormalizeIdempotentIff` | internal/bootstrap/archive.go:44-62 | normalising a normalised name gives it back, or is refused exactly when it is only white space |
| `ArchiveNames.BlankExample` | internal/bootstrap/archive.go:44-62 | such a name exists |
| `InstallAcceptance.NormalizeIff` | internal/bootstrap/archive.go:44-62 | a name is accepted if and only if it is not blank, not rooted by a slash, a backslash or a colon, has no ".." segment and some segment that names something; what is kept are those |
| `InstallAcceptance.TargetAllowedIff` | internal/bootstrap/archive.go:218-231 | a symlink is accepted if and only if its target is not blank, not rooted, and a walk from the entry's directory along it never climbs above the root |
| `ArchiveNames.NormalShape` | internal/bootstrap/archive.go:44-62 | a normalised name is made of plain segments: none empty, ".", ".." or with a slash, backslash or colon |
| `ArchiveNames.AllowedTargetIsSpelledInside` | internal/bootstrap/archive.go:218-231 | by spelling alone, read beneath its own entry, the target of an accepted symlink climbs nowhere; where it leads is the subject of `Containment` |
| `FileTree.LocateLands` | internal/bootstrap/archive.go:233-262 | in a well-formed tree every name, through whatever links, leads to the root or to a place in a real directory |
| `FileTree.WriteFileMeans` | internal/bootstrap/bootstrap.go:160 | writing a file puts the content where the name leads, keeps an existing file's mode, and the name still leads there |
| `FileTree.MkdirAllPlain` | internal/bootstrap/archive.go:242 | where no link is in the way, making directories adds exactly the missing ones |
| `FileTree.MkdirAllReplacesNothing` | internal/bootstrap/archive.go:242 | making directories, through whatever links, leaves everything that is there |
| `Install.Inventory` | internal/bootstrap/bootstrap.go:166-230 | succeeds exactly when the archive declares every file and symlink on disk; then lists each of them once, sorted |
| `Install.InstalledMatches` | internal/bootstrap/bootstrap.go:236-373 | the verdict on any tree: good exactly when the manifest its name leads to is this archive's, every entry checks and the walk finds nothing else; a mismatch or a read error otherwise, as the first problem met decides |
| `InstallTampering.GoodMeans` | internal/bootstrap/bootstrap.go:236-373 | a good verdict means: the manifest read names this archive, is of the current version and lists something; every entry agrees with what its path leads to; no path is listed twice; and the tree holds nothing else but directories above listed paths |
| `InstallTampering.WithoutManifest` | internal/bootstrap/bootstrap.go:242-257 | no manifest, or one that does not decode, is a mismatch; one that is not a file or cannot be reached is an error |
| `InstallAcceptance.MalformedEntry` | internal/bootstrap/bootstrap.go:264-300 | an entry no install writes is a mismatch whatever the tree holds |
| `Install.CheckEntry` | internal/bootstrap/bootstrap.go:264-338 | one manifest entry against what its path leads to, links in its directory part followed |
| `Install.CheckEntries` | internal/bootstrap/bootstrap.go:261-339 | all entries, with the expected paths and directories |
| `Install.AddDirectories` | internal/bootstrap/bootstrap.go:280-282 | adds every directory above a path |
| `Install.ModeRoundTrip` | internal/bootstrap/bootstrap.go:222 | nine permission bits survive printing as four octal digits and parsing |
| `InstallTheorems.StagedTreeMatchesIff` | internal/bootstrap/bootstrap.go:125-373 | for any well-formed staged tree that passes the inventory, however it came about, the install is recognised if and only if every directory holds a file or symlink, every file has the archive's mode, no name is only white space and the manifest's name led to its own free place (or to a file that hashes alike, or out of the tree to one that still holds it) |
| `InstallArchive.Inspect` | internal/bootstrap/archive.go:95-198 | the entries in order, or the first bad name, duplicate or unsafe kind |
| `InstallArchive.InspectGood` | internal/bootstrap/archive.go:95-198 | inspected entries have unique normalised names, permission bits and contained symlinks |
| `InstallAcceptance.InspectsIff` | internal/bootstrap/archive.go:95-198 | an archive passes inspection if and only if its names are accepted and differ once normalised and its kinds are accepted (a symlink in a tar archive only); its entries keep kind and permission bits, with 0755 and 0644 as defaults |
| `InstallAcceptance.InspectErrorTells` | internal/bootstrap/archive.go:95-198 | a refused archive is refused for its first header that cannot stand where it is, and for that reason |
| `InstallAcceptance.OrderOfExtraction` | internal/bootstrap/archive.go:263-274 | a ZIP is extracted in ascending order of its names, a tar stream in its own |
| `InstallArchive.Extract` | internal/bootstrap/archive.go:263-381 | entry by entry, with parent directories and following the links laid so far, up to the first obstacle |
| `InstallArchive.ExtractedWellFormed` | internal/bootstrap/archive.go:263-381 | whatever links an archive lays, what extraction leaves is a well-formed tree |
| `InstallArchive.Unpacks` | internal/bootstrap/archive.go:263-381 | if no entry lies beneath a symlink entry the extracted tree is the archive: each entry in its place, parents as directories, nothing else |
| `InstallStaged.StagedIff` | internal/bootstrap/archive.go:263-381 | an inspected archive without an entry beneath a symlink is unpacked if and only if it has none beneath a file |
| `Containment.EntryInside` | internal/bootstrap/archive.go:233-262 | an entry whose name does not lead out of the tree is placed the same way whatever is outside |
| `Containment.EntryOutside` | internal/bootstrap/archive.go:233-262 | an entry whose name leads out is refused if nothing outside can be written, and otherwise leaves the tree as it was |
| `Containment.ContainedIff` | internal/bootstrap/archive.go:263-381 | what extraction does depends on nothing outside the tree if and only if no entry's name, when its turn comes, leads out of it |
| `Containment.UnaliasedStaysInside` | internal/bootstrap/archive.go:263-381 | an archive without an entry beneath a symlink never leaves the tree |
| `InstallStaged.ExtractionContainedIff` | internal/bootstrap/archive.go:95-381 | the same exact condition for every archive that passes inspection |
| `InstallStaged.UnaliasedContained` | internal/bootstrap/archive.go:95-381 | an inspected archive without an entry beneath a symlink meets it |
| `InstallWitnesses.InspectionIsNotContainment` | internal/bootstrap/archive.go:218-262 | an archive of two links and a file that passes inspection and does not meet it |
| `InstallStaged.UnaliasedInventory` | internal/bootstrap/bootstrap.go:166-230 | the inventory of a freshly extracted archive without an entry beneath a symlink never fails |
| `InstallWitnesses.AliasFailsInventory` | internal/bootstrap/bootstrap.go:166-230 | a directory, a link to it and a file entry beneath the link pass inspection and extract, and the inventory then fails |
| `InstallStaged.BuildTables` | internal/bootstrap/bootstrap.go:167-178 | permission bits per file and target per symlink |
| `InstallStaged.InstallStaged` | internal/bootstrap/bootstrap.go:125-164 | fails exactly as inspection or extraction does, or when the tree holds a leaf the archive does not declare, no leaf at all, or the manifest cannot be written where its name leads; otherwise the result is the staged tree with its manifest |
| `InstallStaged.InstallRoundTrip` | internal/bootstrap/bootstrap.go:125-373 | for every archive: after a successful install the check of the unchanged tree is good if and only if every staged directory holds a file or symlink, every file has on disk the mode the archive gives its own name, no name is only white space and the manifest's name led to its own free place |
| `InstallStaged.UnaliasedRoundTrip` | internal/bootstrap/bootstrap.go:125-373 | for an archive with no entry beneath a symlink and no root symlink named like the manifest: if and only if every directory entry has a file or symlink beneath it, no file or symlink name is only white space, and no root file is named like the manifest (unless the two hash alike) |
| `InstallTampering.OtherPinIsRefused` | internal/bootstrap/bootstrap.go:258 | an install is a mismatch under every pin but its own |
| `InstallTampering.TamperingIsNoticed` | internal/bootstrap/bootstrap.go:236-373 | after an install, any tree with the same manifest is recognised only if it has the same files and symlinks under the same names, each symlink with its target, each file with content of the same digest and with its mode, and exactly the directories above them |
| `InstallWitnesses.ClashIsNotRecognised` | internal/bootstrap/archive.go:241-262 | d/f, a link l to d and l/f with another mode: passes inspection, installs, and the check of the unchanged install is not good |
| `InstallWitnesses.ManifestThroughLink` | internal/bootstrap/bootstrap.go:160 | a root symlink named like the manifest to a free name, and a file: passes inspection and installs with the manifest where the link leads, and the check of the unchanged install is not good |
| `InstallWitnesses.BareDirectory` | internal/bootstrap/bootstrap.go:340-373 | an empty directory and a file: passes inspection, installs, and the check of the unchanged install is not good |
| `Router.NormalizeIdempotent` | internal/command/router.go:73-84 | a normalised key is its own normal form |
| `Router.SameKeyIff` | internal/command/router.go:73-84 | two names share a key if and only if they hold the same words, whatever case and spacing |
| `Router.KeyIff` | internal/command/router.go:66-84 | a name has a key if and only if its words, in lower case, are letters, digits and inner dashes; the key is those words, and case does not matter |
| `Router.CommandRegistry.RegisterScope` | internal/command/router.go:101-115 | adds one single-word scope or reports why not, changing nothing else |
| `Router.CommandRegistry.RegisterRoute` | internal/command/router.go:120-138 | adds one route of a declared scope or reports why not, changing nothing else |
| `Router.CommandRegistry.Lookup` | internal/command/router.go:143-155 | the longest prefix of the words that is a declared route, with exactly the words after it |
| `Router.BuildDefault` | internal/command/router.go:286-305 | scopes then routes in sorted order, up to the first error |
| `RouterOrder.OrderIrrelevant` | internal/command/router.go:286-305 | every permutation of the declared scopes and routes gives the same registry or the same error |
| `RouterOrder.RegistryHoldsDeclarations` | internal/command/router.go:286-305 | a registry holds every declared route under its key, nothing else, and no route without its scope |
| `RouterOrder.RegistryBuildsIff` | internal/command/router.go:101-138 | the registry can be built if and only if every scope is one word, every route has a handler and begins with a declared scope, and no two scopes and no two routes share a key; its keys are then exactly those declared |
| `RouterOrder.SortIsSorted` | internal/command/router.go:290-299 | the stable sort is a sorted permutation |
| `Strconv.ParseOfFormat` | internal/command/artnet.go:778-784 | every 64-bit integer survives printing and parsing, and no other does |
| `Strconv.ParseIntMeans` | internal/api/revision.go:31 | a digit string is read as its value, with an optional sign and within 64 bits, and nothing else is read |
| `Strconv.ParseBoolMeans` | internal/artnet/daemon.go:691-698 | the spellings of true and of false |
| `Text.TrimSpaceMeans` | internal/api/translate.go:43-49 | trimming takes white space off both ends, and all of it |

## Left out

Contracts that hold under a stated condition:

- EventClients.ClientReadsContiguousHistory: one process run with fewer than 2^63 events, a capacity of at least one, and publishers that do not overlap; ids from an earlier process run are recognised only when they exceed the latest id (internal/api/events.go:273-284).
- CommitTheorems.OneWinnerPerRevision: assumes that a routed command reporting success has saved, that each save moves the revision up by one and that outside writers move it up; `show.Save` has no compare-and-set, so an outside writer holding an old state could lower it.
- CommitServer.Server.CommitBatch: `show.Save` is atomic (an error means nothing was committed), its scrubbing and validation of the content are not modelled, and no outside write happens between the re-check at internal/api/batch.go:345 and the save at internal/api/batch.go:370.
- CommitHistory.PublishedIsCommitted: events that other surfaces publish directly (internal/api/observer.go:85-87) are not part of the runs.
- CommitServer.Server.FireObservers: the list of observers and its registration are not modelled; firing appends the event that every observer gets.
- StateEvents.JointNeverGoesBack: publications do not overlap; a script event that overlaps state events can make a reconnecting client read some of them again.
- Safety.SafetyState.SetMaster: both setters as one method taking the change; the revoke-automation flag is not modelled.
- Worker.Worker.Tick: reads of frame, desk and safety state and the clock are inputs; encode errors are only logged by the source and not modelled.
- Sends.WritesInTickOrder: the dial result of a target is fixed for the worker's life, as it is after `Start`; stopping a worker is not a step.
- DaemonServer.Server.Reconfigure: the orders in which the runtime walks the target map, and the outcome of each dial, are inputs; the old worker's ticks are over, its send goroutines are the other sources of `SendCounters`.
- Flags.ForwardedUnchanged: address parsing and printing are given, with printing a parsed address and parsing it again assumed stable.
- Install.InstalledMatches: the file system is POSIX (no drive letters, no backslash translation, modes always compared); read errors other than a directory, a file in a directory's place or too many links are not modelled, permission errors among them.
- Install.Inventory: every file can be read; a file entry without the owner's read bit makes the source's hashing fail for an ordinary user.
- InstallStaged.InstallStaged: permission errors on files are missing from the error condition: an unreadable file stops the inventory, and a read-only file cannot be opened again through an alias or for the manifest. `InstallStaged.InstallRoundTrip` is not affected, as it speaks of installs that went through.
- InstallStaged.UnaliasedInventory: the same, for files without the owner's read bit.
- InstallArchive.Extract: directory modes are not modelled (directories are assumed listable and writable), nor are permission errors on files; whether a write that leaves the tree through a link succeeds, and what stands there, are inputs.
- InstallStaged.InstallRoundTrip: SHA-256 is any function to 64 hexadecimal digits, and the JSON encoding of a manifest is assumed to decode to it; that holds of names that are valid UTF-8, and names here are sequences of Unicode characters, so an archive with a name that is not valid UTF-8, which the JSON encoder would alter and the check not recognise, is outside the statement. A manifest written outside the tree is assumed to stay there.
- RouterOrder.OrderIrrelevant: every route has a handler, which `MustDeclareRoute` enforces by panicking.

Not modelled:

- Floating-point rounding and NaN, which passes both range tests (internal/artnet/safety.go:133-138, internal/artnet/desk.go:75-80).
- SQLite storage, the show's own content, the playback engine, fixture decoding; commands and mode layouts are parameters.
- HTTP routing, OpenAPI, authentication, the rate limiter, logging and the JSON of requests.
- `ArtPoll`, `ArtPollReply` and node discovery; UDP sockets, named pipes, tickers and wall-clock time.
- The cadence verdict on the frame time, the status payload and the daemon's remaining requests (internal/artnet/daemon.go:320-673, 781-948).
- Promotion by rename with its retries and the restore of a previous install (internal/bootstrap/archive.go:454-525), and reading of the pin itself (internal/bootstrap/bootstrap.go:73-82).
- Downloading, process execution, builds, the Linear client, the other command files and the frontend.
