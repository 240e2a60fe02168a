# Verified models of the Minecraft plugin supervisor

This project models the algorithms and protocols at the heart of the run supervisor, its MCP client and
their shared framing code, and proves what they promise. `dafny verify dfyconfig.toml` checks all of it.

There is one module, or a small group, per component. What the program updates step by step is a class
with methods proved against functions on values; the main results are lemmas about those functions, over
every input or every run.

- **LoadOrder** – the depth-first search for a cycle among `depend` and `softDepend`, against the search
  without marks.
- **ZipBytes, ZipLayout, ZipReader** – the bounded ZIP reader, against a writer that lays archives out as
  sections 4.3.7, 4.3.12 and 4.3.16 of PKWARE's APPNOTE.TXT describe.
- **JsonText, JsonReader, Ndjson** – newline-delimited JSON framing, with a reader of JSON text as sections 3
  to 7 of RFC 8259 define it.
- **ShellQuote** – the quoted command line of a build, against the token recognition and quoting rules of
  sections 2.2.1, 2.2.2 and 2.3 of POSIX.1-2017 XCU.
- **TextOrder, SourceTree, Utf8, Manifest** – the walk over a source tree, the fingerprint of what it finds,
  fed to a hash as UTF-8 (section 3 of RFC 3629) and read back, and the check that the sources have not
  changed.
- **IpcClient, IpcServer, IpcProtocol** – calls, replies, timeouts and closing sockets as interleaved steps.
- **MutationLog** – the undo log for block changes.
- **EventSubscription** – a polling cursor with a filter, a capped buffer and a pager.
- **CowOverlay** – copy-on-write fixtures over a base directory.
- **RuntimeRegistry, RuntimeGc, RuntimeService, RuntimeLifecycle, RuntimeQuota, RuntimeRetention,
  RuntimeRestart** – the life of runtimes: quota, launch, stop, disposal, release, and the retention
  collector, with every handler cut where it awaits, against the documented diagram of states, and what is
  left of it after a restart.
- **ScenarioEvidence, Scenario, Polling** – the phases of a scenario run, the evidence they leave, and the
  timed loop around one assertion.

## What holds only under a condition

The models follow the code. Where it does less than its comments or its purpose suggest, the condition
under which it does what it should is proved, with an input for which it does not.

- The frame limit applies to everything buffered, complete lines included. Frames that are each within the
  limit are refused if they arrive in one piece and do not all fit (`Ndjson.FramesArriveTogether`,
  `Ndjson.TwoFramesAreOneTooMany`).
- The search for the end of an archive stops at the last signature, so a comment can hide the real record;
  it does not exactly when no later position has one (`ZipReader.FindsTheRealRecord`).
- A subscription does not move past rejected events. It delivers everything exactly when no hundred in a
  row are rejected before one that is accepted, and otherwise stalls for good, however the log grows
  (`EventSubscription.DeliversExactlyWhen`, `EventSubscription.StalledForGood`).
- Undoing restores a block exactly when the first of its applied records whose undo takes effect saw the
  initial material. Retrying a failed call, or losing a reply, breaks that
  (`MutationLog.UndoRestoresExactlyWhen`).
- A call that succeeds changes the block to the material exactly when its key is not that of an applied
  record; with the default keys the third of stone, dirt and stone is dropped
  (`MutationLog.SetTakesEffectExactlyWhen`, `MutationLog.RepeatedMaterialIsDropped`).
- The quota holds up to the number C of creations that overlap as long as every release is of a runtime for
  which no launch, stop or disposal is under way and no server is recorded. After such a run, a release lets
  the bound for C be exceeded exactly when that is not so (`RuntimeQuota.ReleaseBreaksTheBoundExactlyWhen`).
  Two overlapping launches do it without any stop (`RuntimeQuota.LateLaunchBreaksTheQuota`), and if one of
  them succeeds and the other fails, without any overlap of the release (`RuntimeQuota.CrashedCanStillRun`).
- As long as the calls for a runtime do not overlap, its states follow the diagram in
  docs/architecture/state-machines.md, but that a disposal goes from READY to STOPPED at once, and that an
  entry in RETENTION whose directory is gone is dropped (`RuntimeLifecycle.StepsFollowTheDiagram`).
- After a restart a runtime can at some time be created exactly when fewer than the quota allows were saved
  in STOPPING, and a restored one can at some time be removed exactly when it was not saved in STOPPING or
  during its erasure (`RuntimeRestart.CanCreateExactlyWhen`, `RuntimeRestart.CanBeRemovedExactlyWhen`,
  `RuntimeRestart.InterruptedStopEndsCreation`).
- The registry file is loaded by the first call that uses it, but every sweep writes it. The records of the previous
  supervisor are still there exactly when no sweep has ended before that call
  (`RuntimeRestart.RecordsSurviveExactlyWhen`).
- A runtime whose directory could not be erased stays in DELETING exactly when no call for it is still under
  way and no server is recorded (`RuntimeRetention.FailedErasureIsForGoodExactlyWhen`).
- The check for changed sources walks with the default limits, whatever limits the snapshot was taken with,
  and its diagnosis names neither a change of size nor of the executable bit
  (`Manifest.UnchangedTreePasses`, `Manifest.DiffSeesOnlyChecksums`).
- A commit makes the base what the fixture shows exactly when every difference was marked
  (`CowOverlay.CommitExactlyWhen`). A name taken again starts without writes exactly when its directory has
  nothing but copies of base files; otherwise a commit can lose earlier writes
  (`CowOverlay.CreateRefinesExactlyWhen`, `CowOverlay.ReusedNameLosesWrites`). What was deleted is absent
  exactly as long as the base has no such file (`CowOverlay.DeletedIsAbsentExactlyWhen`). A commit under another
  fixture leaves that one showing its own writes over the new base exactly when it changes none of the files
  that one holds a copy of (`CowOverlay.CommitSparesOtherExactlyWhen`).
- The end of a socket, whether it closes, fails or sends too much, rejects every pending call. It spares
  those of other sockets exactly when it is the socket the client has, or nothing is pending, and the program
  does not look (`IpcProtocol.SocketEndSparesOthersExactlyWhen`, `IpcProtocol.LateCloseRejectsNewCalls`).
- The counts of a scenario's result differ from the totals of its evidence exactly when an assertion without
  arguments follows others (`Scenario.TotalsAgree`). An expected error code is looked for among the steps
  only, never in the engine's own error, and cleanup steps, which are said not to influence the outcome, can
  supply it (`Scenario.EngineErrorIsNotWhatIsExpected`, `Scenario.CleanupChangesTheOutcomeExactlyWhen`).

## Model

| member | source | states |
|---|---|---|
| LoadOrder.DetectLoadingCycle | apps/run-supervisor/src/plugin-metadata.ts:133-167 | no cycle is reported if and only if the hard and soft dependencies of known plugins are acyclic, and if and only if a load order exists; a reported cycle is real, and is the one the search without marks finds first |
| LoadOrder.CycleDetector.Visit | apps/run-supervisor/src/plugin-metadata.ts:139-160 | the recursive visit either returns a real cycle or finishes the node with all it depends on, leaves the stack as it was, and ends |
| LoadOrder.CycleDetector.VisitDependencies | apps/run-supervisor/src/plugin-metadata.ts:150-155 | the loop over the dependencies finds what the search without marks finds below the stack |
| LoadOrder.CycleDetector.Enter | apps/run-supervisor/src/plugin-metadata.ts:147-148 | marking and pushing an unmarked node keeps the stack a walk and leaves fewer nodes unmarked |
| LoadOrder.CycleDetector.Finish | apps/run-supervisor/src/plugin-metadata.ts:157-158 | popping a node whose dependencies are finished keeps the finished nodes in load order |
| LoadOrder.CycleDetector.CloseStack | apps/run-supervisor/src/plugin-metadata.ts:142-145 | the stack from a node being visited, closed by that node, is a cycle without repetition |
| LoadOrder.IndexOf | apps/run-supervisor/src/plugin-metadata.ts:144 | finds the first occurrence |
| LoadOrder.LoadOrderImpliesAcyclic | apps/run-supervisor/src/plugin-metadata.ts:132-167 | a load order rules out every cycle |
| LoadOrder.WalkDescends | apps/run-supervisor/src/plugin-metadata.ts:151-155 | along dependencies the positions in a load order strictly fall |
| LoadOrder.NothingToFind | apps/run-supervisor/src/plugin-metadata.ts:139-140 | below plugins that can be put in a load order the search without marks finds nothing, so that skipping done nodes is right |
| ZipReader.SafeNameStaysInside | apps/run-supervisor/src/zip-reader.ts:66-78 | an accepted name, and each prefix of it, leads to a place under the root it is resolved against |
| ZipReader.NameIsRefusedExactlyWhen | apps/run-supervisor/src/zip-reader.ts:66-78 | a name is invalid if and only if it has a NUL, and else outside the root if and only if it begins with a slash, a backslash or a drive, or has two dots alone between slashes, backslashes and its ends |
| ZipReader.SearchBack | apps/run-supervisor/src/zip-reader.ts:80-88 | the backward search finds the greatest position with the signature, or there is none |
| ZipReader.FindEndOfCentralDirectory | apps/run-supervisor/src/zip-reader.ts:80-88 | the loop gives what the search on values gives, never reading outside the buffer |
| ZipReader.FindsTheRealRecord | apps/run-supervisor/src/zip-reader.ts:80-88 | on a laid-out archive the search ends at the real record if and only if no later position looks like one |
| ZipReader.EmptyCommentHidesNothing | apps/run-supervisor/src/zip-reader.ts:80-88 | with an empty comment nothing is hidden |
| ZipReader.SignatureInCommentHidesTheRecord | apps/run-supervisor/src/zip-reader.ts:80-88 | a long enough comment that begins with the signature hides the record |
| ZipReader.ReadDirectory | apps/run-supervisor/src/zip-reader.ts:106-160 | the loop over the directory gives what reading records on values gives |
| ZipReader.ReadZipEntries | apps/run-supervisor/src/zip-reader.ts:91-161 | the whole reader, with every buffer access in range, agrees with the one on values |
| ZipReader.RefusalMeans | apps/run-supervisor/src/zip-reader.ts:124-146 | an entry is let through if and only if its name is safe and its size, ratio and the running total are within their limits, and is refused with the error for its name or for expansion |
| ZipReader.AdmittedMeans | apps/run-supervisor/src/zip-reader.ts:108-146 | checking entry by entry is checking each entry and the total |
| ZipReader.ArchiveRespectsLimits | apps/run-supervisor/src/zip-reader.ts:91-161 | whatever the bytes, entries that come out respect every limit |
| ZipReader.NoSignatureIsInvalid | apps/run-supervisor/src/zip-reader.ts:80-89 | bytes without the signature where it is looked for are no archive |
| ZipReader.LaidOutRecordsHold | apps/run-supervisor/src/zip-reader.ts:111-157 | records laid out one after the other are parsed one after the other |
| ZipReader.ReadsWhatIsHeld | apps/run-supervisor/src/zip-reader.ts:110-160 | records that are there are all read, in order, if and only if none is refused |
| ZipReader.ArchiveRoundTrip | apps/run-supervisor/src/zip-reader.ts:91-161 | reading a laid-out archive gives exactly its entries in order, if and only if count, each entry and their total are within limits; otherwise the error tells what is wrong |
| ZipReader.MemberRoundTrip | apps/run-supervisor/src/zip-reader.ts:164-195 | the k-th entry read leads to the data of the k-th member, whatever precedes the first |
| JsonText.NoNewlineInText | packages/contracts/src/ndjson.ts:65-71 | the JSON text of a value contains no newline |
| JsonText.StringifyIsOneLine | packages/contracts/src/ndjson.ts:65-71 | the text of a value contains no newline, is not empty, and trimming leaves it as it is |
| JsonText.EscapedExactlyWhen | packages/contracts/src/ndjson.ts:66 | a unit of a string is escaped if and only if it is a quote, a backslash, a control character or a surrogate without its other half |
| JsonReader.ParseRoundTrip | packages/contracts/src/ndjson.ts:66 | parsing the text of a value gives the value back |
| JsonReader.StringifyIsInjective | packages/contracts/src/ndjson.ts:66 | no two values have the same text |
| Ndjson.NdjsonDecoder.Push | packages/contracts/src/ndjson.ts:32-53 | fails, and empties the buffer, if and only if the buffer would exceed the limit; else returns the trimmed non-empty complete lines and keeps the rest |
| Ndjson.NdjsonDecoder.Reset | packages/contracts/src/ndjson.ts:60-62 | empties the buffer |
| Ndjson.CleanLineMeans | packages/contracts/src/ndjson.ts:44-48 | a line is dropped if and only if it is all white space, and else reduced to what is from its first to its last other unit |
| Ndjson.SplitIsExact | packages/contracts/src/ndjson.ts:42-51 | splitting into lines loses nothing, and no line contains a newline |
| Ndjson.SplitConcat | packages/contracts/src/ndjson.ts:32-53 | splitting a stream in two parts is splitting the first and carrying the rest over |
| Ndjson.EncodeFrame | packages/contracts/src/ndjson.ts:65-71 | a message is encoded if and only if its text and the newline fit, and the text parses as the message |
| Ndjson.ChunkIndependence | packages/contracts/src/ndjson.ts:32-53 | however a stream is cut, the output is that of the whole stream, if and only if no push goes over the limit |
| Ndjson.SplitFrames | packages/contracts/src/ndjson.ts:65-71 | frames one after the other split into exactly their messages, with nothing left |
| Ndjson.CarryOnlyThese | packages/contracts/src/ndjson.ts:32-71 | the lines that come out carry at most one sequence of messages |
| Ndjson.FramesArrive | packages/contracts/src/ndjson.ts:32-71 | unless a push goes over the limit, sent frames arrive as lines that parse as exactly the messages sent and no others, however the stream is cut, with nothing left over |
| Ndjson.FramesArriveTogether | packages/contracts/src/ndjson.ts:33-40 | in one push, frames get through if and only if all of them fit at once |
| Ndjson.TwoFramesAreOneTooMany | packages/contracts/src/ndjson.ts:33-40 | two frames that each fit are refused together |
| ShellQuote.QuotedIsOneWord | apps/run-supervisor/src/container-backend.ts:551-554 | a quoted argument is read as one word, exactly the argument, with nothing left to expand |
| ShellQuote.QuotingRoundTrip | apps/run-supervisor/src/container-backend.ts:527 | the shell splits joined quoted arguments into exactly those arguments, empty ones included |
| ShellQuote.QuotingInjective | apps/run-supervisor/src/container-backend.ts:527 | command lines that are quoted alike are the same |
| ShellQuote.BuildRunsTheCommand | apps/run-supervisor/src/container-backend.ts:523-533 | after complete preparation steps the script is `&& exec`, each argument of the command as one word, `--offline` if asked for and not there, and nothing else |
| ShellQuote.EveryBuildRunsTheCommand | apps/run-supervisor/src/container-backend.ts:512-533 | with or without a cache the preparation is complete, so every build runs its own command and nothing else after it |
| ShellQuote.AssembleBuild | apps/run-supervisor/src/container-backend.ts:512-533 | pushing the steps one by one gives that script |
| TextOrder.SortForgetsOrder | apps/run-supervisor/src/source-snapshot.ts:100-102 | sorting by distinct names gives the same list for every order of a listing |
| TextOrder.LeqIsUnitOrder | apps/run-supervisor/src/source-snapshot.ts:102 | names are compared by the first UTF-16 code unit in which they differ |
| SourceTree.Collector.WalkDirectory | apps/run-supervisor/src/source-snapshot.ts:97-153 | the recursive walk leaves the entries and total, or the rejection, that the walk on values gives |
| SourceTree.Collector.VisitChild | apps/run-supervisor/src/source-snapshot.ts:104-152 | one child of a directory changes the entries and total, or is rejected, as the walk on values says |
| SourceTree.CollectEntries | apps/run-supervisor/src/source-snapshot.ts:89-157 | collecting agrees with the walk on values |
| SourceTree.CollectForgetsListingOrder | apps/run-supervisor/src/source-snapshot.ts:98-102 | any permutation of every listing gives the same entries or the same rejection |
| SourceTree.CollectSucceeds | apps/run-supervisor/src/source-snapshot.ts:108-150 | collecting succeeds if and only if there is no visible symbolic link and count and bytes are within limits |
| SourceTree.RejectionIsRight | apps/run-supervisor/src/source-snapshot.ts:109-139 | a rejection names a visible symbolic link, or the limit that the visible files exceed |
| SourceTree.VisibleMeans | apps/run-supervisor/src/source-snapshot.ts:104-107 | what is visible is what names lead to with no name and no path on the way excluded |
| SourceTree.LeavesAreTheVisible | apps/run-supervisor/src/source-snapshot.ts:104-126 | the walk meets exactly what a path without excluded names leads to |
| SourceTree.ManifestIsExact | apps/run-supervisor/src/source-snapshot.ts:89-157 | the manifest lists every visible regular file once, with its attributes, in the order of the names, and nothing else |
| Manifest.DecimalInjective | apps/run-supervisor/src/source-snapshot.ts:165 | different sizes are written differently |
| Utf8.EncodeInjective | apps/run-supervisor/src/source-snapshot.ts:163-170 | texts that are fed to the hash as the same UTF-8 bytes are the same |
| Utf8.DecodeRoundTrip | apps/run-supervisor/src/source-snapshot.ts:163-170 | decoding the UTF-8 bytes of a text gives the text back |
| Manifest.FingerprintEntries | apps/run-supervisor/src/source-snapshot.ts:160-173 | feeding the hash piece by piece hashes the bytes of the whole encoding |
| Manifest.BytesRoundTrip | apps/run-supervisor/src/source-snapshot.ts:160-173 | for paths without NUL and checksums without newline, the bytes that are hashed can be read back as the entries |
| Manifest.EncodingIsInjective | apps/run-supervisor/src/source-snapshot.ts:160-173 | for paths without NUL and checksums without newline, equal streams of UTF-8 bytes mean equal entries |
| Manifest.AmbiguousEncoding | apps/run-supervisor/src/source-snapshot.ts:160-173 | without that, two manifests can feed the same bytes |
| Manifest.CreateSnapshot | apps/run-supervisor/src/source-snapshot.ts:175-237 | a snapshot has the collected entries, their fingerprint, the exclusions and what git tells; it is rejected as dirty, after collecting, if and only if asked for and git reports changes |
| Manifest.GitInfoMeans | apps/run-supervisor/src/source-snapshot.ts:175-200 | what is recorded of the repository is what git says, and the hash of the difference only if there is one |
| Manifest.AssertSnapshotUnchanged | apps/run-supervisor/src/source-snapshot.ts:246-265 | passes if and only if the fingerprints agree, and otherwise names the changed paths |
| Manifest.UnchangedMeansSameEntries | apps/run-supervisor/src/source-snapshot.ts:246-265 | with no collision of the two inputs, the check passes if and only if the entries are the snapshot's |
| Manifest.UnchangedTreePasses | apps/run-supervisor/src/source-snapshot.ts:246-256 | an unchanged tree, in any listing order, passes if and only if it has at most 20000 files and 512 MiB |
| Manifest.DiffEntries | apps/run-supervisor/src/source-snapshot.ts:268-290 | lists each path whose presence or checksum differs once, marked and sorted, and no other |
| Manifest.SignsTellPresence | apps/run-supervisor/src/source-snapshot.ts:276-288 | paths that only the second list has are marked `+`, and those that only the first has `-` |
| Manifest.SignTellsChange | apps/run-supervisor/src/source-snapshot.ts:276-283 | a path of both lists is marked `~` if and only if the checksums differ |
| Manifest.DiffSeesOnlyChecksums | apps/run-supervisor/src/source-snapshot.ts:272-283 | the list is empty if and only if presence and checksums agree for every path |
| IpcServer.TokenMatches | apps/run-supervisor/src/ipc-server.ts:233-243 | accumulating differences over the whole token decides equality |
| IpcServer.LinesAreJudged | apps/run-supervisor/src/ipc-server.ts:152-219 | only `null` goes unanswered; the line's own request reaches the handler if and only if version, token and method are right; a refusal has the code of what is wrong and the request's own id if it has one |
| IpcClient.SupervisorClient.Call | apps/mcp-server/src/supervisor-client.ts:161-189 | registers the call with its timer, or rejects it at once if its frame cannot be encoded |
| IpcClient.SupervisorClient.OnTimeout | apps/mcp-server/src/supervisor-client.ts:167-177 | removes the call and rejects it |
| IpcClient.SupervisorClient.OnResponse | apps/mcp-server/src/supervisor-client.ts:120-151 | settles the call with that id once, and drops late replies and bad lines |
| IpcClient.SupervisorClient.RejectAll | apps/mcp-server/src/supervisor-client.ts:153-159 | rejects every pending call in order of registration |
| IpcClient.SupervisorClient.OnClose | apps/mcp-server/src/supervisor-client.ts:109-113 | forgets the socket and rejects everything |
| IpcClient.SupervisorClient.Close | apps/mcp-server/src/supervisor-client.ts:191-195 | rejects everything and forgets the socket |
| IpcClient.SupervisorClient.OnConnect | apps/mcp-server/src/supervisor-client.ts:86-88 | remembers the socket |
| IpcClient.RegisterSound | apps/mcp-server/src/supervisor-client.ts:161-189 | registering a fresh id keeps the table sound: settled once or pending with a timer, never both |
| IpcClient.SettleSound | apps/mcp-server/src/supervisor-client.ts:136-150 | settling a pending call keeps the table sound |
| IpcClient.FailAllSound | apps/mcp-server/src/supervisor-client.ts:153-159 | rejecting all keeps the table sound and leaves nothing pending |
| IpcProtocol.NextKeeps | apps/run-supervisor/src/ipc-server.ts:120-251 | every step of client, server or sockets keeps the invariant of the protocol |
| IpcProtocol.ReachableInv | apps/run-supervisor/src/ipc-server.ts:120-251 | the invariant of the protocol holds in every reachable state |
| IpcProtocol.SettledAtMostOnce | apps/mcp-server/src/supervisor-client.ts:120-195 | in every interleaving a call is settled at most once, and is pending, with its timer, exactly when it is not settled |
| IpcProtocol.SuccessIsOwnResult | apps/run-supervisor/src/ipc-server.ts:190-230 | a call that succeeds gets the handler's result for its own request, which had the token and a known method |
| IpcProtocol.ArrivalSettles | apps/mcp-server/src/supervisor-client.ts:120-151 | a reply that arrives settles the pending call with its id with the outcome it carries, and no other; if that call is not pending, nothing changes |
| IpcProtocol.ResultGetsThrough | apps/mcp-server/src/supervisor-client.ts:120-151 | once a handler has ended and its reply fits, then as long as the call is pending and the socket live, whatever else has happened, the reply can arrive and settles the call with what the handler gave |
| IpcProtocol.CallRegisters | apps/mcp-server/src/supervisor-client.ts:161-189 | a call is pending from when it is made, or rejected at once if its frame is too large |
| IpcProtocol.TakenIsHandledOrRefused | apps/run-supervisor/src/ipc-server.ts:152-231 | a request that is taken reaches the handler, or is answered with the code of what is wrong |
| IpcProtocol.AnsweredAtMostOnce | apps/run-supervisor/src/ipc-server.ts:152-230 | each request line is answered at most once |
| IpcProtocol.SettledForGood | apps/mcp-server/src/supervisor-client.ts:120-159 | no step takes back a settlement, a result or a request |
| IpcProtocol.ClosingSettlesAll | apps/mcp-server/src/supervisor-client.ts:90-113 | closing, a socket's failure or an oversized reply settles every call there is |
| IpcProtocol.EndRejectsAll | apps/mcp-server/src/supervisor-client.ts:85-159 | the end of a socket or of the client rejects all pending calls in order, each with the code for that end |
| IpcProtocol.PendingCanTimeOut | apps/mcp-server/src/supervisor-client.ts:167-179 | a pending call can always still time out, and then is rejected |
| IpcProtocol.SocketEndSparesExactlyWhen | apps/mcp-server/src/supervisor-client.ts:90-113 | in every run, the end of a socket settles only calls made on it if and only if every pending call was made on it |
| IpcProtocol.SocketEndSparesOthersExactlyWhen | apps/mcp-server/src/supervisor-client.ts:64-113 | where calls use the live socket the client has, and it connects only without one: if and only if that is the client's socket, or nothing is pending |
| IpcProtocol.LateCloseRejectsNewCalls | apps/mcp-server/src/supervisor-client.ts:109-113 | after closing and reconnecting, the late close of the old socket rejects a call on the new one, which is alive |
| MutationLog.MutationStore.Create | apps/run-supervisor/src/mutation-tracker.ts:45-73 | a new record goes to the end; an existing key keeps its record and its place |
| MutationLog.MutationStore.UpdateStatus | apps/run-supervisor/src/mutation-tracker.ts:78-84 | changes one record's status and nothing else |
| MutationLog.MutationStore.SetRevertData | apps/run-supervisor/src/mutation-tracker.ts:89-94 | changes one record's earlier material and nothing else |
| MutationLog.MutationHandler.SetBlock | apps/run-supervisor/src/mutation-tracker.ts:150-198 | an applied key is not applied again; otherwise the earlier material is saved before the block is set, and a failure is marked |
| MutationLog.MutationHandler.Revert | apps/run-supervisor/src/mutation-tracker.ts:203-234 | puts the saved material back if the record is applied and has one; if the bridge reports an error the record is marked FAILED |
| MutationLog.MutationHandler.RevertAll | apps/run-supervisor/src/mutation-tracker.ts:239-251 | reverts a runtime's applied records, the last one first, and goes on whatever becomes of each |
| MutationLog.MutationHandler.AppliedBy | apps/run-supervisor/src/mutation-tracker.ts:240-241 | selects exactly the runtime's applied records in order |
| MutationLog.CallWithNewKey | apps/run-supervisor/src/mutation-tracker.ts:150-201 | a call with a new key adds its record, with status and earlier material as the bridge behaves |
| MutationLog.CallWithKnownKey | apps/run-supervisor/src/mutation-tracker.ts:150-201 | a call with a known key does nothing if that is applied, and else takes the record over |
| MutationLog.RunKeepsKeysDistinct | apps/run-supervisor/src/mutation-tracker.ts:45-75 | after any run the keys of the records are distinct |
| MutationLog.RevertAllUndoes | apps/run-supervisor/src/mutation-tracker.ts:239-251 | whatever the bridge does with each undo, each block of the runtime gets what the first of its records whose undo takes effect saw; the others are left alone |
| MutationLog.RunIsUndoable | apps/run-supervisor/src/mutation-tracker.ts:169-191 | after any run at all, every applied record has its earlier material |
| MutationLog.SafeRunIsRestorable | apps/run-supervisor/src/mutation-tracker.ts:150-251 | after any safe run, undoing everything would restore every block |
| MutationLog.UndoRestoresTheWorld | apps/run-supervisor/src/mutation-tracker.ts:150-251 | after any safe run from an empty store, reverting a runtime restores its blocks and touches no other runtime, if every undo takes effect |
| MutationLog.UndoRestoresExactlyWhen | apps/run-supervisor/src/mutation-tracker.ts:239-251 | after any run, and whatever the bridge does, a block is restored if and only if the first of its applied records whose undo takes effect saw the initial material, or there is none and it is unchanged |
| MutationLog.UndoTwice | apps/run-supervisor/src/mutation-tracker.ts:239-251 | after any run, reverting a second time does nothing, even where the first time failed |
| MutationLog.RetryBreaksTheUndo | apps/run-supervisor/src/mutation-tracker.ts:55-58 | a failed call that is retried keeps its old place, and the undo goes wrong |
| MutationLog.LostReplyBreaksTheUndo | apps/run-supervisor/src/mutation-tracker.ts:192-195 | a block that was set although an error came back is not restored |
| MutationLog.SetTakesEffectExactlyWhen | apps/run-supervisor/src/mutation-tracker.ts:156-191 | a call that succeeds on a block of another material sets it if and only if its key is absent or not applied |
| MutationLog.RepeatedMaterialIsDropped | apps/run-supervisor/src/mutation-tracker.ts:157-161 | with keys that stand for block and material, stone, dirt and stone again leave dirt |
| EventSubscription.Subscription.Poll | apps/run-supervisor/src/event-subscription.ts:239-277 | an expired subscription stops; otherwise the fetched events are taken in, and a failed fetch changes nothing |
| EventSubscription.Subscription.TakeRaws | apps/run-supervisor/src/event-subscription.ts:254-270 | the loop takes in the events that parse, in order |
| EventSubscription.Subscription.TakeEvent | apps/run-supervisor/src/event-subscription.ts:258-269 | a rejected event changes nothing; an accepted one moves the cursor, is counted, and is buffered if there is room |
| EventSubscription.Subscription.ListEvents | apps/run-supervisor/src/event-subscription.ts:151-174 | gives the page of the buffer after a cursor |
| EventSubscription.PageHasTheFirst | apps/run-supervisor/src/event-subscription.ts:151-174 | a page has the first of the newer events up to the limit, tells whether there are more, and where it ends |
| EventSubscription.RunIsConsistent | apps/run-supervisor/src/event-subscription.ts:239-277 | after any run the buffer is the first accepted events up to the cursor, as many as fit, and all are counted |
| EventSubscription.BufferIncreasing | apps/run-supervisor/src/event-subscription.ts:263-268 | the buffer is in order and without duplicates |
| EventSubscription.BufferHasTheWanted | apps/run-supervisor/src/event-subscription.ts:239-318 | in every run what is buffered is in the log and has a listed kind, no excluded kind and the actor; as long as there is room all of it up to the cursor is buffered |
| EventSubscription.PollMovesExactlyWhen | apps/run-supervisor/src/event-subscription.ts:247-269 | a poll moves the cursor if and only if one of the next hundred events is accepted |
| EventSubscription.StalledForGood | apps/run-supervisor/src/event-subscription.ts:247-269 | a full window of rejected events stops the subscription for ever, however the log grows |
| EventSubscription.PollsDeliver | apps/run-supervisor/src/event-subscription.ts:247-269 | without a long gap, as many polls as there are accepted events left deliver all of them |
| EventSubscription.GapBlocks | apps/run-supervisor/src/event-subscription.ts:247-269 | beyond a long gap nothing is ever delivered |
| EventSubscription.DeliversExactlyWhen | apps/run-supervisor/src/event-subscription.ts:247-269 | some number of polls delivers everything if and only if there is no long gap |
| EventSubscription.PagerIsComplete | apps/run-supervisor/src/event-subscription.ts:160-173 | following the cursor ends, and the pages are all events after the start, in order and once; there is only one such chain |
| EventSubscription.PagesUnique | apps/run-supervisor/src/event-subscription.ts:160-173 | pages are determined by where they start |
| EventSubscription.NoLimitNoEnd | apps/run-supervisor/src/event-subscription.ts:160-166 | with a limit below 1 no chain of pages ends while there is something to list |
| CowOverlay.CowFixtureManager.CreateFixture | apps/run-supervisor/src/cow-fixture.ts:35-56 | registers a fixture unless there are too many; a directory that is there keeps its files |
| CowOverlay.CowFixtureManager.CopyFile | apps/run-supervisor/src/cow-fixture.ts:58-75 | covers a file with the base's, without marking it as modified |
| CowOverlay.CowFixtureManager.ReadFile | apps/run-supervisor/src/cow-fixture.ts:95-113 | reads the fixture's file, else the base's, else fails |
| CowOverlay.CowFixtureManager.WriteFile | apps/run-supervisor/src/cow-fixture.ts:115-127 | writes to the fixture only and marks the path |
| CowOverlay.CowFixtureManager.DeleteFile | apps/run-supervisor/src/cow-fixture.ts:129-142 | removes the fixture's file only and marks the path |
| CowOverlay.CowFixtureManager.CommitFixture | apps/run-supervisor/src/cow-fixture.ts:144-164 | copies the marked files that are there to the base, in any order, and forgets the fixture |
| CowOverlay.CowFixtureManager.RollbackFixture | apps/run-supervisor/src/cow-fixture.ts:166-174 | forgets the fixture and leaves the base |
| CowOverlay.CommitExactlyWhen | apps/run-supervisor/src/cow-fixture.ts:144-164 | a commit makes the base what the fixture shows if and only if every difference was marked |
| CowOverlay.RunRefines | apps/run-supervisor/src/cow-fixture.ts:35-174 | for any calls on any number of fixtures, commits and rollbacks among them, each shows its own writes over the base, if a name is taken only when its directory has nothing but copies of base files, and no commit changes a file another fixture holds a copy of |
| CowOverlay.CommitSparesOtherExactlyWhen | apps/run-supervisor/src/cow-fixture.ts:144-164 | a commit leaves another fixture showing its own writes over the new base if and only if the files that one holds a copy of are unchanged |
| CowOverlay.OnlyCommitsTouchTheBase | apps/run-supervisor/src/cow-fixture.ts:58-174 | without a commit the base stays as it was |
| CowOverlay.OverlayIsAMap | apps/run-supervisor/src/cow-fixture.ts:95-174 | after such a run reads agree with what the fixture should show, commit makes the base equal to it, rollback leaves the base, and nothing takes a base file away |
| CowOverlay.CreateRefinesExactlyWhen | apps/run-supervisor/src/cow-fixture.ts:35-56 | a fixture created under a free or a taken name starts without writes if and only if its directory has nothing but copies of base files |
| CowOverlay.DeletedIsAbsentExactlyWhen | apps/run-supervisor/src/cow-fixture.ts:95-142 | a deleted path that is not restored is absent if and only if the base has no such file, and a commit leaves the base as it is there |
| CowOverlay.ReusedNameLosesWrites | apps/run-supervisor/src/cow-fixture.ts:43-54 | a name used again while it is taken shows earlier writes that a commit then loses |
| RuntimeRegistry.Registry.CountActive | apps/run-supervisor/src/runtime-registry.ts:79-85 | counts the entries in a state that counts |
| RuntimeRegistry.Registry.AssertQuota | apps/run-supervisor/src/runtime-registry.ts:87-96 | refuses if and only if the count has reached the limit |
| RuntimeRegistry.Registry.Register | apps/run-supervisor/src/runtime-registry.ts:98-111 | adds one entry in CREATED, last in order |
| RuntimeRegistry.Registry.UpdateState | apps/run-supervisor/src/runtime-registry.ts:118-121 | changes one entry's state and time |
| RuntimeRegistry.Registry.Remove | apps/run-supervisor/src/runtime-registry.ts:127-129 | removes one entry if it is there |
| RuntimeRegistry.Registry.RequireState | apps/run-supervisor/src/runtime-registry.ts:139-145 | tells a missing runtime from one in the wrong state |
| RuntimeRegistry.CountAfterUpdate | apps/run-supervisor/src/runtime-registry.ts:69-85 | an update changes the count by one exactly when it crosses between states that count and states that do not |
| RuntimeRegistry.ActiveUntilReleased | apps/run-supervisor/src/runtime-registry.ts:69-77 | all states but those after the release count |
| RuntimeGc.GarbageCollector.Sweep | apps/run-supervisor/src/runtime-gc.ts:76-107 | a sweep during a sweep does nothing; otherwise every entry is visited in order |
| RuntimeGc.GarbageCollector.VisitEntry | apps/run-supervisor/src/runtime-gc.ts:86-94 | the body of the loop, including validation, erasing and counting |
| RuntimeGc.SweepFate | apps/run-supervisor/src/runtime-gc.ts:86-94 | what a sweep does with an entry depends on nothing but that entry and its directory |
| RuntimeGc.SweepRemovesExactly | apps/run-supervisor/src/runtime-gc.ts:109-160 | the next sweep removes an entry if and only if its retention is over, it is not running, and its directory is gone or valid and erased |
| RuntimeGc.SweepCounts | apps/run-supervisor/src/runtime-gc.ts:76-160 | a sweep counts as deleted the entries that disappeared, as released those that went into retention, and as skipped those that stayed though due |
| RuntimeLifecycle.StepsFollowTheDiagram | docs/architecture/state-machines.md:67-95 | in runs in which the calls for a runtime do not overlap, each step takes its runtime along the diagram, a disposal from READY to STOPPED, and touches no other |
| RuntimeLifecycle.AloneIsOrderly | apps/run-supervisor/src/service.ts:453-549 | such runs release only what nothing is under way for |
| RuntimeQuota.QuotaHolds | apps/run-supervisor/src/service.ts:412-549 | in every run the active runtimes are bounded by the quota minus one, the creations that overlapped and the revivals |
| RuntimeQuota.OrderlyMeansNoRevival | apps/run-supervisor/src/service.ts:453-549 | if every release is of a runtime with no call under way and no server recorded, nothing is revived |
| RuntimeQuota.RevivalIsPossibleExactlyWhen | apps/run-supervisor/src/service.ts:453-524 | some next step makes a released runtime active again if and only if a launch, stop or disposal of a registered inactive one is under way |
| RuntimeQuota.QuotaOfOrderlyRuns | apps/run-supervisor/src/service.ts:412-451 | if every release is of a runtime with no call under way and no server recorded, at most maxConcurrent - 1 + C are active when at most C creations overlap, and maxConcurrent when they are serial |
| RuntimeQuota.ReleaseBreaksTheBoundExactlyWhen | apps/run-supervisor/src/service.ts:412-549 | after such a run, for every C a release lets some further such run, with at most C overlapping creations, exceed that bound if and only if a launch, stop or disposal of the runtime is under way or its server is still recorded |
| RuntimeQuota.SerialQuotaBreaksExactlyWhen | apps/run-supervisor/src/service.ts:412-549 | with serial creations the quota itself is exceeded under that condition |
| RuntimeQuota.RevivalExceeds | apps/run-supervisor/src/service.ts:453-524 | from any world with an inactive runtime that a call can still bring back, and room besides those nothing gets out of STOPPING, the bound can be exceeded |
| RuntimeQuota.NoneIsStuck | apps/run-supervisor/src/service.ts:502-524 | in a supervisor that began with an empty registry a stop is under way for every runtime in STOPPING |
| RuntimeQuota.CrashedCanStillRun | apps/run-supervisor/src/service.ts:461-494 | with two launches of which one fails, a run leads to a crashed runtime whose server is recorded, with nothing under way |
| RuntimeQuota.QuotaBoundIsReached | apps/run-supervisor/src/service.ts:412-451 | for every C a run without such overlaps reaches the bound |
| RuntimeQuota.LateLaunchBreaksTheQuota | apps/run-supervisor/src/service.ts:453-495 | with two overlapping launches of one runtime and no stop, two runtimes are active where one is allowed |
| RuntimeRetention.ErasuresAreJustified | apps/run-supervisor/src/runtime-gc.ts:76-160 | in every run a directory is erased only for a runtime that was released, stayed in retention for the whole period, is not running, and is inside the root and marked |
| RuntimeRetention.NextSweepRemoves | apps/run-supervisor/src/runtime-gc.ts:76-160 | however handlers overlap with it, a sweep that begins when an entry is due has removed it when it ends, if the directory is as it should be and can be erased |
| RuntimeRetention.FailedErasureIsForGoodExactlyWhen | apps/run-supervisor/src/runtime-gc.ts:141-151 | after a failed erasure the runtime stays in DELETING in every continuing run if and only if no call for it is under way and no server is recorded |
| RuntimeRetention.ErasureCanFail | apps/run-supervisor/src/runtime-gc.ts:141-151 | a run leads there, with nothing under way |
| RuntimeRetention.ParkedForGood | apps/run-supervisor/src/runtime-gc.ts:76-160 | a runtime in STOPPING, DELETE_VALIDATION, DELETING or DELETED with nothing under way and no server stays as it is in every continuing run |
| RuntimeRestart.CanCreateExactlyWhen | apps/run-supervisor/src/persistent-registry.ts:79-145 | after a restart some run leads to where a runtime can be created if and only if fewer than the quota allows were saved in STOPPING |
| RuntimeRestart.CanBeRemovedExactlyWhen | apps/run-supervisor/src/persistent-registry.ts:79-145 | after a restart some run removes a restored runtime if and only if it was not saved in STOPPING or during its erasure |
| RuntimeRestart.RestoredState | apps/run-supervisor/src/persistent-registry.ts:99-132 | what was to run is restored as crashed and everything else as it was saved |
| RuntimeRestart.InterruptedStopEndsCreation | apps/run-supervisor/src/persistent-registry.ts:99-132 | a sweep can save the registry during a stop; after a restart with these records, where one runtime is allowed, none can ever be created |
| RuntimeRestart.RecordsSurviveExactlyWhen | apps/run-supervisor/src/service.ts:280-300 | the saved records are still there when the first call loads them if and only if no sweep has ended before |
| ScenarioEvidence.Collector.StartPhase | apps/run-supervisor/src/scenario-evidence.ts:107-111 | starts with no steps, and drops those of a phase that was not completed |
| ScenarioEvidence.Collector.AddStepResult | apps/run-supervisor/src/scenario-evidence.ts:141-154 | adds one step at the end |
| ScenarioEvidence.Collector.CompletePhase | apps/run-supervisor/src/scenario-evidence.ts:116-136 | records the steps with their counts if a phase was started |
| ScenarioEvidence.Collector.FlushTotals | apps/run-supervisor/src/scenario-evidence.ts:211-214 | sums the counts of the recorded phases |
| ScenarioEvidence.Tally | apps/run-supervisor/src/scenario-evidence.ts:128-130 | counts passed, failed or errored, and skipped steps |
| ScenarioEvidence.CountTotal | apps/run-supervisor/src/scenario-evidence.ts:128-130 | every step is counted exactly once |
| ScenarioEvidence.CountsAre | apps/run-supervisor/src/scenario-evidence.ts:128-130 | the counts are how many steps passed, how many failed or erred, and how many were skipped |
| Scenario.Engine.RunUntilFailure | apps/run-supervisor/src/scenario-engine.ts:205-236 | runs given or when steps in order up to and including the first that fails |
| Scenario.Engine.RunSteps | apps/run-supervisor/src/scenario-engine.ts:204-237 | a given or when phase records the steps up to and including the first that fails, and is completed either way |
| Scenario.Engine.RunAssertions | apps/run-supervisor/src/scenario-engine.ts:241-264 | evaluates all assertions, whatever they give, unless one has no arguments |
| Scenario.Engine.RunUntilCleanup | apps/run-supervisor/src/scenario-engine.ts:202-264 | the three phases leave exactly the expected steps and evidence |
| Scenario.Engine.RunCleanup | apps/run-supervisor/src/scenario-engine.ts:298-310 | runs every cleanup step, whatever the others give |
| Scenario.Engine.RunValid | apps/run-supervisor/src/scenario-engine.ts:192-287 | on every way out the steps, the evidence, the raw status and the engine's code are as specified |
| Scenario.Engine.Run | apps/run-supervisor/src/scenario-engine.ts:145-287 | the whole run gives the specified steps, evidence and result |
| Scenario.Engine.Finalize | apps/run-supervisor/src/scenario-engine.ts:1237-1309 | the result has the status after the expectation, the counts of all steps, and the first code there is |
| Scenario.TraceIs | apps/run-supervisor/src/scenario-engine.ts:192-310 | which given, when, then and cleanup steps are run, in which order, and what is recorded of each |
| Scenario.PhasesAre | apps/run-supervisor/src/scenario-evidence.ts:116-136 | the evidence has each completed phase with its own steps and their counts, in order |
| Scenario.NothingFailedExactlyWhen | apps/run-supervisor/src/scenario-engine.ts:1268-1270 | a result counts no failure if and only if no step that was run threw and every evaluated assertion holds |
| Scenario.ExpectationIsMetExactlyWhen | apps/run-supervisor/src/scenario-engine.ts:1237-1263 | an expectation is met if and only if the run without it would end so and, if a code is expected, the first step that failed has it |
| Scenario.ReportedCodeMeans | apps/run-supervisor/src/scenario-engine.ts:1272-1273 | the code of a result is that of the first failed step, or else the one the engine gave up with |
| Scenario.StepsTellTheStatus | apps/run-supervisor/src/scenario-engine.ts:268-270 | looking for failed steps outside cleanup tells whether all assertions hold |
| Scenario.CleanupIsWholeAndLast | apps/run-supervisor/src/scenario-engine.ts:289-310 | once the scenario is known every cleanup step runs exactly once, in order and last, on every way out |
| Scenario.AssertionsComeAfterSuccess | apps/run-supervisor/src/scenario-engine.ts:205-245 | an assertion is evaluated only if every given and when step was run and passed |
| Scenario.FailureStopsTheRun | apps/run-supervisor/src/scenario-engine.ts:210-235 | after a given or when step that fails only cleanup steps run |
| Scenario.CompletesExactlyWhen | apps/run-supervisor/src/scenario-engine.ts:205-272 | without an expectation the run completes if and only if the runtime is there, every given and when step succeeds and every assertion holds |
| Scenario.TotalsAgree | apps/run-supervisor/src/scenario-evidence.ts:107-136 | the counts of the result are the totals of the evidence if and only if no assertion without arguments comes after recorded ones |
| Scenario.CleanupChangesTheOutcomeExactlyWhen | apps/run-supervisor/src/scenario-engine.ts:289-297 | the final status is the same for all cleanup steps if and only if no code is expected, the raw status differs from the expected one, or a step failed before |
| Scenario.EngineErrorIsNotWhatIsExpected | apps/run-supervisor/src/scenario-engine.ts:1248-1252 | with the runtime refused, the expectation of that error is met if and only if the first cleanup step to throw has its code |
| Polling.ExecuteAssertion | apps/run-supervisor/src/scenario-engine.ts:467-554 | for any delays the loop ends with the specified outcome |
| Polling.LastMessageIsLast | apps/run-supervisor/src/scenario-engine.ts:488-515 | the message is that of the last evaluation that gave a verdict |
| Polling.AttemptsAreBounded | apps/run-supervisor/src/scenario-engine.ts:488-528 | at most as many attempts as intervals of 500 ms begin in the window |
| Polling.BoundIsReached | apps/run-supervisor/src/scenario-engine.ts:488-528 | without delays an assertion that never passes uses up that bound |
| Polling.PassesExactlyWhen | apps/run-supervisor/src/scenario-engine.ts:488-515 | an assertion passes if and only if one of the attempts there is time for passes |
| Polling.FailsLate | apps/run-supervisor/src/scenario-engine.ts:522-528 | an assertion fails no earlier than 500 ms before the deadline |
| Polling.OutcomeIsUnique | apps/run-supervisor/src/scenario-engine.ts:467-554 | delays, window and evaluations determine the outcome |
| Polling.LongerWindowKeepsThePass | apps/run-supervisor/src/scenario-engine.ts:475-528 | a longer window never turns a pass into a failure |
| Polling.FasterKeepsThePass | apps/run-supervisor/src/scenario-engine.ts:488-528 | what passes in a slow environment passes, at the same attempt, in a faster one with the same evaluations |
| Polling.EmptyWindowFails | apps/run-supervisor/src/scenario-engine.ts:475-488 | a window of length 0 fails the assertion without evaluating it |

## Left out

- Processes, containers, HTTP, sockets, timers, git, YAML and the file system: they appear as maps, logs, a clock and outcomes that are given.
- SHA-256 and DEFLATE: parameters; that the hash keeps two given inputs apart is assumed only where a lemma says so.
- Looking up a ZIP entry by its name or by a class name: one search over what the reader gives.
- Decoding of entry names from UTF-8: a parameter of the ZIP reader.
- ZipReader.RefusalMeans: compares sizes in integers; the program divides in floating point, which could only differ for ratios beyond its precision.
- Lone surrogates in paths: a `char` of SourceTree, TextOrder, Utf8 and Manifest is a Unicode scalar value, ordered as its UTF-16 code units are.
- JsonReader.ParseRoundTrip: numbers carry their own text, so which digits a floating-point number gets is not modelled; the reader takes text without white space, keeps members that repeat a key, and does not check the grammar of numbers.
- Ndjson.EncodeFrame: messages are JSON values; `undefined`, for which JSON.stringify gives no text, is not one of them.
- SourceTree.CollectEntries: the tree does not change while it is walked.
- Manifest.CreateSnapshot: what git prints, the random identifier and the time are given.
- Manifest.AssertSnapshotUnchanged: the error has the whole list of changes, not the text with its first ten.
- Retryable flags, messages and suggested actions of errors; what the IPC handlers do; the list of known methods, which is a parameter.
- IpcProtocol.SuccessIsOwnResult: lines may be lost and overtake each other, more than sockets allow; a reply too large to encode closes its socket; `authenticated`, which nothing reads, is left out.
- IpcProtocol.SocketEndSparesOthersExactlyWhen: a call that goes on with a socket which `close()` has just destroyed is outside its runs; IpcProtocol.SocketEndSparesExactlyWhen covers it.
- MutationLog.MutationHandler.SetBlock: one call runs at a time, the key is given, and the error text is not kept; what the bridge does is given for each call.
- MutationLog.MutationHandler.RevertAll: nothing else happens to the store while it runs.
- EventSubscription.Subscription.Poll: polls do not overlap; the number of subscriptions, their identifiers and expiry bookkeeping are left out, and the log never drops old events.
- CowOverlay.RunRefines: paths are normalised, no file stands where another path needs a directory, and nothing else writes to the base; fixtures are kept apart from the base, although by default they lie in its `.cow-fixtures` directory; copying directories, `cleanup`, `destroy` and generated names are left out.
- RuntimeRegistry.Registry.Register: identifiers are numbers; images, ownership, summaries and persistence are left out.
- RuntimeGc.GarbageCollector.Sweep: nothing else happens during this sweep; RuntimeService lets everything happen between its steps, which it may take in any order.
- RuntimeQuota.QuotaHolds: the directory that `discardImmediately` removes; calls that are refused change nothing and are no steps; a disposal may begin for any recorded server, as that of a scenario or the shutdown does.
- RuntimeRestart.RecordsSurviveExactlyWhen: loading and saving are one step each and succeed; a file that cannot be read counts as empty; runs over several restarts are not joined.
- Scenario.Engine.Run: what single steps and assertions do, timeouts of steps, durations and messages are left out; each step's outcome is given.
- Polling.ExecuteAssertion: the parsing of durations is left out; the window is a number of milliseconds.
- Gradle and Maven checks, diagnostics, redaction, tool wrappers, the command line, the runtime pool, the profiler and the evidence store: tables, plumbing or easier members.
