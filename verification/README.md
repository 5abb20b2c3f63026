# Verified models of dig2browser

Dafny models of the parts of dig2browser whose correctness depends on order, on failures at awkward moments or on
exact bytes, with proofs of what every run, interleaving or input keeps. `dafny verify dfyconfig.toml` checks all of it.

| file | part of the system |
|---|---|
| `CdpTransport.dfy`, `BidiTransport.dfy`, `Channels.dfy` | callers, writer or sender task and reader or receiver task around one pending map |
| `PipeFrames.dfy` | NUL-delimited frames on Chrome's pipe |
| `Contract.dfy`, `WorkerSpec.dfy`, `Worker.dfy`, `WorkerProperties.dfy`, `WorkerAnswers.dfy`, `WorkerReferences.dfy` | the worker actor: capabilities and arguments, what a run does, the actor itself, what every run keeps, what each command is answered, when an element reference still reaches the page |
| `Catalog.dfy`, `CatalogOutcomes.dfy` | the runtime mirror catalog under concurrent builders, crashes, reconciliation, removals and readers, and what each call comes to |
| `TreeRemoval.dfy` | two-phase tree removal and its retry loop |
| `StagingNames.dfy` | staging directory names, creator liveness, the reconciliation pass |
| `SourceTree.dfy`, `WindowsPaths.dfy` | collecting the source tree, rebuilding it, the normal form of paths |
| `MirrorLimits.dfy`, `MirrorFates.dfy` | the bounded passes over a mirror, and what the size of an installation makes of a build |
| `Registry.dfy` | the bounded registry of resident workers and its serve loop |
| `WorkerFrames.dfy`, `WorkerStreams.dfy` | the two binary frames, and reading and writing them |
| `CommandLine.dfy`, `JsonEscapes.dfy`, `InputCodec.dfy`, `Socks.dfy`, `Cookies.dfy` | printers with their parsers, and a rewriting pass |
| `Wrappers.dfy`, `Bytes.dfy`, `Fields.dfy`, `LittleEndian.dfy`, `Sorting.dfy`, `Utf8.dfy` | shared notions |

Three forms are used. Concurrent parts are machines of atomic steps: `Next(s, step)` is one map operation, flag access,
channel operation or completed call, and the results hold for every finite interleaving (`Run`). Objects that update
their fields are classes whose methods are proved equal to a specification function, and the promises are lemmas about
that function. Pure tables and parsers are functions. Outcomes of the outside world (Win32 calls, runtime calls,
deadlines, chunk sizes, what a process query answers) are parameters, so every result holds for all of them.

Where a plausible claim is false, the exact condition is proved instead:

- An emergency signal that interrupts a Shutdown command leads to a second `close` (`WorkerProperties.TwoClosesHappen`);
  `CloseDiscipline` gives the exact number.
- An element reference reaches the runtime exactly if no epoch began since it was issued or the epoch counter was already
  saturated then (`WorkerReferences.ReferenceReachesExactly`). A failed navigation that reports `ObservationMissing` begins
  no epoch, nor does any at the saturated counter: in both cases every such run goes on to use the old reference
  (`ObservationMissingKeepsReferences`, `SaturationKeepsReferences`), and runs get there (`ResolvedAtEveryEpoch`).
- A page-limit restart runs under the Navigate capability (`WorkerProperties.Gated`).
- A BiDi command that cannot be serialized is not reported to its caller, who waits until the connection ends
  (`BidiTransport.UnserializableIsNotReported`); a CDP command is (`CdpTransport.ErrorsAreReported`).
- An executable name is read back from a command line exactly if it holds no quote and is not both quoted and ended by a
  backslash (`CommandLine.LineReadsBack`).
- A response frame is read back exactly if its HTTP status is none or within 100 to 599 (`WorkerFrames.ResponseRoundTrip`).
- A normalized path is not always normal; the exact inputs are those with a second verbatim prefix behind the first
  (`WindowsPaths.NormalTwice`, `NormalTwiceFails`).
- A dead creator whose exit code is 259 looks alive, so its staging directory is kept
  (`StagingNames.PassReclaimsTheOrphans`).
- A source tree can be rebuilt exactly if no directory holds two names that the file system below the catalog takes for
  the same (`SourceTree.PopulateStaging`).
- Collecting and building know no bounds, while publishing, reading and removing each have their own: a source of exactly
  16,384 entries, its own folder included, or with more than 64 programs, is published as a mirror that its own readers
  refuse, and a larger or deeper one leaves a staging directory that no cleanup can ever remove (`MirrorFates.FateBySize`,
  `FlatFates`).
- A cookie file gives its jar back exactly if no field holds a tab or line feed, no name an equals sign, and no cookie an
  expiry date (`Cookies.SavedJarLoads`).
- The padding byte of a scroll event and the reserved byte of a CONNECT request are ignored by their readers.

## Model

| member | source | states |
|---|---|---|
| CdpTransport.NextKeepsInv | src/cdp/transport.rs:181-269 | every atomic step of a caller, the writer or the reader keeps the invariant: each response sender in one place, the flag set before the map is cleared |
| CdpTransport.SendersConserved | src/cdp/transport.rs:45-99 | in every interleaving a caller's channel is open exactly while one place (caller, queue, writer, map) holds its sender |
| CdpTransport.TerminalDrains | src/cdp/transport.rs:181-231 | after any completed mark_terminal only the entry the writer registered without rechecking can be pending, and the recheck removes it |
| CdpTransport.TerminalProgress | src/cdp/transport.rs:301-361 | once the flag is set no caller starts, and each step of writer or caller strictly decreases the remaining work |
| CdpTransport.DrainIsBounded | src/cdp/transport.rs:301-361 | from a terminal state writer and callers take at most `Work` steps, whatever the reader does |
| CdpTransport.TerminalRest | src/cdp/transport.rs:425-456 | where neither writer nor callers can move after termination, every caller has returned, and the cleared map is empty |
| CdpTransport.AnswersAreOwn | src/cdp/transport.rs:64-94 | a channel is written once, and a reply reaches a caller only through a frame with its own id |
| CdpTransport.DeliveryAnswers | src/cdp/transport.rs:64-94 | a frame removes the entry with its id and answers that channel, and leaves every other entry and channel as it was |
| CdpTransport.PollTakesTheAnswer | src/cdp/transport.rs:451-455 | what a polling caller makes of its channel: the answer in it, ConnectionClosed if its sender was dropped, and otherwise it waits on |
| CdpTransport.RepliesComeFromTheChannel | src/cdp/transport.rs:425-456 | in every interleaving a reply or error that a caller returns is the one its own channel was answered with |
| CdpTransport.DeliveryReturns | src/cdp/transport.rs:64-94 | a frame with the id of a registered call that waits, a look at the flag and a poll: the caller returns just the frame's answer |
| CdpTransport.EveryCallCanBeAnswered | src/cdp/transport.rs:301-456 | while the connection is up no call is stuck: from every reachable state some steps of the writer, one frame and the call's own steps make it return that frame's answer, with no other call's channel touched |
| CdpTransport.ErrorsAreReported | src/cdp/transport.rs:45-57 | what goes wrong for one command (serializing, writing, the flag) is reported to its caller and to nobody else |
| CdpTransport.ClosedMeansOver | src/cdp/transport.rs:425-456 | no call is told ConnectionClosed before the flag is set or the writer is gone |
| CdpTransport.CloseEndsTheConnection | src/cdp/transport.rs:315-321 | a requested close can be carried out from every state that is up: flag set, map cleared, and nobody left waiting on an open channel |
| CdpTransport.ReaderEndsTheConnection | src/cdp/transport.rs:380-393 | so does the end of the inbound stream |
| CdpTransport.QueueIsBounded | src/cdp/transport.rs:21 | the outbound queue never holds more than 128 commands |
| BidiTransport.NextKeepsInv | src/bidi/transport.rs:68-201 | every step of caller, sender, receiver or closer keeps the invariant of the caller-registers order |
| BidiTransport.TerminalDrains | src/bidi/transport.rs:209-247 | after a completed mark_terminal every entry left belongs to a caller between registering and rechecking, whose recheck removes it and returns |
| BidiTransport.NobodyAwaitsAfterTerminal | src/bidi/transport.rs:209-247 | an awaiting caller's channel is answered or closed once the map was cleared, so it can return |
| BidiTransport.TerminalProgress | src/bidi/transport.rs:68-201 | after termination each step other than the closing call's own decreases the remaining work |
| BidiTransport.DrainIsBounded | src/bidi/transport.rs:68-201 | callers, sender and receiver take a bounded number of steps after termination |
| BidiTransport.TerminalRest | src/bidi/transport.rs:254-292 | where only the closing call could still move, nobody waits and the map is empty |
| BidiTransport.CloseIsFinal | src/bidi/transport.rs:254-292 | a finished closing call, joined or timed out, leaves both flags set and the map cleared: nobody gets in, and what is left in the map are entries whose callers' rechecks remove them |
| BidiTransport.AnswersAreOwn | src/bidi/transport.rs:118-201 | a channel is written once, by the frame carrying its id |
| BidiTransport.DeliveryAnswers | src/bidi/transport.rs:151-170 | a response frame removes the entry with its id and answers that channel, and leaves every other entry and channel as it was |
| BidiTransport.WakingTakesTheAnswer | src/bidi/transport.rs:246 | an awaiting caller returns the answer in its channel, ConnectionClosed if its sender was dropped, and otherwise waits on |
| BidiTransport.RepliesComeFromTheChannel | src/bidi/transport.rs:209-247 | in every interleaving a reply or error that a caller returns is the one its own channel was answered with |
| BidiTransport.EveryCallCanBeAnswered | src/bidi/transport.rs:68-247 | while the connection is up no call is stuck: from every reachable state some steps of the sender, one frame and the call's own steps make it return that frame's answer, with no other call's channel touched |
| BidiTransport.ClosedMeansOver | src/bidi/transport.rs:209-247 | no call is told ConnectionClosed before the flag is set, a close refuses calls, or the sender is gone |
| BidiTransport.SenderGivesUp | src/bidi/transport.rs:85-115 | a failed write, a queue nobody can feed any more and the flag each let the sender set the flag, clear the map and end |
| BidiTransport.CloseCompletes | src/bidi/transport.rs:254-273 | a closing call on a connection that is up can come to its end: both tasks gone, flags set, map cleared |
| BidiTransport.TimedOutCloseCompletes | src/bidi/transport.rs:274-284 | so can one that times out waiting for the tasks, by its own steps alone |
| BidiTransport.FailedClosesEndTheSender | src/bidi/transport.rs:72-84 | a failing Close frame or socket close ends the sender, after the map was cleared |
| BidiTransport.AbortsStopTheTasks | src/bidi/transport.rs:274-281 | a task is aborted only after the closing call timed out, and only where it awaits something |
| BidiTransport.LateCallsFail | src/bidi/transport.rs:226-231 | a call that registered on a connection no longer up takes its entry back and fails |
| BidiTransport.UnserializableIsNotReported | src/bidi/transport.rs:101-107 | a command that cannot be serialized leaves its caller waiting |
| BidiTransport.QueueIsBounded | src/bidi/transport.rs:53 | the outbound queue never holds more than 256 commands |
| PipeFrames.PipeReader.ReadPipeFrame | src/cdp/transport.rs:101-145 | growing a frame chunk by chunk gives the outcome of "up to the first NUL" on the whole stream, and consumes just that |
| PipeFrames.PipeReader.ReadAll | src/cdp/transport.rs:366-394 | the reader loop yields the frames of the stream up to the first end, error or frame that does not parse, and which of these it was |
| PipeFrames.SameStreamSameFrames | src/cdp/transport.rs:101-145 | readers whose chunks make up the same bytes see the same frames and the same end |
| PipeFrames.WrittenIsReadBack | src/cdp/transport.rs:342-346 | NUL-free messages within the limit that parse, each with one NUL after it, are read back as the same sequence with a clean end |
| PipeFrames.CleanStreamIsItsFrames | src/cdp/transport.rs:101-145 | a stream read to a clean end is its frames, each followed by one NUL |
| Contract.NewCapabilitySet | src/agentic/contract.rs:43-57 | refuses exactly oversized and duplicated requests, otherwise holds the requested capabilities, sorted |
| Contract.SearchIsMembership | src/agentic/contract.rs:115-117 | the binary search over the sorted set finds exactly the members in its range |
| Contract.Contains | src/agentic/contract.rs:115-117 | the gate agrees with plain membership |
| Contract.PermittedByOne | src/agentic/contract.rs:311-342 | every command is permitted by one capability, read off a table of what each capability permits |
| Contract.RefusedExactly | src/agentic/worker.rs:644-790 | the argument checks refuse exactly what is not acceptable (finite coordinates, texts within their bounds, references of the current epoch, accepted URLs, cookies within theirs), each with its error |
| Worker.BrowserActor.Run | src/agentic/worker.rs:420-567 | the actor, with its fields and its loop, produces exactly the events of `RunEvents` |
| Worker.BrowserActor.Serve | src/agentic/worker.rs:470-567 | the loop and the end of the actor produce `ServeEvents` |
| Worker.BrowserActor.HandleEnvelope | src/agentic/worker.rs:498-541 | one queued command: shutdown flag, biased emergency poll, handling, answer, and whether the loop ends |
| Worker.BrowserActor.HandleCommand | src/agentic/worker.rs:614-643 | the gates in front of a command and what passes them; without the capability that permits it a command is denied by name and nothing happens |
| Worker.BrowserActor.Refuse | src/agentic/worker.rs:622-634 | CapabilityDenied is answered exactly for the one capability that permits the command and is not held |
| Worker.BrowserActor.Operation | src/agentic/worker.rs:644-843 | health check, page-limit restart, argument checks, runtime call, state changes and final health check of one command |
| Worker.BrowserActor.RestartRuntime | src/agentic/worker.rs:845-868 | epoch bump and publication before the restart, counters and state after it |
| Worker.BrowserActor.CloseForShutdown | src/agentic/worker.rs:796-814 | the close behind a Shutdown command |
| Worker.BrowserActor.EmergencyClose | src/agentic/worker.rs:580-597 | the bounded close behind the emergency signal |
| WorkerProperties.RunLegal | src/agentic/worker.rs:420-567 | every run passes every gate and ends closed, stopped, published and dropped |
| WorkerProperties.CloseDiscipline | src/agentic/worker.rs:511-550 | `close` starts once, and once more exactly when the emergency signal interrupted a Shutdown's close; never more than twice |
| WorkerProperties.DropComesLast | src/agentic/worker.rs:543-567 | every close precedes the drop, and the stopped flag comes after a published Stopped snapshot without origin |
| WorkerProperties.TwoClosesHappen | src/agentic/worker.rs:511-550 | every whole run in which the emergency signal interrupts a Shutdown's close has exactly two closes |
| WorkerProperties.StaleElementNeverReaches | src/agentic/worker.rs:935-944 | a reference resolved before a later navigation, tab switch or restart reached the runtime is never used in a runtime call after it, below saturation |
| WorkerReferences.ReferenceReachesExactly | src/agentic/worker.rs:935-944 | in every run the next command with an issued reference reaches the runtime exactly if no epoch began since, or the counter was saturated at issue, and is answered StaleElement otherwise |
| WorkerReferences.ObservationMissingKeepsReferences | src/agentic/worker.rs:819-824 | a run whose navigation fails with ObservationMissing goes on to hand an older reference to the runtime |
| WorkerReferences.SaturationKeepsReferences | src/agentic/worker.rs:680-700 | so does a run that navigates successfully at the largest epoch |
| WorkerReferences.ResolvedAtEveryEpoch | src/agentic/worker.rs:680-700 | both situations occur: some run issues a reference at every epoch, the largest included |
| WorkerProperties.CountersCount | src/agentic/worker.rs:845-868 | page_epoch counts successful navigations and tab switches and attempted restarts, restart_count the successful restarts, both saturating |
| WorkerProperties.DegradedAdmitsOnlyRestart | src/agentic/worker.rs:614-643 | while Degraded only Restart reaches the runtime until a close begins |
| WorkerProperties.FailedStartIsFinal | src/agentic/worker.rs:451-465 | after a failed or expired start nothing but close reaches the runtime and a failure stays on record |
| WorkerProperties.ShutdownNeverOkAfterFailedStart | src/agentic/worker.rs:328-343 | then no `shutdown()` call returns Ok |
| WorkerProperties.RepliesArePublished | src/agentic/worker.rs:498-541 | at every reply the published snapshot is the actor's own; Ready has no failure, Degraded has one and no origin |
| WorkerProperties.EveryCallWasGated | src/agentic/worker.rs:614-643 | each runtime operation had a capability that permits it, a Ready worker and acceptable arguments, and none follows a close |
| WorkerAnswers.RuntimeCallsArePermitted | src/agentic/worker.rs:622-625 | in every run each call into the runtime, a page-limit restart and a subscription included, has the capability that permits it |
| WorkerAnswers.ScriptsNeedEvaluation | src/agentic/contract.rs:311-342 | so the runtime evaluates a script only under Evaluation, navigates only under Navigation, and so on for every command |
| WorkerAnswers.DeniedWithoutCapability | src/agentic/worker.rs:622-625 | at every loop head a command without its capability is answered CapabilityDenied with that capability, and its turn holds nothing else |
| WorkerAnswers.UnavailableWhileDegraded | src/agentic/worker.rs:627-634 | a degraded worker answers Unavailable to all but Restart and Shutdown, and to Restart if its startup was not confirmed |
| WorkerAnswers.RefusedArguments | src/agentic/worker.rs:644-790 | an admitted command with unacceptable arguments is answered with their error and nothing else happens |
| WorkerAnswers.AcceptedCommandsAreAnswered | src/agentic/worker.rs:644-843 | with acceptable ones it reaches the runtime, and its turn is, outcome by outcome, the answer made of what the runtime handed back, the protocol failure of an oversized evaluation, or the timeout |
| WorkerAnswers.OneAnswer | src/agentic/worker.rs:644-795 | which reply belongs to which command, seen from the reply: there is just one |
| WorkerAnswers.UnhealthyPageFailsFirst | src/agentic/worker.rs:636-643 | on a page that broke its navigation policy a command fails before its runtime call |
| WorkerAnswers.RotationAnswered | src/agentic/worker.rs:645-649 | a navigation past the page limit restarts the runtime first, and goes ahead exactly if that succeeds |
| WorkerAnswers.RestartAnswered | src/agentic/worker.rs:791-795 | what a Restart does and answers, outcome by outcome |
| WorkerAnswers.ShutdownAnswered | src/agentic/worker.rs:796-814 | what a Shutdown does and answers; it is timed by the close timeout, every other command by the command timeout |
| WorkerAnswers.SubscriptionAnswered | src/agentic/worker.rs:598-611 | a subscription needs the Capturing capability and a Ready worker, in that order |
| TreeRemoval.LockAll | src/windows_runtime_mirror.rs:2431-2473 | succeeds exactly if the tree is within the bounds and every listing and every lock below the root is granted on an unchanged entry; then it holds every descendant once, and otherwise its error names what failed |
| TreeRemoval.WalkComplete | src/windows_runtime_mirror.rs:2435-2469 | with nothing waiting, the locked entries are all descendants |
| TreeRemoval.SortOrders | src/windows_runtime_mirror.rs:2474-2478 | the sort is a permutation with files before directories and deeper before shallower |
| TreeRemoval.ContentsComeFirst | src/windows_runtime_mirror.rs:2474-2478 | in that order nothing comes after the directory that holds it |
| TreeRemoval.ReadyToDelete | src/windows_runtime_mirror.rs:2479-2482 | when its turn comes, an entry is there and holds nothing |
| TreeRemoval.RemoveOpenTree | src/windows_runtime_mirror.rs:2431-2483 | nothing is deleted unless every descendant was locked, unchanged and within the bounds, and the root is the same; success is exactly that plus no failing delete, and removes just the subtree |
| TreeRemoval.RemoveOnce | src/windows_runtime_mirror.rs:2318-2384 | one attempt: nothing is deleted unless inspection, token and root lock passed too; a failure is retryable only if it is a sharing violation on the root's or a descendant's lock, and is whenever nothing else stood in the way |
| TreeRemoval.PausesFit | src/windows_runtime_mirror.rs:2279-2316 | at most ceil(budget / 50 ms) pauses fit |
| TreeRemoval.InTime | src/windows_runtime_mirror.rs:2300-2313 | as long as it goes on, the pauses stay within the budget |
| TreeRemoval.RemoveWithRetry | src/windows_runtime_mirror.rs:2279-2316 | attempts are 50 ms, or what is left of max_wait, apart; every attempt but the last met a sharing violation before max_wait was over, and an attempt that meets one then is never the last; the tree goes exactly if the last one held all locks and no delete failed, and the error says whether the violation lasted |
| Catalog.NextKeepsInv | src/windows_runtime_mirror.rs:320-372 | every step of builders, crashes, cleanup, reconciliation, removals and readers keeps the catalog invariant |
| Catalog.ReadableMirrorsAreComplete | src/windows_runtime_mirror.rs:320-372 | in every interleaving a mirror no removal holds has a manifest with its key and the whole source of some call whose fingerprint is that key |
| CatalogOutcomes.EveryCallGetsItsSource | src/windows_runtime_mirror.rs:320-372 | a call that ends with a mirror finds its own source there, with a lease that keeps removals away, as long as equal fingerprints mean equal sources |
| Catalog.LeasedMirrorsStay | src/windows_runtime_mirror.rs:2089-2146 | a leased mirror is there, complete, and cannot be locked for removal |
| Catalog.StagingIsAccounted | src/windows_runtime_mirror.rs:1638-1659 | every staging directory of a living process is owned by a call at work or reported as BuildCleanup |
| Catalog.FinishedCallsLeaveNothing | src/windows_runtime_mirror.rs:1638-1659 | a finished call left no directory behind unless it says so or its process died |
| Catalog.ReconciliationSparesTheLiving | src/windows_runtime_mirror.rs:1469-1561 | what reconciliation is taking away belongs to a dead process and to no call at work |
| Catalog.OneWinner | src/windows_runtime_mirror.rs:1833-1893 | once a key is there nobody publishes under it again and it stays unchanged until a removal locks it |
| CatalogOutcomes.DeliveredMeansLeased | src/windows_runtime_mirror.rs:1991-2034 | a call that ends with a mirror has it under its key at that moment, complete and held by no removal, with one more lease on it |
| CatalogOutcomes.OutcomesNameThePublisher | src/windows_runtime_mirror.rs:1862-1893 | Published means the call's own directory, identical and in place; Found and Yielded mean another call's |
| CatalogOutcomes.ValidationsComeFrom | src/windows_runtime_mirror.rs:320-328 | a call validates an existing mirror only after seeing its key, its own only after its rename found the key absent and put its snapshot there, another's only after its own directory is gone |
| CatalogOutcomes.YieldedMetARename | src/windows_runtime_mirror.rs:1876-1893 | in every run a call yields to another's mirror only after its own rename failed |
| CatalogOutcomes.MissingMirrorIsPublished | src/windows_runtime_mirror.rs:330-372 | where the key is absent, a call's own steps can lead it to publish its source under the key, with nothing else in the catalog changed |
| CatalogOutcomes.FirstCallPublishes | src/windows_runtime_mirror.rs:320-372 | from an empty catalog a process can start, call and publish any source |
| CatalogOutcomes.LivesOfProcesses | src/windows_runtime_mirror.rs:1382-1396 | a process incarnation runs once; its death crashes its unfinished calls and leaves the catalog as it is |
| CatalogOutcomes.ExistingMirrorIsFound | src/windows_runtime_mirror.rs:320-328 | where the key is there and no removal holds it, a call finds it and builds nothing |
| CatalogOutcomes.LoserYields | src/windows_runtime_mirror.rs:1876-1893 | the loser of a race can take its directory away and answer with the winner's mirror |
| CatalogOutcomes.DeniedLinksAreCopied | src/windows_runtime_mirror.rs:361-372 | a call whose hard links are denied can take its directory away and publish a copy |
| CatalogOutcomes.FailedBuildsLeaveNothing | src/windows_runtime_mirror.rs:1638-1659 | any other failure of a build can end with the directory taken away and an error |
| CatalogOutcomes.FailuresEndTheCall | src/windows_runtime_mirror.rs:1648-1659 | where else a call can fail, and the error it then ends with |
| CatalogOutcomes.DirectoriesGoEmpty | src/windows_runtime_mirror.rs:2479-2483 | a directory leaves the catalog only once it is empty, or by its owner's rename |
| CatalogOutcomes.OwnStepsAreBounded | src/windows_runtime_mirror.rs:320-372 | whatever the others do, a call takes at most four steps for each file of its source and seventeen more |
| CatalogOutcomes.OrphansAreReclaimed | src/windows_runtime_mirror.rs:1478-1510 | whatever a dead process left in the catalog, reconciliation can take away, and nothing else with it |
| CatalogOutcomes.ReclaimsCanBeRepeated | src/windows_runtime_mirror.rs:1478-1510 | one pass at a time works on an orphan, and one that gives up leaves it to the next |
| CatalogOutcomes.UnleasedMirrorsCanGo | src/windows_runtime_mirror.rs:2431-2483 | a mirror that nobody leases can be removed, and nothing else with it |
| CatalogOutcomes.LeasesComeAndGo | src/windows_runtime_mirror.rs:2089-2146 | a reader gets a lease exactly on a mirror that is there and held by no removal |
| StagingNames.CanonicalIsPrinted | src/windows_runtime_mirror.rs:1374-1380 | the canonical decimal parser accepts exactly the printed forms of the numbers in range |
| StagingNames.ParsesExactlyThePrinted | src/windows_runtime_mirror.rs:1331-1372 | a name parses to an identity exactly if it can be printed for it |
| StagingNames.NameReads | src/windows_runtime_mirror.rs:1244-1247 | a staging name written out in full |
| StagingNames.KeysAreLowerHex | src/windows_runtime_mirror.rs:1338-1343 | a key is 64 lower-case hexadecimal digits |
| StagingNames.NamesAreDistinct | src/windows_runtime_mirror.rs:1244-1247 | key, creator, nonce and sequence can be read off a name |
| StagingNames.DeadMeansGone | src/windows_runtime_mirror.rs:1412-1456 | a running creator is never taken for dead; conclusive answers find all others dead, exit code 259 aside |
| StagingNames.StagingCatalog.CreateStagingDirectory | src/windows_runtime_mirror.rs:1233-1274 | the first of 64 names that nothing has is taken, and it is printable; a refusal is reported exactly if it is met first, exhaustion exactly if all 64 are taken |
| StagingNames.StagingCatalog.ReconcileOrphanedStaging | src/windows_runtime_mirror.rs:1469-1512 | the pass takes away exactly the removable orphans of the listing, and nothing when listing fails |
| StagingNames.OrphansAreTheGoing | src/windows_runtime_mirror.rs:1478-1510 | the set taken away is made of the entries found orphaned and removable |
| StagingNames.PassReclaimsTheOrphans | src/windows_runtime_mirror.rs:1469-1561 | a directory whose creator runs stays; a judged and removable one goes exactly if its creator is gone |
| StagingNames.OnlyPrintedNamesAreCondemned | src/windows_runtime_mirror.rs:1478-1494 | nothing is taken away that create_staging_directory could not have made |
| WindowsPaths.Normalize | src/windows_runtime_mirror.rs:1182-1203 | the in-place normalization computes the normal form |
| WindowsPaths.NormalTwice | src/windows_runtime_mirror.rs:1182-1203 | normalizing twice is normalizing once exactly when no verbatim prefix hides behind the first |
| WindowsPaths.NormalTwiceFails | src/windows_runtime_mirror.rs:1182-1203 | a path for which it is not |
| WindowsPaths.SameKey | src/windows_runtime_mirror.rs:1178-1203 | relative paths have equal keys exactly if their names agree up to letter case |
| SourceTree.CollectSourceTree | src/windows_runtime_mirror.rs:855-931 | the list holds every entry once, sorted by key; a top-level manifest name is refused |
| SourceTree.WalkStep | src/windows_runtime_mirror.rs:859-911 | one turn of the worklist forgets no child and visits nothing twice |
| SourceTree.OneListOfEntries | src/windows_runtime_mirror.rs:927-950 | the list, and so the fingerprint, does not depend on enumeration order |
| SourceTree.CopyFile | src/windows_runtime_mirror.rs:1661-1774 | a copy is accepted exactly if both passes over the source and the written file agree and have the recorded size |
| SourceTree.FolderReady | src/windows_runtime_mirror.rs:1569-1575 | in order of component count a directory's parent has been made when its turn comes |
| SourceTree.BuildFolders | src/windows_runtime_mirror.rs:1568-1600 | all directories are made, each found by its key, no parent missing |
| SourceTree.BuildFile | src/windows_runtime_mirror.rs:1601-1623 | linking or copying one file gives the content it had |
| SourceTree.PopulateStaging | src/windows_runtime_mirror.rs:1563-1625 | success means an identical tree; undisturbed, it succeeds exactly if the file system can hold the source's names side by side; MissingParent never happens |
| MirrorLimits.SetAcls | src/windows_runtime_mirror.rs:1919-1988 | the walk that grants access succeeds exactly on trees of at most 16,384 entries no deeper than 64, where no call fails |
| MirrorLimits.Inspect | src/windows_runtime_mirror.rs:2195-2257 | the walk that locks a mirror for reading succeeds exactly on trees of fewer than 16,384 entries with folders no deeper than 64 and at most 64 programs, where no call fails, and lists just the programs |
| MirrorLimits.ProgramsEndInExe | src/windows_runtime_mirror.rs:2259-2262 | which files count as programs |
| MirrorFates.BuildMirror | src/windows_runtime_mirror.rs:330-372 | building, publishing and the cleanup after a failure: a build without a trace has left nothing, a published mirror is the source with its manifest, and undisturbed the end is the one its bounds predict |
| MirrorFates.FateBySize | src/windows_runtime_mirror.rs:63-65 | which end that is, from the number of entries, their depth and the number of programs in the source |
| MirrorFates.FlatFates | src/windows_runtime_mirror.rs:2195-2257 | three of the ends one file apart: readable, published but refused by every reader, left behind for good |
| Registry.ResidentsAreTheMostRecent | src/worker_ipc.rs:541-604 | with successful starts the residents are the most recently asked-for profiles, in order |
| Registry.EveryLiveWorkerIsResident | src/worker_ipc.rs:541-617 | between calls every worker alive belongs to a resident |
| Registry.WorkerRegistry.SpawnWorker | src/worker_ipc.rs:583-586 | a browser is spawned only while fewer than max_resident are alive |
| Registry.WorkerRegistry.Oldest | src/worker_ipc.rs:568-573 | the minimum search finds the head of the recency list |
| Registry.WorkerRegistry.Worker | src/worker_ipc.rs:541-604 | the map refines the recency list below clock saturation; a usable resident is reused, any other is gone and replaced exactly if a new worker settles Ready; what is returned is resident and stamped with the clock |
| Registry.WorkerRegistry.Probe | src/worker_ipc.rs:543-553 | a resident is usable if it is Ready, can be restarted from Degraded, or settles Ready |
| Registry.WorkerRegistry.Capture | src/worker_ipc.rs:452-539 | a failed navigation or capture is answered Failed and costs the profile its worker, other outcomes keep it, each with its status; without a worker the answer is Unavailable; the list predicts all of it |
| Registry.WorkerRegistry.RunServer | src/worker_ipc.rs:363-431 | the responses of a connection, and afterwards no browser alive however it ended |
| Registry.WorkerRegistry.ShutdownAll | src/worker_ipc.rs:606-611 | afterwards no worker is resident or alive |
| WorkerFrames.Magic | src/worker_ipc.rs:23-24 | the magic numbers are the bytes of D2BQ and D2BR |
| WorkerFrames.TakesExactlyTheLayout | src/worker_ipc.rs:654-708 | a stream reads as a request exactly if it starts with that request's canonical bytes |
| WorkerFrames.StreamReadsBack | src/worker_ipc.rs:654-708 | the frames of any requests in a row are read back as those requests, nothing left over |
| WorkerFrames.ResponseIsCanonical | src/worker_ipc.rs:229-280 | what reads as a response is its layout, within the limits, with a readable HTTP status |
| WorkerFrames.LimitsOfAResponse | src/worker_ipc.rs:16-22 | the limits of a response in bytes, and what they come to |
| WorkerFrames.ResponseRoundTrip | src/worker_ipc.rs:229-280 | a valid response comes back exactly if its HTTP status is none or 100 to 599 |
| WorkerFrames.ResponsesReadBack | src/worker_ipc.rs:229-280 | the same for any responses in a row |
| WorkerStreams.ShortReader.ReadExact | src/worker_ipc.rs:290-297 | reads of any size add up to the bytes asked for, or to the end of the stream |
| WorkerStreams.ShortReader.ReadRequest | src/worker_ipc.rs:654-708 | the request read depends on the bytes only, not on how they arrive |
| WorkerStreams.ShortReader.ReadRequests | src/worker_ipc.rs:388-400 | so does the sequence of requests and its end |
| WorkerStreams.ShortReader.ReadResponse | src/worker_ipc.rs:229-297 | the response read depends on the bytes only |
| WorkerStreams.EncodeRequest | src/worker_ipc.rs:83-107 | pushes the canonical bytes, or refuses exactly invalid or oversized requests |
| WorkerStreams.ProfilesExactly | src/identity/profile.rs:82-116 | the accepted profile names, byte by byte: no separator, no dot at the end, and no device name before the first dot |
| WorkerStreams.BuildHeader | src/worker_ipc.rs:635-652 | writing the fields at their offsets gives the packed header |
| WorkerStreams.EncodeResponse | src/worker_ipc.rs:175-192 | the layout, or refused exactly when a limit is exceeded |
| WorkerStreams.Pipe.WriteResponse | src/worker_ipc.rs:620-633 | emits what EncodeResponse returns, or a beginning of it when the pipe breaks, or nothing when refused |
| WorkerStreams.SanitizeError | src/worker_ipc.rs:746-758 | the loop keeps what `Sanitized` keeps |
| WorkerStreams.SanitizedMessage | src/worker_ipc.rs:746-758 | no control characters, at most 1024 bytes, cut only where the next character would not fit |
| WorkerStreams.FailuresCanBeSent | src/worker_ipc.rs:154-173 | every failure response passes validation and is read back |
| CommandLine.CommandBuffer.Append | src/browser_process.rs:717-757 | the loop with its backslash counter appends the encoded argument, or fails exactly on NUL |
| CommandLine.BuildCommandLine | src/browser_process.rs:702-714 | fails exactly when some string contains NUL, else the whole line and a terminator |
| CommandLine.EscapedTaken | src/browser_process.rs:739-755 | reading a quoted argument by the 2n and 2n+1 backslash rules gives it back |
| CommandLine.ArgumentsReadBack | src/browser_process.rs:702-757 | after any executable name without a quote the arguments come back exactly |
| CommandLine.LineReadsBack | src/browser_process.rs:702-757 | executable and arguments come back exactly if the executable name is readable |
| CommandLine.LineHasNoNul | src/browser_process.rs:702-714 | the terminator is the only NUL |
| JsonEscapes.SanitizeJsonEscapes | src/bin/dig2crawl.rs:479-523 | the loop over the peekable characters computes the rewriting |
| JsonEscapes.MeaningKept | src/bin/dig2crawl.rs:479-523 | reading the output strictly equals reading the input leniently |
| JsonEscapes.OnlyUnknownChange | src/bin/dig2crawl.rs:479-523 | exactly the texts without unknown escapes are left alone |
| JsonEscapes.SanitizedIsClean | src/bin/dig2crawl.rs:479-523 | no unknown escape is left in the output, and the rewriting is idempotent |
| JsonEscapes.AcceptedWhenUnicodeIsComplete | src/bin/dig2crawl.rs:505-511 | the output's escapes are valid JSON exactly if the input's own unicode escapes are complete and it does not end in a lone backslash in a string |
| InputCodec.EncodeInput | src/browser_stream.rs:190-247 | appends the canonical bytes, or refuses exactly empty and overlong texts |
| InputCodec.EventReads | src/browser_stream.rs:249-317 | decoding an encoded event gives it back, scrolling rounded to single precision |
| InputCodec.EventIsCanonical | src/browser_stream.rs:249-317 | accepted bytes are the event's canonical bytes, scroll padding aside |
| InputCodec.DecodesExactlyTheCanonical | src/browser_stream.rs:249-317 | for other events both directions at once |
| Socks.ReadConnect | src/bin/dev_launch_debug.rs:761-786 | reading the pieces an address type announces takes just the request off the stream |
| Socks.ReadsExactlyConnect | src/bin/dev_launch_debug.rs:324-366 | a target is read exactly from CONNECT requests for a DNS name that is no address literal and a nonzero port |
| Socks.RefusalsSayWhy | src/bin/dev_launch_debug.rs:324-366 | which reply refuses which request |
| Socks.NamesAreTexts | src/bin/dev_launch_debug.rs:370-382 | a host accepted as a DNS name is always valid UTF-8 |
| Cookies.SaveToInsecureFile | src/cookies/types.rs:116-145 | refuses to overwrite, else one line for each cookie |
| Cookies.LoadPlaintext | src/cookies/types.rs:167-189 | pushes the cookies of the well-formed lines |
| Cookies.SavedJarLoads | src/cookies/types.rs:116-189 | a saved jar loads as itself exactly if every cookie is plain |
| Cookies.CrLfReadsAlike | src/cookies/types.rs:167-189 | line ends of either kind are read alike |
| Cookies.HostOfADomain | src/cookies/types.rs:82-85 | the host of a domain is what follows its leading dots, in small letters |
| Cookies.MatchesAtAndBelow | src/cookies/types.rs:82-97 | a cookie matches exactly its own host and the hosts below it |
| Cookies.HostsBelowSeeMore | src/cookies/types.rs:82-97 | a host below another sees every cookie the other sees |

## Left out

- Win32, sockets, processes, databases and cryptography: their calls are steps or parameters with arbitrary outcomes.
- Serialization of CDP and BiDi messages: a message is a NUL-free byte sequence, an inbound frame an id with a payload.
- CdpTransport.NextKeepsInv: tasks are positions in a state value rather than objects, because their steps interleave.
- BidiTransport.NextKeepsInv: likewise; and a caller's reads of its two flags are one step, which loses nothing because both
  flags are one-way. A second closing call, which returns at once, is not modelled.
- Catalog.NextKeepsInv: likewise for processes and their calls.
- Weak memory and sharding of the concurrent maps: every map operation and flag access is one atomic step.
- Request ids: a caller's position stands for its id, so wrap-around of the 64-bit counters is not modelled.
- WebSocket handshakes and connection setup: the machines start connected.
- PipeFrames.PipeReader.ReadPipeFrame: after a frame that is too large, what is left of the stream depends on the chunks;
  the reader task ends there, so nothing is promised about it.
- The hard abort of the actor task (src/agentic/worker.rs:354-368): the runtime is then dropped without a close.
- The caller's side of the worker queue, including the navigation check before queueing (src/agentic/worker.rs:265-303).
- Timeouts: whether one fires is the environment's choice; a timed future is polled before its deadline can end it, and a
  biased select prefers its first arm.
- URL parsing and origins: the accepted URLs are a predicate, and an origin is part of what a runtime call returns.
- CatalogOutcomes.DeliveredMeansLeased: a validation is one step here, which opens the mirror, compares the manifest's key
  and takes the lease; its passes over the entries are in `MirrorLimits`, and the manifest's other fields are not modelled.
- Catalog removals killed halfway: they can leave a partial mirror with its manifest, so a removal that holds its locks
  is not interrupted in `Catalog`.
- Digests: `SourceTree.CopyFile` takes an injective digest.
- Catalog.ReadableMirrorsAreComplete: a fingerprint covers metadata, so equal keys are not promised to mean equal contents;
  here a key is any number, and a snapshot is the contents, locked against writers while they are linked or copied.
- Catalog.OneWinner: a hard-linked mirror shares its files with the source and follows a later write into them in place;
  that a mirror stays as it is assumes there is none.
- What access control lists say, reparse points and the ready manifest's JSON.
- MirrorFates.BuildMirror: one mode; the second build after a denied hard link is in `Catalog`. The fingerprint taken again
  after the build and the manifest's contents are not modelled.
- MirrorLimits.Inspect: the list of programs is not sorted, and their paths are not compared with the manifest.
- SourceTree.CollectSourceTree: names are sequences of characters; ill-formed UTF-16 and short names are not modelled.
- WindowsPaths.Normalize: paths are sequences of characters, not of UTF-16 units.
- StagingNames.PassReclaimsTheOrphans: other processes changing the catalog during a pass are in `Catalog`, not here.
- Registry.WorkerRegistry.Worker: after the clock saturates the victim is some least recent entry by its stamp; the
  order of the list is then not promised.
- A worker handle counts as alive until its shutdown has been awaited; what happens in a hung shutdown is not modelled.
- WorkerFrames.ResponsesReadBack: the client reads as many responses as it expects; matching them to requests is its own.
- CommandLine.LineReadsBack: blanks are spaces and tabs, as documented for CommandLineToArgvW; both readings of a doubled
  quote inside quotes are covered.
- JsonEscapes.SanitizedIsClean: the four characters after a unicode escape are taken as they come, like in the source.
- InputCodec.EventReads: floating-point numbers are representations; that widening a single and narrowing it again gives
  the same bytes is assumed, which leaves out the payloads of signalling NaNs.
- Socks.ReadsExactlyConnect: the greeting before the request and the handshake deadline.
- The messages of errors: errors are kinds.
- Cookie encryption and databases, page scripts, screenshots, fingerprints, Tor startup and the command-line drivers.
