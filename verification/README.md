# Verified model of the XGC ROS 1 tools adapter and bag recorder

This project models the parts of the repository whose correctness depends on
interleavings, crashes or exact codecs, and proves what they promise.

- **Service calls** (`HelperProtocol`, `SocketIo`, `ServiceCall`, `ServiceFence`,
  `ServiceProgress`, `CallPool`). The adapter hands each service call to a one-shot
  helper process over a socket. The two processes are one state machine whose
  events are single passes of the byte loops, so a run is any interleaving with
  partial transfers, cancellation, deadlines and crashes. The steps use the pass
  functions against which the loops of `SocketIo` are proved.
- **Publishing** (`PublisherRegistry`, `PublishCall`). The publisher cache is a
  class whose methods are the critical sections; a publish operation runs amid any
  sequence of other threads' critical sections.
- **Archive finalization** (`ArchiveNames`, `ArchiveProtocol`, `ArchiveState`,
  `ArchiveFinalizer`, `ArchiveRestart`). A directory has a live and a synced binding
  per name. The finalizer is imperative, and its invariant says that everything it did
  is a run of the protocol, so the protocol's theorems hold for it. `ArchiveRestart`
  is the startup guard and any sequence of starts, kills and power failures.
- **Recorded facts** (`FactPaths`, `FactLog`, `FactStore`, `RecordFacts`). The fact
  observer is a class with a bounded log, memories of what was last seen, a blob
  store and a saved document. Its invariant recomputes every validity interval
  from the whole log, although the code edits only one event.
- **Topic exclusion** (`Regex`, `ExclusionPattern`). The generated expression is
  text; it is parsed and given a meaning.
- **Codecs** (`Decimal`, `JsonScalars`, `JsonCodec`, `JsonStability`, `ClockTarget`,
  `ClockWait`). `Basics` holds types they share.

`dafny verify dfyconfig.toml` checks everything with Dafny 4.11.

## What the proofs show about the code

- The sizes in a request frame are narrowed to 32 bits unchecked, so the validator
  alone would accept a name of 2^32 + 1 bytes (`RequestAcceptedExactly`). The bounds
  the call checks first keep this from happening.
- A file with a native bag name that another process creates after the first sync
  can be pinned and then lost by a crash (`UnsyncedPinCanBeLost`). The exact
  condition at the moment of pinning is `PinSurvivesExactly`; every bag that is there
  when finalization begins meets it.
- A crash before the first pending manifest is durable can leave a manifest that no
  later start takes up (`EarlyCrashIsNotResumed`). A session that ends by itself is
  finished by later starts if and only if it lived to put that manifest in place
  (`Session`); `Recover` and `RecoverLoss` say it for every manifest a start finds.
- A process killed between writing and syncing the finalized manifest leaves it
  unsynced: later starts refuse a finalized manifest and do not sync it (`Finish`,
  `UnsyncedSealStays`). A power failure can then bring the pending manifest back,
  which is finalized again.
- The exclusion expression drops a selection of exactly `/xgc/display`, although
  selections below it are kept (`SelectedKept`).
- A message can be accepted from JSON and yet not be encodable, because fields the
  JSON left out are not measured (`AcceptedButNotEncodable`). `StableExactly` gives the
  check on types that rules this out.

## Model

| member | source | states |
|---|---|---|
| `ServiceFence.CommitFence` | src/xgc_ros1_tools_adapter/src/service_invoker.cpp:686-698 | In every interleaving of parent, helper, partial transfers, cancellation, deadlines, timeouts and crashes, the native call is entered at most once, with exactly the request's service, digest and payload, and only after the socket accepted every byte of the request and the commit frame |
| `ServiceFence.SafeFailureNeverRuns` | src/xgc_ros1_tools_adapter/src/service_invoker.cpp:598-785 | A call that ended in any failure other than uncertain has made no native call and makes none in any continuation of the run |
| `ServiceFence.OutcomeTellsFence` | src/xgc_ros1_tools_adapter/src/service_invoker.cpp:692-785 | Uncertain or success if and only if the commit frame was fully accepted; success means one native call whose answer is returned byte for byte; the helper has been reaped |
| `ServiceFence.FramesArriveIntact` | src/xgc_ros1_tools_adapter/src/service_helper_main.cpp:240-339 | However transfers are cut up, the helper works on exactly the parent's name, digest and payload, the parent commits only behind a READY status of ready, and the response it converts is the helper's answer |
| `ServiceFence.KeepRun` | src/xgc_ros1_tools_adapter/src/service_invoker.cpp:598-785 | Every event of either process keeps the joint invariant of both programs and both byte streams |
| `ServiceProgress.CanSucceed` | src/xgc_ros1_tools_adapter/src/service_invoker.cpp:640-785 | For every accepted request and every answer that fits, some run ends in success with that answer, so the safety results are not vacuous |
| `ServiceProgress.Completes` | src/xgc_ros1_tools_adapter/src/service_helper_main.cpp:240-339 | From every state in which nothing has gone wrong yet, the call can still be driven to success, byte by byte |
| `ServiceProgress.UncertainEitherWay` | src/xgc_ros1_tools_adapter/src/service_invoker.cpp:686-700 | For every accepted request there is a run ending in uncertain without a native call and one with it, so the error class cannot be sharpened |
| `CallPool.HelperBound` | src/xgc_ros1_tools_adapter/src/service_invoker.cpp:223-280 | In every concurrent run: unreaped helpers are at most the in-flight count, which equals the permits held and never exceeds the configured maximum |
| `CallPool.PermitReturnedOnce` | src/xgc_ros1_tools_adapter/src/service_invoker.cpp:624-636 | Every way out returns the permit exactly once, lowering the count by one, after its helper was reaped, and never again |
| `CallPool.FenceUnderConcurrency` | src/xgc_ros1_tools_adapter/src/service_invoker.cpp:573-582 | The fence holds for each call of every concurrent run: at most one native call each, and none behind a finished safe failure |
| `SocketIo.WaitPreCommitEvent` | src/xgc_ros1_tools_adapter/src/service_invoker.cpp:289-327 | Returns at the first pass that decides, with its decision: the token before the deadline, both before poll; running if and only if no pass decides |
| `SocketIo.FirstDecides` | src/xgc_ros1_tools_adapter/src/service_invoker.cpp:289-327 | The verdict used by the loops is that of the first deciding pass |
| `SocketIo.WritePreCommit` | src/xgc_ros1_tools_adapter/src/service_invoker.cpp:329-367 | Completion is reported if and only if every byte was accepted; otherwise a proper prefix was |
| `SocketIo.ReadPreCommit` | src/xgc_ros1_tools_adapter/src/service_invoker.cpp:369-410 | Completion if and only if the whole buffer was received, with exactly the bytes the stream delivered |
| `SocketIo.ReadPostCommit` | src/xgc_ros1_tools_adapter/src/service_invoker.cpp:440-520 | The read behind the fence agrees with its specification for every script, including the closing look at token and clocks after the last byte |
| `SocketIo.TransferExact` | src/xgc_ros1_tools_adapter/src/service_helper_main.cpp:131-177 | The helper's exact transfer succeeds if and only if every byte moved |
| `HelperProtocol.DecodeEncode` | src/xgc_ros1_tools_adapter/include/xgc_ros1_tools_adapter/service_helper_protocol.hpp:41-57 | Decoding an encoded frame gives the frame back, field by field, through the 64-byte little-endian layout |
| `HelperProtocol.EncodeDecode` | src/xgc_ros1_tools_adapter/include/xgc_ros1_tools_adapter/service_helper_protocol.hpp:41-57 | Encoding a decoded frame gives the same 64 bytes, so the layout is a bijection |
| `HelperProtocol.RequestAcceptedExactly` | src/xgc_ros1_tools_adapter/include/xgc_ros1_tools_adapter/service_helper_protocol.hpp:84-98 | For all sizes: the receiver accepts a request frame if and only if its sizes modulo 2^32 are within bounds; a name of 2^32 + 1 bytes would pass, and below 2^32 nothing oversized does |
| `HelperProtocol.RequestOnWire` | src/xgc_ros1_tools_adapter/include/xgc_ros1_tools_adapter/service_helper_protocol.hpp:133-150 | Every request within the caller's bounds survives the wire and passes the helper's validator with the sizes sent |
| `HelperProtocol.ReadyOnWire` | src/xgc_ros1_tools_adapter/include/xgc_ros1_tools_adapter/service_helper_protocol.hpp:100-109 | READY survives the wire, passes its validator and keeps its status |
| `HelperProtocol.CommitOnWire` | src/xgc_ros1_tools_adapter/include/xgc_ros1_tools_adapter/service_helper_protocol.hpp:111-118 | COMMIT survives the wire and passes its validator for this request |
| `HelperProtocol.ResponseOnWire` | src/xgc_ros1_tools_adapter/include/xgc_ros1_tools_adapter/service_helper_protocol.hpp:120-131 | A response survives the wire, passes its validator and keeps status and payload size |
| `HelperProtocol.KindsExclude` | src/xgc_ros1_tools_adapter/include/xgc_ros1_tools_adapter/service_helper_protocol.hpp:133-195 | Whatever 64 bytes arrive, at most one of the four validators accepts them |
| `HelperProtocol.BytesAreZero` | src/xgc_ros1_tools_adapter/include/xgc_ros1_tools_adapter/service_helper_protocol.hpp:59-67 | The scan answers true if and only if every byte is zero |
| `HelperProtocol.CheckServiceMd5` | src/xgc_ros1_tools_adapter/include/xgc_ros1_tools_adapter/service_helper_protocol.hpp:69-82 | The scan answers true if and only if the digest is 32 hexadecimal digits |
| `ArchiveProtocol.NoByteLoss` | scripts/rosbag_recorder.py:909-1009 | A bag reachable under its native or issued name, live and synced, is so at the end of every run that still pins it, over any finalization steps, foreign files, starts and crashes; durable pins are never forgotten |
| `ArchiveProtocol.SafeRun` | scripts/rosbag_recorder.py:909-1009 | Any file that is live and synced under a name, bag or not, stays so under that name or under the issued name its durable pin gives it, over every run with crashes |
| `ArchiveProtocol.PinSurvivesExactly` | scripts/rosbag_recorder.py:943-969 | Just after its pin is written a bag survives every run if and only if the synced directory already showed it under its native name, or its issued name already held it |
| `ArchiveProtocol.ReachableExactly` | scripts/rosbag_recorder.py:909-935 | A pinned bag is reachable in every possible crash image if and only if one of its two names shows it both live and synced |
| `ArchiveProtocol.EveryImageIsFallback` | scripts/rosbag_recorder.py:909-935 | Every crash image is the fallback of some set of names to their synced binding, so quantifying over lost names covers all crashes |
| `ArchiveProtocol.UnsyncedPinCanBeLost` | scripts/rosbag_recorder.py:943-969 | Counterexample to unconditional safety: a foreign native-looking file pinned before it was ever synced can be gone after a crash that keeps the manifest |
| `ArchiveProtocol.NoReplacement` | scripts/rosbag_recorder.py:909-935 | Over any run without a crash every closed or foreign file keeps its inode under its name, unless it is a pinned native bag whose issued name then holds it, live and synced |
| `ArchiveProtocol.RenameOnlyPinned` | scripts/rosbag_recorder.py:966-990 | In any run that starts without pins, every link or unlink of a segment comes after a manifest carrying that segment was written and, later, made durable |
| `ArchiveProtocol.LaunchedAtMostOnce` | scripts/rosbag_recorder.py:1011-1044 | Every run of starts, crashes and foreign files contains at most one launch. A start may launch after finding no manifest; at most once follows because the launch comes behind a durable manifest |
| `ArchiveProtocol.EarlyCrashForgets` | scripts/rosbag_recorder.py:1106-1114 | From every record in progress: a crash between writing and syncing the first pending manifest leaves the manifest in progress |
| `ArchiveState.HealthyRun` | scripts/rosbag_recorder.py:937-1009 | Finalization without foreign interference passes only through states it can be resumed in, with any manifest that says finalized true of the live and the synced directory, whatever crashes cut it short |
| `ArchiveState.CrashResumable` | scripts/rosbag_recorder.py:937-1009 | Every crash image of a resumable state is resumable with the same bags |
| `ArchiveState.CrashArchived` | scripts/rosbag_recorder.py:1001-1009 | A finalized manifest that is true of the directory is true of every crash image |
| `ArchiveState.FirstManifestIsHealthy` | scripts/rosbag_recorder.py:937-950 | Writing and syncing the first pending manifest over an untouched directory reaches such a state |
| `ArchiveState.CrashBegins` | scripts/rosbag_recorder.py:937-950 | Before anything is pinned, every crash image is an untouched directory of the bags that survived, from which finalization can begin |
| `ArchiveState.SyncedBagsSurvive` | scripts/rosbag_recorder.py:937-950 | Every synced bag is among those that survive |
| `ArchiveFinalizer.Recorder.FinalizeArchiveFiles` | scripts/rosbag_recorder.py:937-1009 | Amid any foreign files: done means a durable manifest that is the exact inventory of the directory at the last look, all of which is still live and synced, and that lists every native bag there was at the beginning if the list is fresh; a durable pin is crash-safe if it was before or is new, and any pin is if its bag was there at the beginning. Left to itself, from a manifest in progress or from wherever it was interrupted: the only ends are a crash and the true archive of all bags, enough calls reach the latter, two calls make it resumable after any crash, and one call makes it resumable after a kill |
| `ArchiveFinalizer.Recorder.PinSegments` | scripts/rosbag_recorder.py:937-969 | Done leaves the list in the live and the durable manifest; an existing list is kept; a fresh one holds every native bag of the directory, and every bag on it is live and synced by then; every file present at the start is, as soon as a list is written. Left to itself it is never refused, and its first sync makes it resumable |
| `ArchiveFinalizer.Recorder.WritePending` | scripts/rosbag_recorder.py:937-950 | The first pending manifest: once it is synced, whatever the manifests and the synced directory were before, finalization is in a state it can be resumed in; until then it is still at its beginning |
| `ArchiveFinalizer.Recorder.ListedAreHeld` | scripts/rosbag_recorder.py:943-1009 | A finalized list of every native bag of a directory means that each is live and synced at the name the manifest gives it, with its size |
| `ArchiveFinalizer.Recorder.MoveAll` | scripts/rosbag_recorder.py:970-990 | After the loop every pinned bag is at its issued name and listed with its size; undisturbed no native name is left and nothing is unsynced |
| `ArchiveFinalizer.Recorder.MoveAndSeal` | scripts/rosbag_recorder.py:970-1009 | Moves, inventory and last manifest: done only with the inventory durable and its whole directory still there and synced, refused only with a durable failed manifest |
| `ArchiveFinalizer.Recorder.MoveClosed` | scripts/rosbag_recorder.py:909-935 | A move succeeds only with the issued name durably holding the pinned inode, and leaves every name but the source as it was; undisturbed, success also means the native name is gone, and refusal that another file already had the issued name |
| `ArchiveFinalizer.Recorder.WriteManifest` | scripts/rosbag_recorder.py:866-884 | Replacing the manifest makes exactly the given document live and durable, or crashes on the way through enabled steps |
| `ArchiveFinalizer.Recorder.CheckInventory` | scripts/rosbag_recorder.py:991-1000 | Passing means every closed bag on disk is issued and every active one is listed as partial; undisturbed it always passes |
| `ArchiveRestart.Start` | scripts/rosbag_recorder.py:1011-1114 | An existing manifest is finalized if and only if it is this record's, ended, and pending or failed, and is otherwise left alone; a launch needs no manifest, no recorded file and enough space, and what its session leaves is the manifest in progress, the pending one, or the finalized and true one, by how many calls it had |
| `ArchiveRestart.Converge` | scripts/rosbag_recorder.py:937-1044 | From the pending manifest on, synced or only in place: however many starts are killed or, once it is synced, cut off by power failures, and whatever those lose, one more start leaves this record's manifest finalized and true: each bag live and synced at its issued name with inode and size, no native name, no other closed file, every active bag listed as partial |
| `ArchiveRestart.Finish` | scripts/rosbag_recorder.py:1011-1044 | One uninterrupted start completes the archive; the finalized manifest is durable if and only if it was, or there was still something to resume |
| `ArchiveRestart.Recover` | scripts/rosbag_recorder.py:1011-1044 | On a disk with the untouched bags of a recording, synced or not, or synced part of the way through the renames: repeated starts reach the finalized and true manifest if and only if the manifest in place is this record's, ended, and pending or failed; any other stays for ever, and the disk with it if nothing is lost |
| `ArchiveRestart.RecoverLoss` | scripts/rosbag_recorder.py:1011-1044 | After a power failure at any point before the first pin: if and only if the surviving manifest is this record's, ended, and pending or failed, repeated starts reach the manifest that is finalized and true of the bags that survived, among them every synced one |
| `ArchiveRestart.Session` | scripts/rosbag_recorder.py:1011-1114 | A whole record: launched once in a fresh directory, recorded, ended after any number of calls, then any number of interrupted starts and one that is not. It ends finalized and true of exactly the bags the recorder left if and only if the session lived to put the pending manifest in place, and otherwise the manifest in progress stays for ever; with enough calls the session itself ends so |
| `ArchiveRestart.Record` | scripts/rosbag_recorder.py:1076-1114 | With nobody else in the directory, recording and closing leave the manifest in progress, the pending one, a synced one or the finalized and true one, exactly by the number of calls |
| `ArchiveRestart.Observe` | scripts/rosbag_recorder.py:1082-1096 | While the recorder runs the live and the durable manifest stay the one in progress, and the directory is what the recorder's effects make it |
| `ArchiveRestart.UnsyncedSealStays` | scripts/rosbag_recorder.py:1001-1022 | A finalized manifest that was put in place but not synced leaves a healthy disk that no start takes up, so nothing syncs it, and a power failure can bring the pending manifest back |
| `ArchiveRestart.UnsyncedSealExists` | scripts/rosbag_recorder.py:1001-1009 | There is such a disk for every bag |
| `ArchiveRestart.EarlyCrashIsNotResumed` | scripts/rosbag_recorder.py:1011-1022 | The failing input: from every record in progress there is a crash before the first pending manifest is durable after which no start takes the record up |
| `ArchiveRestart.Lives` | scripts/rosbag_recorder.py:1011-1114 | Any number of starts under any circumstances: at most one launch in all, no synced file lost, every safe durable pin still safe, and no manifest short of finalized lists a finalized bag |
| `ArchiveFinalizer.ScanNatives` | scripts/rosbag_recorder.py:951-966 | The scan pins every native bag of the directory once with its node, or reports one that is not a regular file |
| `ArchiveFinalizer.Inventory` | scripts/rosbag_recorder.py:991-1000 | Accepts only an inventory that accounts for every file of the record, and refuses only on a named offender |
| `ArchiveFinalizer.ScanMatches` | scripts/rosbag_recorder.py:951-966 | On an untouched directory the scanned list names exactly the native bags |
| `ArchiveNames.ParseNativeExact` | scripts/rosbag_recorder.py:886-887 | A file name parses to native index i if and only if it is the native name of i |
| `ArchiveNames.NativeInjective` | scripts/rosbag_recorder.py:886-887 | Native names of different indices differ |
| `ArchiveNames.IssuedInjective` | scripts/rosbag_recorder.py:938-942 | Issued names of different segments of one record differ |
| `ArchiveNames.IssuedNotNative` | scripts/rosbag_recorder.py:887-942 | No issued name is a native name, for any index, count and prefix |
| `ArchiveNames.NativeClosed` | scripts/rosbag_recorder.py:889-896 | Every native name counts as a closed bag of the record |
| `ArchiveNames.IssuedClosed` | scripts/rosbag_recorder.py:889-896 | Every issued name counts as a closed bag of the record |
| `ArchiveNames.ClassifyFaithful` | scripts/rosbag_recorder.py:886-896 | The structured names used in the protocol are the file names: classification loses nothing and agrees on what is closed |
| `ArchiveNames.ClassifyNative` | scripts/rosbag_recorder.py:886-887 | The native name of an index is classified as that native bag |
| `ArchiveNames.ClassifyIssued` | scripts/rosbag_recorder.py:938-942 | The issued name of a segment is classified as that issued bag |
| `PublisherRegistry.Registry.Acquire` | src/xgc_ros1_tools_adapter/src/publisher_registry.cpp:107-144 | Keeps the lease invariant (count equals outstanding leases, cached entries leased or committed, cache within its maximum, leases match their entry's configuration) and states each refusal exactly |
| `PublisherRegistry.Registry.Release` | src/xgc_ros1_tools_adapter/src/publisher_registry.cpp:307-325 | The count is positive, so the underflow guard never fires; the entry is evicted if and only if the cache still holds this very entry, this was its last lease and nothing was dispatched; a newer entry is never touched |
| `PublisherRegistry.Registry.Clear` | src/xgc_ros1_tools_adapter/src/publisher_registry.cpp:327-335 | Empties the cache while leases are out and keeps the invariant for them |
| `PublisherRegistry.Registry.Refresh` | src/xgc_ros1_tools_adapter/src/publisher_registry.cpp:276-305 | Binds to one master generation; a different one drops the cache and refuses |
| `PublisherRegistry.Registry.Probe` | src/xgc_ros1_tools_adapter/src/publisher_registry.cpp:244-274 | Reports the binding without dropping anything and never rebinds |
| `PublisherRegistry.LastHolder` | src/xgc_ros1_tools_adapter/src/publisher_registry.cpp:307-325 | An outstanding lease means a count of at least one, and a count of one means it is the only lease |
| `PublishCall.Interfere` | src/xgc_ros1_tools_adapter/src/publisher_registry.cpp:96-144 | Whatever other threads acquire, release, clear or refresh meanwhile, an outstanding lease stays out, for the same entry |
| `PublishCall.AwaitSubscribers` | src/xgc_ros1_tools_adapter/src/publisher_registry.cpp:154-182 | The last look decides: dispatch allowed, with ROS up at the look before and a subscriber before that if asked for; or a refusal that this very look gave, never uncertain. Only a call asked to wait is refused for want of a subscriber, and only after a look that ended the wait by a subscriber, ROS down or the time up |
| `PublishCall.DispatchAll` | src/xgc_ros1_tools_adapter/src/publisher_registry.cpp:189-217 | Message k is dispatched no earlier than start plus k intervals; success means all of them; every failure is uncertain |
| `PublishCall.WaitUntil` | src/xgc_ros1_tools_adapter/src/publisher_registry.cpp:67-75 | Returns at the first look at or past the target, or uncertain at an earlier look that refuses, with all looks before it below the target and allowing |
| `PublishCall.Publish` | src/xgc_ros1_tools_adapter/src/tools_adapter.cpp:636-710 | For every request and every run amid other threads: a request that is not well formed is refused, as too large if that is all the first checks find and else permanently, with the registry untouched; a failure other than uncertain means no native publish, success means exactly the requested count, no message is early, and every ended call has released its lease |
| `PublishCall.CheckRequest` | src/xgc_ros1_tools_adapter/src/tools_adapter.cpp:644-677 | Accepts exactly the well-formed requests and hands their fields on unchanged; what it refuses is permanent, except a request that is only too large |
| `PublishCall.Prepare` | src/xgc_ros1_tools_adapter/src/publisher_registry.cpp:99-106 | Passes if and only if lookup, decoding and serializing do; only something other than a codec error thrown while decoding is transient |
| `PublishCall.PublishChecked` | src/xgc_ros1_tools_adapter/src/publisher_registry.cpp:96-242 | The same of the registry's part, from the first look to the last publish |
| `PublishCall.PublishLeased` | src/xgc_ros1_tools_adapter/src/publisher_registry.cpp:146-242 | Every way out of the leased part releases the lease, before the first native publish on the way through |
| `PublishCall.SlotsWithinBudget` | src/xgc_ros1_tools_adapter/src/tools_adapter.cpp:662-672 | For every accepted count and rate, truncation puts slot k strictly less than k nanoseconds early and never late, and the last slot is within 240 seconds |
| `FactLog.ExtendSound` | scripts/rosbag_recorder.py:610-622 | Appending a report and editing one earlier interval in place keeps numbering, strictly increasing sequences per producer, continuity and every interval of the whole log exact |
| `FactLog.AppendOther` | scripts/rosbag_recorder.py:478-490 | Appending any other event keeps all of that |
| `FactLog.IntervalMeaning` | scripts/rosbag_recorder.py:595-622 | An interval ends if and only if the event is an application whose next logged report has the next sequence number with neither clock going back; it ends where that report begins; a stop has no interval |
| `FactLog.AppendNoRepeat` | scripts/rosbag_recorder.py:506-547 | A finding that differs from the last one for its source keeps the log free of repeats |
| `RecordFacts.Recorder.Append` | scripts/rosbag_recorder.py:478-490 | Numbers the event by its index; a sealed log is unchanged, a full one counts a drop |
| `RecordFacts.Recorder.Enqueue` | scripts/rosbag_recorder.py:421-429 | Every message is queued, or counted as dropped when the queue is full, or ignored after closing |
| `RecordFacts.Recorder.Judge` | scripts/rosbag_recorder.py:589-603 | The continuity recorded is the one the log and the report determine |
| `RecordFacts.Recorder.Insert` | scripts/rosbag_recorder.py:604-621 | Append, in-place edit and the stop rule together produce the specified log |
| `RecordFacts.Recorder.Admit` | scripts/rosbag_recorder.py:587-622 | Entered if and only if newer than the producer's last report and the log is open; refused only for a number already passed |
| `RecordFacts.Recorder.Produce` | scripts/rosbag_recorder.py:572-622 | Entered if and only if well formed, stored, newer and open; otherwise the log is unchanged; the whole-log invariant holds again |
| `RecordFacts.Recorder.Unavailable` | scripts/rosbag_recorder.py:506-514 | While the log is open the source's last finding is this reason afterwards, and an unchanged reason adds nothing |
| `RecordFacts.Recorder.Observe` | scripts/rosbag_recorder.py:492-504 | An observation is logged only when it differs from the last finding, with its bytes stored |
| `RecordFacts.Recorder.PollFile` | scripts/rosbag_recorder.py:516-547 | While the log is open its last entry for the file reflects this poll, an unchanged poll adds nothing, and at most one of the two memories is set |
| `RecordFacts.Recorder.PollParameter` | scripts/rosbag_recorder.py:658-671 | The same for a declared parameter, whose remembered absence is cleared even when nothing is entered |
| `RecordFacts.Recorder.ProcessMessages` | scripts/rosbag_recorder.py:624-639 | One pass empties the bounded queue, adds at most one event per message, none when sealed, and keeps the invariant |
| `RecordFacts.Recorder.Snapshot` | scripts/rosbag_recorder.py:758-765 | Afterwards the document equals the live log, dropped count and status, and it is rewritten exactly when the revision moved |
| `RecordFacts.Recorder.Finish` | scripts/rosbag_recorder.py:767-787 | Seals the log and leaves the document equal to the closed state |
| `FactStore.Store.Put` | scripts/rosbag_recorder.py:431-476 | The byte total equals the sum over distinct blobs and stays within 64 MiB, every blob within 1 MiB; a stored payload keeps its file and cannot conflict; a new one is counted once |
| `FactStore.PathsDistinct` | scripts/rosbag_recorder.py:437-441 | Different digests are stored under different file names |
| `FactStore.Located` | scripts/rosbag_recorder.py:431-476 | Every indexed digest has its own bytes on disk under its numbered name |
| `FactPaths.RevisionRecovered` | scripts/rosbag_recorder.py:437-441 | The revision number can be read back from every generated name, whatever label and suffix |
| `FactPaths.TextInjective` | scripts/rosbag_recorder.py:437-441 | Different label, number or suffix give different file names |
| `ExclusionPattern.ExcludesExactly` | scripts/rosbag_recorder.py:804-819 | For all exclusions and selections the generated expression is found in a one-line name if and only if the name is excluded, is the display root, or is below it and not selected |
| `ExclusionPattern.SelectedKept` | scripts/rosbag_recorder.py:813-816 | A selected topic that is not excluded is dropped if and only if it is exactly the display root |
| `ExclusionPattern.SelectedRootIsExcluded` | scripts/rosbag_recorder.py:812-816 | Counterexample to keeping every selection: a selected display root is excluded |
| `ExclusionPattern.PatternParses` | scripts/rosbag_recorder.py:812-816 | The joined text parses to the intended expression: no topic name can change its structure |
| `Regex.AltsRoundTrip` | scripts/rosbag_recorder.py:815-816 | Printing an expression with escaped literals and parsing it again gives the same expression |
| `JsonCodec.RoundTrip` | src/xgc_ros1_tools_adapter/src/json_codec.cpp:268-437 | Decoding an encoded message into any target with empty dynamic arrays gives it back if and only if its floats are finite and its times normalized, for every type with unique field names |
| `JsonCodec.EncodesExactly` | src/xgc_ros1_tools_adapter/src/json_codec.cpp:439-599 | Encoding succeeds if and only if nesting and the longest array are within limits and every float is finite |
| `JsonCodec.DecodedIsTyped` | src/xgc_ros1_tools_adapter/src/json_codec.cpp:268-437 | Whatever JSON arrives, a decoded message has its type: ranges, fixed lengths, normalized times |
| `JsonCodec.AcceptedIsStable` | src/xgc_ros1_tools_adapter/src/json_codec.cpp:260-266 | A message accepted from any JSON re-encodes and re-decodes to itself if and only if the whole message, including fields the JSON left out, is within the limits |
| `JsonStability.StableExactly` | src/xgc_ros1_tools_adapter/src/json_codec.cpp:260-345 | Everything the decoder accepts for a type re-encodes and re-decodes to itself if and only if a check on limits and type alone passes: wherever decoding can get to, what can be left out is small enough |
| `JsonStability.AcceptedButNotEncodable` | src/xgc_ros1_tools_adapter/src/json_codec.cpp:332-337 | The failing input for every choice of limits: an empty object for a compound with one over-long fixed array is accepted and cannot be encoded |
| `JsonCodec.FreshReceptive` | src/xgc_ros1_tools_adapter/src/json_codec.cpp:185-201 | A freshly created message is a valid decoding target for its type |
| `JsonCodec.DecodeScalarArray` | src/xgc_ros1_tools_adapter/src/json_codec.cpp:203-221 | The element loop, in place for fixed arrays and appending for dynamic ones, equals element-wise decoding with the first error winning |
| `JsonScalars.ScalarRoundTrip` | src/xgc_ros1_tools_adapter/src/json_codec.cpp:72-183 | A scalar of any type survives encoding and decoding if and only if it is finite and normalized |
| `JsonScalars.DecodedIsPortable` | src/xgc_ros1_tools_adapter/src/json_codec.cpp:72-183 | Every decoded scalar is in range for its type, finite and normalized |
| `JsonScalars.CheckIntegerText` | src/xgc_ros1_tools_adapter/src/json_codec.cpp:41-62 | The scan accepts exactly canonical decimal integers, without leading zeros or a negative zero |
| `JsonScalars.IntTextUnique` | src/xgc_ros1_tools_adapter/src/json_codec.cpp:41-70 | Accepted integer text and integers correspond one to one, so 64-bit values pass exactly |
| `ClockTarget.Target` | src/xgc_ros1_tools_adapter/include/xgc_ros1_tools_adapter/clock_wait.hpp:11-48 | Accepted if and only if at most 128 characters of digits with an optional non-empty fraction and a value up to 4294967295; the result is the least nanosecond count not below it and fits 64 bits |
| `ClockTarget.ReadSeconds` | src/xgc_ros1_tools_adapter/include/xgc_ros1_tools_adapter/clock_wait.hpp:18-27 | Accepts exactly digit strings up to 4294967295 and returns their value without overflow on the way |
| `ClockTarget.ReadNanos` | src/xgc_ros1_tools_adapter/include/xgc_ros1_tools_adapter/clock_wait.hpp:28-45 | The fraction in nanoseconds, rounded up exactly when a digit beyond the ninth is not zero |
| `ClockTarget.CeilingUnique` | src/xgc_ros1_tools_adapter/include/xgc_ros1_tools_adapter/clock_wait.hpp:9-48 | The rounded-up value is determined by the text |
| `ClockWait.Wait.Observe` | src/xgc_ros1_tools_adapter/include/xgc_ros1_tools_adapter/clock_wait.hpp:55-65 | Accepts a stamp if and only if its nanoseconds are valid and it does not go back; a refused stamp changes nothing |
| `ClockWait.Feed` | src/xgc_ros1_tools_adapter/include/xgc_ros1_tools_adapter/clock_wait.hpp:50-73 | Over a whole sequence the verdicts are those of the specification |
| `ClockWait.ReachedForGood` | src/xgc_ros1_tools_adapter/include/xgc_ros1_tools_adapter/clock_wait.hpp:55-65 | An accepted stamp is reported as reached if and only if some accepted stamp up to it reached the target |
| `ClockWait.RefusedIsInvisible` | src/xgc_ros1_tools_adapter/include/xgc_ros1_tools_adapter/clock_wait.hpp:55-65 | Leaving out a refused stamp changes no later state or verdict |

## Left out

- roscpp, ros_babel_fish, JsonCpp, XML-RPC and the Adapter Runtime SDK: their answers are parameters or scripts.
- Process plumbing (spawning, descriptor closing, signals, executable lookup): only "helper live", "exited" and "reaped" are kept.
- The request id is drawn just before the helper starts rather than just after; no step reads it in between.
- JSON parsing and the name and type grammars of `tools_adapter.cpp`: whether a field is well formed is given; the host name grammar.
- "Publishers exist only while enabled" as a concurrent claim: a publish past its check can insert an entry after `clear`.
- PublishCall.Publish: assumes a clock that does not run backwards; a script that ends leaves the call running.
- PublishCall.CheckRequest: the duration check is over reals instead of IEEE doubles.
- PublishCall.SlotsWithinBudget: reals with truncation to nanoseconds instead of IEEE doubles.
- ArchiveFinalizer.Recorder.FinalizeArchiveFiles: a directory scan is one instant, and I/O errors other than an existing target are not modelled; an inode is a number with kind and size, because closed bags do not change.
- ArchiveRestart.Converge: assumes that nobody else writes to the directory and that the native recorder has exited. A power failure before the pending manifest is synced is `RecoverLoss`.
- ArchiveRestart.Session: assumes that the recorder leaves plain files, the closed ones under native names, and that nobody else writes to the directory.
- ArchiveRestart.Start: the status field and the exit code of a resumed start are not kept, and a manifest that is not a regular file is not modelled.
- The order of pinned segments, which the manifest does not promise.
- The stop loop, capacity estimates, topic resolution and parameter normalization of the recorder.
- RecordFacts.Recorder.Produce: JSON parsing and field checks of a producer message are given as its outcome; observation times of events are not kept.
- FactStore.Store.Put: SHA-256 is taken as injective, and nobody else changes files in the facts directory during a recording; files found there beforehand are covered.
- RecordFacts.Recorder.Finish: the fields on pending messages and threads still stopping are not kept.
- RecordFacts.Recorder.ProcessMessages: the queue is not refilled during a pass.
- ExclusionPattern.ExcludesExactly: the 96 KiB cap on the pattern is not modelled, escaping follows Python 3.7 and later, and names are one line, since `.` and `$` treat line ends differently between dialects.
- JsonCodec.RoundTrip: floats are reals with one non-finite value; rounding of large integers to doubles and of doubles to float32 is not modelled.
- JsonCodec.DecodedIsTyped: decoding is a function of the target; what a failed decode leaves behind in the target is not captured.
- Error texts and the path prefix of codec errors.
- Duration normalization is modelled after the constructor's documented behaviour.
- The probe, the clock wait driver, the manifest generators under `tools/` and the schemas: thin drivers and constant data.
