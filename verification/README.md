# Verified models of a word-code file transfer

Two peers meet through a rendezvous server, pair with a code such as
`7-word-word-word`, agree on an offer over one framed stream, and move a
collection of files that can be resumed after a crash. This project models that
logic in Dafny and proves what it promises.

Check it with `dafny verify dfyconfig.toml`.

## What is modelled

- **Receiving** (`Names`, `Records`, `ReceiveSpec`, `Receive`, `ReceiveHistory`,
  `SharedRecords`, `Accounting`). `Receive.Engine` is the receiving engine as a class over the
  target files, the blob store and the record store. Every effect can fail, and the
  process can die between any two. The contract of a receive relates it to
  `ReceiveSpec.Ideal`, the uninterrupted run as a fold over the collection; the
  theorems are about arbitrary histories of such receives. A receive runs on Windows or
  not, which decides what a part with a drive does to a path, and its root is absolute.
  What a path means is `Names.Resolve`.
- **Sending** (`Order`, `Walk`, `Prepare`, `Delivery`). The stack-driven tree walk, the
  duplicate check, the sort and the totals, and how names and totals meet the
  receiver's. Directories are maps, listed in an arbitrary order.
- **The control protocol** (`Control`, `Sessions`, `Protocol`, `ProtocolSafety`,
  `ProtocolCauses`, `ProtocolProgress`, `ProtocolRuns`, `ProtocolPeers`). Two sequential
  programs over two FIFO streams, with ends, faults, timeouts, and interrupts wherever
  they are listened for. A frame log with a read position stands for a stream. SPAKE2 is
  a key that two sides share exactly if their words are equal.
- **Rendezvous** (`Mailboxes`, `RateLimiters`). Both classes carry a ghost log of
  everything that ever happened; the theorems relate the compact state to it.
- **Codecs** (`Wire`, `Handshakes`, `WordCodes`). Frames and their two readers on one
  stream, hex payloads, pairing codes on client and server. JSON is any format whose
  parser undoes its printer.
- **The graphical client's flows** (`Flows`, `SessionApi`, `Meters`). The command loops
  with all their exits, the gates in front of them, and the two progress meters.

Faults are nondeterministic choices. `reliable` environments never make them; they
are there to state that nothing but faults makes an operation fail. `Crashed` means
that the process died and memory is gone; a receive that is dropped while it waits,
as a cancelled transfer is, stops at the same points.

## Where the code and its comments differ

The model follows the code.

- `skipped_blob_size` counts 0 for a skipped file whose size lookup fails, so that
  accounting can never fail a transfer. It does: the sender then sees a mismatch.
  `Accounting.SuccessReconciles` gives the exact condition, `Accounting.LookupMismatch`
  an input.
- A stale record is said to be treated as done by the next receive. With overwrite
  it is not, if the first receive had skipped a file. `Accounting.StaleRecord` gives
  the exact condition, `Accounting.StaleRecordExports` an input.
- A crash in the middle of an export can leave part of a file, which the next receive
  without overwrite respects (`Accounting.TornCopySurvives`). `ReceiveHistory.RunKeepsAllCorrect`
  gives the exact condition.
- A failed preparation in the graphical client sets the stage back to idle as
  retryable, but its flow has ended: the next call is let through and nobody takes
  its command (`SessionApi.RetryAfterFailure`).
- A receiving session is said to be cancelled from any non-terminal stage. During the
  download only one more command is looked at, so a cancel behind a second accept is
  never heard. `Flows.Flow.Download` gives the exact condition, `Flows.DoubleAccept`
  the input.
- The receiver takes any end of the stream for the acknowledgement that its result was
  read, so it can complete while the sender fails (`ProtocolRuns.CompletedAlone`).
  `ProtocolSafety.CompletionAcknowledged` gives the exact condition.
- Names are checked so that no collection can leave the target directory. On Windows a
  part such as `C:x` passes the checks and leaves it (`Names.DriveEscapes`). The store
  refuses to export there, but a file that stands there is removed first if files are
  to be replaced (`ReceiveHistory.DriveRemoves`). `Names.TargetBelowRoot` and
  `ReceiveHistory.OutsideExactly` give the exact conditions.
- The sender's interrupt is said to be polled again wherever it waits. It is not while
  it waits for the control stream, the hello and the pairing
  (`ProtocolRuns.InterruptUnheard`); `ProtocolRuns.InterruptHeard` is exact.
- An offer can be accepted before there is one (`SessionApi.EarlyAccept`).

## Model

| member | source | states |
|---|---|---|
| Receive.Engine.ReceiveResumable | crates/core/src/transfer/receive.rs:115-148 | One receive from disk to disk, whatever fails and wherever the process dies between two effects: the targets and the recorded names are those of the uninterrupted run cut at some file, with at most that one file unrecorded or torn, and a failure names the file and the reason; a record of another directory is not resumed, and the one that is written is the only one of its collection; other collections' records are untouched; the reports have their prescribed form and end; the saved byte count is the one shown last, or the next of the stream if the process died during the download; a record is marked done by a success, or by a process that died once every file was dealt with; and without faults and obstacles the receive succeeds and drops its record |
| Receive.Engine.RunSaved | crates/core/src/transfer/receive.rs:139-148 | The same from the saved record on |
| Receive.Engine.Discard | crates/core/src/transfer/receive.rs:142-147 | After a success the record is removed or left behind as it is; a process that dies here has not succeeded |
| Receive.Engine.ReceiveImpl | crates/core/src/transfer/receive/core.rs:40-228 | The same for the part after the record is on disk: fetch, export, mark done; a failure leaves the status as it was |
| Receive.Engine.Fetch | crates/core/src/transfer/receive/core.rs:47-140 | Nothing but the store, the record's byte count and the reports change before the first export; a failure report is the last report; the byte count is ahead of the reports only if the process died during the download |
| Receive.Engine.FetchMissing | crates/core/src/transfer/receive/core.rs:72-134 | Connecting comes first and once; the byte count and the reports agree but for a death in between |
| Receive.Engine.TakeItem | crates/core/src/transfer/receive/core.rs:108-133 | One item of the stream is shown, completes the store or ends the receive; a death before an error report leaves no report |
| Receive.Engine.Download | crates/core/src/transfer/receive/core.rs:103-134 | After any prefix of the download stream the record on disk holds the offset reported last, or the next one if the process died; a stream that completes leaves every blob in the store |
| Receive.Engine.Advance | crates/core/src/transfer/receive/core.rs:110-126 | The byte count is durable before it is reported; a failed save changes nothing; a process that dies in between leaves the new count unreported |
| Receive.Engine.Dial | crates/core/src/transfer/receive/core.rs:72-97 | A failed dial or size query is reported once and last |
| Receive.Engine.ExportAll | crates/core/src/transfer/receive/core.rs:141-211 | The loop equals the recursive ideal run up to the file where it stopped, with its totals, exports and reports |
| Receive.Engine.Proceed | crates/core/src/transfer/receive/core.rs:145-211 | One turn keeps the accounts of all turns, or cuts the run at this file |
| Receive.Engine.Turn | crates/core/src/transfer/receive/core.rs:145-211 | One turn extends the ideal run, its totals and the accepted names by one file, or leaves a described residue of that file |
| Receive.Engine.HandleFile | crates/core/src/transfer/receive/core.rs:145-210 | A file is exported exactly if the record does not list it, its name is valid, nothing to be respected is in its way and what is in its way can be removed; else it is skipped, or the receive ends with the error that says why; a removal in vain is accounted for, and without faults nothing but an obstacle ends the receive |
| Receive.Engine.ExportFile | crates/core/src/transfer/receive/core.rs:164-210 | A file that is not skipped is exported and recorded below the root, or leaves a described residue; one whose target leaves the root, or is a directory, always ends the receive |
| Receive.Engine.MakeRoom | crates/core/src/transfer/receive/core.rs:164-169 | A file at the target is removed or left alone; a directory is never removed and ends the receive |
| Receive.Engine.ExportNew | crates/core/src/transfer/receive/core.rs:171-210 | Success means that the target holds the blob and the record on disk lists it; failure leaves a complete but unrecorded, or a torn, target |
| Receive.Engine.Export | crates/core/src/transfer/receive/core.rs:172-199 | The export stream as one effect: a target that is not absolute is refused untouched; otherwise a complete copy of the blob with its size, or a failure that may leave part of a copy |
| Receive.Engine.SkippedBlobSize | crates/core/src/transfer/receive/core.rs:234-246 | The size of a complete blob, and 0 when the lookup fails |
| Receive.Engine.SaveRecord | crates/core/src/transfer/receive/core.rs:117-123 | After a failed or crashed save the old record is still on disk |
| Receive.Engine.MarkDone | crates/core/src/transfer/receive/core.rs:212-221 | The end is reported only after the done record is on disk; a process that dies in between leaves the done record without a success |
| Receive.Engine.ExportAndMark | crates/core/src/transfer/receive/core.rs:141-227 | Success implies that every file was dealt with and that the report ends with the totals returned; only a success, or a death after the last file, marks the record done |
| Receive.Engine.Begin | crates/core/src/transfer/receive.rs:121-138 | The run starts from a matching record or a new one, and that record is on disk before anything else |
| Receive.Engine.CheckResume | crates/cli/src/receive.rs:500-524 | Refusing to resume touches no target and no record but the one that was found, and drops that unless the removal fails; without faults it answers yes exactly when a record was found and the user said so |
| Records.RecordStore.Save | crates/core/src/transfer/record.rs:116-144 | Atomic replacement: wherever the process dies, the record file holds the old or the new content, and only the temporary file of this call can be left over; a stale one is cleared |
| Records.RecordStore.Load | crates/core/src/transfer/record.rs:107-111 | What is found is what the collection's file holds, and it names this collection and this directory itself; a healthy load finds it if it does |
| Records.RecordStore.Delete | crates/core/src/transfer/record.rs:147-153 | Removes this record or leaves everything as it was; a missing file is fine |
| Names.ExportTarget | crates/core/src/transfer/receive.rs:72-83 | A name is accepted exactly if no piece of it is empty, `.` or `..`, or holds a backslash; the loop computes the mapping to a path, part by part; on Windows a part that begins with a drive takes the place of the path before it |
| Names.NameAccepted | crates/core/src/transfer/receive.rs:72-83 | The acceptance of a name, in terms of its pieces alone |
| Names.WalkPlain | crates/core/src/transfer/receive.rs:80-80 | Plain components lead one step down each, whatever separators the system has |
| Names.TargetBelowRoot | crates/core/src/transfer/receive.rs:72-83 | An accepted name leads strictly below where the root leads, by `.`, `..` and separators as the system reads them, if and only if the system is not Windows or no part begins with a drive; it then leads there by the plain parts of the name, and otherwise the target is not absolute |
| Names.TargetInjective | crates/core/src/transfer/receive.rs:72-83 | A name that stays below the root leads to no place that another accepted name leads to, wherever that one leads |
| Names.TargetRoundTrip | crates/core/src/transfer/receive.rs:72-83 | Any list of plain components is accepted, and comes out below the root unchanged if and only if the system is not Windows or none begins with a drive |
| Names.DriveEscapes | crates/core/src/transfer/receive.rs:69-83 | Inputs: on Windows a name that begins with any drive, such as `C:x`, is accepted and leads out of the root, and so does `a/C:x`, to the same place |
| Names.PushDrive | crates/core/src/transfer/receive.rs:80-80 | After a drive a path never has a root directory again, whatever is pushed |
| Names.SplitJoin | crates/core/src/transfer/send.rs:218-228 | Names joined with the separator are split into the same components |
| Names.JoinSplit | crates/core/src/transfer/receive.rs:74-81 | Splitting loses nothing |
| ReceiveHistory.RecordAlwaysSound | crates/core/src/transfer/receive/core.rs:145-210 | Over any sequence of crashed, failed, resumed, refused and repeated receives of a collection, on any system, every name in the record on disk is listed once and its target lies below the root and holds the whole blob |
| ReceiveHistory.RunKeepsSound | crates/core/src/transfer/receive/core.rs:200-210 | One run, however it ends, keeps the record trustworthy |
| SharedRecords.SharedRecordSound | crates/core/src/transfer/record.rs:69-71 | Receives of a collection into several directories share one record file: however they, receives of other collections with other targets, crashes and refusals follow one another, what is found as the record for a directory can be trusted there |
| SharedRecords.EventKeepsSound | crates/core/src/transfer/record.rs:69-71 | One receive or refusal, into whatever directory, keeps it so |
| SharedRecords.OneRecord | crates/core/src/transfer/receive.rs:121-138 | A receive, however it ends, leaves no record for another directory that was not there before; once it has saved its own, the next receive into another directory starts from an empty list |
| SharedRecords.CommonTarget | crates/core/src/transfer/receive/core.rs:157-170 | An input: a collection that replaces a file of another leaves the record of the other wrong, so the condition on targets is needed |
| ReceiveHistory.CutTrustworthy | crates/core/src/transfer/receive/core.rs:145-210 | Wherever a run is cut, and whatever it leaves of the file it was at, the recorded names are delivered |
| ReceiveHistory.SuccessExactly | crates/core/src/transfer/receive/core.rs:145-228 | After success each target holds the blob if it was wanted, and what it held before otherwise |
| ReceiveHistory.SuccessNeedsValidNames | crates/core/src/transfer/receive/core.rs:156-156 | No receive of a collection with an unmappable name ever succeeds |
| ReceiveHistory.SuccessStays | crates/core/src/transfer/receive/core.rs:53-59 | Nor does a receive succeed that was to export a name that leaves the root, or a file where a directory stands: the store refuses a target that is not absolute, and a directory is not removed |
| ReceiveHistory.SuccessNeedsClear | crates/core/src/transfer/receive/core.rs:156-170 | A success means that nothing was in the way of any name: each was recorded, respected, or could be exported below the root; together with ReceiveResumable this is exact for an environment without faults |
| ReceiveHistory.SuccessDelivers | crates/core/src/transfer/receive.rs:85-94 | After success every name has a target, and it holds the blob if and only if files were to be replaced, or nothing was there, or the blob was there already |
| ReceiveHistory.UntornHistoryCorrect | crates/core/src/transfer/receive.rs:104-114 | If the targets began empty (or correct) and no part of a copy was left behind, everything found at a target is the blob meant for it, throughout any history |
| ReceiveHistory.RunKeepsAllCorrect | crates/core/src/transfer/receive/core.rs:171-199 | A run that starts with nothing but correct files leaves nothing but correct files if and only if it leaves no part of a copy; a copy that was complete when the process died is none |
| ReceiveHistory.HistoryRespects | crates/core/src/transfer/receive/core.rs:157-170 | Files at no target of the collection are never changed in any history; without overwrite no existing file is, crashes included |
| ReceiveHistory.DirectoriesStay | crates/core/src/transfer/receive/core.rs:164-169 | No history of receives removes, replaces or makes a directory, with or without overwrite |
| ReceiveHistory.OutsideUntouched | crates/core/src/transfer/receive.rs:69-83 | No receive of any collection adds or changes anything at a path that does not lead below the root; and nothing is removed there if no accepted name leaves the root, or if no receive replaces files |
| ReceiveHistory.OutsideExactly | crates/core/src/transfer/receive.rs:69-83 | Nothing outside the root is touched in any history, if and only if no accepted name leaves the root |
| ReceiveHistory.DriveRemoves | crates/core/src/transfer/receive/core.rs:157-170 | For each collection with such a name, a history that removes a file outside the root |
| ReceiveHistory.RunRespects | crates/core/src/transfer/receive/core.rs:157-170 | The same for one run |
| ReceiveHistory.RunWork | crates/core/src/transfer/receive/core.rs:200-210 | A run completes as many exports as names it adds to the record, plus at most one if it is interrupted |
| ReceiveHistory.WorkBound | crates/core/src/transfer/receive/core.rs:200-210 | A history completes at most n exports per loss of the record, plus n, plus one for each interrupted run, for n names |
| ReceiveHistory.WorkRecorded | crates/core/src/transfer/receive/core.rs:200-210 | Exports that did not fill the record are paid for by losses of the record and by interrupted runs |
| ReceiveHistory.WorkWithoutOverwrite | crates/core/src/transfer/receive/core.rs:157-163 | Without overwrite a history of any length completes at most one export per name |
| ReceiveHistory.TrustworthyNames | crates/core/src/transfer/receive/core.rs:200-210 | The recorded names stay free of duplicates and inside the collection |
| Accounting.Conservation | crates/core/src/transfer/receive/core.rs:141-228 | Exported bytes, skipped bytes and bytes lost to failed size lookups add up to the collection at every point of the loop, and so do the files |
| Accounting.SuccessReconciles | crates/core/src/transfer/receive/core.rs:230-246 | The sender accepts the totals of a successful receive if and only if no size lookup failed for a skipped file with content (the comment in the code expects that accounting can never fail a transfer) |
| Accounting.SuccessReconcilesBefore | crates/core/src/transfer/receive/core.rs:230-246 | Without repeated names the skipped files are known before the receive: the sender accepts if and only if every unwanted file with content gets its size looked up |
| Accounting.UnaccountedBefore | crates/core/src/transfer/receive/core.rs:145-163 | A file is skipped if and only if it is not wanted |
| Accounting.SuccessTotals | crates/core/src/transfer/receive/core.rs:141-228 | A success reports the bytes of the wanted files, the number of exports, and as skipped exactly the names of the others, in collection order |
| Accounting.LookupMismatch | crates/core/src/transfer/receive/core.rs:230-246 | An input: one byte, a respected file, a failed lookup; the receive succeeds and the totals do not match |
| Accounting.AllAnswered | crates/cli/src/send/transfer.rs:103-115 | With all lookups answered the totals always match, whatever was skipped, resumed or replaced |
| Accounting.StaleRecord | crates/core/src/transfer/receive.rs:142-146 | After a success whose record could not be removed, the next receive exports nothing if and only if it does not replace files or the first receive had recorded every name (the comment in the code expects it always) |
| Accounting.StaleRecordExports | crates/core/src/transfer/receive.rs:142-146 | An input: a skipped file, a removal that fails, and a next receive that replaces files; it reads the stale record and exports the file |
| Accounting.TornCopySurvives | crates/core/src/transfer/receive/core.rs:157-163 | A concrete history: a copy torn by a crash is respected by the next receive without overwrite, which succeeds with a wrong file |
| Accounting.ProgressMonotone | crates/core/src/transfer/receive/core.rs:110-126 | Shown bytes never exceed the total, and never go back if the store's offsets do not |
| Accounting.ShownExactly | crates/core/src/transfer/receive/core.rs:110-126 | For each offset the bytes that were local before and the offset are shown, up to the total |
| Sessions.OneRoad | crates/core/src/session/state.rs:26-51 | Every legal run of phases is a stretch of the one road from Created to Done, or a stretch of it ended by Cancelled or Failed |
| Sessions.RoadIsLegal | crates/core/src/session/state.rs:26-51 | And every such stretch is a legal run |
| Sessions.OwnEvent | crates/core/src/session/state.rs:26-51 | Each step of the road has its own event and its own phase before it; cancelling and failing end any phase that is not final, and nothing else is a step |
| Sessions.Session.Transition | crates/core/src/session.rs:54-59 | The phase changes as the machine says or not at all; the history stays legal |
| Sessions.Session.Cancel | crates/core/src/session.rs:64-68 | Cancelling a live session ends it and sets the flag; a finished one stays as it is; the flag implies the phase Cancelled |
| ProtocolSafety.StepKeepsInv | crates/cli/src/send/mod.rs:264-342 | Every step of either program, message, fault, close or interrupt keeps the invariant that ties program points, phases and both streams together |
| ProtocolSafety.RunKeepsInv | crates/cli/src/receive.rs:321-494 | Hence every run does |
| ProtocolSafety.SenderCompletedIsBacked | crates/cli/src/send/transfer.rs:60-88 | In every reachable state: if the sender completed, the receiver's receive returned exactly those totals, they match the offer, the receiver wrote them, and it has neither declined nor been cancelled |
| ProtocolSafety.CompletionAcknowledged | crates/cli/src/wire.rs:270-286 | In every reachable state in which the receiver has completed with some totals and the sender has ended: the sender completed with them if and only if it took the last frame off the stream and the totals match |
| ProtocolRuns.CompletedAlone | crates/cli/src/wire.rs:277-284 | For all equal words and all totals, a run in which the receiver completes and the sender fails before it reads the result |
| ProtocolSafety.SenderDeclinedIsBacked | crates/cli/src/send/mod.rs:335-335 | If the sender reports a refusal the receiver wrote it, and nothing was received |
| ProtocolSafety.CompletedIffDone | crates/cli/src/send/mod.rs:318-342 | On both sides completion and phase Done coincide, and no transition is ever refused |
| ProtocolSafety.DifferentWordsNeverPair | crates/cli/src/wire.rs:189-240 | With different words, under any faults and interrupts, neither side confirms the pairing, no offer is written and nothing is received |
| ProtocolCauses.DecisionDecides | crates/cli/src/receive.rs:401-434 | In every run the user is asked at most once; the receiver accepts, receives and reports only after a yes, and declines only after a no; what it received and reported is what its receive returned |
| ProtocolCauses.SenderHeardDecision | crates/cli/src/send/mod.rs:318-341 | The sender completes only after a yes and with totals that the receive returned, and reports a refusal only after a no |
| ProtocolCauses.ReceiverEndsForCause | crates/cli/src/receive.rs:321-494 | The receiver ends with a fault, cancelled, or with a failed receive if and only if there was a fault, an interrupt, or a failed receive; a lost connection at the end is no failure; a session that exists is cancelled with it |
| ProtocolCauses.SenderEndsForCause | crates/cli/src/send/mod.rs:264-342 | The same for the sender; it fails in no other way than by a fault, a closed stream, different words, totals that do not match, or a cancel where it expects something else |
| ProtocolCauses.SenderMeets | crates/cli/src/send/mod.rs:268-280 | The sender gets past the wait for a connection only if the receiver has dialed, and past the wait for the stream only if it has written its hello |
| ProtocolCauses.CancelTold | crates/cli/src/receive.rs:321-494 | Each side finds a cancel in its stream if and only if the other was interrupted, or failed to receive, once it could write one that got through |
| ProtocolCauses.ReceiverHears | crates/cli/src/receive.rs:321-412 | A receiver that has not ended hears an interrupt exactly before it connects, and from the hello until the user has decided |
| ProtocolCauses.RunCaused | crates/cli/src/send/mod.rs:264-342 | The state of both programs goes back to the steps of the run, at every point of it |
| ProtocolPeers.SenderCompletesExactly | crates/cli/src/send/mod.rs:280-342 | Against a peer that may write anything: the sender completes exactly on a hello of version 1, a message, the token of the key derived from it, an accept, and a result whose bytes and files, exported or skipped, are those of the offer |
| ProtocolPeers.SenderStopsExactly | crates/cli/src/send/mod.rs:318-341 | Against such a peer it ends declined or cancelled exactly on a refusal after the pairing, or a cancel there or after an accept |
| ProtocolPeers.TalkOn | crates/cli/src/send/transfer.rs:43-98 | What it makes of every other frame after the pairing, hellos of another version and frames of the other format included |
| ProtocolPeers.ReceiverAsksExactly | crates/cli/src/receive.rs:343-398 | Against such a peer the receiver asks its user exactly on any control message but a hello of another version, a message, the token of the key derived from it, and an offer |
| ProtocolRuns.InterruptHeard | crates/cli/src/send/mod.rs:264-313 | A waiting sender hears an interrupt if and only if it waits for the connection or the pairing is confirmed |
| ProtocolRuns.InterruptUnheard | crates/cli/src/send/mod.rs:280-285 | A run that leaves the sender waiting for the hello, where no interrupt is heard |
| ProtocolProgress.NoDeadlock | crates/cli/src/wire.rs:194-286 | In every reachable state with a live side some program can go on without a new fault, except for a sender whose receiver gave up before connecting |
| ProtocolProgress.RunBounded | crates/cli/src/wire.rs:194-286 | A measure on program points and queued frames decreases with every step |
| ProtocolProgress.ExchangeTerminates | crates/cli/src/wire.rs:194-286 | No run is longer than 48 steps |
| ProtocolProgress.CleanRun | crates/cli/src/send/mod.rs:264-342 | Without faults and interrupts the two ends agree at every point of a run |
| ProtocolProgress.CleanRunAgrees | crates/cli/src/receive.rs:343-494 | A run without faults and interrupts that cannot go on has ended on both sides: paired, with an offer, and with the same outcome if the words agree, completed at the receiver exactly if the user said yes and declined exactly if the user said no; both with a failed confirmation if the words differ |
| Walk.Traverse | crates/core/src/transfer/send.rs:194-229 | The stack loop finds exactly the regular files of the tree, by looking up their paths entry by entry: each once, with its own content, and with the name that spells its path; it fails if and only if the tree holds something it cannot handle, with an error that a node of the tree gives rise to; it terminates for any directory order |
| Walk.FlattenMeaning | crates/core/src/transfer/send.rs:194-229 | The recursive flattening holds a file if and only if its path leads to a regular file with that content, and its name is that of the root with the components of the path |
| Walk.WalkableMeaning | crates/core/src/transfer/send.rs:194-229 | A tree is walkable if and only if every path in it leads to a file, a link, or a directory that can be listed |
| Walk.OpenDir | crates/core/src/transfer/send.rs:213-228 | A directory on the stack is replaced by its entries, or gives the error it has |
| Walk.ReadDir | crates/core/src/transfer/send.rs:213-228 | The entries of a directory in an arbitrary order |
| Walk.EntriesPartition | crates/core/src/transfer/send.rs:218-228 | The entries hold what their directory holds and do not overlap |
| Walk.PushEntries | crates/core/src/transfer/send.rs:195-228 | Replacing a directory on the stack by its entries keeps the files to be found and loses one node |
| Walk.FoundAreNodes | crates/core/src/transfer/send.rs:194-229 | A found file lies under the node it was found from |
| Prepare.WalkFiles | crates/core/src/transfer/send.rs:166-237 | One input: exactly its files, once each, in name order; refused if missing, unnameable, or for what a node of it is; nothing for a symlink |
| Prepare.WalksGather | crates/core/src/transfer/send.rs:253-262 | The walks of all inputs together list all files, and names repeat if and only if inputs clash |
| Prepare.PrepareSend | crates/core/src/transfer/send.rs:248-338 | The inventory holds exactly the regular files of all inputs, sorted by distinct names, with their total; it exists if and only if all inputs can be walked and no two files share a name; otherwise the error is that of an input, or a name that some file has |
| Prepare.FirstRepeated | crates/core/src/transfer/send.rs:257-262 | The duplicate check finds a repeated name if and only if there is one |
| Prepare.ImportAll | crates/core/src/transfer/send.rs:265-312 | All files are imported in order and their sizes added up |
| Prepare.SortAscending | crates/core/src/transfer/send.rs:263-263 | Sorting files with distinct names gives strictly ascending names and keeps the files |
| Prepare.PreparedUnique | crates/core/src/transfer/send.rs:248-338 | The inventory does not depend on the order of the inputs, nor on any directory order |
| Prepare.PreparableAnyOrder | crates/core/src/transfer/send.rs:253-262 | Nor does it depend on the order of the inputs whether there is one |
| Order.AscendingUnique | crates/core/src/transfer/send.rs:263-263 | Two strictly ascending lists of the same names are equal |
| Order.LeqMeaning | crates/core/src/transfer/send.rs:263-263 | The order is that of strings: a prefix first, else the smaller character where they first differ |
| Delivery.NameSpellsPath | crates/core/src/transfer/send.rs:223-227 | A collection name spells the path from the root of the input |
| Delivery.OneInputNeverClashes | crates/core/src/transfer/send.rs:257-262 | The files of one input never share a name |
| Delivery.MirrorsTree | crates/core/src/transfer/receive.rs:72-83 | The receiver accepts the name of a sent file if and only if no component holds a backslash, and then rebuilds the very path it had below the parent of the input if and only if it does not run on Windows or no component begins with a drive |
| Delivery.DriveNotMirrored | crates/core/src/transfer/receive.rs:72-83 | An input: a file called `C:x` is accepted and not mirrored by Windows |
| Delivery.CollectionTotal | crates/core/src/transfer/send.rs:311-311 | What the sender adds up is what the collection holds |
| Delivery.CollectionDistinct | crates/core/src/transfer/send.rs:314-317 | A prepared collection has distinct names, which the theorems about receives ask for |
| Delivery.SuccessIsAccepted | crates/cli/src/send/transfer.rs:60-115 | End to end: a successful receive of a prepared collection, with its lookups answered, reports totals that the sender accepts, for any overwrite policy, targets and record |
| Mailboxes.Mailbox.Allocate | crates/rendezvous/src/mailbox.rs:123-140 | The first free nameplate drawn is taken, and the ticket stored under it |
| Mailboxes.Mailbox.Claim | crates/rendezvous/src/mailbox.rs:144-157 | A claim answers by the full log: the ticket of the last allocation if it is unexpired and not taken since, gone if it has expired and is not purged, and not found otherwise; the entry is marked taken only when the ticket is handed out |
| Mailboxes.ClaimFromLog | crates/rendezvous/src/mailbox.rs:144-157 | All answers to a claim, by the full log |
| Mailboxes.Mailbox.Status | crates/rendezvous/src/mailbox.rs:160-169 | Status answers by the full log: not found, expired, claimed or pending, as StatusMeaning says |
| Mailboxes.StatusMeaning | crates/rendezvous/src/mailbox.rs:160-169 | Not found if and only if never allocated or purged since it expired; else expired from its time on; else claimed if and only if a claim has succeeded since the allocation; else pending |
| Mailboxes.InTable | crates/rendezvous/src/mailbox.rs:183-187 | The table holds exactly the nameplates that were allocated and not purged since they expired |
| Mailboxes.Mailbox.PurgeExpired | crates/rendezvous/src/mailbox.rs:183-187 | Purging removes the expired entries and returns how many |
| Mailboxes.EntryMeaning | crates/rendezvous/src/mailbox.rs:105-157 | The compact table against the full log: an entry is the last allocation of its nameplate, marked claimed if and only if a claim has succeeded since |
| Mailboxes.OneShot | crates/rendezvous/src/mailbox.rs:144-156 | Between two successful claims of a nameplate there is a new allocation: no allocation's ticket is handed out twice |
| Mailboxes.ClaimMeaning | crates/rendezvous/src/mailbox.rs:144-156 | A claim returns a ticket if and only if it is that of the last allocation of its nameplate, not expired and not taken since, over any interleaving with purges and reuse |
| Mailboxes.LiveEntryStays | crates/rendezvous/src/mailbox.rs:183-187 | A purge never drops what has not expired |
| Mailboxes.PurgeForgetsExpired | crates/rendezvous/src/mailbox.rs:183-187 | A purge removes exactly what status calls expired, and turns only those answers into not-found |
| RateLimiters.RateLimiter.Check | crates/rendezvous/src/mailbox.rs:200-217 | A call is accepted if and only if fewer than `limit` accepted calls of its address are younger than 60 s, by the full log |
| RateLimiters.PruneExactly | crates/rendezvous/src/mailbox.rs:203-209 | Whatever the clock does, pruning drops the times from the front that are 60 s old or older, up to the first that is not |
| RateLimiters.WindowSuffix | crates/rendezvous/src/mailbox.rs:200-217 | The pruned deque is the recent end of the full log |
| RateLimiters.RefinesFullLog | crates/rendezvous/src/mailbox.rs:200-217 | The deque's length after pruning is the number of accepted calls in the window |
| RateLimiters.NeverTooMany | crates/rendezvous/src/mailbox.rs:200-217 | No half-open 60 s window holds more than `limit` accepted calls of an address |
| RateLimiters.AddressesIndependent | crates/rendezvous/src/mailbox.rs:200-217 | Calls of other addresses make no difference |
| Wire.Encode | crates/core/src/protocol/wire.rs:80-92 | The frame is the length prefix and the body, or the body is larger than 16 MiB |
| Wire.DecodeEncode | crates/core/src/protocol/wire.rs:99-118 | Decoding undoes encoding and refuses anything after the frame |
| Wire.DecodeExactly | crates/core/src/protocol/wire.rs:99-118 | What the decoder returns for any bytes, error by error |
| Wire.ToLe32 | crates/core/src/protocol/wire.rs:89-89 | A 32-bit length survives its four bytes, the first of which is the least significant |
| Wire.Stream.ReadExact | crates/core/src/session/control.rs:191-202 | Exactly `n` bytes, or the end of the stream |
| Wire.Stream.Send | crates/core/src/session/control.rs:132-142 | A sendable message adds its frame to the stream; any other adds nothing |
| Wire.Stream.Recv | crates/core/src/session/control.rs:147-170 | Reads what the reading function says and leaves exactly the rest |
| Wire.ReadBack | crates/core/src/session/control.rs:147-170 | A reader takes exactly the frame ahead of it, also when it refuses the message for its version |
| Wire.ReadExactly | crates/core/src/session/control.rs:147-170 | Whatever the bytes: a reader returns a message exactly if a prefix, a body of that length, at most 16 MiB, that parses to a message of the right version, and the rest are ahead of it; too large, unparseable and end of stream are characterised as well |
| Wire.TruncatedFrame | crates/core/src/session/control.rs:191-202 | Every proper prefix of a frame is the end of the stream, never a message |
| Wire.StreamsNeverMismatch | crates/core/src/session/control.rs:147-170 | Read off a stream, no bytes whatever cause a length mismatch or a missing prefix |
| Wire.ReadNext | crates/cli/src/wire.rs:152-173 | A message is read by its own reader and the others go on from there |
| Wire.MixedReadBack | crates/cli/src/wire.rs:139-173 | Any mixture of control and handshake messages on one stream is read back as exactly that mixture |
| Handshakes.HexEncode | crates/core/src/pairing/handshake.rs:61-68 | The loop prints two digits a byte |
| Handshakes.HexDecode | crates/core/src/pairing/handshake.rs:79-91 | Accepts exactly an even number of hex digits of either case; the bytes print as the input in lower case (section 8 of RFC 4648) |
| Handshakes.HexDecodeArray | crates/core/src/pairing/handshake.rs:93-102 | The same for a fixed length, with its two errors |
| Handshakes.HexIsHex | crates/core/src/pairing/handshake.rs:61-68 | What is printed is hex of twice the length, in lower case |
| Handshakes.HexInjective | crates/core/src/pairing/handshake.rs:61-68 | Different bytes print differently |
| Handshakes.HexPlaces | crates/core/src/pairing/handshake.rs:61-68 | Each byte is spelled by two digits in its place, the upper half first |
| Handshakes.HexVector | crates/core/src/pairing/handshake.rs:61-68 | A test vector of section 10 of RFC 4648, in lower case |
| Handshakes.MakeSpake | crates/core/src/pairing/handshake.rs:22-33 | Only 33 bytes make a first-round message |
| Handshakes.MakeConfirm | crates/core/src/pairing/handshake.rs:36-40 | A token is carried as the hex that IntoConfirm turns back into it |
| Handshakes.IntoPake | crates/core/src/pairing/handshake.rs:43-48 | The payload of a first-round message comes back unchanged; a confirmation is refused |
| Handshakes.IntoConfirm | crates/core/src/pairing/handshake.rs:51-58 | The same for confirmation tokens |
| Handshakes.ConstantTimeEq | crates/core/src/pairing/spake.rs:186-195 | The accumulated difference is zero if and only if the tokens are equal |
| WordCodes.ServerBijection | crates/rendezvous/src/mailbox.rs:30-45 | The strings the server accepts correspond one to one to 1..=9999, by decimal printing |
| WordCodes.ServerRefusals | crates/rendezvous/src/mailbox.rs:30-45 | Why the server refuses a string: empty, a leading zero, or out of range |
| WordCodes.DecimalRoundTrip | crates/rendezvous/src/mailbox.rs:52-56 | A printed number is canonical and read back as itself |
| WordCodes.CanonicalIsDecimal | crates/rendezvous/src/mailbox.rs:30-45 | A canonical digit string is the printed form of its value |
| WordCodes.ClientToServer | crates/core/src/pairing/wordcode.rs:128-136 | What the client takes for a nameplate is known to the server under its printed form, and under its own spelling only if that is the printed form |
| WordCodes.Generate | crates/core/src/pairing/wordcode.rs:39-58 | A valid code of the first three different words drawn, or the nameplate is out of range |
| WordCodes.Validate | crates/core/src/pairing/wordcode.rs:80-98 | The slot-filling loop validates as specified, the first bad word deciding the error |
| WordCodes.CheckedWords | crates/core/src/pairing/wordcode.rs:87-96 | The word loop accepts exactly lists of different words of the list |
| WordCodes.CodeRoundTrip | crates/core/src/pairing/wordcode.rs:117-121 | A valid code is printed and read back unchanged |
| WordCodes.ValidatedMeaning | crates/core/src/pairing/wordcode.rs:60-98 | A validated code is valid, splits into its nameplate and password, and its printed form validates to itself |
| WordCodes.ValidatedExactly | crates/core/src/pairing/wordcode.rs:80-98 | A code is accepted exactly if it is a nameplate from 1 to 9999 and three different words of the list; otherwise the number of words, the nameplate and the first bad word decide the error, in this order |
| WordCodes.SplitExactly | crates/core/src/pairing/wordcode.rs:65-73 | The structural split takes exactly a nameplate, a hyphen and something after it; it fails for want of a hyphen, or of anything after the first one |
| WordCodes.TopicInputInjective | crates/cli/src/rendezvous_client.rs:611-612 | Different nameplates or normalized words give different inputs to the topic hash |
| Flows.Flow.RunSenderFlow | flutter/rust/src/api/flows.rs:37-210 | On every exit of the graphical sender: one reply per command taken, in order; the engine shut down once, last; the pairing released before that if and only if it was published; the phase events are the session's history and the last events show the end; all that is said to the receiver; and the end is what the receiver's messages, in the order read, ask for: a transfer exactly after an accept, declined exactly after a refusal, completed exactly on a matching result |
| Flows.Flow.PrepareAndServe | flutter/rust/src/api/flows.rs:69-91 | A failed preparation ends the flow with the stage back at idle |
| Flows.Flow.ServeReceiver | flutter/rust/src/api/flows.rs:93-199 | The same from the published pairing on; the offer is sent only once paired |
| Flows.Flow.WaitForReceiver | flutter/rust/src/api/flows.rs:254-286 | Waits for the connection; a cancel, a timeout or disposal ends it with the phase that goes with it, and anything else is rejected |
| Flows.Flow.WaitResponse | flutter/rust/src/api/flows.rs:298-327 | The same while waiting for the answer; the peer hears of a cancel first |
| Flows.Flow.TransferPhase | flutter/rust/src/api/flows.rs:331-400 | The transfer goes on until a message decides it, a matching result completing it, or until the sender cancels or is disposed of, which the receiver is told; what was served is shown, rising, up to the total |
| Flows.Flow.TransferTurn | flutter/rust/src/api/flows.rs:345-398 | One command, message or tick of that loop |
| Flows.Flow.OnMessage | flutter/rust/src/api/flows.rs:360-390 | Decides by the message read as promised, and only reports what it does not expect |
| Flows.Flow.EndAtResponse | flutter/rust/src/api/flows.rs:184-197 | How a refusal, a cancel and anything unexpected end the flow |
| Flows.Flow.FollowResponse | flutter/rust/src/api/flows.rs:168-199 | An accept starts the transfer, and nothing else does; a refusal, a cancel and anything else end the flow as they should |
| Flows.Flow.OfferFiles | flutter/rust/src/api/flows.rs:128-199 | From the offer on: ended before an answer by a cancel that was told, by disposal or by failure, or as the answer asks |
| Flows.Flow.RunReceiverFlow | flutter/rust/src/api/flows.rs:404-516 | On every exit of the graphical receiver: one reply per command taken, and which ones are granted; one shutdown; the phase events are the session's history and the last events show the end; and all that is said to the sender: nothing without a claim, a hello, and then exactly what the second command asks for, an accept with at most a result or a cancel after it, the refusal with its reason, or a cancel |
| Flows.Flow.ClaimAndDecide | flutter/rust/src/api/flows.rs:430-515 | The same from the claim on |
| Flows.Flow.DriveClaim | flutter/rust/src/api/flows.rs:520-585 | A claim that works out has said hello and is confirmed; one that does not ends the session as failed |
| Flows.OrderedInPlace | flutter/rust/src/api/session.rs:123-195 | The gates let no command through that a receiver does not expect |
| Flows.Flow.AcceptTransfer | flutter/rust/src/api/flows.rs:586-656 | The accept, then the totals of a finished receive or a cancel, or nothing if the accept could not be sent; at most one command is looked at during the download; whatever its end, the engine is shut down |
| Flows.Flow.Download | flutter/rust/src/api/flows.rs:624-656 | A cancel is granted if and only if it is the third command of the session and comes before the download is through |
| Flows.GrantedCancel | flutter/rust/src/api/session.rs:197-210 | A cancel is granted if and only if it is the last command taken |
| Flows.DoubleAccept | flutter/rust/src/api/flows.rs:646-649 | An input: a cancel behind a second accept is never taken (the comment on the call promises a cancel from any non-terminal stage) |
| Flows.Flow.ReportOutcome | flutter/rust/src/api/flows.rs:658-692 | A finished receive is reported and completes only if the sender acknowledges; a failed one cancels |
| Flows.Flow.Decide | flutter/rust/src/api/flows.rs:448-515 | The decision on the offer, each with its reply, what it says to the sender, and its end |
| Flows.Flow.TurnDown | flutter/rust/src/api/flows.rs:482-514 | A decision other than accept: the refusal with its reason, or a cancel, told to the sender; its reply and its end |
| Flows.Flow.DeclineOffer | flutter/rust/src/api/flows.rs:482-507 | The refusal with its reason is written, shown and confirmed |
| Flows.Flow.CancelFlow | flutter/rust/src/api/session.rs:356-369 | Ends the session as cancelled, shows it and confirms it to whoever asked |
| Flows.Flow.FinishFailed | flutter/rust/src/api/session.rs:371-379 | Ends the session as failed and shows it |
| Flows.ServedStep | flutter/rust/src/api/flows.rs:391-397 | One tick keeps shown bytes increasing and within the total, and shows what was served |
| SessionApi.Handle.SendPaths | flutter/rust/src/api/session.rs:123-139 | Let through exactly on an idle sender; over the life of a session at most one preparation is queued, and one more after a failed preparation |
| SessionApi.Handle.ReceiveTicket | flutter/rust/src/api/session.rs:144-159 | Let through exactly on an idle receiver; over the life of a session at most one claim is queued |
| SessionApi.Handle.AcceptOffer | flutter/rust/src/api/session.rs:164-178 | Let through exactly once a receiver's stage is that of a pending offer, which the claim call sets itself; keeps the order of commands |
| SessionApi.Handle.DeclineOffer | flutter/rust/src/api/session.rs:181-195 | The same for declining |
| SessionApi.Handle.CancelSession | flutter/rust/src/api/session.rs:199-210 | A session that is over needs no command; keeps the order of commands |
| SessionApi.RetryAfterFailure | flutter/rust/src/api/flows.rs:71-77 | After a failed preparation the next call passes the gate; its command is queued and the flow, which has ended, never takes it, or there is no flow left to send it to |
| SessionApi.EarlyAccept | flutter/rust/src/api/session.rs:144-178 | An accept right after the claim call is let through before any offer exists; it is granted as the decision on the offer if the claim works out, and never taken if not |
| Meters.ServedCounter.Take | crates/core/src/transfer/engine/events.rs:45-66 | However requests interleave, the count is the sum of what each request adds, and never goes down |
| Meters.OnlyItsOwn | crates/core/src/transfer/engine/events.rs:47-52 | An update changes the contribution of its own request only |
| Meters.OrderlyRequest | crates/core/src/transfer/engine/events.rs:45-62 | A request with orderly offsets has added its last offset, and exactly its payload once completed |
| Meters.RiseAfter | crates/core/src/transfer/engine/events.rs:45-62 | Whatever came before: between two offsets a request adds what the second is ahead of the first, and a completion what the payload is ahead of the last offset; an abort adds nothing |
| Meters.ServedIsSent | crates/core/src/transfer/engine/events.rs:45-62 | With orderly requests the count never exceeds the payloads and equals their sum once all are complete |
| Meters.PlainBar.ReportLine | crates/cli/src/ui.rs:182-205 | For any positions within the total, at most 20 lines are printed, each further on than the one before and 5 percent ahead unless it is the last, and none after the one for the total |
| Meters.PlainBar.PercentMonotone | crates/cli/src/ui.rs:190-192 | The percentage does not go down when the position goes up |
| Meters.PlainBar.PercentRounds | crates/cli/src/ui.rs:190-192 | The percentage is rounded down |

## Left out

- The record-less `receive`: the same core without its record; nothing in the shipped commands calls it.
- The QUIC endpoint, the relay, blob store internals, and tickets: the store is a set of complete blobs, and an export is one effect that copies a blob, fails, or leaves part of a copy.
- Symbolic links among the targets: a dangling link counts as absent for the code, so the theorems about files that are not changed leave it open.
- What a file system makes of a path beyond `.`, `..` and separators: symbolic links on the way, case folding (where `A` and `a` are one file, a receive of both delivers one), trailing dots and spaces, streams and device names; and the current directory of a drive, so that `C:x` is a place of its own here.
- Other programs that change the targets, the record or the store between two effects or two receives.
- Directories above a target, and names one of which is a prefix of another: an export whose parent is missing or is a file is a failed export here.
- `updated_at` in the record, log messages, and texts of errors.
- SPAKE2, HKDF, Argon2, blake3 and serde: parameters or equalities with the laws used.
- Wall-clock time: timeouts are faults; the 120 s idle bound is not stated, and one frame is read as a whole.
- A frame that is written in part: a write is atomic or the program stops.
- Machine integers: byte totals are taken to fit 64 bits and file counts 32 bits; where the code casts a count to 32 bits, the accounting lemmas reduce it.
- Mailboxes.Mailbox.Allocate: asks for draws that hit a free nameplate, since the code loops until they do.
- WordCodes.Generate: asks for draws with three different words, for the same reason.
- Prepare.PrepareSend: the standard library's sort is an insertion sort here, and the temporary tags that pin blobs are not modelled.
- Protocol: the two programs are steps on values, not classes, because the theorems are about all interleavings of both.
- Flows: the futures a loop selects from are a nondeterministic choice, so the priority among them is not modelled; the SPAKE2 exchange, the dial and the sender's acknowledgement are one choice each, and the channel delivers a fixed list of commands and is then closed. The download's own progress events are those of `Receive` and are not repeated.
- SessionApi: a call is one atomic step; the lock is in fact released before the command is sent, so two calls at once could swap their commands.
- The command-line sender before the connection (prepare, allocate, publish) and its cleanup: the same order of duties is proved for the graphical flow.
- The MQTT rendezvous: its one-shot claim is approximate by design and depends on the broker.
- The HTTP handlers, their counters and ticket checks, configuration, identity files, terminal and Flutter user interfaces, bridge code: I/O or easy members.
- `human_bytes`, speed and remaining time: formatting of floating-point numbers.
- Concurrent receives of one collection: a history is a sequence of receives.
