# Verified models of NomiFun Desktop

This project models the parts of NomiFun Desktop whose correctness is hardest to see by reading
them, and proves what they promise. `dafny verify dfyconfig.toml` checks everything.

Three groups of code are modelled.

1. **The Node.js distribution contract** (`Paths`, `FileTree`, `Links`, `Distribution`, `Decoder`,
   `Archive`, `Extraction`, `Validation`, `RoundTrip`, `Crowd`). An archive is decoded, entry by entry and
   in any order, into a sorted index and a file tree; a tree is later validated against an index. Decoding
   is proved independent of the order of the members and faithful to each of them, link resolution exact,
   validation a comparison with the extracted tree field by field, and decoding followed by validation a
   round trip up to an exact size condition.
2. **Shutdown, receipt and cleanup protocols** (`Framing`, `ExitReceipt`, `Controller`,
   `Termination`, `TerminationSteps`, `StaleTokens`, `Sessions`, `Listener`, `ListenerProgress`, `Ledger`,
   `ProcessCapture`). Each is a state with steps; a lock section or a main-loop closure is one step, and
   whatever the operating system answers is an input. The theorems are about every run: what no step
   breaks, and what can always still happen.
3. **Serialisers and parsers** (`Endian`, `IdentityStream`, `SourceTree`, `BuildIdentity`, `Wave`,
   `Multipart`, `FormText`, `Upload`, `Bridge`): an injective byte stream, an upload checker that
   accepts exactly the encoded uploads, and response event names that never clash.

Where the source changes state or loops, the model is a class or a method with a loop, proved
against a function on values; the theorems are lemmas about these functions. Digests, JSON, UTF-8
and the set of white-space characters are function parameters, so every result holds for any of
them. Some promises hold only under a condition, and that condition is proved exact: validation can
be trusted only for an index that lists ancestors (`TrustExactly`) and accepts what was decoded only
if its paths have few enough prefixes (`ExtractAndValidate`); frames survive every split into reads
only if they leave room for one read buffer (`RoomyExact`); the identity stream is unambiguous only
for tails that spell no file (`UnambiguousExactly`); header names are recognised only as quoted
strings on the disposition's own line (`RoleExact`); and response events stay apart until the
counter, a double, stops counting (`EventsClash`).

## Model

| member | source | states |
|---|---|---|
| Paths.PortableNames | crates/backend/nomifun-runtime/node_distribution_contract.rs:32-41 | an accepted path consists of normal, non-empty components without separators only |
| Paths.PortableKey | crates/backend/nomifun-runtime/node_distribution_contract.rs:32-41 | joining such components with '/' and parsing again gives the same components |
| Paths.PortableExact | crates/backend/nomifun-runtime/node_distribution_contract.rs:32-41 | a path is accepted exactly when it is non-empty, free of the forbidden characters, relative, does not begin with "." and has no ".." piece; its components are then its non-empty pieces other than "." |
| Paths.StripGivesKeys | crates/backend/nomifun-runtime/node_distribution_contract.rs:43-55 | what is left after removing the archive root is again a list of good components |
| Paths.StripExact | crates/backend/nomifun-runtime/node_distribution_contract.rs:43-55 | the written path of any list of good names, with any number of slashes behind it, is split into its first name as root and the rest as key |
| Paths.DescendantTest | crates/backend/nomifun-runtime/node_distribution_contract.rs:105-107 | the string test "starts with path and '/'" holds exactly for proper descendants by components |
| Paths.KeyOrder | crates/backend/nomifun-runtime/node_distribution_contract.rs:145-186 | iterating the ordered map yields each key once, strictly increasing in byte order of the joined path |
| Links.WalkStaysInside | crates/backend/nomifun-runtime/node_distribution_contract.rs:57-76 | a link target is accepted exactly when it has no root and never climbs above the distribution root at any step |
| Links.DestinationIsKey | crates/backend/nomifun-runtime/node_distribution_contract.rs:57-76 | an accepted destination is itself a well-formed key |
| Links.LinkDestination | crates/backend/nomifun-runtime/node_distribution_contract.rs:57-76 | the vector that is pushed and popped ends as the lexical destination, or fails exactly where that does; where it leads is the next two rows |
| Links.SymlinkLeads | crates/backend/nomifun-runtime/node_distribution_contract.rs:61-76 | a symbolic link in directory d whose target is j times ".." followed by good names leads to d without its last j names followed by these; it is refused exactly when j exceeds the depth of d or nothing is left |
| Links.HardlinkLeads | crates/backend/nomifun-runtime/node_distribution_contract.rs:61-76 | a hard link leads to the names of its target counted from the root, wherever it lies |
| Links.ReachesOne | crates/backend/nomifun-runtime/node_distribution_contract.rs:154-161 | a chain of links ends in at most one place |
| Links.Resolve | crates/backend/nomifun-runtime/node_distribution_contract.rs:154-161 | following links with a seen set terminates; it finds the end exactly when there is one, reports a cycle only for endless chains and absence only for chains that leave the index |
| Distribution.ParseGivesShape | crates/backend/nomifun-runtime/node_distribution_contract.rs:91-143 | every entry that passes the per-entry checks has a good key, a mode below 512 and a parsing target; what else it says is `Extraction.MemberListed` |
| Distribution.InsertsCommute | crates/backend/nomifun-runtime/node_distribution_contract.rs:91-143 | two entries in either order are both accepted with the same state or both rejected: the duplicate, ancestor, descendant, root, count and size checks are symmetric |
| Distribution.FeedPermutation | crates/backend/nomifun-runtime/node_distribution_contract.rs:91-143 | any permutation of a list of members gives the same state or the same rejection |
| Distribution.FeedExact | crates/backend/nomifun-runtime/node_distribution_contract.rs:91-143 | a list is accepted exactly when each member parses, all share one root, entries are pairwise compatible and within the limits; the index then holds exactly these entries and the byte count is the sum of their sizes |
| Distribution.FeedKeepsShape | crates/backend/nomifun-runtime/node_distribution_contract.rs:96-113 | after any accepted list every indexed proper ancestor of an indexed path is a directory, and the entry and byte limits hold |
| Decoding.CopyData | crates/backend/nomifun-runtime/node_distribution_contract.rs:118-130 | the copy loop delivers all content exactly when its length is the declared size |
| Decoding.PlaceLeaf | crates/backend/nomifun-runtime/node_distribution_contract.rs:114-135 | a file or link that the index checks admit can be created: its parents are or become directories and nothing is in its place |
| Decoding.MirrorsWellFormed | crates/backend/nomifun-runtime/node_distribution_contract.rs:147-175 | the extracted tree never has a node beneath a file or a link |
| Decoding.FinalSettles | crates/backend/nomifun-runtime/node_distribution_contract.rs:162-179 | settling changes hard links only, each to the size, digest and mode of the file at the end of its chain |
| Decoding.Decoder.AncestorsAllow | crates/backend/nomifun-runtime/node_distribution_contract.rs:99-104 | the loop over ancestors accepts exactly when each indexed proper ancestor is a directory |
| Decoding.Decoder.NothingBeneath | crates/backend/nomifun-runtime/node_distribution_contract.rs:105-107 | the scan of the index accepts exactly when no indexed path lies beneath the new one |
| Decoding.Decoder.Entry | crates/backend/nomifun-runtime/node_distribution_contract.rs:91-143 | the step succeeds exactly when the insertion does, leaves that state, and keeps the index a tree that the output mirrors, with the data of every file so far behind its key |
| Decoding.Decoder.Member | crates/backend/nomifun-runtime/node_distribution_contract.rs:194-205 | one tar member, hard links stripped of the root first, is one step of the order-free feed |
| Decoding.Decoder.SettleLinks | crates/backend/nomifun-runtime/node_distribution_contract.rs:147-175 | links are created last and in any order; this succeeds exactly when every chain ends in a present entry that is no link, a file for hard links |
| Decoding.Decoder.SetModes | crates/backend/nomifun-runtime/node_distribution_contract.rs:180-184 | after the last pass every directory has the mode of its entry |
| Decoding.Decoder.Finish | crates/backend/nomifun-runtime/node_distribution_contract.rs:145-186 | succeeds exactly when all links resolve; returns the settled entries in key order and leaves the complete tree |
| Archives.FeedTar | crates/backend/nomifun-runtime/node_distribution_contract.rs:192-206 | the tar loop is the order-free feed, rejecting more members than the limit, and keeps every file member's data under its key |
| Archives.FeedZip | crates/backend/nomifun-runtime/node_distribution_contract.rs:207-224 | the zip loop is the order-free feed of the translated members, and keeps every file member's data under its key |
| Archives.ZipForms | crates/backend/nomifun-runtime/node_distribution_contract.rs:211-220 | a zip member is a directory, symbolic link or file by its name and by the file type digits of its mode, for every value of the other digits; exactly the types 0, 4, 8 and 10 are known, and a link needs a short text |
| Archives.Decode | crates/backend/nomifun-runtime/node_distribution_contract.rs:189-228 | decoding returns the specified index and, when extracting, a tree that is complete for it, whose files hold the very data of the file members and whose hard links hold that of the file at the end of their chain |
| Archives.DecodePermutation | crates/backend/nomifun-runtime/node_distribution_contract.rs:189-228 | archives with the same members in any order decode to the identical index, hence to the same identity, or both fail |
| Extraction.MemberListed | crates/backend/nomifun-runtime/node_distribution_contract.rs:91-143 | every member below the root is listed under its own key with its kind, its target (a hard link's below the same root), a mode that differs from the header's by a multiple of 512 (777 octal for a symbolic link) and, for a file, the length and digest of its data; a hard link with those of the file at the end of its chain |
| Extraction.ListedMember | crates/backend/nomifun-runtime/node_distribution_contract.rs:91-143 | every listed entry comes from such a member |
| Extraction.MemberLeavesNode | crates/backend/nomifun-runtime/node_distribution_contract.rs:114-184 | in a tree as decoding leaves it every member has its node: a file with that very data and mode, a directory with that mode, a symbolic link with that target, a hard link the same node as its file |
| Extraction.Extract | crates/backend/nomifun-runtime/node_distribution_contract.rs:189-228 | decoding into an output directory establishes both of every member of every accepted archive |
| Validation.Walk | crates/backend/nomifun-runtime/node_distribution_contract.rs:253-264 | the worklist walk accepts exactly when no unexpected node exists at any depth and there are no more nodes than the limit |
| Validation.ReadDir | crates/backend/nomifun-runtime/node_distribution_contract.rs:257-263 | listing one directory in any order counts its children, rejects an unexpected one and queues each subdirectory once |
| Validation.Expect | crates/backend/nomifun-runtime/node_distribution_contract.rs:245-252 | the expected set is exactly the listed paths, their ancestors and the metadata files |
| Validation.MetaNames | crates/backend/nomifun-runtime/node_distribution_contract.rs:252 | a metadata file name is expected under its own components |
| Validation.CheckEntries | crates/backend/nomifun-runtime/node_distribution_contract.rs:265-291 | stops at the first entry that does not hold: true without one, an error exactly when its path cannot be looked up, false otherwise; what holding means, field by field, is `RoundTrip.PassesLike` |
| Validation.Validate | crates/backend/nomifun-runtime/node_distribution_contract.rs:242-292 | true exactly for a root directory whose tree matches the index; each error exactly in its own case |
| RoundTrip.ValidateExact | crates/backend/nomifun-runtime/node_distribution_contract.rs:242-292 | for an index that lists its ancestor directories, validation is true exactly when the tree's own nodes match the listed ones plus metadata, none reached through a link |
| RoundTrip.PassesLike | crates/backend/nomifun-runtime/node_distribution_contract.rs:242-292 | any tree passes against the index of a decoded tree exactly when it has no other nodes than that tree and the metadata files, few enough, and shows at every listed path a node of the same kind and the same length, hash, permission bits or link target |
| RoundTrip.OneChange | crates/backend/nomifun-runtime/node_distribution_contract.rs:265-291 | replacing one listed node by one that differs in any of these always fails |
| RoundTrip.ValidateCopy | crates/backend/nomifun-runtime/node_distribution_contract.rs:189-292 | so validating any tree with the index of any accepted archive compares it with what extracting the archive writes |
| RoundTrip.UnlistedAncestor | crates/backend/nomifun-runtime/node_distribution_contract.rs:242-292 | a concrete index without listed ancestors for which a tree holding only a symbolic link passes |
| RoundTrip.TrustExactly | crates/backend/nomifun-runtime/node_distribution_contract.rs:242-292 | for an index that some tree really satisfies: every tree that passes satisfies all entries by its own nodes if and only if the index lists the ancestors of its paths as directories |
| RoundTrip.CompleteMatches | crates/backend/nomifun-runtime/node_distribution_contract.rs:145-186 | the tree that decoding leaves matches its index exactly when its node count, implicit directories included, is within the walk's limit |
| RoundTrip.ExtractAndValidate | crates/backend/nomifun-runtime/node_distribution_contract.rs:189-292 | decoding and then validating with the returned index gives true exactly when the archive's paths have at most that many distinct non-empty prefixes |
| Crowds.CrowdNeverValidates | crates/backend/nomifun-runtime/node_distribution_contract.rs:189-292 | files in enough directories of their own, which are no members, decode within every limit and exceed that count |
| Framing.Reader.Read | apps/desktop/src/macos_development_launch.rs:146-174 | the buffer loop returns the first complete line, waits, or fails, leaving the rest for the next call |
| Framing.Reader.ReadAll | apps/desktop/src/macos_development_launch.rs:146-174 | successive calls, carrying the buffer over, return exactly the drained frames |
| Framing.DrainsOnlyPrefix | apps/desktop/src/macos_development_launch.rs:136-174 | whatever the reads, waits and deadlines, only a prefix of the written frames is ever returned, in order |
| Framing.DrainsExactly | apps/desktop/src/macos_development_launch.rs:136-174 | frames that leave room for a read buffer are all returned for every split into reads |
| Framing.LosingSplit | apps/desktop/src/macos_development_launch.rs:146-174 | a larger frame with enough bytes behind it is lost by some split into reads |
| Framing.RoomyExact | apps/desktop/src/macos_development_launch.rs:136-174 | frames that can be written all come back for every split into reads exactly when they leave that room |
| Framing.Transfer | apps/desktop/src/macos_development_launch.rs:136-174 | writing roomy frames and reading them through any such script gives them back |
| ExitReceipts.ExitReporter.ReportExitOnce | apps/desktop/src/macos_development_launch.rs:262-290 | one guarded call is one step of the register |
| ExitReceipts.FirstCallDecides | apps/desktop/src/macos_development_launch.rs:229-290 | over any calls and write failures the first call fixes the delivered triple, or fails for ever |
| ExitReceipts.AnswersAgree | apps/desktop/src/macos_development_launch.rs:262-290 | a call succeeds exactly when the first one was delivered and it repeats its triple |
| ExitReceipts.OneAttempt | apps/desktop/src/macos_development_launch.rs:229-290 | at most one frame is attempted, of the first call and within its scope; a delivered triple is that frame |
| ExitReceipts.StartedByFirstCall | apps/desktop/src/macos_development_launch.rs:292-294 | with an owner the terminal attempt counts as started exactly from the first call on |
| Controllers.AwaitExit | apps/desktop/src/macos_development_launch.rs:423-461 | the exit loop computes the specified ending for every order of bytes, end of stream and exit |
| Controllers.SuccessMeans | apps/desktop/src/macos_development_launch.rs:300-305 | code 0 is returned only if the first complete frame is an accepted receipt of code 0 with verified cleanup and the kernel reported 0 without a signal; restart only as that receipt asked, under the desktop scope |
| Controllers.ReceiptInTime | apps/desktop/src/macos_development_launch.rs:423-461 | with the process seen running k times before its plain zero exit, a verified receipt succeeds exactly when at most k + 1 polls of the socket come back empty before it is complete; the last read is the one after the exit |
| Controllers.ClosedPeer | apps/desktop/src/macos_development_launch.rs:423-461 | a peer that closes without a receipt makes the launch return 1, or fail with an error exactly when it is the last read, after the exit, that meets the end |
| Controllers.EndToEnd | apps/desktop/src/macos_development_launch.rs:225-461 | with the reporter at the other end, code 0 means that its first call reported 0 with verified cleanup under the same nonce, and a restart exactly as reported |
| Controllers.EndToEndSucceeds | apps/desktop/src/macos_development_launch.rs:225-461 | the other way round a first report of 0 with verified cleanup, asking for a restart only in the desktop scope, is a success of the same launch whenever its frame arrives in time |
| Termination.TokenRegister.AdmitRequest | apps/desktop/src/macos_appkit_termination.rs:57-67 | admission issues a fresh token, reports a pending one, or refuses when tokens are used up |
| Termination.TokenRegister.QueueOnce | apps/desktop/src/macos_appkit_termination.rs:68-78 | a completion is queued once for a pending token |
| Termination.TokenRegister.ConsumeToken | apps/desktop/src/macos_appkit_termination.rs:79-87 | only the current token is consumed |
| Termination.TokenRegister.CompletionDispatchFailed | apps/desktop/src/macos_appkit_termination.rs:88-93 | only the current token is requeued |
| Termination.DecisionIsSafe | apps/desktop/src/macos_appkit_termination.rs:361-372 | a native yes exactly for verified cleanup, no restart, code 0 and a delivered receipt; other exits carry the failure code, or 1 |
| Termination.RunKeeps | apps/desktop/src/macos_appkit_termination.rs:260-483 | every interleaving of requests, completions, dispatch failures, deadlines and cancellations keeps the invariant that the next rows spell out; what each step does is in `TerminationSteps` |
| Termination.WaitsExactlyWhilePending | apps/desktop/src/macos_appkit_termination.rs:301-356 | AppKit waits exactly while a token is pending, for that token |
| Termination.TokensIncrease | apps/desktop/src/macos_appkit_termination.rs:57-67 | deferred requests carry strictly increasing tokens that never wrap |
| Termination.RepliesOnce | apps/desktop/src/macos_appkit_termination.rs:260-299 | each reply answers the request then outstanding, by its own token, and no request twice |
| StaleTokens.StaleTokenIsInert | apps/desktop/src/macos_appkit_termination.rs:425-483 | an issued token that is no longer pending never becomes pending again, and however long after its completion or deadline changes neither register, waiting, replies nor reporter |
| Termination.YesNeedsReceipt | apps/desktop/src/macos_appkit_termination.rs:455-476 | with a launch owner a yes implies verified cleanup, no restart, the delivered receipt (0, true, false) and that no other was written; the converse is `TerminationSteps.FinishAnswers` |
| TerminationSteps.RequestDeferred | apps/desktop/src/macos_appkit_termination.rs:301-356 | in any run a request is deferred exactly when there is a recipient, no restart, no pending token and a started deadline; it gets a token never used before and nothing is answered |
| TerminationSteps.CompletionQueued | apps/desktop/src/macos_appkit_termination.rs:68-78 | a completion for a pending token is queued, and once only |
| TerminationSteps.CompletionDispatched | apps/desktop/src/macos_appkit_termination.rs:388-423 | a queued completion is posted, or else its token may be queued again |
| TerminationSteps.FinishAnswers | apps/desktop/src/macos_appkit_termination.rs:425-483 | a posted completion of the pending token adds exactly one reply, to the request AppKit waits on; it is yes if and only if cleanup is verified, no restart is requested, the code is 0, and there is no launch owner or the clean receipt is delivered |
| TerminationSteps.FirstReportDelivers | apps/desktop/src/macos_appkit_termination.rs:455-476 | before any other report such a completion answers yes exactly when its receipt is written |
| TerminationSteps.GivingUpAnswersNo | apps/desktop/src/macos_appkit_termination.rs:260-299 | a deadline or a cancellation answers the pending request no and frees its token |
| TerminationSteps.WholeRequest | apps/desktop/src/macos_appkit_termination.rs:301-483 | from any idle state request, completion, dispatch and closure give one new request and its one answer |
| Termination.ReporterIsRun | apps/desktop/src/macos_appkit_termination.rs:388-483 | the reporter inside any run is a plain run of reporter calls, so its laws apply |
| Sessions.SystemExecutionSession.Disconnect | apps/desktop/macos-system-execution/Helper.swift:78-85 | the lock section registers the caller, hands out an existing receipt or starts the job once |
| Sessions.SystemExecutionSession.StoreReceipt | apps/desktop/macos-system-execution/Helper.swift:91-92 | the receipt is published and all waiters are taken out together |
| Sessions.StepConserves | apps/desktop/macos-system-execution/Helper.swift:78-94 | every registered completion stays waiting, due or called, with its multiplicity |
| Sessions.RunKeeps | apps/desktop/macos-system-execution/Helper.swift:78-94 | the invariant holds after any interleaving of callers, native shutdown and callbacks |
| Sessions.AllServedOnce | apps/desktop/macos-system-execution/Helper.swift:78-94 | one native shutdown, one receipt for all, nobody called more often than registered, everybody called once nothing is due |
| Sessions.CanServe | apps/desktop/macos-system-execution/Helper.swift:78-94 | from every state with a caller some continuation gives everyone the receipt after one native shutdown: nobody waits in vain |
| Listeners.SystemExecutionListener.Accept | apps/desktop/macos-system-execution/Helper.swift:111-114 | the second lock section admits exactly when not stopping |
| Listeners.SystemExecutionListener.Forget | apps/desktop/macos-system-execution/Helper.swift:118-126 | only an exact receipt removes the session, and only that one |
| Listeners.SystemExecutionListener.BeginShutdown | apps/desktop/macos-system-execution/Helper.swift:134-135 | stopping is set and the active sessions are taken in one step |
| Listeners.DeliverPartKeeps | apps/desktop/macos-system-execution/Helper.swift:139-145 | a session's callback to a waiting shutdown is counted once and brings its receipt |
| Listeners.RunKeeps | apps/desktop/macos-system-execution/Helper.swift:97-151 | the invariant holds after any interleaving of admissions, disconnects, callbacks and concurrent shutdowns |
| Listeners.ExactMeansAll | apps/desktop/macos-system-execution/Helper.swift:134-151 | a finished shutdown reports exact if and only if every session ever admitted has an exact receipt |
| Listeners.NoneAdmittedAfterStopping | apps/desktop/macos-system-execution/Helper.swift:105-114 | once stopping, no continuation admits a session or starts again |
| ListenerProgress.Admitted | apps/desktop/macos-system-execution/Helper.swift:105-114 | a fresh connection is admitted while not stopping |
| ListenerProgress.RefusedBetween | apps/desktop/macos-system-execution/Helper.swift:105-114 | a shutdown that begins between the two checks keeps it out |
| ListenerProgress.RemovedExactly | apps/desktop/macos-system-execution/Helper.swift:118-126 | a handler's completion removes its session exactly when the receipt is exact |
| ListenerProgress.CanReport | apps/desktop/macos-system-execution/Helper.swift:134-151 | from every state of every run each begun shutdown can still report: no order of steps blocks it |
| Ledgers.BoundKeeps | apps/computer-worker/src/private_worker.rs:314-349 | binding keeps the ledger exact if and only if its handle is not live |
| Ledgers.HandleKeeps | apps/computer-worker/src/private_worker.rs:235-386 | every other request keeps it; sessions are created by successful binding only and ended ones stay ended |
| Ledgers.ShutdownExact | apps/computer-worker/src/private_worker.rs:364-372 | exactly the sessions that failed to end remain; success exactly when none fails and the driver stops, so the map is then empty |
| Ledgers.HandleExact | apps/computer-worker/src/private_worker.rs:278-408 | after any request the live handles are the old ones without those for which it reports a successful end, plus the bound one; ended and closed grow by exactly the former's sessions |
| Ledgers.AnswerExact | apps/computer-worker/src/private_worker.rs:278-386 | a close is answered with success exactly when the handle is not live afterwards, a binding exactly when its session was created and started, a shutdown exactly when nothing is left and the driver stops |
| Ledgers.Worker.CloseSession | apps/computer-worker/src/private_worker.rs:388-408 | an unknown handle is fine, a failure changes nothing, a success closes and removes |
| Ledgers.Worker.CloseSessions | apps/computer-worker/src/private_worker.rs:410-421 | in any order of the map all that can end are ended and closed once; no failure exactly when none remain |
| Ledgers.Worker.HandleRequest | apps/computer-worker/src/private_worker.rs:278-386 | each request has the ledger and response of the specification that `HandleExact` and `AnswerExact` describe from outside |
| Ledgers.LoopKeeps | apps/computer-worker/src/private_worker.rs:177-226 | at every point of every run the map holds exactly the sessions created and not yet ended, none closed twice |
| Ledgers.EndedExactly | apps/computer-worker/src/private_worker.rs:177-226 | over a run the ended and the closed sessions are those for which some handled line reports a successful end |
| Ledgers.LiveExactly | apps/computer-worker/src/private_worker.rs:177-226 | over a run the live handles are those bound by some handled line and not reported ended by a later one |
| Ledgers.Worker.Serve | apps/computer-worker/src/private_worker.rs:177-233 | a clean exit leaves no session and has closed every one; it happens exactly when the final cleanup and the driver succeed |
| Ledgers.StopsBoundExactly | apps/computer-worker/src/private_worker.rs:178-226 | in every run the loop stops with sessions bound exactly because of a read error, or of a tool or query answer that itself says shutdown |
| Ledgers.ToolStopsLoop | apps/computer-worker/src/private_worker.rs:215-225 | such a run exists; its sessions are left to the final cleanup |
| ProcessCapture.SameProcess | scripts/validation/global-os-linux-x11-session.py:213-232 | equal start times before and after pin the process at any time between |
| ProcessCapture.Pinned | scripts/validation/global-os-linux-x11-session.py:171-176 | session, owner and descriptor, read at four different times, belong to one process |
| ProcessCapture.GoneForGood | scripts/validation/global-os-linux-x11-session.py:259-268 | a process seen and then not seen never returns |
| ProcessCapture.PrivateBusServices.ReadIdentity | scripts/validation/global-os-linux-x11-session.py:171-176 | session and start time are those of one moment, the owner that of a later one |
| ProcessCapture.PrivateBusServices.Adopt | scripts/validation/global-os-linux-x11-session.py:221-232 | a descriptor is kept only for the recorded process in our session and uid, and closed otherwise; without failing calls it is kept for a process that stays ours |
| ProcessCapture.PrivateBusServices.Capture | scripts/validation/global-os-linux-x11-session.py:197-236 | the walk terminates, keeps every descriptor right, leaks none, never captures the bus itself and signals nothing; without failing calls every process that is listed meanwhile and stays ours is captured |
| ProcessCapture.PrivateBusServices.Attempt | scripts/validation/global-os-linux-x11-session.py:248-268 | a signal goes to a captured process only, and to each that is not reported terminated and lives on; success means that it can never be seen again |
| ProcessCapture.PrivateBusServices.Stop | scripts/validation/global-os-linux-x11-session.py:238-280 | only processes captured as ours are signalled, each gets one result, and reaped is claimed truthfully; each kept before that lives on was signalled or reported terminated |
| Endian.ValueOfLittleEndian | crates/shared/nomi-system-execution/build.rs:20-22 | reading back a little-endian length gives it |
| Endian.LittleEndianOfValue | apps/desktop/examples/keyboard_native_validation.rs:203-204 | a field read as a number is its little-endian encoding |
| IdentityStream.Injective | crates/shared/nomi-system-execution/build.rs:14-25 | equal streams come from equal lists of labels and contents, of whatever number, and equal tails, for tails that do not themselves begin with a length-prefixed file |
| IdentityStream.UnambiguousExactly | crates/shared/nomi-system-execution/build.rs:14-80 | the framing is unambiguous for a tail if and only if the tail spells no file |
| IdentityStream.PrintableSpellsNothing | crates/shared/nomi-system-execution/build.rs:79-80 | a printable tail, as target and version are, spells none: the eighth byte of a length is below 0x20 |
| SourceTree.SortNames | crates/shared/nomi-system-execution/build.rs:32 | sorting in place leaves the names in the one increasing order of their set |
| BuildIdentity.InventoryExact | crates/shared/nomi-system-execution/build.rs:26-43 | exactly the files with a fingerprinted extension at any depth are fed |
| BuildIdentity.InventoryOnce | crates/shared/nomi-system-execution/build.rs:26-43 | no file is fed twice |
| BuildIdentity.MatchingNames | crates/shared/nomi-system-execution/build.rs:34-40 | a file is fingerprinted exactly when its last dot has a name before it and rs, swift, toml or plist after it |
| BuildIdentity.Hasher.HashFile | crates/shared/nomi-system-execution/build.rs:14-25 | the four updates append one length-prefixed item |
| BuildIdentity.Hasher.HashSources | crates/shared/nomi-system-execution/build.rs:26-43 | for every listing order the stream grows by the inventory, a function of the tree |
| BuildIdentity.Identify | crates/shared/nomi-system-execution/build.rs:4-83 | the identity is the digest of the planned inputs and the tail; panics exactly when an input is missing |
| BuildIdentity.InputsExact | crates/shared/nomi-system-execution/build.rs:44-78 | the inputs are exactly the repository files that the fixed lists and source folders cover |
| BuildIdentity.StreamDeterminesInputs | crates/shared/nomi-system-execution/build.rs:44-80 | equal streams mean equal inputs and equal target and version written together |
| BuildIdentity.InputsDetermineFiles | crates/shared/nomi-system-execution/build.rs:44-80 | equal inputs mean equal files at every covered path |
| Wave.ChunksOfEncoded | apps/desktop/examples/keyboard_native_validation.rs:209-247 | well-formed chunks are read back from their encoding |
| Wave.EncodedChunks | apps/desktop/examples/keyboard_native_validation.rs:209-247 | chunks that were read tile the bytes exactly |
| Wave.TallyExact | apps/desktop/examples/keyboard_native_validation.rs:220-245 | the running checks pass exactly with one good format chunk and one data chunk of 2n bytes |
| Wave.FormatBytes | apps/desktop/examples/keyboard_native_validation.rs:220-236 | a format chunk is good exactly when it begins with the sixteen bytes of 16 kHz mono PCM16 |
| Wave.Samples | apps/desktop/examples/keyboard_native_validation.rs:199-249 | the cursor loop, which stays inside the file, computes the specified count |
| Wave.CountedExact | apps/desktop/examples/keyboard_native_validation.rs:199-249 | n samples exactly for a file whose header and chunks tile it and pass the checks |
| Wave.RiffFileIsWave | apps/desktop/examples/keyboard_native_validation.rs:199-249 | every list of such chunks written behind a RIFF header is such a file |
| Multipart.FindBytes | apps/desktop/examples/keyboard_native_validation.rs:115-117 | the first occurrence, or none exactly when it is absent |
| Multipart.ParseOfEncoded | apps/desktop/examples/keyboard_native_validation.rs:148-193 | encoded parts, of any number and with any epilogue, are read back |
| Multipart.EncodedParse | apps/desktop/examples/keyboard_native_validation.rs:148-193 | what is read as parts is the encoding of these parts |
| Multipart.CollectExact | apps/desktop/examples/keyboard_native_validation.rs:181-191 | collection succeeds exactly with acceptable headers, one file and one model field |
| Multipart.Gather | apps/desktop/examples/keyboard_native_validation.rs:143-193 | the loop terminates, slices inside the body and computes the collected fields |
| Multipart.UploadExact | apps/desktop/examples/keyboard_native_validation.rs:143-193 | the two fields are found exactly in a body made of such parts |
| Multipart.DataGood | apps/desktop/examples/keyboard_native_validation.rs:166-169 | data ends where it was meant to exactly when the delimiter does not occur in it |
| Multipart.HeaderGood | apps/desktop/examples/keyboard_native_validation.rs:162-165 | a header ends where it was meant to exactly when it has no blank line and no line break at its end |
| FormText.BoundaryExact | apps/desktop/examples/keyboard_native_validation.rs:122-142 | a boundary is taken exactly from the first lower-case boundary parameter, quoted or not, behind the media type in any case |
| FormText.RoleExact | apps/desktop/examples/keyboard_native_validation.rs:170-191 | a header is refused exactly without a disposition line, and read as file or model exactly when the first such line, in any case, has as its first parameter opening with name= and a quote that quoted name |
| FormText.NamedPart | apps/desktop/examples/keyboard_native_validation.rs:170-191 | so a header with such a line anywhere before other dispositions, and the quoted name behind any parameters, is classified by that name |
| FormText.TokenName | apps/desktop/examples/keyboard_native_validation.rs:177-180 | a name written as a bare token, though section 2 of RFC 2183 allows it, is not recognised |
| FormText.FoldedName | apps/desktop/examples/keyboard_native_validation.rs:170-180 | nor is a name on a folded continuation line |
| FormText.BoundaryFound | apps/desktop/examples/keyboard_native_validation.rs:122-142 | so every content type with the boundary quoted or unquoted, among other parameters and any white space, yields it |
| Uploads.UploadedSamples | apps/desktop/examples/keyboard_native_validation.rs:121-250 | the whole check computes the specified result, errors included |
| Uploads.AcceptedExact | apps/desktop/examples/keyboard_native_validation.rs:121-250 | n is reported exactly for a body that carries one file, a WAVE file of n samples, and the expected model |
| Uploads.FormAccepted | apps/desktop/examples/keyboard_native_validation.rs:121-250 | a form in any encoding that decodes back, sent with preamble and padding absent under any content type that declares its boundary, is accepted with n if and only if every field has a disposition, one is read as the file and is a WAVE file of n samples, and one is read as the expected model |
| Bridge.RandomSuffix | ui/src/platform/bridge.ts:64-70 | the loop appends six base-36 digits, none of them an underscore |
| Bridge.EventInjective | ui/src/platform/bridge.ts:63-74 | a response event name determines name, counter and suffix although nothing delimits the first two |
| Bridge.EventsClash | ui/src/platform/bridge.ts:62-74 | two calls of a run share an event exactly when both came after 2^53 calls with the same name and suffix |
| Bridge.ClashHappens | ui/src/platform/bridge.ts:62-63 | beyond that a repeated name and suffix do clash |
| Bridge.RunKeeps | ui/src/platform/bridge.ts:72-85 | in every run a call is pending exactly while its own single listener is registered |
| Bridge.ReplySettlesOne | ui/src/platform/bridge.ts:75-77 | up to 2^53 + 1 calls a reply settles the one call it is for and removes its listener only |
| Bridge.InvokeSettles | ui/src/platform/bridge.ts:72-85 | a new call is pending under the event of its turn; its reply resolves it alone, a failed send rejects it alone |
| Bridge.EventBridge.Begin | ui/src/platform/bridge.ts:72-77 | the listener is registered under the new id before anything is sent |
| Bridge.EventBridge.Emit | ui/src/platform/bridge.ts:94-96 | delivering an event removes and resolves its one-shot listeners |
| Bridge.EventBridge.Abort | ui/src/platform/bridge.ts:80-83 | a failed send removes the listener and rejects unless a reply came first |

## Left out

- Cancellation callbacks, mutex poisoning and I/O errors other than those modelled as outcomes.
- Windows file modes and paths, case-insensitive file systems, and permission enforcement when reading extracted files; modes are data.
- The digest behind `identity`, and the inside of gzip, tar, zip, JSON and UTF-8: function parameters or already parsed members.
- Real clocks: a deadline is a step that may come at any time; only the bounded waits of the process cleanup use a clock that advances.
- The exit coordinator, AppKit, XPC, D-Bus and native driver calls: their results are inputs. A second termination request during a restart is assumed not to change what AppKit waits for.
- Restart handoff (apps/desktop/src/macos_lifecycle.rs), updater, companion window and web entry points: their decisions are single branches or belong to the exit coordinator, which is not part of this model.
- Key reuse in the listener: connection keys are taken to be fresh, as an object identifier is while the object lives.
- The initialization exchange of the computer worker, before any session can exist, and its screen-capture request.
- Unreadable directories inside the source tree and symbolic links there: the build script's view is a finite tree; file names are Unicode.
- Listeners that other code registers on the hub: independent of the calls, they are neither added nor removed by them.
- Uploads.FormAccepted: speaks of bodies without preamble and transport padding; the code rejects those, which section 5.1.1 of RFC 2046 allows.
- Error texts: failures are told apart only where the source acts on the difference.
- ExitReceipts.ExitReporter.ReportExitOnce: the lock around the call is not modelled, calls are one after the other.
- Ledgers.Worker.CloseSessions: which of several failures is reported first is not stated, it depends on the map's order.
- ProcessCapture.PrivateBusServices.Capture: which children a listing returns is arbitrary, so completeness is claimed only for listed processes.
