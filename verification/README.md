# kyris, modelled and proved in Dafny

kyris installs itself into the configuration files of coding agents, relays their MCP
traffic through a policy check, holds calls for human approval, and meters what models
cost.  This project models the parts of it that hold state and proves what they keep:

* **Reversible configuration edits** (`ConfigTree`, `Patch`, `Document`, `Diff`, `PatchLaws`,
  `PatchOrder`, `PatchUserEdits`, `Manifest`, `ManifestLaws`, `ManifestComponents`,
  `ManifestAnyOrder`, `ManifestHistory`, `ManifestUninstall`, `ManifestRewrites`,
  `ManifestWitness`).  Documents are value trees; one model serves JSON and TOML, whose two
  patch engines are the same algorithm.  `Diff` and `Document` compute with the program's
  loops and recursion; what they compute is stated by `IsDiff` (which changes a diff records)
  and `Undo` (what one op does to the slot it addresses).  The laws are about those two.
  A map yields its keys in no particular order here, so every statement holds for any order.
* **The MCP relay**: framing (`Framing`, `FrameReader`, `Utf8Text`, `TextLines`, `HeaderFrames`,
  `JsonFrames`, `ContentLengthFrames`) and the three tasks with their two bounded channels
  (`Relay`, `RelayProgress`, `RelayBackpressure`), as a state machine in which any enabled
  task may step, and any may fail.  `Utf8Text`, `TextLines` and `HeaderFrames` say what text,
  lines and frames are without the reader, by printing them, and read them back with it.
* **The approval store** (`Pending`, `PendingEffects`, `PendingLaws`, `PendingAgreement`).  Each hold has a
  number, and the sending half of its one-shot channel is named by the number.  Completing a
  claim is two steps, as in the program: the answer is sent before the lock is taken.
* **The timeline** (`Lexicographic`, `Timeline`, `TimelineLaws`, `Sums`, `Ranking`, `TimelineStats`,
  `TimelineRows`).
* **Calendar arithmetic** (`Calendar`, `Timestamps`, `TimestampText`), **server-sent event lines**
  (`Sse`) and **the runaway-token breaker** (`Breaker`).

`Options` and `Sequences` hold what several of these share.

    dafny verify dfyconfig.toml

## Where the code does not do what it seems to promise

Each of these is a statement in the model, with a history or an input where it fails and the
condition under which it does not.

* While one component writes a file, undo is exact unless some write equals the pre-install
  content of a file that already existed: the entry then becomes `Created`, stays so, and
  undo deletes the file (`ManifestLaws.MultiWriteReversal`,
  `ManifestLaws.WriteBackThenUndoDeletes`, `ManifestComponents.RestorePathUndoesAllComponents`).
* A component that writes a file again after another component has edited inside what the
  first one added can leave undo with an empty object the user never had, although the
  footprints recorded in the end do not meet (`ManifestWitness.RewriteLosesTheObject`).
  While footprints do not meet before and after each write, no such thing happens, in any
  history (`ManifestHistory.HistoryKeepsOriginal`); for a single rewrite
  `ManifestRewrites.RewriteExactly` has the exact condition, and
  `ManifestRewrites.AdditionInside` has it in terms of what is in the object.
* When several components edit a file that kyris created, it is removed again exactly when
  the component that created it is taken off last; in any other order an empty document
  stays (`ManifestHistory.ComponentsOffInAnyOrder`, `ManifestWitness.CreatorFirstLeavesAFile`).
* If the user adds to a file that kyris made and another component then removes what the user
  added, taking off the component that made the file can delete it, and the user's content is
  lost (`ManifestWitness.UsersContentIsLost`); where no component removes anything, it is not
  (`ManifestHistory.HistoryKeepsOriginal`).
* If the user deletes a managed file and kyris writes it again, undo no longer leaves it
  deleted, except where what is written is what the document would be without kyris, or
  where kyris made the file and nothing would be in it without kyris
  (`ManifestLaws.RewriteInvisibleToUndo`).
* A change of the whole document (a root that is not an object) is recorded with an empty
  path, which undo refuses (`PatchLaws.RoundTrip`).
* The relay's comment says that other traffic is never blocked behind a pending decision.
  It is blocked behind the tenth undecided tools/call, and only then
  (`RelayProgress.PingWaitsBehindTenCalls`, `RelayProgress.UngovernedFlowsUpToTen`,
  `RelayProgress.HeldUpExactlyAtTen`).
* Giving back a claim whose id has been held again since, and is still to be decided, hands
  the earlier requester's channel to the later request; this is the only way in which an
  answer can be misrouted, and after it one always can
  (`PendingAgreement.RoutedUnlessStale`, `PendingAgreement.ApprovedThroughOwnHold`,
  `PendingAgreement.StaleAbandonFromEmpty`).
* After a timeout, a cancellation or a second hold of an id that is being decided, the
  record disagrees with what the requester is told as soon as the decision is completed;
  after any other step no completion makes them disagree (`PendingAgreement.CalmIsNeeded`,
  `PendingAgreement.CompletionDisagrees`, `PendingAgreement.TimeoutFromEmpty`).
* With repeated trace ids the join may carry a record several times or not at all; records
  are conserved exactly when they pair off with events (`TimelineLaws.JoinConserves`,
  `TimelineLaws.SharedRecordCountsTwice`, `TimelineLaws.EarlierRecordIsLost`).
* Timestamp strings sort in time order among years with the same number of digits, so
  through the year 9999, but not across the step to the year 10000
  (`Timestamps.StringsSortExactly`, `Timestamps.Year10000SortsFirst`).
* A session with a cap of zero or less is still tripped after a reset
  (`Breaker.TrippedAfterReset`, `Breaker.TrippedAfterOneReset`).

## Model

| member | source | states |
|---|---|---|
| Diff.Compute | cli/src/json_patch_ops.rs:33-37 | the ops are exactly the recorded changes between the two trees, each once, whatever order the maps yield their keys in |
| Diff.ComputeBelow | cli/src/json_patch_ops.rs:39-71 | the recursion appends to the accumulator exactly the changes below the prefix: objects compared key by key, anything else replaced whole |
| Diff.CompareNewKeys | cli/src/toml_patch.rs:55-87 | the first loop, over the new keys, finds the changes under every key of the new object |
| Diff.AppendRemovals | cli/src/json_patch_ops.rs:64-70 | the second loop completes the diff with one Remove per key that is gone |
| Patch.SetAtPathRestores | cli/src/json_patch_ops.rs:168-183 | the write from the root is refused exactly when a value that is not an object stands above the path, and otherwise has its effect at the path only |
| Patch.RemoveAtPathDrops | cli/src/json_patch_ops.rs:160-166 | the removal from the root never fails on a non-empty path and clears exactly that slot, leaving missing or blocked parents alone |
| Patch.RefusalNames | cli/src/json_patch_ops.rs:132-183 | a refused write names its reason: the empty path, the root that is not an object, or the first segment at which something else than an object stands |
| Patch.RemovalRefused | cli/src/json_patch_ops.rs:160-166 | a removal is refused on the empty path and on no other |
| Document.Doc.UnapplyAdd | cli/src/json_patch_ops.rs:97-116 | removing an added object key by key from the root, in any key order, is one local Strip: only added keys go, and the object goes only if nothing is left in it |
| Document.Doc.UnapplyOne | cli/src/json_patch_ops.rs:79-92 | one op is undone where it was recorded, or refused with its reason and the tree unchanged |
| Document.Doc.Unapply | cli/src/toml_patch.rs:98-116 | ops are undone last first, and the warnings are exactly those of the refused ones |
| PatchLaws.StripSelf | cli/src/json_patch_ops.rs:97-116 | taking an added value out of itself leaves nothing, nested and empty objects included |
| PatchLaws.SlotRoundTrip | cli/src/json_patch_ops.rs:33-95 | at any slot, undoing a diff on the value it led to gives the old value without a refusal, in whatever order the ops were recorded |
| PatchLaws.RoundTrip | cli/src/json_patch_ops.rs:33-95 | on whole documents, undo gives the old one back without a warning if and only if both roots are objects or nothing changed |
| PatchOrder.DiffIsSeparate | cli/src/json_patch_ops.rs:39-71 | no path of a diff lies on or below another |
| PatchOrder.AgreementIsApart | cli/src/json_patch_ops.rs:39-71 | no op of a diff reaches a path at which both documents agree below objects they both have: a diff is as fine as it can be |
| PatchOrder.Commute | cli/src/json_patch_ops.rs:97-183 | undos at incomparable paths commute on every tree, also where parents are missing or blocked |
| PatchOrder.AnyOrder | cli/src/json_patch_ops.rs:77-95 | every permutation of separate ops undoes any tree to the same tree |
| PatchOrder.UndoTwice | cli/src/json_patch_ops.rs:332-342 | a second undo changes nothing, on any tree |
| PatchOrder.UnapplyAnyOrderTwice | cli/src/toml_patch.rs:96-116 | both facts for the diff of two documents and any document it is undone on |
| PatchUserEdits.EachOpAsIfAlone | cli/src/json_patch_ops.rs:77-95 | in a whole patch each op leaves at its path what it would have left alone: its old value unless blocked, or what is there stripped of what was added |
| PatchUserEdits.AddedLeavesGone | cli/src/json_patch_ops.rs:97-116 | no scalar or array that was added is left where it was added, whatever the file looks like by then |
| PatchUserEdits.OverwrittenIsBack | cli/src/json_patch_ops.rs:84-91 | every value overwritten or deleted is back, unless a non-object now stands above it |
| PatchUserEdits.UserContentSurvives | cli/src/json_patch_ops.rs:292-309 | any subtree outside the footprint of every op is untouched by undo |
| PatchUserEdits.LeafSurvivesExactly | cli/src/json_patch_ops.rs:77-116 | a scalar or array in the file survives undo if and only if no op takes it away, so the footprint is neither too large nor too small |
| PatchUserEdits.FootprintLimits | cli/src/json_patch_ops.rs:97-116 | the footprint never reaches an incomparable path, nor a user's key inside an object that was added |
| Manifest.MakeAction | cli/src/state.rs:314-321 | the recorded action is Created for an empty diff and the diff otherwise |
| Manifest.Installation.WriteManaged | cli/src/state.rs:287-312 | a managed write replaces the file and makes one WriteStep of the manifest, and fails exactly on an entry of the other format |
| Manifest.Installation.RecordEdit | cli/src/state.rs:511-552 | a first write records the diff from disk and whether the file existed, a later one the diff from the rebuilt original, a Created entry stays |
| Manifest.Installation.RestorePath | cli/src/state.rs:560-582 | the loop over descending indices undoes each entry of the path once, latest first, removes those and keeps all others in order |
| Manifest.Installation.RestoreOne | cli/src/state.rs:613-631 | undoes and removes the component's first entry for the path, or reports that there is none |
| Manifest.Installation.RestoreComponent | cli/src/state.rs:590-609 | undoes the component's entries in recorded order, removes them, returns their paths |
| Manifest.Installation.RestoreAll | cli/src/state.rs:639-664 | full uninstall undoes every entry, latest first, and empties the manifest |
| ManifestLaws.CreatedMeansUnchanged | cli/src/state.rs:314-321 | Created is recorded exactly when old and new content are equal |
| ManifestLaws.WriteReplacesTheFile | cli/src/state.rs:287-312 | a write leaves in the file what was written, whatever is recorded, and no other file changed |
| ManifestLaws.FirstWriteRecords | cli/src/state.rs:532-552 | a first write adds one entry at the end with its path, component and format, marked exactly if there was no file, and Created exactly if nothing changed |
| ManifestLaws.LaterWriteRecords | cli/src/state.rs:519-531 | a later one changes at most the action of the component's entry, and not even that if the entry is Created or of the other format |
| ManifestLaws.RewriteInvisibleToUndo | cli/src/state.rs:461-504 | whatever was done to a managed file in between, rewriting it leaves the result of undo unchanged if and only if: a document is there and the new one differs from it without kyris; or the file is gone and the new content is what the document would be without kyris; or undo removes the file either way |
| ManifestLaws.EntryHoldsWholeDiff | cli/src/state.rs:511-552 | while one component writes a path, however often and among any writes elsewhere, its entry holds the diff from the content before its first write to the latest one, or Created once a write equalled the former |
| ManifestLaws.MultiWriteReversal | cli/src/state.rs:666-696 | undo then restores exactly the content before its first write, or the absence of the file, if and only if there was no file or no write equalled that content, and touches no other file |
| ManifestLaws.WriteBackThenUndoDeletes | cli/src/state.rs:666-671 | writing a file's own content makes undo delete it |
| ManifestLaws.WritesKeepOneEntryEach | cli/src/state.rs:519-552 | no write makes a second entry for the same path and component |
| ManifestLaws.ForwardIsBackward | cli/src/state.rs:590-609 | entries for different paths can be undone in either direction |
| ManifestLaws.ComponentOrderIsHarmless | cli/src/state.rs:590-609 | restoring a component oldest first, against the order used elsewhere, makes no difference after any history of writes |
| ManifestComponents.StackReversal | cli/src/state.rs:560-582 | undoing a stack of edits from the top ends where it began if and only if no entry is Created or kyris created the file |
| ManifestComponents.HistoryMakesStack | cli/src/state.rs:461-552 | when components write a path, each as often as it likes until another one does, the entries form a stack: each holds the diff from the content below its component's first write to that of its last one, or is Created once a write equalled the former; the first says whether it created the file |
| ManifestComponents.RestorePathUndoesAllComponents | cli/src/state.rs:560-582 | restoring the path then gives back the pre-install file, nested edits included, if and only if there was none or no write equalled the content below its component, and leaves other files alone |
| ManifestAnyOrder.AnyComponentOrder | cli/src/state.rs:613-631 | components that each wrote an existing file once, with footprints that do not meet, can be taken off one at a time, in any order, and the original is back |
| ManifestAnyOrder.CreatorMustGoLast | cli/src/state.rs:698-724 | the same on a file kyris created: the file goes if its creator is taken off last, and an empty document stays in every other order |
| ManifestAnyOrder.LaidRewritten | cli/src/state.rs:469-504 | a component's repeated write, wherever its entry stands among the others, leaves the file the original with the edits recorded, if footprints do not meet before and after |
| ManifestAnyOrder.LaidEdited | cli/src/json_patch_ops.rs:77-116 | an edit by the user clear of all footprints is an edit of what the entries are laid over: undo will give the original with it |
| ManifestAnyOrder.OffInOrder | cli/src/state.rs:613-631 | entries laid over a document without meeting come off in any order, and the document is back; an empty one of a file kyris made is gone exactly when the entry that says so comes off last |
| ManifestHistory.HistoryKeepsOriginal | cli/src/state.rs:461-664 | any components write, rewrite and are taken off a path, alone, together or path by path, and the user edits it clear of footprints, among anything done to other files: while recorded footprints do not meet and no entry is Created, the file is the original with the user's edits and the recorded ones, each still in place |
| ManifestHistory.ComponentsOffInAnyOrder | cli/src/state.rs:613-631 | after any such history the remaining components come off in any order, and the original with the user's edits is back; an empty one of a file kyris made is gone exactly when its creating entry comes off last |
| ManifestHistory.RestorePathAfterHistory | cli/src/state.rs:560-582 | after any such history restoring the path does the same at once |
| ManifestComponents.BackwardPerFile | cli/src/state.rs:639-664 | undoing a whole manifest does to each file what undoing its own entries does |
| ManifestUninstall.UninstallGivesAllBack | cli/src/state.rs:639-664 | full uninstall after a history that is orderly wherever it touches a file leaves every file as the original with the user's edits, or, where there was none and the user put nothing, no file or an empty document; files not touched are unchanged |
| ManifestUninstall.UninstallOnePath | cli/src/state.rs:639-724 | which of the two it is: the file is gone if its oldest entry made it and nothing of the user's is in it |
| ManifestUninstall.UninstallExactly | cli/src/state.rs:639-664 | full uninstall after components have written files one on top of the other leaves exactly the files before installation if and only if, in every file that there was, no write equalled the content below its component |
| ManifestUninstall.ComponentOffOnePath | cli/src/state.rs:590-609 | restoring one component after an orderly history leaves each file as the original with the user's edits and those of the others, so the original where no other has an entry, and leaves a file in which it has none unchanged |
| ManifestUninstall.ComponentOffExactly | cli/src/state.rs:590-609 | where the component alone has written a file, it is exactly what it was if and only if there was none or no write equalled it |
| ManifestRewrites.RewrittenBelow | cli/src/state.rs:469-504 | undoing everything after a rewrite that is clear of later entries is undoing everything before it with the component's old entry taken off first |
| ManifestRewrites.RewriteExactly | cli/src/state.rs:469-504 | such a rewrite leaves what undoing all entries yields as it was if and only if the old entry could have come off first, for any content of the file at that moment; so too what restoring the path leaves, where only the oldest entry can have made the file |
| ManifestRewrites.ClearComesOffFirst | cli/src/state.rs:469-504 | the entry recorded last, and one clear of all later ones, could |
| ManifestRewrites.AdditionInside | cli/src/state.rs:469-504 | an entry that added an object, in which a later component added a key of its own, could exactly if something else would be left in the object, or the key is not there any more or holds more than was added |
| ManifestWitness.RewriteLosesTheObject | cli/src/state.rs:474-475 | three writes by two components, the third repeating the content on disk, after which restoring the path leaves an empty object, though no two footprints meet in the end |
| ManifestWitness.CreatorFirstLeavesAFile | cli/src/state.rs:698-724 | a history from no file, two components, the creator taken off first, that ends with an empty document |
| ManifestWitness.UsersContentIsLost | cli/src/state.rs:666-724 | a history in which the user adds to a file kyris made, a second component removes that, and taking the two off leaves no file and nothing of the user's |
| FrameReader.Reader.ReadLine | mcp/src/relay.rs:273-284 | reading across buffer fills yields the bytes to the next line feed of the whole stream, refuses them if they are not well-formed UTF-8, and leaves the rest |
| FrameReader.Reader.ReadBraceDelimited | mcp/src/relay.rs:162-208 | the scan across fills returns the frame of the whole stream and leaves exactly the rest unread |
| FrameReader.ScanFill | mcp/src/relay.rs:175-202 | the byte loop over one fill stops after the closing brace and carries depth, string and escape state over to the next fill |
| FrameReader.Reader.ReadContentLengthFrame | mcp/src/relay.rs:210-249 | reading across buffer fills gives the body, the end or the failure that the whole stream gives, and leaves the same rest; `HeaderFrames` says what these are |
| FrameReader.Reader.NextMessage | mcp/src/relay.rs:251-312 | one message, the mode it leaves and the unread rest depend on the unread bytes only, not on the fills, also while the mode is undetected |
| FrameReader.Reader.Drain | mcp/src/relay.rs:370-388 | the read loop yields the messages of the whole stream up to its end or first failure |
| FrameReader.LeadingSpaceIrrelevant | mcp/src/relay.rs:257-306 | leading white space, consumed or not before the mode is detected, changes no mode's message |
| FrameReader.ReadPieces | mcp/src/relay.rs:251-312 | chunk independence: two splits of a byte stream into non-empty pieces give the same messages, the same end and the same mode |
| Utf8Text.Utf8Exactly | mcp/src/relay.rs:273-284 | the test for UTF-8 accepts exactly the encodings of lists of Unicode scalar values |
| Utf8Text.TrimIs | mcp/src/relay.rs:279-283 | trimming bytes takes off exactly the Unicode white space around the text they encode |
| TextLines.LinesReadBack | mcp/src/relay.rs:273-284 | lines of any text, with any white space around them (a carriage return included) and blank lines between, are read back as what is between the white space |
| TextLines.LastLine | mcp/src/relay.rs:273-284 | so is a last line that has no line feed |
| TextLines.LinesDetected | mcp/src/relay.rs:257-284 | from undetected mode too, if the first line that is not blank starts with neither an opening brace nor a "C" |
| TextLines.NotText | mcp/src/relay.rs:273-284 | a line that is not UTF-8 is a failure, with the bytes after it left |
| HeaderFrames.FrameReadsBack | mcp/src/relay.rs:210-249 | a frame with any lines not naming a length before its Content-Length line, in any case of letters, and any lines that are not blank after it is read back byte for byte |
| HeaderFrames.FramesReadBack | mcp/src/relay.rs:210-249 | so is any list of such frames, and then end of input |
| HeaderFrames.FramesDetected | mcp/src/relay.rs:251-312 | also from undetected mode and after brace frames, if the first byte that is no white space is a "C" |
| HeaderFrames.NumberReads | mcp/src/relay.rs:228-234 | a length is read as its decimal value, with any zeros or a plus sign before it |
| HeaderFrames.BadLength | mcp/src/relay.rs:228-234 | a length that is no number below 2^64 is a failure |
| HeaderFrames.ShortBody | mcp/src/relay.rs:246-247 | a body cut short is a failure |
| HeaderFrames.EndsEarly | mcp/src/relay.rs:214-245 | input that ends before a length, or before the blank line after it, is the end of input |
| JsonFrames.FrameIsTheObject | mcp/src/relay.rs:162-208 | for every JSON object with any spacing and strings, nested below 2^32, followed by any bytes, the frame is exactly the object's bytes and the rest is left |
| JsonFrames.StreamOfObjects | mcp/src/relay.rs:251-312 | any list of objects with white space between them is read back exactly, from undetected mode on |
| JsonFrames.NoiseIsSkipped | mcp/src/relay.rs:285-306 | between brace frames, bytes other than an opening brace or a "C" are passed over |
| JsonFrames.TruncatedObject | mcp/src/relay.rs:162-208 | an object cut short anywhere by the end of input is the last message, as far as it goes |
| JsonFrames.NeverUnderflows | mcp/src/relay.rs:162-208 | in any input with fewer than 2^32 opening braces, JSON or not, the depth counter is at least 1 from the opening brace until the frame closes |
| ContentLengthFrames.ReadsBack | mcp/src/relay.rs:210-249 | an encoded message of any bytes is read back exactly and nothing beyond it is touched |
| ContentLengthFrames.RoundTrip | mcp/src/relay.rs:210-309 | any list of bodies is read back exactly, then end of input, starting from undetected mode |
| Relay.StepKeepsInv | mcp/src/relay.rs:341-481 | every step of every task keeps every message accounted for, in order, at every stage |
| Relay.RunsKeepInv | mcp/src/relay.rs:341-481 | so does every run, in every interleaving and with failures |
| Relay.Safety | mcp/src/relay.rs:324-400 | the child has received, in read order, a prefix of the other messages merged with a prefix of the allowed calls; errors answered are, in order, the ids of denied calls |
| Relay.OnlyAllowedCallsDelivered | mcp/src/relay.rs:423-481 | no tools/call reaches the child without an Allow for it |
| Relay.CleanDrain | mcp/src/relay.rs:390-400 | after a clean end nothing is lost or duplicated: every other message and every allowed call delivered in order, every call decided once, every denied one answered once |
| RelayProgress.NeverStuck | mcp/src/relay.rs:341-481 | no reachable unfinished state is stuck, with no help from a fault |
| RelayProgress.EveryStepWorks | mcp/src/relay.rs:341-481 | every step strictly lessens the work left |
| RelayProgress.RunsAreShort | mcp/src/relay.rs:341-481 | no run is longer than seven steps per message and three |
| RelayProgress.HeldUpExactlyAtTen | mcp/src/relay.rs:351-357 | while a check is pending at most ten calls are undecided, and the reader waits for the policy task exactly when it is ten: eight queued, one being checked, one in its hands |
| RelayProgress.UngovernedFlowsUpToTen | mcp/src/relay.rs:324-339 | with a check hanging, reader and writer alone deliver all other traffic read, and all input is read unless ten calls are undecided; all other input gets through if and only if none of it comes behind the tenth undecided call |
| RelayProgress.PingWaitsBehindTenCalls | mcp/src/relay.rs:351-397 | for any ten calls and a ping behind them there is a run from the start after which, the first check hanging, reader and writer can do nothing more and the ping is unread |
| RelayBackpressure.HeldUpExactlyAt65 | mcp/src/relay.rs:351-421 | while a write to the child hangs at most 65 messages are on the way, one being written and 64 queued; the reader and the policy task, with one more each, wait exactly when there are 65 |
| RelayBackpressure.LastWaitsForTheFirstWrite | mcp/src/relay.rs:351-397 | for any 67 messages that are no tools/call there is a run from the start after which, the first write hanging, 65 are on the way, the reader holds the next and the last is unread |
| Pending.PendingStore.HoldRequest | daemon/src/pending.rs:76-109 | a new hold replaces any entry of its id, whose sender is dropped |
| Pending.PendingStore.Take | daemon/src/pending.rs:118-143 | a claim takes token and sender of a held entry, or fails with the error for its state |
| Pending.PendingStore.Complete | daemon/src/pending.rs:145-163 | completing sends the answer, then records it if the entry is still held |
| Pending.PendingStore.Relinquish | daemon/src/pending.rs:165-171 | abandoning puts the sender back under the id, dropping one that is there, or loses it if the id is gone |
| Pending.PendingStore.Discarded | daemon/src/pending.rs:247-255 | a claim dropped without completion answers "denied" and records nothing |
| Pending.PendingStore.Expire | daemon/src/pending.rs:173-182 | a timeout settles a held entry and drops its sender |
| Pending.PendingStore.CancelRequest | daemon/src/pending.rs:184-199 | a cancellation settles a held entry and returns its token |
| Pending.PendingStore.PruneResolved | daemon/src/pending.rs:234-237 | exactly the entries that are not held go, with their senders |
| PendingEffects.HoldEffect | daemon/src/pending.rs:76-109 | a hold makes a held entry with its token and a sender of its own that no entry or fate has had; the requester of an entry it replaces learns that it is gone; nothing else changes |
| PendingEffects.TakeEffect | daemon/src/pending.rs:118-143 | a claim moves the sender out of the entry and carries its id and token; the entry stays held under its hold and token |
| PendingEffects.TakeRefused | daemon/src/pending.rs:118-143 | the error is pinned for each state: unknown, already resolved (held but claimed, approved, denied) or no longer resolvable (timed out, cancelled); nothing changes |
| PendingEffects.CompleteEffect | daemon/src/pending.rs:145-163 | completing tells the claim's requester the answer and records it on an entry that is held, under its hold and token; any other entry keeps its state |
| PendingEffects.AbandonEffect | daemon/src/pending.rs:165-171 | giving back puts the sender into the entry of the id and drops the one there; without an entry its requester learns that it is gone |
| PendingEffects.DropEffect | daemon/src/pending.rs:247-255 | dropping a claim tells its requester "denied" and touches no entry |
| PendingEffects.SettleEffect | daemon/src/pending.rs:173-199 | a held entry, claimed or not, that times out or is cancelled says so, keeps hold and token and has no sender; the requester whose sender it had learns that it is gone, and no claim can be taken any more |
| PendingEffects.SettledStays | daemon/src/pending.rs:173-199 | an entry that is settled or not there is not touched by either |
| PendingEffects.PruneEffect | daemon/src/pending.rs:234-237 | exactly the held entries stay, unchanged; requesters whose sender was in another learn that it is gone, and no other fate changes |
| PendingLaws.StepKeepsInv | daemon/src/pending.rs:76-237 | every operation keeps every sender numbered, uncopied and not lost |
| PendingLaws.SenderInExactlyOnePlace | daemon/src/pending.rs:76-255 | in every run, ids held again included, each hold's sender is in exactly one entry, or one claim, or spent |
| PendingLaws.ResolvedOnce | daemon/src/pending.rs:145-163 | what a requester was told is never changed or told again |
| PendingLaws.ApprovalComesFromAClaim | daemon/src/pending.rs:118-163 | "approved" is only ever sent by completing, with approval, a claim taken on the requester's sender while its entry was held |
| PendingAgreement.OutcomeIsFinal | daemon/src/pending.rs:573-599 | a recorded outcome never changes while that hold is recorded |
| PendingAgreement.RoutedUnlessStale | daemon/src/pending.rs:165-171 | a step after which completing some claim would answer another requester than the one it asks about is exactly a give-back of a claim on an id held again since and still to be decided |
| PendingAgreement.ApprovedThroughOwnHold | daemon/src/pending.rs:118-171 | in every run without such a step, whoever is told "approved" was told so through a claim taken on its own hold, under its own token |
| PendingAgreement.StaleAbandonMisroutes | daemon/src/pending.rs:165-171 | after any such step, approving under the later requester's token answers the earlier one; the later one's channel is gone or with another claim |
| PendingAgreement.StaleAbandonFromEmpty | daemon/src/pending.rs:118-171 | a run from the empty store in which this happens |
| PendingAgreement.ClaimedTwiceFromEmpty | daemon/src/pending.rs:118-171 | another run, in which the later requester's channel is with a claim of its own |
| PendingAgreement.RecordAgreesWithDelivery | daemon/src/pending.rs:145-199 | in every run where ids being decided are not held again, timed out or cancelled, a record says Approved or Denied exactly when a finished completion told its requester so |
| PendingAgreement.CalmIsNeeded | daemon/src/pending.rs:173-199 | records agree with what requesters were told after a step, and after any decision under way is completed, if and only if the step does not hold, time out or cancel an id being decided |
| PendingAgreement.CompletionDisagrees | daemon/src/pending.rs:145-199 | after each of the three, completing the decision, either way, leaves a record that disagrees with what its requester was told |
| PendingAgreement.TimeoutDuringDecision | daemon/src/pending.rs:145-182 | a timeout while a claim is being completed leaves "timed out" on record for a requester told "approved" |
| PendingAgreement.TimeoutFromEmpty | daemon/src/pending.rs:76-182 | a run from the empty store in which this happens |
| Timeline.Join | daemon/src/timeline.rs:313-345 | one row per event and one per record without an event, newest first |
| Timeline.SortedIsNewestFirst | daemon/src/timeline.rs:343-344 | the sort loses and repeats nothing and orders by time, then id, both descending |
| TimelineRows.JoinedRows | daemon/src/timeline.rs:203-341 | every event has a row of its own with its id, time, trace, agent, action, decision, class and grantable, its coverage unless the breaker stopped its record, and the usage of the last record on its trace; every record on no event's trace has a synthetic "think" row without a decision, "observed" or "enforced"; there are no other rows |
| TimelineRows.NewestFirstMeans | daemon/src/timeline.rs:343-344 | no row is older than a later one of the list, nor of the same time with a smaller id |
| TimelineLaws.CarriedCount | daemon/src/timeline.rs:318-341 | for any input, how often the rows carry a record: once per event of its trace if it is the last of the trace, as often as it occurs if no event has its trace |
| TimelineLaws.JoinConserves | daemon/src/timeline.rs:313-345 | every record lands in exactly one row if and only if matched records and events pair off |
| TimelineLaws.SharedRecordCountsTwice | daemon/src/timeline.rs:326-334 | two events on the trace of one record carry its usage twice |
| TimelineLaws.EarlierRecordIsLost | daemon/src/timeline.rs:318-319 | of two records on the trace of one event the earlier is on no row |
| TimelineLaws.DistinctTracesPairOff | daemon/src/timeline.rs:318-325 | distinct trace ids on both sides are enough for that |
| TimelineLaws.JoinIgnoresOrder | daemon/src/timeline.rs:313-345 | with distinct record traces and distinct (timestamp, id) keys the result does not depend on the order of events and records |
| TimelineStats.ComputeStats | daemon/src/timeline.rs:371-497 | the statistics are exactly the per-key counts, per-key sums and totals of the rows, each list complete, without repeats and in descending order |
| TimelineStats.FillBuckets | daemon/src/timeline.rs:371-446 | the one loop leaves exactly these counts, sums and totals in its buckets |
| Ranking.Ranked | daemon/src/timeline.rs:448-483 | a map, in whatever order it yields its keys, becomes a list of all its bindings, each once, the highest first |
| Sums.BucketsHoldTheirSums | daemon/src/timeline.rs:418-436 | a bucket exists exactly for the keys that occur and holds what belongs under its key; all buckets together hold all keyed amounts |
| Sums.CountsAreExact | daemon/src/timeline.rs:387-410 | a counter exists exactly for the keys that occur and is the number of rows with its key |
| TimelineStats.OutcomesAddUp | daemon/src/timeline.rs:386-409 | the totals over agents add up to the decisions, and the questions over resource classes to the decisions that were to ask |
| TimelineStats.CostBothWays | daemon/src/timeline.rs:418-436 | the total cost is the sum over providers and the sum over models |
| TimelineStats.ListsAddUp | daemon/src/timeline.rs:448-497 | the finished lists add up to each other: agents to decisions, resource classes to questions, providers and models to the total cost |
| TimelineStats.RowsCharge | daemon/src/timeline.rs:203-308 | for any input, the cost charged on the rows is that of the records they carry, and each charged row names provider and model |
| TimelineStats.StatsConserveRecords | daemon/src/timeline.rs:371-445 | when records and events pair off, token totals are the record sums and total cost is the sum over records not in error |
| TimelineStats.JoinAndCount | daemon/src/timeline.rs:349-497 | join and statistics run together give all of these equalities, on the lists themselves |
| TimelineRows.ListsCountEvents | daemon/src/timeline.rs:386-410 | the lists are the counts of the events themselves: of each decision, of each deciding agent with each outcome, and of the questions about each resource class with those that could be remembered |
| TimelineRows.ListsDescend | daemon/src/timeline.rs:448-483 | each list is in descending order of its counts or amounts |
| TimelineRows.TotalIsPrice | daemon/src/timeline.rs:412-427 | the total cost is the sum of the costs of the records carried that neither failed nor were stopped by the breaker |
| TimelineRows.MeteringCounts | daemon/src/timeline.rs:412-446 | metered and unmetered calls are the counts of such records among those carried |
| TimelineRows.CallsCount | daemon/src/timeline.rs:428-436 | a model's calls are the records of that model carried |
| Calendar.DateIsValidAndExact | mcp/src/main.rs:126-137 | every day count gives a valid Gregorian date, no subtraction goes below zero, and counting the date's days gives the argument back |
| Calendar.DaysOfDateGiveDate | mcp/src/main.rs:126-137 | every valid date is the date of its own day count |
| Calendar.EachDayIsTheNext | mcp/src/main.rs:126-137 | the next day count gives the calendar's next day |
| Calendar.AgreesWithCalendar | mcp/src/main.rs:126-137 | the arithmetic agrees with walking the calendar from 0000-03-01 day by day |
| Timestamps.DatesGrow | mcp/src/main.rs:126-137 | a later day count gives a later date |
| Timestamps.StringsSortByTime | mcp/src/main.rs:115-124 | timestamp strings compare as their times do while their years have the same number of digits |
| Timestamps.StringsSortExactly | mcp/src/main.rs:115-124 | the strings of a time and a later one sort in time order if and only if the earlier year is at most the later year without its last k digits, k being how many more it has |
| Timestamps.SortThrough9999 | mcp/src/main.rs:115-124 | so they do through the year 9999 |
| Timestamps.Year10000SortsFirst | mcp/src/main.rs:115-124 | the first second of the year 10000 sorts before the last one of 9999 |
| TimestampText.ReadsBack | mcp/src/main.rs:115-137 | read digit by digit, a timestamp has the form YYYY-MM-DDThh:mm:ssZ, 20 characters through the year 9999, with a valid date and a time of day that together count back to the argument |
| Sse.SplitInSteps | daemon/src/streaming.rs:54-63 | splitting a text is splitting any part of it and then its remainder with the rest, also between carriage return and line feed |
| Sse.ReadStream | daemon/src/adapter/anthropic/stream.rs:37-58 | for every way of cutting a text into chunks that are valid UTF-8 by themselves, the handler's lines, payloads and final remainder are those of the uncut text; other chunks are passed over |
| Sse.LinesReadBack | daemon/src/streaming.rs:54-63 | lines written, each with either ending, are read back exactly, and the text without a line feed after them is the remainder |
| Sse.PayloadReadBack | daemon/src/streaming.rs:41-51 | a data line gives its payload back whatever line end is on it; the empty payload and "[DONE]" give none |
| Sse.NoPayload | daemon/src/streaming.rs:41-51 | a line that does not start with "data: " gives no payload, whatever line end is on it |
| Breaker.CircuitBreaker.Record | daemon/src/circuit_breaker.rs:48-85 | reports a trip exactly when the session's own history puts its count at the cap or above |
| Breaker.CircuitBreaker.IsTripped | daemon/src/circuit_breaker.rs:93-98 | a session is tripped exactly when it is known and its history says so |
| Breaker.CircuitBreaker.Reset | daemon/src/circuit_breaker.rs:100-109 | clears one known session and tells whether it was known |
| Breaker.CircuitBreaker.ResetAllTripped | daemon/src/circuit_breaker.rs:114-126 | clears exactly the tripped sessions and names each of them once |
| Breaker.CircuitBreaker.PruneIdle | daemon/src/circuit_breaker.rs:128-131 | drops exactly the sessions idle for the timeout or longer |
| Breaker.CircuitBreaker.RebuildFrom | daemon/src/circuit_breaker.rs:138-151 | stored sessions get their stored count, the last of several winning, and their last activity, or the current time if that is before what the clock can express; others stay |
| Breaker.CircuitBreaker.SessionTotals | daemon/src/circuit_breaker.rs:153-159 | lists every session with its count, once |
| Breaker.CountIsOutputSince | daemon/src/circuit_breaker.rs:48-85 | a count is the output recorded since any earlier point after which nothing cleared or reloaded it, on top of what it was then |
| Breaker.TripsExactly | daemon/src/circuit_breaker.rs:93-98 | a known session is tripped exactly when that count reaches the cap given with its latest record or reload, whatever was reset or pruned in between |
| Breaker.ClearingSets | daemon/src/circuit_breaker.rs:60-72 | any other event sets the count to zero or to the stored value |
| Breaker.RecordEffect | daemon/src/circuit_breaker.rs:48-85 | a record sets cap and last activity, and the count to zero for a tool call and to the sum otherwise |
| Breaker.ClearEffect | daemon/src/circuit_breaker.rs:100-126 | a reset, alone or of all tripped sessions, sets count and last activity and leaves the cap; a session it does not clear is as it was |
| Breaker.PruneEffect | daemon/src/circuit_breaker.rs:128-131 | a session goes exactly when its last activity is the timeout or longer ago, and is otherwise as it was |
| Breaker.InUseIsKept | daemon/src/circuit_breaker.rs:48-131 | a session recorded less than the timeout ago is not pruned |
| Breaker.RebuildEffect | daemon/src/circuit_breaker.rs:138-151 | a stored session has the count and age of its last stored value and the cap given; one not stored is as it was |
| Breaker.OthersDoNotMatter | daemon/src/circuit_breaker.rs:48-109 | events about another session leave this one as it was |
| Breaker.TrippedAfterReset | daemon/src/circuit_breaker.rs:114-126 | after clearing, a session is tripped only if it was and its cap is not positive |
| Breaker.TrippedAfterOneReset | daemon/src/circuit_breaker.rs:100-109 | after a single reset a known session is tripped exactly when its cap is not positive |
| Breaker.RebuildKeepsCounts | daemon/src/circuit_breaker.rs:138-159 | rebuilding from another breaker's totals keeps every count |

## Left out

- `set_at_path` and `remove_at_path`: the moving `&mut` cursor is rebuilt as a function that returns the changed tree; aliasing of the cursor with the tree is not modelled.
- Floating-point values in documents: scalars are compared as texts, so a TOML NaN, which the program finds different from itself, is not modelled.
- Parsing, printing, reading and writing files, their errors, permissions, atomic replacement and the cleanup of emptied directories: a file is its parsed value or absent.
- An undo that fails on I/O half way leaves the program's manifest unsaved; undo does not fail here.
- Manifest.Installation.RestorePath: the saved manifest file and its removal when empty are not modelled, only its entries.
- Shell lines (`ensure_line`, `remove_lines`) and whole managed files (`write_managed_file`, `write_managed_bytes`): an entry's action here is a patch or `Created`, and `Created` arises only from an empty diff.
- Entry timestamps and the strings describing what was restored.
- ManifestRewrites.RewriteExactly: where the new footprint of a rewrite meets one recorded later, nothing simpler is stated than that the two results of undo be equal.
- A debug build stops where the depth counter would wrap; the model wraps, as a release build does.
- Platforms whose `usize` is not 64 bits wide; what is allocated for a claimed body length is not modelled.
- `normalize`, tool names, the text of a denied response (only the id it carries) and what a policy decision is: a decision is any outcome per call.
- `run_wrapper` with its child process and signals, and the relay from server to agent.
- Relay.Safety: a message is delivered as one step; the three writes to the child's input that make it up are not told apart.
- Timers of the approval store: a timeout may come at any moment for any id, whether or not a handle was aborted.
- `list`, `list_held` and `get_state` of the approval store, and the descriptive fields of an entry.
- Pending.PendingStore.Complete: the method runs both steps without interruption; the interleavings between them are covered by the step relation (`Send`, then `Record`).
- Sync state and the fields a timeline row only passes on (directory, session, rule, segments, latency and the like).
- Costs are reals and token counts unbounded; rows of equal rank in the statistics may come in any order, as they do after hashing.
- Reading the event log and records from the database, filters and limits of a timeline query.
- Breaker.CircuitBreaker.Record: counts are unbounded, where the program uses 64-bit integers; the clock is an integer. `record_tokens` (a `record` without a tool call) and `get_token_count` (a lookup) are not modelled.
- Which chunks of a response are valid UTF-8 by themselves: a chunk is a text or it is not.
- Token accumulation from payloads, gates, retries, policy levels, pricing, secrets, DuckDB storage, HTTP serving and the command line.
