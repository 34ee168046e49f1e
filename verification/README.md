# DevManager protocols, modelled in Dafny

DevManager drives AI command-line agents and an embedded browser. This project models the
parts of it whose guarantees hold only over whole runs or over every input, and proves those
guarantees:

- the **browser attachment broker**: reserve, commit, roll back and detach saved annotations
  while sessions rebind, stale snapshots arrive and projections are acknowledged;
- the **Claude hook front end**: the bounded JSON scanner, the reassembly of streamed messages,
  the bounding of text and the deduplication keys;
- the **Claude and Codex hook registries**, with the publication gate as an interleaving of threads;
- **command-line rewriting**: the Claude tokenizer, quoting and settings substitution, and the
  Codex splitter, quoting and TOML strings, each reader against a grammar of its own;
- the **browser generation authority** with its ticket queues;
- the **asset-graph validation** of the build script.

Randomness, clocks, the file system, the book of browser contexts and everything behind a
callback are inputs. Nonces and request ids are fresh values; times are natural numbers.

Where the source updates things in place the model has a class or a method with loops, proved
equal to a function on values; the run theorems are about those functions. `dafny verify
dfyconfig.toml` checks everything.

## Layout

| files | content |
|---|---|
| `Attachments`, `AttachmentLaws`, `AttachmentRuns`, `AttachmentCommits`, `AttachmentArrivals`, `AttachmentHolders`, `AttachmentLimits`, `AttachmentOverlay`, `AttachmentBroker` | the broker as a state machine, its step laws, its run theorems, what an observation does, who may commit, where its guarantees end, overlaid snapshots, the object |
| `JsonGrammar`, `JsonScanner`, `JsonRefusals`, `JsonPieces` | RFC 8259 syntax with its whitespace, the scanner, what it refuses, what it makes of any body |
| `MessageAssembly`, `MessagePublication`, `TextBounds`, `DeduplicationKeys` | chunks, what each one publishes, text limits, keys |
| `RegistryCore`, `RegistryOrder`, `ClaudeRegistry`, `ClaudeLifetimes`, `ClaudeIngress`, `ClaudeHookRegistry`, `GenerationFence`, `CodexRegistry`, `CodexLifetimes`, `CodexFence`, `CodexReports` | the shared registry and its order, both instances, how long a registration lives, which events are admitted, the gates, reports after the gate |
| `ShellTokens`, `ShellGrammar`, `ShellReading`, `ShellParsing`, `ClaudeCommand`, `ClaudeSpaces`, `ClaudeRewrite`, `ClaudeRecognition` | the Claude tokenizer, the commands it is meant to read and both directions between them, quoting, the whitespace law, rewriting, which commands are Claude's |
| `CodexCommand`, `CodexSplitting`, `TomlStrings` | the Codex splitter and quoting, the commands it reads, TOML strings |
| `GenerationAuthority`, `GenerationRuns`, `GenerationReplies`, `TaskGenerationAuthority` | ticket queues, their run theorems, when each operation succeeds, the object |
| `AssetGraph`, `AssetNames` | the worklist, the tests on a path |
| `Common` | shared datatypes and sequence facts |

## Properties that do not hold, and exactly when they do

- Appending arguments to a Claude command adds them as new words if and only if all of them are in the
  shell's safe class and the command does not end in an escaped whitespace character
  (`ClaudeRewrite.AppendMeaning`); the source accepts `claude x\ ` and the first argument runs into the
  last word (`ClaudeRewrite.EscapedSpaceRunsOn`). Settings paths are spliced and appended under the same
  conditions.
- Quoting a value and tokenizing it again gives the value back if and only if the value is nonempty
  and on one line, without a backtick for PowerShell and without `"` and `^` for cmd
  (`ClaudeCommand.QuoteRoundTrip`).
- The Codex splitter undoes the Codex quoting for a POSIX shell if and only if no token is empty, and
  for cmd if and only if in addition no token ends in a backslash. It never reads a PowerShell
  command back, because the call operator counts as a shell operator.
- When all chunks of a message arrive, the message ends up final with its whole text if and only if both
  the number of chunks and the number of bytes are within the limits (`MessageAssembly.WholeExactly`).
  Within them the order of arrival does not matter; over the byte limit the text that is kept can depend
  on it (`MessageAssembly.OrderMattersWhenCut` gives a family), and for every order it is the text of the
  account (`MessagePublication.RecordFollowsAccount`), and over the chunk limit the message is never final (`MessageAssembly.OneChunkAllowed` is an
  instance).
- Within one workspace lifetime an acknowledgement clears only what its captured projection listed. After
  a reset, a projection captured before can be accepted and clear a removal that it never listed, in some
  continuation, if and only if its generation is at least two
  (`AttachmentLimits.StaleAcknowledgementExactly`).
- Equal revisions mean equal pending lists if and only if the revision is below the largest 64-bit number
  (`AttachmentLimits.FaithfulExactly`): a snapshot may bring that number, and `advance_revision` saturates.
- `publish_if_not_superseded` does not fence: once a generation was superseded, its test passes again in a
  later state of any interleaving if and only if no registration of the key is left
  (`GenerationFence.WeakGateExact`).
- A Codex handler can be called for a registration that has ended: an exact-resume mismatch is reported only
  after the gate is released, as the source's own comment says. From a state in which a delivery has entered,
  some continuation calls its handler while its registration is not current if and only if the registration is
  current now and the delivery is such a mismatch (`CodexReports.EndedCallExactly`); the generations called for
  one key can then go from newer to older (`CodexReports.OlderAfterNewer`). For admitted events neither happens
  (`CodexFence`).
- Observing a snapshot that the broker overlaid leaves pending list and revision alone, and leaves the generation
  alone if and only if the snapshot brings no other text for a pending annotation
  (`AttachmentOverlay.OverlayIsNeutral`).
- The hook scanner is no JSON validator: it accepts some bodies that are not JSON, such as mismatched brackets, and
  leaves those to the parser. Every accepted body is lexically whole and its brackets balance
  (`JsonPieces.AcceptedIsBalanced`); with at most 32 values and keys that is also enough
  (`JsonPieces.BalancedIsAccepted`).
- The string limit of the hook scanner is 4096 bytes, but the closing quote is counted, so content
  may have at most 4095 bytes.

## Model

| member | source | states |
|---|---|---|
| `AttachmentRuns.EntersAtMostOnce` | src/browser/attachments.rs:189-253 | in every run, within one workspace lifetime, an annotation id enters the pending list at most once, whatever snapshots are observed |
| `AttachmentRuns.PendingPartition` | src/browser/attachments.rs:397-505 | the ids ever pending in a lifetime are the disjoint union of those still pending, those a commit removed and those a detachment removed |
| `AttachmentRuns.RevisionIsFaithful` | src/browser/attachments.rs:145-148 | within a lifetime the revision never falls, and equal revisions below the largest 64-bit number mean equal pending lists |
| `AttachmentLimits.FaithfulExactly` | src/browser/attachments.rs:217-251 | equal revisions mean equal pending lists, over all runs, exactly for the revisions below the largest |
| `AttachmentLimits.SaturatedRevision` | src/browser/attachments.rs:145-148 | a snapshot at the largest revision and one detachment: the revision stays and the list does not |
| `AttachmentRuns.AckClearsOnlyListed` | src/browser/attachments.rs:571-582 | an acknowledgement of a projection captured earlier in the lifetime clears only tombstones which that projection listed |
| `AttachmentLimits.StaleAcknowledgementExactly` | src/browser/attachments.rs:571-588 | a projection captured before the workspace was reset can, in some continuation, be accepted and clear a removal it never listed, exactly when its generation is at least two |
| `AttachmentLimits.StaleAcknowledgement` | src/browser/attachments.rs:571-588 | one such run: save, detach, capture, reset, save another, detach, acknowledge |
| `AttachmentRuns.RemovalIsListed` | src/browser/attachments.rs:150-161 | every removal from the pending list is listed as unacknowledged by the step that makes it |
| `AttachmentRuns.NoRemovalLost` | src/browser/attachments.rs:435-447 | a removal stays listed until a successful acknowledgement of its workspace clears it |
| `AttachmentRuns.OwedIsDirty` | src/browser/attachments.rs:493-503 | in every reachable state a workspace with unacknowledged tombstones is dirty |
| `AttachmentRuns.RunBound` | src/browser/attachments.rs:255-352 | in every reachable state a workspace has at most one session binding, and an active reservation belongs to the live generation of that binding |
| `AttachmentCommits.CommitsAtMostOnce` | src/browser/attachments.rs:397-422 | no reservation number is committed twice in any run |
| `AttachmentCommits.NeverCommitsAfterRebind` | src/browser/attachments.rs:397-415 | a token of a generation handed out before a rebinding, renewal or unbinding is refused as stale in every later state, and the refusal changes nothing |
| `AttachmentCommits.RebindingUnblocks` | src/browser/attachments.rs:255-294 | in every reachable state, after a binding no dead reservation blocks: the new session can reserve all pending ids |
| `AttachmentCommits.CommitLeavesLaterArrivals` | src/browser/attachments.rs:416-449 | a successful commit leaves pending exactly the ids that joined after its reservation and were not detached since, in order of arrival, whatever ids the presented token lists |
| `AttachmentCommits.CommitsReserved` | src/browser/attachments.rs:364-386 | a committed reservation number identifies the workspace and ids for which it was issued |
| `AttachmentCommits.TombstonesNeverMatter` | src/browser/attachments.rs:201-237 | when tombstoned ids are known annotations, the tombstone test neither admits nor refuses anything that the known-annotation test does not |
| `AttachmentCommits.EvictionOnlyRelists` | src/browser/attachments.rs:139-161 | the 512-entry tombstone queue refines an unlimited one: over the same events both brokers agree on pending lists, revisions, bindings, reservations, dirty marks and refusals; the limited one lists every removal that the unlimited one lists, and beyond that only ids removed before |
| `AttachmentOverlay.OverlayIsNeutral` | src/browser/attachments.rs:523-545 | observing a snapshot that the broker overlaid changes neither pending list nor revision nor what is owed, and changes the generation exactly when it brings another text for a pending annotation |
| `AttachmentOverlay.OverlayOfPlainSnapshot` | src/browser/attachments.rs:523-545 | in every reachable state, observing the overlay of a snapshot without annotations changes nothing at all |
| `AttachmentLaws.StepSound` | src/browser/attachments.rs:189-253 | every event keeps a workspace sound (pending ids are distinct, known and not tombstoned) and, within a lifetime, only evolves it |
| `AttachmentArrivals.ArrivesExactly` | src/browser/attachments.rs:223-237 | after an observation an id is pending exactly when it was pending before, or the snapshot lists it as pending, brings its annotation, and the workspace did not know it |
| `AttachmentArrivals.ArrivalsInOrder` | src/browser/attachments.rs:223-237 | the arrivals stand behind what was pending, each once, in the order of their first occurrence in the pending list of the snapshot |
| `AttachmentArrivals.SavesExactly` | src/browser/attachments.rs:206-210 | an observation saves, for each id, the last annotation that the snapshot brings, and leaves all others |
| `AttachmentArrivals.CountsExactly` | src/browser/attachments.rs:217-251 | the revision is the larger of both, and one more when ids joined from a snapshot that is not newer; the generation moves by one exactly when revision, pending list or a pending text changed, and nothing else moves |
| `AttachmentHolders.AcceptedExactly` | src/browser/attachments.rs:397-415 | in every run the token of a reservation is accepted at a later state exactly when no event in between ended the reservation: a binding of its session or workspace, a renewal, an unbinding, a commit or rollback with that token, a reset or a retirement |
| `AttachmentHolders.RollbackReleases` | src/browser/attachments.rs:451-479 | in every reachable state an accepted rollback releases the reservation, changes nothing else, spends the token, and lets the same session reserve the whole pending list again |
| `AttachmentHolders.ListedNeverWaits` | src/browser/attachments.rs:150-161 | in every reachable state an id that is listed as removed is known and not pending |
| `AttachmentHolders.TombstonesWithin` | src/browser/attachments.rs:150-161 | in every reachable state at most 512 tombstones are kept, each once |
| `AttachmentHolders.BindLeavesOthers` | src/browser/attachments.rs:255-294 | in every reachable state a binding replaces those of its session and its workspace, and leaves all other bindings and the workspaces of neither as they were |
| `AttachmentBroker.PushTombstone` | src/browser/attachments.rs:150-161 | the eviction loop drops the oldest tombstone exactly when 512 are kept, before the new one is added behind; a known tombstone changes nothing |
| `AttachmentBroker.JoinPending` | src/browser/attachments.rs:201-237 | the loop computes the new pending list that `AttachmentArrivals` characterizes: every snapshot id that is saved, new and neither tombstoned nor pending joins, in order, each once; and it says whether one did |
| `AttachmentBroker.AttachmentBroker.ObserveWorkspace` | src/browser/attachments.rs:189-253 | the new broker state is the observation step, whose pending list, annotations and counters `AttachmentArrivals` characterizes, and the returned projection is that of the new state |
| `AttachmentBroker.AttachmentBroker.BindSession` | src/browser/attachments.rs:255-294 | the loop over replaced bindings removes all bindings of the session or the workspace and releases exactly the reservations they held |
| `AttachmentBroker.AttachmentBroker.RenewIfMatches` | src/browser/attachments.rs:300-331 | renews only the exact binding, with a new generation and its reservation released |
| `AttachmentBroker.AttachmentBroker.UnbindIfMatches` | src/browser/attachments.rs:333-352 | unbinds only the exact binding and releases its reservation |
| `AttachmentBroker.AttachmentBroker.ReserveForInput` | src/browser/attachments.rs:354-395 | reserves all pending ids for the live binding, or nothing |
| `AttachmentBroker.AttachmentBroker.CommitReservation` | src/browser/attachments.rs:397-449 | refuses stale bindings and reservations; otherwise removes the reserved ids and tombstones them |
| `AttachmentBroker.AttachmentBroker.RollbackReservation` | src/browser/attachments.rs:451-479 | releases the reservation and keeps the pending ids, with the refusals of commit |
| `AttachmentBroker.AttachmentBroker.DetachAnnotation` | src/browser/attachments.rs:481-505 | removes and tombstones the id if it is pending |
| `AttachmentBroker.AttachmentBroker.OverlaySnapshot` | src/browser/attachments.rs:523-545 | the loop appends the pending annotations whose ids the snapshot lacks, and the flag says exactly whether the snapshot changed |
| `AttachmentBroker.AttachmentBroker.AcknowledgeDirtyProjection` | src/browser/attachments.rs:571-582 | clears the tombstones owed and the dirty mark only if the projection is of the current generation |
| `AttachmentBroker.AttachmentBroker.ResetWorkspaceState` | src/browser/attachments.rs:584-588 | forgets the workspace and keeps its binding |
| `AttachmentBroker.AttachmentBroker.RetireWorkspace` | src/browser/attachments.rs:590-597 | forgets the workspace and its bindings |
| `JsonScanner.ScannerAgreesWithLimits` | src/ai/claude_hooks.rs:48-177 | for every JSON tree printed in any RFC 8259 form the scan accepts exactly when container depth is at most 8, nodes at most 256, entries and elements at most 32 and every encoded string at most 4095 bytes |
| `JsonScanner.ScanBounds` | src/ai/claude_hooks.rs:48-152 | on arbitrary bytes the loop over five fixed per-depth arrays ends, never indexes past them, and accepts exactly when the scanning machine does; `JsonRefusals` and `JsonPieces` say what that refuses and accepts |
| `JsonScanner.Locals.CountNode` | src/ai/claude_hooks.rs:154-177 | counts a node and, where an array awaits a value, an element; fails exactly when one exceeds its limit |
| `JsonScanner.SkipAtom` | src/ai/claude_hooks.rs:136-142 | the inner loop stops before the first byte that ends a scalar, and skipping does not change the verdict |
| `JsonScanner.RunElements` | src/ai/claude_hooks.rs:48-152 | the elements of an array are scanned within depth, node and element limits exactly when their tree measures fit, and are counted exactly |
| `JsonScanner.RunMembers` | src/ai/claude_hooks.rs:48-152 | the same for the members of an object, keys included |
| `JsonRefusals.CutOffIsRefused` | src/ai/claude_hooks.rs:148-150 | a legal array or object that is cut off anywhere inside is refused |
| `JsonRefusals.CutOffStringIsRefused` | src/ai/claude_hooks.rs:148-150 | a legal string that is cut off anywhere is refused |
| `JsonRefusals.ExtraCloseIsRefused` | src/ai/claude_hooks.rs:115-120 | a legal value followed by a further closing bracket is refused, whatever comes after it |
| `JsonRefusals.StrayByteIsRefused` | src/ai/claude_hooks.rs:144-144 | a byte that starts no value is refused at the start of a body |
| `JsonRefusals.StrayFirstElementIsRefused` | src/ai/claude_hooks.rs:144-144 | it is refused before the first element of an array |
| `JsonRefusals.StrayElementIsRefused` | src/ai/claude_hooks.rs:144-144 | it is refused after any comma between elements |
| `JsonPieces.AcceptedIsBalanced` | src/ai/claude_hooks.rs:48-152 | every accepted body, legal JSON or not, is a sequence of whitespace, brackets, separators, closed strings of at most 4095 bytes and scalars, whose brackets balance within 8 levels and of which at most 256 start a value or a key |
| `JsonPieces.BalancedIsAccepted` | src/ai/claude_hooks.rs:48-152 | every such sequence with at most 32 values and keys is accepted |
| `MessageAssembly.AcceptKeepsAccount` | src/ai/claude_hooks.rs:706-742 | for any chunk, accumulated bytes equal the text plus the buffered deltas and stay within the limit, the text only grows at its end, and a finalized record does not change |
| `MessageAssembly.RunValid` | src/ai/claude_hooks.rs:706-742 | that account holds in every reachable record |
| `MessageAssembly.TextOnlyGrows` | src/ai/claude_hooks.rs:732-742 | over any run each text is a prefix of every later one, and nothing changes once finalized |
| `MessageAssembly.PublishedCompleteOnce` | src/ai/claude_hooks.rs:743-752 | over any chunks a message is published as complete at most once, and nothing is published after that |
| `MessageAssembly.PublishedCompleteExactlyOnce` | src/ai/claude_hooks.rs:743-760 | within the limits, when all chunks arrive and the text is not empty, exactly one arrival publishes the message as complete, with its whole text bounded |
| `MessageAssembly.OrderDoesNotMatter` | src/ai/claude_hooks.rs:706-742 | within the limits the record depends only on the set of chunks that arrived, not on their order or on duplicates |
| `MessageAssembly.CompleteText` | src/ai/claude_hooks.rs:706-752 | the text is always the concatenation of the first chunks, and is final exactly when all chunks arrived, then being the whole concatenation |
| `MessageAssembly.WholeExactly` | src/ai/claude_hooks.rs:706-742 | when all chunks arrive, in any order and with any duplicates, the record is final with the whole text exactly when chunks and bytes are within the limits |
| `MessageAssembly.TooManyChunks` | src/ai/claude_hooks.rs:708-713 | a message of more chunks than the limit is never final, whatever arrives |
| `MessageAssembly.TooManyBytes` | src/ai/claude_hooks.rs:715-723 | a message of more bytes than the limit never has its whole text |
| `MessageAssembly.OneChunkAllowed` | src/ai/claude_hooks.rs:708-713 | two chunks under a limit of one are not final in either order |
| `MessageAssembly.OrderMattersWhenCut` | src/ai/claude_hooks.rs:715-723 | two chunks that start differently leave different texts in the two orders whenever the second alone leaves no room for the first |
| `MessagePublication.PublishedExactly` | src/ai/claude_hooks.rs:743-760 | over any chunks and limits a chunk publishes the whole text after it, with the marker exactly when more bytes were taken than allowed, as streaming unless the message is complete; a chunk that appends nothing or leaves the text empty publishes nothing |
| `MessagePublication.StreamedExactly` | src/ai/claude_hooks.rs:743-760 | within the limits an arrival that fills the gap at the front publishes the text up to the first chunk still missing, as streaming while one is; every other arrival publishes nothing |
| `MessagePublication.RecordFollowsAccount` | src/ai/claude_hooks.rs:706-742 | the record follows from an account that keeps a longest fitting prefix of every chunk taken and never drains: text, progress, completeness and the truncation mark |
| `MessageAssembly.MessageRecord.Display` | src/ai/claude_hooks.rs:706-760 | the method makes exactly the accepting step and publishes what `MessagePublication.PublishedExactly` says: the whole text when it advanced, with the marker if it was cut, bounded to 49152 bytes raw and serialized |
| `MessageAssembly.MessageRecord.DrainReady` | src/ai/claude_hooks.rs:732-742 | the drain loop terminates and appends the ready chunks, stopping after a final one |
| `TextBounds.Utf8PrefixByBytes` | src/ai/claude_hooks.rs:1195-1204 | stepping back from the byte limit to a character boundary gives the longest prefix that fits |
| `TextBounds.LongestPrefixIsLongest` | src/ai/claude_hooks.rs:1195-1204 | that prefix fits the limit, and every longer prefix does not |
| `TextBounds.EncodedBytesIsEscapedLength` | src/ai/claude_hooks.rs:1296-1302 | the per-character count adds up to the byte length of the text as serialized under section 7 of RFC 8259 |
| `TextBounds.BoundedText` | src/ai/claude_hooks.rs:1279-1294 | the text is returned unchanged if it fits the budget, otherwise as the longest fitting prefix and the marker; raw and serialized lengths never exceed 49152 bytes |
| `DeduplicationKeys.KeyRoundTrip` | src/ai/claude_hooks.rs:1253-1273 | a length-prefixed key decodes to its prefix and components, for every colon-free prefix and any components |
| `DeduplicationKeys.KeysInjective` | src/ai/claude_hooks.rs:1253-1273 | two keys are equal exactly when prefixes and all components are |
| `DeduplicationKeys.SubagentToolKeysInjective` | src/ai/claude_hooks.rs:1218-1225 | nested keys are equal exactly when session, agent and tool are |
| `DeduplicationKeys.ToolKindsDisjoint` | src/ai/claude_hooks.rs:639-647 | a tool of a subagent and a tool of the session itself never share a key |
| `DeduplicationKeys.MessageKeysInjective` | src/ai/claude_hooks.rs:1261-1273 | message keys are injective and never coincide with two-component keys of the same prefix |
| `RegistryCore.DropValid` | src/ai/claude_hooks.rs:2937-2964 | removing any set of nonces keeps order, index and registrations consistent under either policy for forgetting keys |
| `RegistryCore.InsertValid` | src/ai/claude_hooks.rs:1765-1799 | inserting a fresh nonce with the next generation keeps the registry consistent under either policy |
| `RegistryCore.OneCurrentPerKey` | src/ai/claude_hooks.rs:2900-2916 | at most one registration per session key is current |
| `RegistryCore.IndexNoLarger` | src/ai/codex_hooks.rs:574-603 | the latest-generation index is no larger than the registrations |
| `RegistryCore.OrderCountsRegistrations` | src/ai/claude_hooks.rs:2918-2942 | the eviction order has exactly as many entries as there are registrations |
| `RegistryOrder.StaysExactly` | src/ai/claude_hooks.rs:1742-1749 | when the order is that of the generations, making room keeps exactly the registrations than which fewer are newer than the limit leaves room for |
| `RegistryOrder.MakeRoomLeaves` | src/ai/claude_hooks.rs:1742-1749 | making room leaves exactly the end of the order |
| `ClaudeRegistry.RunValid` | src/ai/claude_hooks.rs:1741-1793 | every reachable Claude registry is consistent and within its limit |
| `ClaudeRegistry.ReachableSizes` | src/ai/claude_hooks.rs:1741-1793 | in every reachable state the order lists each live nonce once, sizes are within the limit, the index holds exactly the keys in use, and one registration per key is current |
| `ClaudeRegistry.NeverCurrentAgain` | src/ai/claude_hooks.rs:2900-2964 | an issued registration that is not current is not current in any later state |
| `ClaudeRegistry.EndedNeverCurrentAgain` | src/ai/claude_hooks.rs:1741-1793 | a registration that a step supersedes or removes, or that expires or is evicted, is not current in any later state |
| `ClaudeRegistry.BoundIdIsWriteOnce` | src/ai/claude_hooks.rs:2253-2266 | over every run and all ingestion paths the provider session id of a registration, once set, never changes, nor does its seal |
| `ClaudeRegistry.BoundIdIsExpected` | src/ai/claude_hooks.rs:2342-2368 | a registration made without a carried id is only ever bound to the id its seal expects |
| `ClaudeRegistry.IngressCarriesBoundId` | src/ai/claude_hooks.rs:2813-2859 | every event that HTTP ingress admits carries exactly the bound id of a current registration, bound already unless it is a session start |
| `ClaudeRegistry.AdmittedEventsAgree` | src/ai/claude_hooks.rs:2211-2272 | over a whole run all events that HTTP ingress admits for one registration carry one and the same id |
| `ClaudeLifetimes.OrderIsChronological` | src/ai/claude_hooks.rs:1741-1793 | in every reachable state the eviction order is the order of registration |
| `ClaudeLifetimes.MakesWayExactly` | src/ai/claude_hooks.rs:1741-1749 | in every run a new registration makes another one go exactly when that one has expired, or the unexpired ones made after it fill the registry |
| `ClaudeLifetimes.RegistersExactly` | src/ai/claude_hooks.rs:1731-1804 | a registration succeeds exactly when there is a nonce and a generation left; it is then current, of the next generation, with the given seal and carried id, and not activated |
| `ClaudeLifetimes.CurrentExactly` | src/ai/claude_hooks.rs:2900-2964 | in every run a current registration is current later exactly when no step in between ended it: another registration of its key, its removal, its expiry at a cleanup, or newer ones that filled the registry |
| `ClaudeIngress.IngressExactly` | src/ai/claude_hooks.rs:2211-2272 | HTTP ingress admits an event exactly when it is bounded, parses, is known and gives a valid id, its registration is unexpired, current and sealed, and it starts the session with an id that seal and binding allow or carries the bound id; it then binds that id and touches no other registration |
| `ClaudeIngress.AdmittedExactly` | src/ai/claude_hooks.rs:2211-2272 | in every run, once an event was admitted for a registration, a later one is admitted exactly when no step in between ended the registration, it has not expired, and the event is well formed and carries the same id |
| `ClaudeIngress.BindsExactly` | src/ai/claude_hooks.rs:2342-2368 | over all steps a bound id stays, and an unbound registration is bound exactly by an allowed session start through ingress, reduction or correlated delivery, to the id of the event |
| `ClaudeIngress.CorrelatedExactly` | src/ai/claude_hooks.rs:1929-2018 | a correlated delivery succeeds exactly when it presents seal, generation and binding of a current registration and a valid id that seal and binding allow |
| `ClaudeIngress.AdmitsExactly` | src/ai/claude_hooks.rs:2156-2209 | a relay call is admitted exactly for an unexpired registration, and a refusal drops exactly the expired ones |
| `ClaudeIngress.ActivatesExactly` | src/ai/claude_hooks.rs:2368-2380 | a registration is activated exactly by the reduction of an allowed session start that did not degrade |
| `ClaudeIngress.UnrenewedExpiry` | src/ai/claude_hooks.rs:1775-1785 | over any run without a renewal a registration is not activated and expires after the smaller of lifetime and activation grace |
| `ClaudeIngress.RenewedExpiry` | src/ai/claude_hooks.rs:2156-2209 | over any run a renewed registration is activated and expires one lifetime after its last renewal |
| `ClaudeHookRegistry.HookRegistry.RegisterAt` | src/ai/claude_hooks.rs:1731-1804 | drops the expired, evicts the oldest while full and inserts the new registration as the latest of its key, or fails when nonces or generations run out |
| `ClaudeHookRegistry.HookRegistry.RemoveRegistration` | src/ai/claude_hooks.rs:2937-2964 | removes one nonce from map and order, and the key from the index when nothing else uses it |
| `ClaudeHookRegistry.HookRegistry.RemoveExpiredAt` | src/ai/claude_hooks.rs:2918-2935 | removes exactly the expired registrations, whatever order the map yields them in, and reports each of them once |
| `ClaudeHookRegistry.HookRegistry.EvictOldest` | src/ai/claude_hooks.rs:1742-1749 | the eviction loop makes room by dropping the oldest registrations and reports each of them once |
| `ClaudeHookRegistry.HookRegistry.UnregisterNonce` | src/ai/claude_hooks.rs:2497-2509 | removes the registration of a nonce and reports its key |
| `ClaudeHookRegistry.HookRegistry.UnregisterExactly` | src/ai/claude_hooks.rs:2511-2535 | removes the registration, and reports its key, only if nonce, key and generation all match |
| `ClaudeHookRegistry.HookRegistry.AdmitAt` | src/ai/claude_hooks.rs:2156-2209 | admits current, unexpired registrations, extends an activated one and drops the expired on expiry |
| `ClaudeHookRegistry.HookRegistry.AdmitIngressAt` | src/ai/claude_hooks.rs:2211-2272 | the method makes the ingress step, which admits exactly the events of `ClaudeIngress.IngressExactly` and binds the id when none is bound |
| `ClaudeHookRegistry.HookRegistry.ReduceAdmitted` | src/ai/claude_hooks.rs:2295-2380 | binds the official id of a session start unless it conflicts with seal or binding, and reports promotion exactly when the registration becomes active |
| `ClaudeHookRegistry.HookRegistry.BindCorrelatedAt` | src/ai/claude_hooks.rs:1929-2018 | binds the observed id only for the sealed, current registration with the expected id, and refuses rebinding |
| `ClaudeHookRegistry.HookRegistry.IsCurrentRegistration` | src/ai/claude_hooks.rs:2900-2916 | true exactly for the registration that nonce, key, generation and index agree on |
| `GenerationFence.RunSafe` | src/ai/claude_hooks.rs:2652-2695 | in every interleaving of gated writers, readers and publishers the gate has no reader beside a writer, running bodies are current and the log is not ahead of the index |
| `GenerationFence.PublishesOnlyWhileCurrent` | src/ai/claude_hooks.rs:2697-2712 | in every interleaving of register, unregister, expiry and publisher threads a `publish_if_current` body runs only while its registration is current |
| `GenerationFence.PublishedGenerationsNeverDecrease` | src/ai/claude_hooks.rs:2697-2712 | the generations published for one session key never decrease |
| `GenerationFence.WeakBodyNotSuperseded` | src/ai/claude_hooks.rs:2605-2625 | a `publish_if_not_superseded` body runs while no newer generation of its key is indexed |
| `GenerationFence.WeakGateExact` | src/ai/claude_hooks.rs:2605-2625 | once a generation was superseded, the weaker test passes it in a later state of any interleaving exactly when no registration of the key is left |
| `GenerationFence.WeakTestExact` | src/ai/claude_hooks.rs:2605-2625 | a publisher that tests a superseded generation starts its body exactly when the key is unused |
| `GenerationFence.WeakBodyOnlyWhenUnused` | src/ai/claude_hooks.rs:2605-2625 | as long as a body of a superseded generation runs, its key is unused |
| `GenerationFence.WeakBodiesDecreaseOnlyWhenUnused` | src/ai/claude_hooks.rs:2605-2625 | the generations of two such bodies of one key decrease only where the key is unused |
| `GenerationFence.WeakGateForgets` | src/ai/claude_hooks.rs:2605-2625 | one such run: two registrations of a key are made and unregistered, and the older generation passes |
| `GenerationFence.EntryDecides` | src/ai/claude_hooks.rs:2697-2712 | in every interleaving the body of `publish_if_current` runs exactly when the registration was current as the thread entered the gate |
| `GenerationFence.WeakEntryDecides` | src/ai/claude_hooks.rs:2605-2625 | in every interleaving the body of `publish_if_not_superseded` runs exactly when no newer generation was indexed as the thread entered |
| `CodexRegistry.RunValid` | src/ai/codex_hooks.rs:561-620 | every reachable Codex registry is consistent and within its limit |
| `CodexRegistry.ReachableSizes` | src/ai/codex_hooks.rs:561-620 | the order lists each live nonce once, sizes are within the limit, every indexed generation is that of a current registration, and one per key is current |
| `CodexRegistry.NeverCurrentAgain` | src/ai/codex_hooks.rs:499-516 | an issued registration that is not current is not current in any later state |
| `CodexRegistry.EndedNeverCurrentAgain` | src/ai/codex_hooks.rs:561-711 | a registration that a step supersedes, removes or evicts is not current in any later state |
| `CodexRegistry.BoundIdIsWriteOnce` | src/ai/codex_hooks.rs:833-840 | over every run the provider session id of a registration, once set, never changes |
| `CodexRegistry.BoundIdIsExpected` | src/ai/codex_hooks.rs:899-923 | a registration made for an exact resume is only ever bound to the expected id |
| `CodexRegistry.PublishedCarriesBoundId` | src/ai/codex_hooks.rs:899-942 | every known event that is published carries exactly the bound id of a current registration, bound already unless it is a session start |
| `CodexRegistry.PublishedEventsAgree` | src/ai/codex_hooks.rs:791-858 | over a whole run all known events published for one registration carry one and the same id |
| `CodexLifetimes.OrderIsChronological` | src/ai/codex_hooks.rs:561-620 | in every reachable state the eviction order is the order of registration |
| `CodexLifetimes.MakesWayExactly` | src/ai/codex_hooks.rs:561-620 | in every run a new registration makes another one go exactly when 127 newer ones are registered |
| `CodexLifetimes.RegistersExactly` | src/ai/codex_hooks.rs:561-620 | a registration succeeds exactly when there is a nonce and a generation left; it is then current, of the next generation, unbound, and expects the given id |
| `CodexLifetimes.CurrentExactly` | src/ai/codex_hooks.rs:561-711 | in every run a current registration is current later exactly when no step in between ended it: another registration of its key, its removal, or newer ones that filled the registry |
| `CodexLifetimes.DeliversExactly` | src/ai/codex_hooks.rs:791-858 | a delivery is published exactly when its registration is current, the adapter succeeds, and the event is unknown, carries the bound id, or starts an unbound session with an allowed id, which it then binds |
| `CodexLifetimes.PublishedExactly` | src/ai/codex_hooks.rs:791-858 | in every run, once a known event was published for a registration, a later known one is published exactly when no step in between ended the registration, it carries the same id and the adapter succeeds |
| `CodexFence.RunSafe` | src/ai/codex_hooks.rs:804-857 | in every interleaving of writers, deliveries and reports the gate has no reader beside a writer, and the handlers of admitted events belong to current, matching registrations |
| `CodexFence.AdmittedRunsOnlyWhileCurrent` | src/ai/codex_hooks.rs:829-857 | the handlers of an admitted event run only while its registration is current, and a known event then carries exactly the bound id |
| `CodexFence.AdmittedGenerationsNeverDecrease` | src/ai/codex_hooks.rs:829-857 | the generations of the admitted events handled for one session key never decrease |
| `CodexFence.EntryDecides` | src/ai/codex_hooks.rs:804-857 | in every interleaving the handlers of a delivery run exactly when its registration was current as it entered the gate, the adapter succeeds and the identity is admitted |
| `CodexReports.EndedCallExactly` | src/ai/codex_hooks.rs:816-828 | from a reachable state in which a delivery has entered, some continuation calls its handler while its registration is not current exactly when the registration is current now and the delivery is an exact-resume mismatch |
| `CodexReports.OlderAfterNewer` | src/ai/codex_hooks.rs:817-826 | a run in which the handler of generation two of a key is called and then that of generation one, whose registration has ended |
| `CodexReports.ResumeFailedExactly` | src/ai/codex_hooks.rs:899-923 | a delivery fails as an exact resume exactly when its registration is current, unbound and expects another id than a session start names |
| `CodexRegistry.HookRegistry.RegisterExpected` | src/ai/codex_hooks.rs:561-620 | evicts the oldest while full and inserts the new registration as the latest of its key |
| `CodexRegistry.HookRegistry.Remove` | src/ai/codex_hooks.rs:696-711 | removes one nonce, and the key from the index only when the removed generation was the latest |
| `CodexRegistry.HookRegistry.AdmitAndPublish` | src/ai/codex_hooks.rs:791-858 | publishes only for a current registration and an admitted identity, and binds only after the adapter succeeded |
| `ShellTokens.TokenizeShellCommand` | src/ai/claude_hooks.rs:3933-4051 | the nested loops with lookahead compute the tokens, spans and errors of the one-character machine, which reads exactly the commands of the grammar (`ShellParsing.ReadExactly`) |
| `ShellParsing.ReadExactly` | src/ai/claude_hooks.rs:3933-4051 | for each shell a command is read as given words exactly when it is a text of the grammar that means them: words of plain characters, escapes and quoted pieces, with blanks between them |
| `ShellParsing.AcceptedIsLegal` | src/ai/claude_hooks.rs:3933-4051 | every command that the tokenizer accepts is one of the grammar |
| `ShellReading.CommandIsRead` | src/ai/claude_hooks.rs:3933-4051 | every command of the grammar is read as the words that it means, double-quoted POSIX text with escaped quotes and backslashes included |
| `ShellReading.OperatorIsRefused` | src/ai/claude_hooks.rs:4019-4022 | under each shell, a command that continues outside quotes and escapes with one of the seven operators, a line break, or the comment or substitution character of the shell is refused, whatever follows |
| `ShellReading.QuotedOperatorIsRefused` | src/ai/claude_hooks.rs:3964-3975 | inside quotes a line break, and a backtick in POSIX double quotes, is refused |
| `ShellReading.OpenQuoteIsRefused` | src/ai/claude_hooks.rs:4039-4041 | a command that ends inside quotes is refused |
| `ShellReading.OpenEscapeIsRefused` | src/ai/claude_hooks.rs:4031-4033 | a command that ends behind an escape character is refused |
| `ShellReading.EmptyWordIsRefused` | src/ai/claude_hooks.rs:4042-4044 | a command with a word that means nothing is refused |
| `ShellReading.BlankCommandIsRefused` | src/ai/claude_hooks.rs:4047-4049 | a command of blanks is refused |
| `ClaudeCommand.QuoteRoundTrip` | src/ai/claude_hooks.rs:4053-4059 | a quoted value is tokenized back to itself as one word exactly when it is in the shell's safe class |
| `ClaudeCommand.TokensLocated` | src/ai/claude_hooks.rs:3933-4051 | the span of every token is where its reading starts and ends, between the tokens before and after it |
| `ClaudeRewrite.FindSettingsArgument` | src/ai/claude_hooks.rs:3857-3896 | finds the one settings argument, in either form, with its span, and refuses a missing value or a second argument |
| `ClaudeRewrite.ReplaceSettingsMeaning` | src/ai/claude_hooks.rs:3754-3762 | the rewritten command is read as the original words with the settings argument replaced by `--settings` and the path exactly when the path is safe for the shell, and a second search of those words finds exactly that path |
| `ClaudeRewrite.AppendSettingsMeaning` | src/ai/claude_hooks.rs:3763-3774 | without a settings argument the rewritten command is read as the original words followed by `--settings` and the path exactly when the path is safe and the command does not end in an escaped whitespace character |
| `ClaudeSpaces.QuotedFirst` | src/ai/claude_hooks.rs:4053-4059 | a quoted value that the tokenizer reads as the first word, whatever follows it, is in the shell's safe class |
| `ClaudeSpaces.WordsHold` | src/ai/claude_hooks.rs:3933-4051 | the words of a command have no more whitespace and ends than its text provides |
| `ClaudeRewrite.AppendMeaning` | src/ai/claude_hooks.rs:4081-4102 | for every list of arguments the new command is read as the old words and the arguments exactly when all arguments are safe and the command does not end in an escaped whitespace character |
| `ClaudeRewrite.ClaudeArgumentStart` | src/ai/claude_hooks.rs:3898-3931 | the loop finds where the arguments of a directly recognized Claude command start, within the tokens |
| `ClaudeRecognition.RecognizedExactly` | src/ai/claude_hooks.rs:3898-3931 | a command is recognized exactly when its first word names Claude, in any directory and any case, or names npx and is followed by yes flags and the package with or without a version; the arguments start behind that |
| `ClaudeRecognition.SettingsExactly` | src/ai/claude_hooks.rs:3857-3896 | a list of arguments has no settings argument, exactly one, which is found with its place and value in either form, or is ambiguous |
| `ClaudeRecognition.SettingsMissing` | src/ai/claude_hooks.rs:3857-3896 | a settings flag at the end of the arguments, or with nothing behind its equals sign, lacks its value |
| `ClaudeRecognition.ReadCommand` | src/ai/claude_hooks.rs:3898-3931 | every nonempty list of words has the form of which `RecognizedExactly` speaks |
| `ClaudeRecognition.ReadItems` | src/ai/claude_hooks.rs:3857-3896 | every list of words has one of the forms of which `SettingsExactly` and `SettingsMissing` speak |
| `ClaudeRewrite.AppendClaudeMeaning` | src/ai/claude_hooks.rs:4063-4102 | the same for every command and list of arguments that the source accepts, under each shell |
| `ClaudeRewrite.AppendPosixMeaning` | src/ai/claude_hooks.rs:4063-4102 | under a POSIX shell every argument that the source accepts is safe, so only the escaped whitespace character remains |
| `ClaudeRewrite.EscapedSpaceRunsOn` | src/ai/claude_hooks.rs:4081-4084 | the source accepts a command `claude` whose last word ends in an escaped space, and what it appends does not become words of its own |
| `CodexCommand.SplitCommandLine` | src/ai/codex_cli.rs:54-87 | the loop with lookahead computes the tokens or the error of the one-character machine |
| `CodexSplitting.SplitExactly` | src/ai/codex_cli.rs:54-87 | a command is split into given words exactly when it is a sequence of gaps, plain characters and quoted pieces that means them; empty words are dropped |
| `CodexSplitting.OperatorIsRefused` | src/ai/codex_cli.rs:54-87 | an operator outside quotes is refused, whatever stands before and after it |
| `CodexSplitting.OpenQuoteIsRefused` | src/ai/codex_cli.rs:54-87 | a quote that is not closed is refused |
| `CodexCommand.PosixRoundTrip` | src/ai/codex_cli.rs:110-115 | splitting undoes POSIX quoting exactly for lists of nonempty tokens |
| `CodexCommand.CmdRoundTrip` | src/ai/codex_cli.rs:103-109 | splitting undoes cmd quoting exactly for nonempty tokens that do not end in a backslash |
| `CodexCommand.PowerShellNeverSplits` | src/ai/codex_cli.rs:95-102 | a PowerShell command is refused by the splitter, whatever its tokens |
| `CodexCommand.BuiltCommandSplits` | src/ai/codex_hooks.rs:1100-1167 | under a POSIX shell the built command splits into the user's tokens, then the config overrides, then the hook arguments |
| `CodexCommand.BuiltCmdCommandSplits` | src/ai/codex_hooks.rs:1100-1167 | under cmd it splits in the same way exactly when neither a user token nor an override value ends in a backslash |
| `CodexCommand.HookOverrideReads` | src/ai/codex_hooks.rs:1169-1175 | both TOML strings of an override are read back as the two commands, each where it stands |
| `TomlStrings.TomlBasicString` | src/ai/codex_hooks.rs:1052-1072 | the loop writes the escaped text between quotes |
| `TomlStrings.BasicStringRoundTrip` | src/ai/codex_hooks.rs:1052-1072 | every written string is read back as the original under the basic-string rules of TOML v1.0.0, leaving what follows it |
| `GenerationRuns.RunValid` | src/browser/generation.rs:275-424 | whatever the book answers, in every reachable state a queue with queued tickets has an active one, holds at most 32, and every held ticket is its own and has a request id of its own |
| `GenerationRuns.AcceptedExactly` | src/browser/generation.rs:310-339 | a ticket is accepted exactly when the book shows its generation, that generation was not recovered from, and its queue holds its request id |
| `GenerationRuns.GoneStaysGone` | src/browser/generation.rs:310-357 | an issued request id that no queue holds is refused by acceptance and completion in every later state |
| `GenerationRuns.RetiredNeverAccepted` | src/browser/generation.rs:341-424 | a ticket that left its queue, by whatever event and whatever that event replied, is refused in every later state |
| `GenerationRuns.RetiredExactly` | src/browser/generation.rs:341-527 | an id is retired exactly when its ticket leaves a queue: by completion as the oldest, or with its whole queue |
| `GenerationRuns.CompletionRetires` | src/browser/generation.rs:341-357 | a completion retires its ticket |
| `GenerationRuns.CancellationRetires` | src/browser/generation.rs:359-382 | a cancellation retires the tickets it reports |
| `GenerationRuns.RecoveryRetires` | src/browser/generation.rs:384-424 | a recovery that gets past the drop retires what the queue held, even if the book then refuses it |
| `GenerationRuns.ClosingRetires` | src/browser/generation.rs:474-496 | closing retires what the removed queues held, also when it stops before the last one |
| `GenerationRuns.CreationRetires` | src/browser/generation.rs:190-217 | a new context retires what the queue it replaces held |
| `GenerationRuns.ArrivalOrder` | src/browser/generation.rs:275-357 | in every run the tickets minted for a context are, in order, those that left its queue followed by those it holds: first in, first out, and nothing lost |
| `GenerationRuns.CompletesTheOldest` | src/browser/generation.rs:341-357 | a completion ends the oldest ticket and hands back the next oldest |
| `GenerationRuns.OrphansAreUnreachable` | src/browser/generation.rs:468-527 | in no run does an operation fail with `QueueOrphan`, and `has_orphans` is false in every reachable state |
| `GenerationRuns.ClosedRemovesTask` | src/browser/generation.rs:474-496 | closing a task successfully removes all its queues and leaves all others as they were |
| `GenerationReplies.EnqueuesExactly` | src/browser/generation.rs:275-308 | a ticket is minted exactly when the book shows its generation and its queue has room, and then stands last |
| `GenerationReplies.CompletesExactly` | src/browser/generation.rs:341-357 | a completion succeeds exactly for the oldest held ticket, while the book shows its generation and that was not recovered from |
| `GenerationReplies.CancelsExactly` | src/browser/generation.rs:359-382 | a cancellation succeeds exactly when book and queue agree on the generation and the book consents; it reports and drops all tickets and keeps the generation |
| `GenerationReplies.RecoversExactly` | src/browser/generation.rs:384-424 | a recovery succeeds exactly when book and queue agree on a generation below the largest and the book consents twice; the queue is then empty and of the reported generation, the next one |
| `GenerationReplies.CreatesExactly` | src/browser/generation.rs:190-217 | a context is created exactly when the book consents and there is room or it is there already |
| `GenerationReplies.ClosesExactly` | src/browser/generation.rs:474-496 | a task is closed exactly when the book consents and contradicts the generation of none of its queues |
| `GenerationReplies.GenerationCounts` | src/browser/generation.rs:384-424 | in every reachable state the generation of a queue is one more than the recoveries since its creation, and exactly the generations below it count as recovered from |
| `TaskGenerationAuthority.Authority.Create` | src/browser/generation.rs:190-217 | installs an empty queue of generation 1 within 32 contexts |
| `TaskGenerationAuthority.Authority.EnqueueTicket` | src/browser/generation.rs:275-308 | mints a ticket for the live generation at the end of its queue, or refuses |
| `TaskGenerationAuthority.Authority.CheckLive` | src/browser/generation.rs:310-339 | no refusal exactly for a ticket that is current in the book, not recovered from and still held |
| `TaskGenerationAuthority.Authority.CompleteTicket` | src/browser/generation.rs:341-357 | replaces the completed active ticket by the first queued one |
| `TaskGenerationAuthority.Authority.Drop` | src/browser/generation.rs:502-527 | empties the queue of the given generation, records its request ids as cancelled and never reports an orphan |
| `TaskGenerationAuthority.Authority.CancelLive` | src/browser/generation.rs:359-382 | drops the live generation's tickets once the book admits it |
| `TaskGenerationAuthority.Authority.RecoverLive` | src/browser/generation.rs:384-424 | drops the queue before asking the book and advances the generation only after both answers |
| `TaskGenerationAuthority.Authority.Close` | src/browser/generation.rs:474-496 | closes the task's queues in turn, stopping at the first generation mismatch, and never reports an orphan |
| `TaskGenerationAuthority.Authority.ReportsOrphans` | src/browser/generation.rs:468-472 | reports no orphans in any consistent state |
| `TaskGenerationAuthority.Authority.QueuedCount` | src/browser/generation.rs:461-466 | counts the held tickets, which are at most 32 |
| `AssetGraph.FollowReferences` | build.rs:695-738 | the worklist ends on every finite bundle and returns exactly the assets reachable from the roots through readable scripts and styles, with exactly their problems |
| `AssetGraph.ValidateAssetGraph` | build.rs:690-761 | the errors are exactly the problems of reachable assets, a failed listing and the unreachable listed assets outside `assets/wasm/`; there is none exactly when the bundle is in order |
| `AssetGraph.NoErrorsWhenInOrder` | build.rs:708-758 | no path has a problem exactly when every reachable asset is safe, hashed or allowlisted, present and readable, and every listed asset is reachable |
| `AssetNames.SafeExactly` | build.rs:686-688 | a reference is safe exactly when it has no two dots in a row, no backslash and no colon |
| `AssetNames.HashedExactly` | build.rs:997-1011 | a path is hashed exactly when it lies under `assets/` and the stem of its file name is something, a dash and eight hash characters |
| `AssetNames.ReadName` | build.rs:997-1011 | every path has a directory, stem and extension of which `HashedExactly` speaks |

## Left out

- HTTP listeners, relay subprocesses, request parsing and the drawing of random nonces: inputs of the model.
- Poisoned locks: a lock is always obtained.
- Saturation of the broker's generations and reservation numbers: each grows by one per call, so they are unbounded in `Attachments`; the revision, which a snapshot can set, does saturate.
- The preamble text, prompt classifier and `dirty_projections` of the broker: text formatting and a read-only view; whether an input opens a prompt is a Boolean.
- Bodies of annotations beyond an opaque string, and the methods of browser snapshots.
- Token spans count characters rather than bytes; all offsets used are character boundaries.
- Recognition of loopback URLs: a parameter.
- Error messages: each kind of error is one constructor.
- Reading and merging of settings files, and the choice of the overlay path.
- Eviction of whole message records, tool records and the other hook reductions of the reducer.
- The fields of a correlation binding: compared as a whole.
- Cleanup paths, degraded-ingress marks and the events of the Claude registry that are dispatched outside `publish_if_current`: nothing is claimed about when those handlers run.
- Fencing for `publish_if_not_superseded`: false, as shown above.
- `identify_recording`, `identify_recipe`, `open_tab` and `health` of the generation authority: they change only the book, after the same acceptance test.
- Extraction of references from scripts and styles, and the directory scan: parameters of the asset graph.
- Shell names in the Codex quoting: the lower-case file stem is given.
- `src/browser/operation_queue.rs`, telemetry buffers, secret custody, the host binaries, rendering and image cropping: easier repeats of these shapes, or dominated by the operating system.
