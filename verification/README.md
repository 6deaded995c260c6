# Verified model of the Touch ID host transaction

This Dafny project models the fail-closed core of a Linux stack for the Touch ID sensor of Macs with a
T2 chip, and proves properties of the model. `dafny verify dfyconfig.toml` checks all of it.

The stack keeps biometric host components (`user`, `master` and `biolockout` archives) in a directory and
changes them by a two-phase commit: files are staged in `prepare/`, one directory rename turns it into
`commit/`, and the files are then promoted into the root. Brokers drive this commit together with an
append-only journal of milestones and with commands to the secure processor. The modules follow that
structure:

- **Host transaction.** `HostWorld` is a small-step file system: a machine remembers every world it was
  in, each step may be cut off or fail before or after it took effect, and a power cut falls back to any
  world issued at or after the last sync. `CatacombStore` gives the meaning of the store's operations as
  runs through such worlds and proves what they promise; `StoreOperations` performs the steps and the checks before them, with
  torn writes, and is proved to follow those runs and to leave nothing unsynchronised behind.
- **Brokers.** `ExternalDelete`, `RenameRecovery` and `CatacombSync` compose the store with a journal,
  for runs interrupted and restarted in any way. `SyncJournal` is the automaton of the sync journal,
  with the exact language that it accepts.
- **Archives.** `ArchiveGraph` proves the reachability search exact. `CatacombCodec` is the strict
  decoder, `CatacombBuilder` the deterministic builder that it inverts, `CatacombEdits` and
  `CatacombComponents` the typed edits, and `CatacombOracle` the independently written second reader.
- **Keybag state.** `DerIntegers` and `KeybagState`: a strict decoder of DER (ITU-T X.690) and the
  encoder that it inverts.
- **Wire agreement.** `AksProtocol`: request builders in user space against checkers in the kernel, both
  in C. `AcmProtocol`, `AcmLifecycle` and `AcmDevice`: builders and validator in Python, the allow list
  and the lease tables of the kernel, and the bracket around one authorized context.
- **Protocol machines.** `BridgeWire` (framing and callbacks), `BridgeLease`, `CatacombBridge`,
  `BioLockoutBridge` and `PersistenceRouter` (persistence traffic), `EnrollmentBridge` (commands and
  event queue), `CatacombProtocol` (descriptors, state records, save plan) and `Fprintd` (claim and
  operations of the fingerprint service as interleaved coroutines).

Conventions. Python exceptions and C error returns are the `Err` of a `Result`, or a `Status` where the
operating system is involved. What comes from outside (the secure processor, the operating system, the
bus, callbacks) is chosen arbitrarily in each step, is a parameter, or is an arbitrary function of the
number of the step. Digests and archive validity are
arbitrary functions. Loops and updates in place are methods proved against functions; the functions carry
the laws.

Results that differ from what a reader of the code may expect:

- `host_commit_possible` in the external-deletion journal is computed from the presence of `commit/`. It
  tells whether the commit boundary was crossed if and only if the root is not completely replaced
  (`ExternalDelete.Operation.FlagExact`). `ExternalDelete.FalseFlag` is a run of the broker that journals
  the false flag: only the synchronisation after the removal of `commit/` fails. The verdicts of the
  recovery do not use the flag and are proved truthful.
- The journal of external deletion accepts an abort after a commit if an ambiguity stands between them
  (`ExternalDelete.AbortAfterCommit`). No run of the broker writes such a journal, since both verdicts are
  true of the root (`ExternalDelete.Broker.Lifetime`).
- A user archive without identities decodes, but no edit can write one back: the rebuilt graph holds
  sensor objects that nothing refers to (`CatacombComponents.EmptyDecodesButCannotBeEdited`).
- Recovery of the store succeeds at every step boundary, but refuses a torn file in `prepare/` unless the
  torn prefix happens to be valid with the journaled digest; `CatacombStore.RecoverOutcome` states the
  exact condition. The root is the old one in every such world.
- A failed preparation poisons the Catacomb transport but not the connection: one lockout export may still
  follow it, and in `PersistenceRouter.ExportAfterFailedPreparation` does.
- A stop in the fingerprint service clears its handle after a suspension, whatever the handle holds by then,
  both for verifications and for enrollments (the stop of the enrollment client). The handles are always
  exclusive, but an operation may run without one. A step loses track of an operation if and only if it
  ends a stop while the handle holds an operation that is still running, or cancels a stop of the enrollment
  client past its sending of the cancellation while one is running (`Fprintd.Device.Step`,
  `Fprintd.Device.Cancelled`); an operation lost by the end of a stop is another than the one that the
  stop had found. Without such a step every running operation has its handle and at most one runs
  (`Fprintd.Device.Interleave`). Both losses occur: `Fprintd.ReleaseLosesVerification` (a release between
  the request to verify and the end of its projection) and `Fprintd.LateStopLosesEnrollment` (two
  overlapping stops). A dispatched deletion always has its handle.

## Model

| member | source | states |
|---|---|---|
| CatacombStore.AllOrNothing | src/t2_catacomb_store.py:303-349 | a complete transaction stopped after any step of the crossing, then recovered with any number of interrupted attempts, ends with all staged names new exactly when the directory rename had happened, every other name untouched, no transaction directory, and a further recovery is clean and empty |
| CatacombStore.RecoverOutcome | src/t2_catacomb_store.py:267-349 | from every world of a transaction, recovery succeeds if and only if no prepared file is damaged; it then ends in the old or the new root; a refusal has changed nothing; the returned action names the direction |
| CatacombStore.BoundaryRecovers | src/t2_catacomb_store.py:339-349 | recovery succeeds from every crash at a step boundary, where no staged file is torn |
| CatacombStore.CutRecovery | src/t2_catacomb_store.py:267-349 | what a recovery leaves when it is cut off after any step is again a recoverable world of the same transaction |
| CatacombStore.AttemptsStay | src/t2_catacomb_store.py:339-349 | any number of cut-off recoveries keeps the transaction, its direction and the journal |
| CatacombStore.DiscardCompletes | src/t2_catacomb_store.py:267-301 | discarding against any journaled part of the digests succeeds exactly when no prepared file is damaged, and then ends with the old root |
| CatacombStore.RollForwardCompletes | src/t2_catacomb_store.py:254-337 | rolling forward never refuses past the boundary, ends with the new root, and each step uses up work |
| CatacombStore.CrossCompletes | src/t2_catacomb_store.py:303-337 | crossing with a complete prepare/ ends with the new root through worlds past the boundary only |
| CatacombStore.PromoteCompletes | src/t2_catacomb_store.py:317-337 | the promotion loop, from any remaining subset, ends with the new root under a strictly falling measure |
| CatacombStore.UnlinkAllDiscards | src/t2_catacomb_store.py:295-301 | the unlinking loop ends with the old root and no prepare/, under a strictly falling measure |
| CatacombStore.Conservation | src/t2_catacomb_store.py:314-337 | past the boundary the new bytes of each staged name are in exactly one of commit/ and the root, and prepare/ is gone |
| CatacombStore.RootStaysValid | src/t2_catacomb_store.py:45-55 | every component present in the root is valid in every world of a transaction |
| CatacombStore.CrossActs | src/t2_catacomb_store.py:242-312 | for every world, the rename of the crossing is taken exactly if prepare/ holds exactly the expected names, each a permitted, valid file with its journaled digest, and commit/ is absent or empty; otherwise nothing is changed |
| CatacombStore.DiscardActs | src/t2_catacomb_store.py:267-301 | for every world, a discard removes prepare/ whole exactly if the names are permitted and bind the given digests, and every file in prepare/ is one of them, valid and with its digest where one is given; otherwise nothing is changed |
| CatacombStore.RollForwardActs | src/t2_catacomb_store.py:254-265 | for every world, a roll-forward promotes what is in commit/ exactly if nothing else is there and every expected name is in commit/ or else in the root, valid and with its digest; otherwise nothing is changed |
| StoreOperations.ValidateComponent | src/t2_catacomb_store.py:45-55 | the checks of one component: permitted name, size and decoder |
| StoreOperations.ValidatePrepare | src/t2_catacomb_store.py:242-252 | the loop over prepare/ accepts exactly the condition of the crossing |
| StoreOperations.ValidateCommit | src/t2_catacomb_store.py:254-265 | the loop over the expected names accepts exactly the condition of a roll-forward |
| StoreOperations.ValidateDiscard | src/t2_catacomb_store.py:267-294 | the loop over prepare/ accepts exactly the condition of a discard |
| StoreOperations.CollectCommitted | src/t2_catacomb_store.py:185-205 | the loop over the root returns the complete root exactly when no transaction is pending and every component is valid |
| StoreOperations.Store.BeginStage | src/t2_catacomb_store.py:100-111 | creates prepare/ durably, exactly for a nonempty permitted name set and no pending transaction |
| StoreOperations.Store.StageComponent | src/t2_catacomb_store.py:84-134 | every world on the way holds a prefix of the component in prepare/; on return it is complete and durable; refused exactly when the component or the directory is not acceptable |
| StoreOperations.Store.ReadCommittedComponents | src/t2_catacomb_store.py:184-205 | returns the complete root exactly when no transaction is pending and every component is valid |
| StoreOperations.Store.DiscardPrepare | src/t2_catacomb_store.py:267-301 | its steps, however they fail, are a prefix of the specified discard; complete and durable on return |
| StoreOperations.Store.RollForward | src/t2_catacomb_store.py:314-337 | its steps are a prefix of the specified roll-forward; complete and durable on return |
| StoreOperations.Store.CrossCommitBoundary | src/t2_catacomb_store.py:303-312 | its steps are a prefix of the specified crossing, which CatacombStore.CrossActs ties to the journaled digests, and the rename is durable before anything else is touched |
| StoreOperations.Store.Recover | src/t2_catacomb_store.py:339-349 | its steps are a prefix of the specified recovery; it returns the action that the state called for |
| ExternalDelete.Broker.Lifetime | src/t2-touchid-manage.py:1111-1392 | through one broker run and any sequence of power cuts and recoveries, in every world passed through ABORTED implies the untouched before-image and HOST_COMMITTED or RECONCILED imply the staged user component with every other component unchanged, nothing pending; if the live inventory never agrees, no world has a RECONCILED record |
| ExternalDelete.Broker.Reconcile | src/t2-touchid-manage.py:1111-1259 | a normal return needs a live inventory that agrees, has replaced exactly the user component and leaves exactly the four records up to the proof; without faults a disagreement leaves the ambiguity of the read-back instead, and an agreement always succeeds |
| ExternalDelete.Broker.RecoverOperation | src/t2-touchid-manage.py:1276-1392 | a normal return appends exactly the verdict that the world calls for, past the boundary only if the live inventory agrees; a refusal is due to a torn prepared file or to the live inventory only, and without faults nothing else happens |
| ExternalDelete.Broker.Conclude | src/t2-touchid-manage.py:1345-1392 | decides by the digest of the root component: exactly the proof if it is replaced and the live inventory agrees, exactly the abort if it is untouched |
| ExternalDelete.Broker.CloseJournal | src/t2-touchid-manage.py:1216-1259 | journals the commit and then, only after a read-back that agrees with the live inventory, the proof; a read-back that does not agree leaves the ambiguity and no proof; without faults these are the only outcomes |
| ExternalDelete.Broker.ReadBack | src/t2-touchid-manage.py:1078-1108 | succeeds exactly if the root is complete, the user component has the staged digest, the others have the snapshot of the baseline and the live inventory agrees |
| ExternalDelete.Broker.ProveForward | src/t2-touchid-manage.py:1276-1344 | appends the missing commit record and, only if the live inventory agrees, the proof |
| ExternalDelete.Broker.OpenJournal | src/t2-touchid-manage.py:1142-1183 | exactly baseline and intent are journaled, over an untouched root |
| ExternalDelete.Operation.AppendedSafe | src/t2_external_delete_reconcile.py:399-600 | a true record that the journal automaton accepts keeps a safe world safe |
| ExternalDelete.JournalExactly | src/t2_external_delete_reconcile.py:399-586 | the journal is accepted if and only if it starts with a baseline, each record may follow the one before it, and commit and proof name the digest of the intent; the state is then the last record, the baseline and the intent |
| ExternalDelete.AbortAfterCommit | src/t2_external_delete_reconcile.py:494-576 | an abort after a commit is accepted when an ambiguity stands between them |
| ExternalDelete.Operation.FlagExact | src/t2-touchid-manage.py:1198-1206 | in every world of the operation host_commit_possible, which is the presence of commit/, tells whether the boundary was crossed if and only if the root is not completely replaced; a false flag leaves the old root or the new one |
| ExternalDelete.Operation.FlagUnderstates | src/t2-touchid-manage.py:1192-1206 | the false flag over a replaced root is accepted by the journal and contradicts no verdict |
| ExternalDelete.FalseFlag | src/t2-touchid-manage.py:1111-1209 | for every operation a run of the broker, from the untouched root, that fails by the last synchronisation only, journals the false flag and leaves the root replaced |
| ExternalDelete.Broker.CrossArchive | src/t2-touchid-manage.py:1194-1195 | crosses with the archive through safe worlds only; if only the synchronisation after the removal of commit/ fails, it ends with that error over the replaced root |
| ExternalDelete.Operation.FlagCommits | src/t2-touchid-manage.py:1192-1206 | when the flag is true, recovery ends with the root replaced |
| RenameRecovery.Recovery.Lifetime | src/t2-touchid-manage.py:1812-1868 | any sequence of power cuts and reruns keeps the journal and the transaction in agreement, and no attempt ends in one of the four contradiction errors |
| RenameRecovery.Recovery.RecoverTransaction | src/t2-touchid-manage.py:1812-1868 | settles with the old or the new root in the first journaled direction, unless the store refuses a torn file or an outside error intervenes, and without faults only the former; the one record is the direction of the world that was found, and it is never rewritten |
| SyncJournal.ValidateHistory | src/t2_catacomb_sync_journal.py:53-272 | the validating loop computes the automaton |
| SyncJournal.HistoryExactly | src/t2_catacomb_sync_journal.py:53-272 | a history is accepted if and only if it is lawful, which is said record by record: its length, every milestone, every key, text form and flag, and every field that repeats an earlier one; and the state is then the one that the records say |
| SyncJournal.PrefixClosed | src/t2_catacomb_sync_journal.py:53-272 | every prefix of an accepted history is accepted: one bad append makes every later read fail |
| SyncJournal.HistoryLanguage | src/t2_catacomb_sync_journal.py:53-272 | accepted histories have at most seven records and one recovery; proofs carry the original identity snapshot and name the host commit in force; a recovery is on a new connection |
| SyncJournal.ValidTracks | src/t2_catacomb_sync_journal.py:53-272 | the state after a history determines its length, its recoveries, its host commit in force and its identity snapshot |
| SyncJournal.LastIsBound | src/t2_catacomb_sync_journal.py:100-262 | the last record of an accepted history repeats the bound values of the earlier ones |
| CatacombSync.Broker.Sync | src/t2-touchid-manage.py:826-1043 | in every run and crash prefix every journal is accepted, every confirm was justified by durable host state, and an ambiguity whose flag is false implies the old root; anything happens only if exactly the user component is dirty; a normal return then needs a second inventory without a dirty component and in agreement, and leaves exactly the records up to the proof; a second inventory that disagrees never leaves a proof; without faults, with a cooperating secure processor and in agreement, it succeeds |
| CatacombSync.Broker.Recover | src/t2-touchid-manage.py:760-825 | the same for the one recovery, which acts only if bound to the ambiguous attempt and sends only if exactly the user component is dirty; where nothing is dirty it journals that and nothing else |
| CatacombSync.Lifetime | src/t2-touchid-manage.py:712-1043 | through a first attempt and any sequence of power cuts and recoveries, every journal passed through is readable, and an ambiguity that rules out a host commit stands over the root of a world in which its intent was not journaled yet; if no read-back ever agrees, no world has a RECONCILED record |
| CatacombSync.Broker.Persist | src/t2-touchid-manage.py:870-1043 | from the intent on: stage, confirm early, commit, confirm, prove; a normal return has appended exactly the commit and the proof, after a second inventory that agrees |
| CatacombSync.Broker.ExportAll | src/t2-touchid-manage.py:907-951 | the early confirm of the user component is sent only when prepare/ durably holds exactly the encoding of the exported blob over the old root |
| CatacombSync.Broker.CommitStaged | src/t2-touchid-manage.py:952-954 | both encodings are in the root, durably, when the commit returns |
| CatacombSync.Broker.ConfirmCommit | src/t2-touchid-manage.py:955-973 | the final confirm of the master component is sent only when both encodings are in the root and HOST_COMMITTED is journaled |
| CatacombSync.Broker.Prove | src/t2-touchid-manage.py:974-1019 | RECONCILED is journaled, with the original identity snapshot, only if the second inventory shows no dirty component, the identifiers agree, the components read back are the committed ones with the original identities, and the lockout record is the initial one; a refusal is a disagreement and appends nothing |
| CatacombSync.Broker.ExportAndCommit | src/t2-touchid-manage.py:905-954 | a failure before the boundary is journaled as an ambiguity without host commit, naming the step that the answers of the secure processor led to; a failure of the commit as one with it |
| CatacombSync.Broker.Conclude | src/t2-touchid-manage.py:955-1043 | a failure past the boundary is journaled as an ambiguity with host commit, naming the step: the record of the commit, the final confirm or the read-back |
| CatacombSync.Broker.Compare | src/t2-touchid-manage.py:986-1005 | the comparisons of the read-back accept exactly an inventory without dirty components that agrees, the original identities, the committed components and the initial lockout record |
| CatacombSync.Broker.NoteUnknown | src/t2-touchid-manage.py:1020-1043 | the exception handler appends only an accepted and true ambiguity, always does if only synchronisations fail and there is no verdict yet, and never reports success |
| CatacombSync.Broker.BeginAttempt | src/t2-touchid-manage.py:870-897 | a failure to create prepare/ is journaled as an abort, or in a recovery as an ambiguity without host commit |
| ArchiveGraph.ValidateReachability | src/t2_catacomb_codec.py:221-248 | the depth-first search accepts if and only if every reference met is in range, no walk from the top repeats an object, and every object but the null sentinel is met |
| ArchiveGraph.Traversal.Visit | src/t2_catacomb_codec.py:225-243 | on success the references of the value are reached and the active set is restored; a failure exhibits a flawed walk; it terminates by unvisited objects and value depth |
| ArchiveGraph.Traversal.Enter | src/t2_catacomb_codec.py:226-237 | entering one reference: the null sentinel and reached objects pass, an active or dangling one is a flawed walk |
| ArchiveGraph.WalksFall | src/t2_catacomb_codec.py:221-248 | walks from the top stay inside the finished objects with strictly falling rank |
| ArchiveGraph.Decided | src/t2_catacomb_codec.py:221-248 | a search that ran to its end has reached all objects if and only if the archive is well formed |
| CatacombCodec.ValidateAllObjects | src/t2_catacomb_codec.py:200-219 | the loop accepts exactly the object lists of permitted strings, data, numbers, instances and descriptors within the aggregate bound |
| CatacombCodec.DecodeUser | src/t2_catacomb_codec.py:130-173 | returns the contents exactly for archives that pass every check of the user schema and are well formed |
| CatacombCodec.DecodeMaster | src/t2_catacomb_codec.py:606-628 | the same for the master component of five objects |
| CatacombCodec.DecodeBioLockout | src/t2_catacomb_codec.py:691-698 | the same for the lockout record of three objects |
| CatacombBuilder.BuildRoot | src/t2_catacomb_codec.py:489-562 | the appending loop builds the archive in which object i is the specified one |
| CatacombBuilder.BuildRoundTrip | src/t2_catacomb_codec.py:489-590 | for contents in policy, decoding what is built gives back the contents exactly if there is an identity and the file size is permitted |
| CatacombBuilder.BuiltReachability | src/t2_catacomb_codec.py:489-562 | the built graph is well formed if and only if it holds an identity |
| CatacombBuilder.BuiltSchema | src/t2_catacomb_codec.py:130-173 | what is built passes every check but reachability, even without identities |
| CatacombBuilder.DecodesInPolicy | src/t2_catacomb_codec.py:107-173 | everything that decodes is in policy: bounded values, unique identities, a valid envelope |
| CatacombBuilder.OrphansWithoutIdentities | src/t2_catacomb_codec.py:496-522 | without identities exactly the identity, date, accessory, group and name objects are unreachable |
| CatacombBuilder.BuiltRanked | src/t2_catacomb_codec.py:489-562 | references of the built graph go strictly down in rank and stay in range |
| CatacombOracle.ReadUser | src/t2_catacomb_oracle.py:180-289 | the reading loop returns the specified reading |
| CatacombOracle.ReadersAgreeOnUser | src/t2_catacomb_oracle.py:33-289 | the codec accepts exactly what the second reader, with its own checks of values, accepts, that inlines nothing and lists only permitted objects; both then report the same account, keybag, secure data and identities |
| CatacombOracle.SameDescriptor | src/t2_catacomb_oracle.py:22-75 | a dictionary passes the name and chain checks of the second reader if and only if it is the descriptor that the codec writes for the class |
| CatacombOracle.SameLength | src/t2_catacomb_oracle.py:78-82 | the length of the UTF-8 encoding is what the codec counts |
| CatacombOracle.ReadersAgreeOnMaster | src/t2_catacomb_oracle.py:145-163 | the same for the master component |
| CatacombOracle.ReadersAgreeOnBioLockout | src/t2_catacomb_oracle.py:166-177 | the same for the lockout record |
| CatacombEdits.VerifyNeverFails | src/t2_catacomb_codec.py:564-590 | the read-back comparisons after encoding never fail for contents in policy: only an empty list or the file size can |
| CatacombEdits.RenameEffect | src/t2_catacomb_codec.py:376-383 | rename changes the one name and nothing else; it fails exactly for a bad name, an absent identity or an oversized result |
| CatacombEdits.DeleteEffect | src/t2_catacomb_codec.py:385-396 | delete removes the one identity, never the last; it fails exactly for an absent or last identity or an oversized result |
| CatacombEdits.AddEffect | src/t2_catacomb_codec.py:435-477 | add appends the one identity with fresh counters; the failures are characterised exactly |
| CatacombEdits.DeleteUndoesAdd | src/t2_catacomb_codec.py:385-477 | deleting the identity just added gives back the archive as it was |
| CatacombEdits.ReplaceOnlyEffect | src/t2_catacomb_codec.py:398-433 | the attested replacement of a sole identity; the failures are characterised exactly |
| CatacombEdits.ReplaceSecureDataEffect | src/t2_catacomb_codec.py:479-487 | replaces exactly the secure data; fails exactly for a bad envelope, an empty list or an oversized result |
| CatacombComponents.EmptyDecodesButCannotBeEdited | src/t2_catacomb_codec.py:479-487 | a component without identities that the decoder accepts and that no re-encoding can write back |
| CatacombComponents.MasterRoundTrip | src/t2_catacomb_codec.py:650-684 | decoding an encoded master component gives it back exactly for permitted file sizes |
| CatacombComponents.EncodeMasterEffect | src/t2_catacomb_codec.py:630-685 | re-encoding changes exactly the given parts; only a bad argument or the size can fail it |
| CatacombComponents.BioLockoutRoundTrip | src/t2_catacomb_codec.py:704-725 | decoding an encoded lockout record gives it back exactly for permitted file sizes |
| CatacombComponents.EncodeBioLockoutEffect | src/t2_catacomb_codec.py:700-726 | re-encoding replaces exactly the secure data; only a bad envelope or the size can fail it |
| DerIntegers.LengthCanonical | src/t2_aks_state.py:49-67 | a length is accepted exactly in its shortest definite form (sections 8.1.3 and 10.1 of ITU-T X.690) |
| DerIntegers.TlvCanonical | src/t2_aks_state.py:70-77 | a tagged value is accepted exactly in its canonical encoding |
| DerIntegers.MinimalOfSigned | src/t2_aks_state.py:80-91 | bytes without redundant padding are the shortest bytes of their value (section 8.3.2) |
| KeybagState.IntegerCanonical | src/t2_aks_state.py:80-96 | integer contents are accepted exactly if they are the shortest bytes of a value in range |
| KeybagState.Decode | src/t2_aks_state.py:99-207 | the decoding loop computes the specified result |
| KeybagState.Canonical | src/t2_aks_state.py:99-207 | bytes decode to a state if and only if the state is in range and the bytes are its encoding, in the order of the keys |
| KeybagState.ByKey | src/t2_aks_state.py:133-207 | the dictionary that an accepted state was read from maps the text of each key to the field of that name |
| KeybagState.DecodingIsInjective | src/t2_aks_state.py:99-207 | two byte strings that decode to the same state are the same |
| KeybagState.EntriesSound | src/t2_aks_state.py:106-131 | what the loop has read is the encoding of the entries that it has collected |
| KeybagState.EntriesComplete | src/t2_aks_state.py:106-131 | the loop reads every encoding of distinct permitted entries to its end |
| AksProtocol.BuildVerifySecret | src/t2-aks-tool.c:591-623 | fills the buffer with exactly the specified request; fails exactly for an empty, long or missing secret or a zero handle |
| AksProtocol.BuildCopyUuid | src/t2-aks-tool.c:221-230 | fills the buffer with exactly the specified request, only for session 1 and a nonzero handle |
| AksProtocol.VerifySecretAllowed | src/t2_aks_protocol.h:55-89 | the kernel checker accepts a buffer if and only if it is what the builder makes for session 1 and some permitted arguments; every read is within the given length |
| AksProtocol.VerifyAcceptsExactly | src/t2_aks_protocol.h:55-89 | the tested conditions hold exactly of the builder outputs |
| AksProtocol.VerifyArgumentsUnique | src/t2-aks-tool.c:591-623 | the arguments of a verify-secret request are unique |
| AksProtocol.CopyUuidAllowed | src/t2_aks_protocol.h:40-48 | the copy checker accepts exactly the builder outputs for session 1 and a nonzero handle |
| AksProtocol.PutLe32 | src/t2-aks-tool.c:30-36 | stores the four bytes of the word and changes nothing else |
| AksProtocol.PutLe64 | src/t2-aks-tool.c:38-42 | stores the eight bytes of the word and changes nothing else |
| AksProtocol.ReadLe32 | src/t2_aks_protocol.h:19-26 | reads the little-endian word inside the given length |
| AcmProtocol.ValidatesExactlyBuilt | src/t2_acm_protocol.py:69-192 | the validator accepts exactly the outputs of the builders and returns their opcode |
| AcmProtocol.CreateReplyExactly | src/t2_acm_protocol.py:89-100 | a creation reply parses to a handle if and only if it is the wire form of it: context, on tracked creation its payload word, and one byte, a truth value there |
| AcmProtocol.PolicyReplyRoundTrip | src/t2_acm_protocol.py:136-165 | every well-formed policy reply parses to what it says |
| AcmProtocol.PolicyReplyUnique | src/t2_acm_protocol.py:136-165 | a reply that parses is the wire form of what it parses to |
| AcmLifecycle.AllowListsAgree | src/t2_sep_transport.c:554-576 | the validator in user space and the allow list in the kernel admit the same commands |
| AcmLifecycle.OneCapacity | src/t2_acm_lifecycle.h:38-73 | every valid command has exactly one permitted response capacity and is never denied outright |
| AcmLifecycle.Lease.RecordReply | src/t2_sep_transport.c:619-649 | what each reply does to the lease: creation replies of at least 16 bytes are held, shorter ones poison, deletions clear |
| AcmLifecycle.Lease.Ioctl | src/t2_sep_transport.c:706-801 | an exchange succeeds if and only if every check passes, on the current generation and the held context, and the reply is one to deliver; the lease is then as the reply says, and a refused one changes nothing |
| AcmLifecycle.Lease.Release | src/t2_sep_transport.c:820-855 | closing the endpoint leaves no active context, poisoning it if the deletion is doubtful |
| AcmLifecycle.Lease.PoisonLease | src/t2_sep_transport.c:591-597 | poisoning changes the generation, never to zero, and drops the context |
| AcmDevice.Device.ExchangeCommand | src/t2_acm_device.py:97-154 | hands over a reply if and only if the device is open on the present generation, the command is valid with its capacity and fits what the lease holds, and the reply arrives without an error in the length that goes with the command |
| AcmDevice.Device.WithAuthorizedContext | src/t2_acm_device.py:270-349 | every run is bracketed: creation, guarded steps each after the right result of the previous one, and one deletion attempt exactly if a creation reply of at least 16 bytes was handed over; a normal return leaves no active context |
| AcmDevice.Device.Authorize | src/t2_acm_device.py:296-327 | the guarded steps, which end early exactly where the last one had the wrong result; the consumer is called only with the lease held and the final policy satisfied |
| AcmDevice.OneDeletionOneConsumer | src/t2_acm_device.py:270-349 | in a bracketed run the last event alone deletes; the consumer is called at most once, just before it, on the created context, after a preflight that asked for the passcode, its externalization, the binding and a satisfied policy |
| AcmDevice.Session | src/t2_acm_device.py:86-95 | between opening and closing the endpoint the run is bracketed, and no context is live after closing, whatever failed |
| BridgeWire.FramesExactly | src/t2_bridge_wire.py:43-52 | a stream parses as a frame and a rest if and only if it is their concatenation |
| BridgeWire.ReceiveExact | src/t2_bridge_wire.py:33-40 | returns the next bytes of the stream however they were split into nonempty pieces; otherwise the stream ended or the system raised |
| BridgeWire.ReceiveFrame | src/t2_bridge_wire.py:43-52 | receives exactly the first frame of the stream and consumes no more |
| BridgeWire.RequestWithEvents | src/t2_bridge_wire.py:93-110 | returns the reply and the payloads of exactly the callbacks before it; each was acknowledged once, in order, also when it fails midway |
| BridgeWire.ClassifyExactly | src/t2_bridge_wire.py:97-108 | an envelope is the reply if and only if it is version one, true, the identifier of the request and a payload, and a callback if and only if it is version one, false, a text and a payload |
| BridgeWire.ConversationOf | src/t2_bridge_wire.py:83-110 | whatever callbacks and reply a peer sends is what is understood, and nothing after the reply is read |
| CatacombProtocol.DescriptorsExactly | src/t2_catacomb_protocol.py:39-92 | the accepted descriptors are exactly those of the canonical components |
| CatacombProtocol.ParseStates | src/t2_catacomb_protocol.py:138-169 | the parsing loops compute the specified list |
| CatacombProtocol.ListsExactly | src/t2_catacomb_protocol.py:131-169 | state lists parse exactly from the encodings of distinct recordable states |
| CatacombProtocol.PlanExactly | src/t2_catacomb_protocol.py:172-206 | a save plan exists exactly if the master and the dirty selected user are listed and nothing else but, perhaps, the master is dirty; it is user then master |
| BridgeLease.AnswerExactly | src/t2_catacomb_bridge.py:177-220 | an answer is accepted if and only if it is a status word and bytes within the capacity, on the same generation and without events, or the one text that stands for no output where none is wanted |
| BridgeLease.PreparationExactly | src/t2_catacomb_protocol.py:279-286 | a preparation succeeds with a length if and only if the answer is status zero and that length as one word, within the bounds |
| BridgeLease.ExportExactly | src/t2_biolockout_bridge.py:78-126 | an export succeeds with a blob if and only if the answer is status zero and that blob, of 16 to 4096 bytes under its magic |
| CatacombBridge.SaveStateExactly | src/t2_catacomb_bridge.py:80-104 | a reading of the save state is accepted if and only if it is status zero and at most 4096 bytes |
| CatacombBridge.Transport.Prepare | src/t2_catacomb_bridge.py:222-239 | sends if and only if idle, with a descriptor of the length of its version, on the pinned generation; success is exactly an acceptable answer, failure after sending poisons |
| CatacombBridge.Transport.Complete | src/t2_catacomb_bridge.py:241-259 | sends only for the prepared descriptor, and then exactly on the pinned generation; the blob is that of the answer and has the prepared length |
| CatacombBridge.Transport.Confirm | src/t2_catacomb_bridge.py:261-276 | sends only for the completed descriptor, and then exactly on the pinned generation, and returns to idle |
| CatacombBridge.Transport.Dispatch | src/t2_catacomb_bridge.py:177-220 | sends one command exactly on the pinned generation; a doubtful answer or a changed generation poisons |
| CatacombBridge.CollectBuiltinSaveComponents | src/t2_catacomb_bridge.py:53-118 | reads exactly when the user and the generation permit; the result is the plan of the first reading if both are accepted and equal, and otherwise a failure, which invalidates the lease once anything was sent |
| BioLockoutBridge.Transport.Capture | src/t2_biolockout_bridge.py:78-126 | sends one export, once, exactly when ready on the pinned generation; the bytes are those of the answer; a doubtful answer poisons and invalidates the lease |
| PersistenceRouter.Router.Prepare | src/t2_enrollment_persistence_bridge.py:46-59 | keeps the traffic in the language and the states in agreement with it; on a lease that holds, with an acceptable answer, it succeeds |
| PersistenceRouter.Router.Complete | src/t2_enrollment_persistence_bridge.py:61-74 | the same; a success hands over exactly the bytes of the accepted answer, the lockout record or a blob of the prepared length; on a lease that holds, with an acceptable answer, it succeeds |
| PersistenceRouter.Router.Confirm | src/t2_enrollment_persistence_bridge.py:76-90 | the same; a lockout confirmation is local, and on a lease that holds, with an acceptable answer, a confirmation succeeds |
| PersistenceRouter.TrafficLanguage | src/t2_enrollment_persistence_bridge.py:46-90 | confirmations end whole prepare-complete-confirm triples on one descriptor, a transaction goes on with nothing else, a preparation stands first or after a settled transaction or an export, and an export stands first, after a confirmed transaction or after a failed preparation |
| PersistenceRouter.Drive | src/t2_enrollment_persistence_bridge.py:46-90 | any number of calls with any arguments keeps the language; once the Catacomb transport is poisoned they send nothing while the route is its own, and otherwise one lockout export at most |
| PersistenceRouter.ExportAfterFailedPreparation | src/t2_enrollment_persistence_bridge.py:46-74 | a run in which the lockout record is exported after a failed preparation |
| PersistenceRouter.TokenIsNoPlannedComponent | src/t2_biolockout_protocol.py:26-28 | the local routing token is the descriptor of no user and of no master component |
| EnrollmentBridge.AcceptedExactly | src/t2_enrollment_bridge.py:151-181 | an answer is accepted if and only if it is a status word with one of the forms of an empty output, and well-formed events, of which an authoritative rejection has none |
| EnrollmentBridge.Transport.NextEvent | src/t2_enrollment_bridge.py:241-270 | delivers the oldest undelivered event, from the queue or else the one that arrives, and fails exactly where the source raises: delivered followed by queued events are the accepted ones until the transport is poisoned |
| EnrollmentBridge.Transport.Dispatch | src/t2_enrollment_bridge.py:127-193 | sends exactly on the pinned generation; succeeds exactly with an accepted answer, whose events it queues in order; a doubtful answer poisons and empties the queue |
| EnrollmentBridge.Transport.Start | src/t2_enrollment_bridge.py:195-214 | enrollment is started once, first, in the selected version, exactly with a payload of its length; the outcome is that of the answer |
| EnrollmentBridge.Transport.ContinueEnrollment | src/t2_enrollment_bridge.py:216-227 | continues exactly while active, in version 1; the outcome is that of the answer |
| EnrollmentBridge.Transport.Cancel | src/t2_enrollment_bridge.py:229-239 | cancels exactly while active; the outcome is that of the answer, and nothing is sent after a cancellation |
| Fprintd.Device.Interleave | src/t2-fprintd.py:616-1220 | over all interleavings at suspension points: at most one of the three operation handles is set, the claim fields are all set or all clear, no claim was written over another, and every start was justified in its own step; and as long as no step lost track of an operation, every running operation has its handle and at most one runs |
| Fprintd.Device.Step | src/t2-fprintd.py:616-1220 | a step keeps track of every running verification and enrollment if and only if it is not the end of a stop that clears the handle of one still running |
| Fprintd.TrackedIsExclusive | src/t2-fprintd.py:764-846 | handles that follow their operations make the operations exclusive |
| Fprintd.HasHandle | src/t2-fprintd.py:1150-1213 | a dispatched deletion always has its handle, held by the request that waits for it |
| Fprintd.Device.ClaimEnters | src/t2-fprintd.py:627-649 | under the lock a live claim stays and a dead one is wound up first |
| Fprintd.Device.EvidenceCollected | src/t2-fprintd.py:660-689 | the claim is written only where no claim is, all four fields together |
| Fprintd.Device.StopArrives | src/t2-fprintd.py:737-743 | the owner alone stops or releases; the coroutine is suspended at the first operation still set, and the claim is cleared only when none is left |
| Fprintd.Device.StopVerification | src/t2-fprintd.py:923-941 | suspends at the first operation still set; clears the claim only at the end of a winding-up |
| Fprintd.Device.DepartureEnters | src/t2-fprintd.py:913-921 | only the departure of the connection of the claim winds it up |
| Fprintd.Device.UnstartedExpires | src/t2-fprintd.py:901-910 | an unused claim expires only while no operation is set |
| Fprintd.Device.StaleExpires | src/t2-fprintd.py:894-899 | a completed verification takes its claim with it only if it is still the one of the handle |
| Fprintd.Device.BackendCancelled | src/t2-fprintd.py:937-940 | cancels the task that the stop found, not the one of the handle by then; a cancelled verification ends without an expiry |
| Fprintd.Device.VerificationGathered | src/t2-fprintd.py:940-941 | goes on only after the gathered task has ended and clears the handle whatever it holds by then: a running verification loses its handle if and only if the handle holds one, and that is another than the gathered |
| Fprintd.Device.EnrollmentStopped | src/t2_fprint_worker_client.py:196-212 | the same for the task of the enrollment client |
| Fprintd.Device.EnrollmentExpired | src/t2-fprintd.py:1055-1068 | the same for the stop by an expired enrollment, which takes the claim with it |
| Fprintd.Device.VerifyArrives | src/t2-fprintd.py:764-792 | the owner reserves the verification handle only while no operation is set |
| Fprintd.Device.VerifyProjected | src/t2-fprintd.py:795-846 | a verification is started if and only if the owner still has its reservation, the projection is complete and the finger matches; otherwise the reservation is given back and the claim gets its bounded life again, with a new sleeper exactly if it had none |
| Fprintd.Device.EnrollProjected | src/t2-fprintd.py:990-1031 | the enrollment client is started if and only if the step itself found the owner, no operation and a complete projection without this finger; otherwise the claim gets its bounded life again |
| Fprintd.Device.DeleteProjected | src/t2-fprintd.py:1159-1195 | the deletion client is started if and only if the step itself found the owner and a complete projection with this finger and another; otherwise the claim gets its bounded life again |
| Fprintd.Device.Cancelled | src/t2-fprintd.py:764-1220 | what a cancellation at any suspension leaves of every field, case by case: a cancelled start leaves its reservation or its deletion and re-arms the expiry of its claim, a cancelled sleeper clears its handle, a held lock is released; it loses track of an enrollment if and only if it hits a stop of the client past the sending of the cancellation while one runs, and a request for a dispatched deletion waits for it all the same |
| Fprintd.Device.Finish | src/t2-fprintd.py:691-698 | the end of a release, a departure or a takeover clears the whole claim |
| Fprintd.ReleaseOverStart | src/t2-fprintd.py:795-941 | a release that found the start of a verification, and goes on after the start has put the operation in its place, leaves that verification running without a handle and without a claim |
| Fprintd.ReleaseLosesVerification | src/t2-fprintd.py:764-941 | the next claim may then start a second verification beside it |
| Fprintd.LateStopLosesEnrollment | src/t2_fprint_worker_client.py:98-212 | two overlapping stops, the later still sending its cancellation in a thread: it clears the task of an enrollment started meanwhile, and a second enrollment may be started beside it |

## Left out

- Ownership, modes, inode stability, the operation lock, configuration parsing and the mutation registry: assumed to pass and to give exclusive access.
- File contents are abstract where they are only hashed: sha256, UUID text and the bytes of binary property lists are arbitrary functions or bijections; a property list and its file are identified and the size of the file is a separate argument.
- Property lists whose containers refer to themselves, Python's recursion limit, and lone surrogates in strings.
- Rounding when a creation time is converted to a float; times are reals, and infinities and not-a-number are a separate value.
- Torn journal records: a record is appended whole or not at all. The journals of other operations, and the unfinished journal that a crash before the first intent leaves, are not part of this model.
- HostWorld.Machine.PowerCut: power loss keeps a prefix of the issued steps of at least the last sync, over the store and the journal together; for what a cut may lose one synchronisation covers both, and reordering of unsynced steps is not modelled. Which directories and files are left unsynchronised is tracked beside it: no operation of the store that returns adds one.
- `stage` and `read_committed_components_during_prepare` of the store, which repeat the modelled steps for other callers, and the failure hooks.
- ExternalDelete.Broker.Reconcile: the plan is a parameter (the archive) and the comparison with the live inventory is one truth value, which any read-back of the operation may find; the backup and the evidence fields that bind counts, names and generations are not modelled.
- RenameRecovery.Recovery.RecoverTransaction: the part of the recovery after the transaction is settled, and the journals of rename and persistence beyond the recovery action, the staged digests and the commit intent.
- CatacombSync.Broker.Sync: stage names keep the step but not the component; account, keybag and identifier comparisons of the read-back are one truth value; the codec is a function that may fail.
- CatacombSync.Broker.Recover: the search for the one ambiguous journal; the comparison of the SEP identifier is one truth value and those of the read-back another.
- CatacombEdits.RenameEffect: parsing of UUID text and of time zones; identities are named by 16 bytes and times are reals.
- AksProtocol.BuildVerifySecret: failure of the allocation.
- AcmLifecycle.Lease.Ioctl: capability checks, interrupted locking and failures to copy the request in, all of which return an error and change nothing.
- AcmDevice.Device.WithAuthorizedContext: the texts of errors and the wiping of buffers; callbacks are assumed not to use the device.
- AksProtocol, other operations of the tool and of the kernel transport: they have no matching checker.
- BridgeWire: the greeting and its JSON, the inner command header, and bytes that the sender's own framing puts on the wire.
- EnrollmentBridge.Transport.Start: the contents of the enrollment payload and of service events.
- BridgeLease.Lease.Invalidate: what an invalidated connection does with later commands.
- Fprintd.Device.Interleave: finger-present properties, signals, feedback, adaptive sync scheduling, match gates and the enrollment worker; whether a caller or its evidence still verifies comes from outside in every step. A suspended coroutine, a cancelled sleeper included, may be resumed or cancelled arbitrarily late, once the task that it waits for has ended; the order in which the event loop resumes coroutines that are ready is not modelled. Starting a deletion is the creation of its task.
- Command-line front ends, doctor, inventory, gates, baseline, provisioning, port discovery, D-Bus and PAM: conjunctions of checks or plumbing.
