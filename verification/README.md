# Verified model of WinProfile's transactions

WinProfile repairs and migrates Windows user profiles with administrator rights.
Everything it does is a transaction over a namespace: files and directories under
a target, child keys of the profile list, numbered log archives, marker files.
Windows offers no multi-object commit, so each transaction is a sequence of single
steps that may fail, with an undo or a resume path. This project models those
sequences and proves what they guarantee.

Each Windows call is one atomic step with an outcome from a fault schedule
(`Faults.dfy`), and theorems hold for every schedule. A call may succeed or fail
without effect. The third outcome, taking effect and still reporting a failure, is
modelled for renames, removals and marker publication in the recovery protocol and
the journal, for object creation in the migration and the snapshots, and for saving
a hive; a migration write may leave anything on the disk. A failed registry call of
the repair, and a failed deletion or audit append in the repair, the migration and the
snapshots, have no effect. "Undisturbed" clauses add the other direction: what must
succeed when no call fails, and which error is given otherwise. A transaction that
succeeds had no failing call.

| file | models |
|---|---|
| `Faults.dfy`, `Words.dfy` | fault schedules; machine words and saturating sums |
| `Protocol.dfy` | legacy-storage recovery as a state machine over durable steps |
| `MarkerLog.dfy` | the marker files of that protocol and how they are loaded |
| `LegacyRecovery.dfy` | the recovery code itself, each step of it a step of the protocol |
| `Instances.dfy` | several instances, the bootstrap lock, unlocked inspection, crashes |
| `Journal.dfy` | the rotating audit journal |
| `Repair.dfy` | the registry repair transaction and its rollback |
| `Names.dfy` | file names as UTF-16 units, their lossy display, the order of a listing |
| `FileTree.dfy`, `MigrationSpec.dfy` | file trees, the manifest, and what a migration is meant to copy |
| `CreatedObjects.dfy`, `Migration.dfy` | the stack of created objects and the copy engine with progress, cancellation and rollback |
| `PathOverlap.dfy` | path acceptance and the textual overlap test |
| `CommandLine.dfy` | the command-line printer against the splitting rules documented for `CommandLineToArgvW` |
| `DirectoryBuffer.dfy` | the chained directory-record parser, on bytes |
| `Snapshot.dfy` | all-or-nothing creation of registry snapshots |
| `CloseProtocol.dfy` | deferred window close against a running migration |

`dafny verify dfyconfig.toml` checks the whole project.

Seven results say where the code falls short of what one would expect, with the
exact condition:

- A consent is harmless to later roots only if the identity was captured before
  they existed. Inspection captures it in a separate call after refusing the root
  (`crates/audit-journal/src/legacy.rs:275-290`), so another instance may finish in
  between: `Instances.StaleConsentIsHarmless`, `Instances.LateCaptureDetaches`.
- A failed snapshot leaves a file behind without saying so exactly when the deletion
  after a failed kind check fails, whose result is discarded
  (`crates/audit-journal/src/storage.rs:461-464`), and no other deletion fails:
  `Snapshot.SnapshotEngine.CreateRegistrySnapshot`.
- A failed migration leaves an empty target behind without saying so exactly when
  everything up to its creation succeeds, its handle cannot be prepared, its deletion
  fails too, and so does the closing audit entry, whose error then replaces the one
  that names the failed deletion (`crates/core-profiles/src/migration.rs:362-368`):
  `Migration.MigrationEngine.Execute`.
- Names that differ only in unpaired surrogates are displayed alike, so they share a
  manifest line, and their order in the manifest is the system's. A manifest has its
  hash to itself exactly when no path in it is displayed with U+FFFD, and a directory
  is listed in one order exactly when no two names are displayed alike:
  `Names.DisplayTellsApart`, `Names.OrderIsImmaterial`, `Manifest.HashTellsApart`,
  `MigrationSpec.LookalikesShareAHash`.
- A directory listing is read back exactly when its last record starts at least 112
  bytes before the end of the buffer; a shorter rest is refused although the record
  itself is complete (`crates/platform-win32/src/secure_fs.rs:699-704`):
  `DirectoryBuffer.RoundTrip`.
- A finish first makes the state idle and then exchanges the close flag
  (`crates/app-ui/src/controller.rs:605-609`), so it can take the request meant for
  an operation that began in between: `CloseProtocol.DeferredClose`,
  `CloseProtocol.FinishAnswersLastRecord`, `CloseProtocol.CloseCanBeLost`. The token
  is cancelled all the same, because the window handles closes on the thread that
  starts migrations: `CloseProtocol.CloseCancelsToken`.
- The command line survives splitting exactly when the program path needs no
  escape, because the splitter knows none there: `CommandLine.RoundTrip`.

Assumptions: file identities are not reused while the program is installed, and an
identity handed to recovery belongs to an object that already existed; SHA-256 is
injective; names are compared up to case, and a model name stands for its folded
form; `str::to_lowercase` treats the path separator as a word boundary
(`PathOverlap.RespectsSeparator`); the paths of a plan are Rust strings
(`crates/core-profiles/src/models.rs:142`), so the lossy conversion in their overlap key
changes nothing; nobody else writes below a migration target
while the program holds it; the early return of `start_migration` is taken only
while nothing runs.

## Model

| member | source | states |
|---|---|---|
| Protocol.StepKeepsInv | crates/audit-journal/src/legacy.rs:294-428 | each durable step, by whichever instance and with whatever intrusion under the free product name, keeps names and identities in step with the latest marker, at most one unfinished migration, and every Done marker audited |
| Protocol.RunKeepsInv | crates/audit-journal/src/legacy.rs:294-428 | the same in every state of every run, whatever sequence of failures, crashes and restarts led there |
| Protocol.MarkCoupled | crates/audit-journal/src/legacy.rs:353-366 | writing the next marker of a migration is safe exactly where the code writes it: the roots then stand where that phase says |
| Protocol.MoveCoupled | crates/audit-journal/src/legacy.rs:354-356 | a detach or activation rename keeps a migration coupled to its unchanged marker, so a crash between rename and marker is recoverable |
| Protocol.OldRootAtOneName | crates/audit-journal/src/legacy.rs:331-428 | the old root of a migration is at exactly one of its product and legacy names |
| Protocol.DetachedNeverReturns | crates/audit-journal/src/legacy.rs:394-405 | once detached, an object is at its legacy name in every later state and never at the product name again |
| Protocol.RunAdvances | crates/audit-journal/src/legacy.rs:371-428 | over any number of crash and resume rounds no durable phase falls, no marker or audit is lost, no identity of a migration changes |
| Protocol.ConsentedAlong | crates/audit-journal/src/legacy.rs:337-341 | if the markers a run ends with name the consented object in every migration it started, so do those of each of its states, wherever a crash stops it |
| Protocol.StepKeepsSettled | crates/audit-journal/src/legacy.rs:371-428 | every step taken while a migration is unfinished leaves the same final namespace ahead |
| Protocol.CrashesDoNotMatter | crates/audit-journal/src/legacy.rs:294-428 | a migration that reaches RootReady or later has exactly the namespace an uninterrupted run would have given |
| Protocol.AuditOrigin | crates/app-ui/src/startup.rs:55-74 | an audit record in a root was written while that root was active and its migration at AuditPending |
| Protocol.DoneWasAudited | crates/app-ui/src/startup.rs:55-74 | in every run a Done marker implies that its terminal event was logged earlier, in the new root, while the migration was at AuditPending |
| Instances.HolderRelies | crates/audit-journal/src/legacy.rs:259-299 | however many actions others take between two of the lock holder, it finds what the recovery code relies on: at most a new object under the free product name |
| Instances.AllRunsKeepInv | crates/audit-journal/src/legacy.rs:294-329 | the protocol invariant holds over all interleavings and crashes of any number of instances |
| Instances.SourcesWereCaptured | crates/audit-journal/src/legacy.rs:262-289 | every consent, captured or read from an unfinished migration, and every migration is about an object that some instance had captured under the product name |
| Instances.OnlyCapturedObjectsLeave | crates/audit-journal/src/legacy.rs:337-341 | only an object whose identity was captured for a consent is ever renamed away from the product name |
| Instances.StaleConsentIsHarmless | crates/audit-journal/src/legacy.rs:339-341 | a root created after a consent was captured keeps the product name until somebody captures it anew |
| Instances.HolderTraceIsRun | crates/audit-journal/src/legacy.rs:294-329 | every trace of steps that starts only migrations of the consented object, stopped by a crash anywhere, is a run of the system of all instances in which the lock holder consents to that object; the recovery methods prove that of their traces on every outcome |
| Instances.LateCaptureDetaches | crates/audit-journal/src/legacy.rs:275-290 | the capture hypothesis is needed: from every start with a product root, a run in which two instances fail to open it, one replaces it up to the audited Done marker, and the other captures only then and detaches the new root |
| MarkerLog.FileNameInjective | crates/audit-journal/src/legacy.rs:625-633 | distinct migration id or phase give distinct marker file names |
| MarkerLog.FileNameIsStateName | crates/audit-journal/src/legacy.rs:500-504 | every marker name is one that loading will look at |
| MarkerLog.CheckGroup | crates/audit-journal/src/legacy.rs:524-546 | the sorted-and-windowed check accepts a migration's records exactly when they are a gap-free, agreeing prefix of the phase order, and returns the last of them unless it is Done |
| MarkerLog.SelectPending | crates/audit-journal/src/legacy.rs:522-555 | over all groups: the one unfinished record, none, or the right refusal |
| MarkerLog.LoadPending | crates/audit-journal/src/legacy.rs:496-556 | loading answers the unfinished record if and only if the files are well formed with exactly one open migration, and refuses with the matching error in every other case |
| MarkerLog.WellFormedMeans | crates/audit-journal/src/legacy.rs:522-545 | in a store that is not refused every marker of a migration is there below its latest, and any two agree on both identities and both names |
| MarkerLog.NameTextInjective | crates/audit-journal/src/legacy.rs:343-344 | the three directory names never collide, whatever the ids |
| MarkerLog.FileNameSpelled | crates/audit-journal/src/legacy.rs:625-633 | the five marker file names of a migration, spelled out |
| MarkerLog.MatchesIsWellFormed | crates/audit-journal/src/legacy.rs:496-556 | a store written by the protocol is well formed |
| MarkerLog.LatestMatches | crates/audit-journal/src/legacy.rs:536-545 | on such a store the latest record is the protocol's entry |
| MarkerLog.LoadLog | crates/audit-journal/src/legacy.rs:496-556 | on every reachable store loading returns the latest unfinished record, whose names are those the renames use, and never InvalidState or AmbiguousState |
| MarkerLog.PublishMatches | crates/audit-journal/src/legacy.rs:582-601 | publishing the next marker keeps the store in step with the log |
| MarkerLog.TemporaryMatches | crates/audit-journal/src/legacy.rs:584-590 | temporary files, torn or complete, are invisible to loading |
| LegacyRecovery.ProgramData.WriteState | crates/audit-journal/src/legacy.rs:565-602 | for any fault: success or a failed final sync means the marker is in, every other error but an ambiguous publication means it is not; undisturbed, it succeeds exactly when the marker may follow |
| LegacyRecovery.ProgramData.DropPublished | crates/audit-journal/src/storage.rs:604-611 | a rename that reports failure but took effect is undone when the created file is dropped, and stays exactly if that deletion fails |
| LegacyRecovery.ProgramData.VerifyReadyRoot | crates/audit-journal/src/legacy.rs:447-459 | true only if the new root is active and trusted and the old one at its legacy name |
| LegacyRecovery.ProgramData.ResumePrepared | crates/audit-journal/src/legacy.rs:388-406 | from Prepared: the source ends at its legacy name, whether or not the crash came before the rename |
| LegacyRecovery.ProgramData.ResumeDetached | crates/audit-journal/src/legacy.rs:408-424 | from Detached: the new root ends at the product name, whether or not the crash came before the rename |
| LegacyRecovery.ProgramData.ResumeNamespace | crates/audit-journal/src/legacy.rs:371-428 | resuming any phase ends at RootReady or later in the settled namespace; undisturbed it succeeds exactly when no foreign object holds the product name |
| LegacyRecovery.ProgramData.CreateAndPersist | crates/audit-journal/src/legacy.rs:342-355 | success means the new root and its Prepared marker are in; undisturbed exactly when the random id is unused |
| LegacyRecovery.ProgramData.StartNamespace | crates/audit-journal/src/legacy.rs:331-369 | a new migration detaches exactly the consented identity and activates the new root; whatever the outcome, a marker it leaves names the consented identity; undisturbed it succeeds exactly when that object is in place and the random id unused, and answers IdentityChanged exactly when another object is |
| LegacyRecovery.ProgramData.RestorePrivileges | crates/audit-journal/src/legacy.rs:430-445 | success only if the operation and the restoration both succeeded; each of the three failures has its own error |
| LegacyRecovery.ProgramData.OpenBootstrapAndLock | crates/audit-journal/src/legacy.rs:298-301 | goes on exactly if opening, locking and listing succeeded, and then holds the lock, which every durable step of the recovery requires |
| LegacyRecovery.ProgramData.ExecuteRecovery | crates/audit-journal/src/legacy.rs:294-329 | if the call that acquires the lock fails, the answer is an error, no marker is touched and only an unlocked instance may have moved; success keeps the lock and means that every call succeeded; convergence: success ends at AuditPending in the settled namespace of the resumed or consented migration; on every outcome, and at every point a crash can stop it, each migration it started is about the consented identity; an undisturbed call succeeds if and only if the recovery condition holds, and otherwise gives the error of the check that failed, IdentityChanged for a replaced root |
| LegacyRecovery.ProgramData.CompleteRecovery | crates/app-ui/src/startup.rs:55-74 | nothing happens without the lock, which is released at the end; success ends at Done with the terminal event durable in the new root; at every point each migration it started is about the consented identity; undisturbed exactly under the recovery condition |
| LegacyRecovery.NextStillThere | crates/audit-journal/src/legacy.rs:355-360 | between the two renames the prepared root cannot disappear from its own name |
| LegacyRecovery.SettledSince | crates/audit-journal/src/legacy.rs:331-369 | every run of steps since a migration began leaves the same settled namespace ahead |
| JournalStore.BytesOfText | crates/audit-journal/src/journal.rs:218-224 | the bytes counted for a file are the length of its text, lines and newlines |
| JournalStore.ShiftReads | crates/audit-journal/src/journal.rs:326-356 | moving an archive up into a free slot does not change what is read from the oldest archive down to the live file |
| JournalStore.AppendReads | crates/audit-journal/src/journal.rs:236-240 | appending to the live file appends to what is read |
| JournalStore.StepKeepsOrder | crates/audit-journal/src/journal.rs:326-356 | one rename, removal or append, or a crash right after it, keeps the archives in append order |
| JournalStore.RunKeepsOrder | crates/audit-journal/src/journal.rs:326-356 | in every state of every run, holes and restarts included, archives and live file read as a suffix of everything ever appended |
| JournalStore.RunKeepsLimit | crates/audit-journal/src/journal.rs:203-249 | no file of any run exceeds the configured limit; only a limit of u64::MAX needs that file lengths are 64-bit numbers |
| JournalStore.RunBoundsTotal | crates/audit-journal/src/journal.rs:326-356 | a store that started empty holds at most (archives + 1) times the limit; only a limit of u64::MAX needs that file lengths are 64-bit numbers |
| Journal.RotatedStep | crates/audit-journal/src/journal.rs:334-350 | the index-descending loop: each round frees the slot the next one moves into, so shifts never collide |
| Journal.KeptFits | crates/audit-journal/src/journal.rs:326-332 | after the rotation decision the next line fits the live file |
| Journal.TrimAndPush | crates/audit-journal/src/journal.rs:242-246 | trimming the display buffer before appending keeps the newest entries |
| Journal.LoadRecentEntries | crates/audit-journal/src/journal.rs:390-425 | loading keeps the newest valid entries, or reports the first malformed line by its number |
| Journal.AuditLogger.DurableRename | crates/audit-journal/src/storage.rs:716-753 | a rename never replaces an existing archive |
| Journal.AuditLogger.RotateIfNeeded | crates/audit-journal/src/journal.rs:326-356 | success leaves the files alone if the line fits the live file, and otherwise moves every file up by one and drops the oldest; every intermediate state is an ordered store |
| Journal.AuditLogger.Log | crates/audit-journal/src/journal.rs:203-249 | success with room in the live file appends the line and changes nothing else; without room the files move up by one, what is read loses exactly the oldest archive and gains the line; either way every call succeeded and the entry is in the display buffer; the lock and the buffer guard come first, each with its error; oversized entries are refused untouched; undisturbed exactly the entries that fit succeed |
| Repair.RepairTransaction.ExecuteSteps | crates/core-profiles/src/repair.rs:376-411 | whatever step fails, the recorded mutation describes the child keys; success is the repaired map; undisturbed it succeeds exactly when the backup name is free and the new canonical key names a profile path |
| Repair.RepairTransaction.Verify | crates/core-profiles/src/repair.rs:413-446 | accepts exactly the key maps that meet every postcondition of the plan |
| Repair.RepairTransaction.RenameBack | crates/core-profiles/src/repair.rs:459-482 | the second inverse rename is attempted on what the first left, failed or not; without errors the set of names is the original one, with errors nothing but the backup or canonical name is surplus |
| Repair.RepairTransaction.RestoreSnapshot | crates/audit-journal/src/rollback.rs:104-125 | restoring recreates a missing key before it overwrites it, so it can bring back a key that a failed rename left away |
| Repair.RepairTransaction.RestoreAll | crates/core-profiles/src/repair.rs:510-529 | every restore is attempted at its turn, and each one that succeeds leaves the captured content, whatever happens to the others |
| Repair.RepairTransaction.Rollback | crates/core-profiles/src/repair.rs:448-507 | no errors: the whole child-key map is restored, absent keys included; restores without errors: every snapshotted key has its captured content and only the backup or canonical name is surplus; always: the old canonical key survives somewhere |
| Repair.UndoneBoth | crates/core-profiles/src/repair.rs:459-482 | the two inverse renames compose, each done, skipped or failed |
| Repair.Combine | crates/core-profiles/src/repair.rs:459-507 | inverse renames followed by snapshot restores give exactly the original keys, or the degraded guarantee |
| Repair.RepairTransaction.CreateRequiredSnapshots | crates/core-profiles/src/repair.rs:345-374 | the snapshots capture every key a failed run may change |
| Repair.RepairTransaction.Abandon | crates/core-profiles/src/repair.rs:206-251 | the failure branches: a rollback error exactly if a rename, a restore or the summary entry failed, otherwise the original keys and, its entry logged, the error of the failed step; the audit entries of each case; every original key with its content unless a snapshot could not be restored |
| Repair.RepairTransaction.Transact | crates/core-profiles/src/repair.rs:185-254 | a failed step or a failed success audit ends with the original keys or with a rollback error |
| Repair.RepairTransaction.ExecutePlan | crates/core-profiles/src/repair.rs:163-254 | success is the repaired map, with every call successful and exactly the entries started and success logged; a rollback error means that a rename, a restore or the summary failed, any other error after a failed step is the error of that step, or the audit error if its entry failed; every error but a rollback error leaves the keys unchanged; after any error whatever, unless a snapshot could not be restored, every original key has its original content and only the backup or canonical name is surplus; the answer of an undisturbed call is determined, error included |
| Repair.VerdictIs | crates/core-profiles/src/repair.rs:163-183 | exactly when an undisturbed call succeeds: what is asked for, the selected key, the keys the action needs, the profile path, the free backup name |
| Repair.RepairedIs | crates/core-profiles/src/repair.rs:376-411 | the repaired keys one by one: the canonical key is the .bak key, or was, with State and RefCount zero if asked for, and the old canonical key has its timestamped name |
| Repair.HasPathIs | crates/core-profiles/src/repair.rs:424-433 | a profile path that is missing or blank does not count |
| Repair.RepairedKeeps | crates/core-profiles/src/repair.rs:376-411 | a completed repair keeps the prior canonical key under its backup name and touches no other key |
| Names.DisplayTellsApart | crates/core-profiles/src/migration.rs:709-711 | a name is displayed like no other name if and only if U+FFFD is not displayed, which stands for every unpaired surrogate |
| Names.DisplayInjective | crates/core-profiles/src/migration.rs:709-711 | two names without unpaired surrogates are displayed alike only if they are equal |
| Names.SortedSorts | crates/platform-win32/src/secure_fs.rs:505 | sorting orders names by their displayed form and keeps each of them |
| Names.OrderIsImmaterial | crates/platform-win32/src/secure_fs.rs:505 | the stable sort gives one list whatever order the system listed a directory in, if and only if no two of its names are displayed alike |
| Manifest.DisplayedIsJoined | crates/core-profiles/src/migration.rs:709-711 | a path is displayed as its names joined by slashes |
| Manifest.ManifestInjective | crates/core-profiles/src/migration.rs:132-148 | the bytes fed to the manifest hash tell two manifests apart, the path, terminator, size and digest fields not being confused, if one displays no U+FFFD or neither has an unpaired surrogate in a path |
| Manifest.HashTellsApart | crates/core-profiles/src/migration.rs:132-148 | a manifest shares its hash with no other if and only if no path in it is displayed with U+FFFD |
| Manifest.DisplayedPathInjective | crates/core-profiles/src/migration.rs:709-711 | two paths have the same displayed form only if they are equal, if one is displayed without U+FFFD or neither has an unpaired surrogate |
| MigrationSpec.TreeDescribed | crates/core-profiles/src/migration.rs:588-637 | the lines of a copied tree name exactly its files, each once, with size and digest |
| MigrationSpec.PlanManifestCovers | crates/core-profiles/src/migration.rs:132-148 | the manifest of a plan lists exactly the selected files that exist, and its length is their number |
| MigrationSpec.EqualReceiptsEqualFiles | crates/core-profiles/src/migration.rs:132-148 | two migrations with the same manifest hash copied the same files with the same contents, if one displays its file names without U+FFFD or neither has an unpaired surrogate in one |
| MigrationSpec.LookalikesShareAHash | crates/core-profiles/src/migration.rs:702-706 | the condition is needed: for any two names that are displayed alike there are two profiles, each with one file of the same content, whose migrations have the same hash and copy different files |
| MigrationSpec.TwinsShareAHash | crates/core-profiles/src/migration.rs:702-706 | a concrete pair: the letter a followed by D800, and by D801 |
| MigrationSpec.SameManifest | crates/platform-win32/src/secure_fs.rs:464-507 | the manifest of a plan is independent of the order in which the system lists directories, if no two names in one directory are displayed alike |
| MigrationSpec.RootsAreSelected | crates/core-profiles/src/migration.rs:259-271 | the roots of a plan are appdata/roaming for the roaming scope and documents, desktop, downloads, favorites and pictures for the personal scope |
| MigrationSpec.SelectionIsCopied | crates/core-profiles/src/migration.rs:259-302 | copying the wanted paths leaves below the target the selected folders that exist, what is below them and the parent appdata, each as in the source, and nothing else |
| MigrationSpec.ReceiptIs | crates/core-profiles/src/migration.rs:132-148 | the receipt gives the number of selected files and the saturated sum of their sizes |
| MigrationSpec.WantedStep | crates/core-profiles/src/migration.rs:262-302 | each selected root contributes its own paths, disjoint from the others |
| CreatedObjects.Push | crates/platform-win32/src/secure_fs.rs:334-389 | no created object escapes registration except through a failed deletion, and then it lies in a registered one |
| CreatedObjects.TopIsEmpty | crates/core-profiles/src/migration.rs:117-130 | last in, first out: each created directory is empty when its turn comes |
| CreatedObjects.Removed | crates/core-profiles/src/migration.rs:117-130 | removing the top entry keeps every stray accounted for |
| CreatedObjects.Stuck | crates/core-profiles/src/migration.rs:117-130 | an entry that cannot be removed is a stray in an entry still to come |
| CreatedObjects.UpToTarget | crates/core-profiles/src/migration.rs:117-130 | anything left behind means the target is left behind |
| Migration.MigrationEngine.Create | crates/platform-win32/src/secure_fs.rs:334-461 | an object whose handle cannot be prepared is gone again, or its deletion failed; then it stands in a registered directory or is the target, and the error names the failed deletion |
| Migration.MigrationEngine.CopyChunks | crates/core-profiles/src/migration.rs:658-681 | whatever the read sizes and the disk do, the hash and the counter describe the source file, and each report shows the saturated total of the bytes moved so far |
| Migration.MigrationEngine.VerifyCopy | crates/core-profiles/src/migration.rs:682-701 | accepts exactly the copies whose content hash and length agree |
| Migration.MigrationEngine.CopyFile | crates/core-profiles/src/migration.rs:639-707 | success means an exact copy and its manifest line; undisturbed it succeeds exactly when the size fits 64 bits |
| Migration.MigrationEngine.Entries | crates/platform-win32/src/secure_fs.rs:464-507 | the sorted children of a directory; any reparse point refuses it |
| Migration.MigrationEngine.CopyTree | crates/core-profiles/src/migration.rs:588-637 | success means exact copies of everything below and nothing else, and the manifest of the sorted listings; undisturbed it succeeds exactly when nothing below is a reparse point or too large |
| Migration.MigrationEngine.OpenIfPresent | crates/core-profiles/src/migration.rs:732-752 | present, missing, or refused because a component is a file or a reparse point |
| Migration.MigrationEngine.EnsureRelative | crates/core-profiles/src/migration.rs:754-779 | creates exactly the missing components |
| Migration.MigrationEngine.CopyRoots | crates/core-profiles/src/migration.rs:277-302 | all selected roots that exist are copied, the missing ones skipped |
| Migration.MigrationEngine.CopiedBytes | crates/core-profiles/src/migration.rs:154-160 | the figure is the 64-bit-saturated number of bytes moved so far |
| Migration.MigrationEngine.MakeReceipt | crates/core-profiles/src/migration.rs:132-148 | counts the lines, saturates the byte sum, hashes the manifest |
| Migration.MigrationEngine.Finish | crates/core-profiles/src/migration.rs:303-330 | three polls around the receipt, the last report shows its figures, and the success entry is the last fallible step |
| Migration.MigrationEngine.RollBack | crates/core-profiles/src/migration.rs:117-130 | the base is untouched; without strays and failed deletions everything created is gone; otherwise the target still stands and the failure is reported |
| Migration.MigrationEngine.Undo | crates/core-profiles/src/migration.rs:334-371 | the failure branch: restored, or a rollback failure with something really left, or, before anything was registered, the error of the failed creation; the error of the operation is kept unless the closing entry fails, and each case has its entry |
| Migration.MigrationEngine.Execute | crates/core-profiles/src/migration.rs:209-372 | success: below the target exactly the existing folders of the selected scopes, each path as in the source, a truthful receipt, no poll true and every call successful, the audit entries started, DPAPI warning if there are protected keys, success, each copied file reported as verified in manifest order, last report equal to the receipt; a cancellation is answered exactly if a poll saw it, unless the closing entry fails; failure: the destination is restored if and only if no deletion failed, and what is left is reported by a rollback failure or by an error that names the failed deletion, with one exception: an empty target stays unreported if and only if the plan is admissible, the five calls before its creation succeed, its handle cannot be prepared, its deletion fails, and so does the closing audit entry; reports never go back; success is logged if and only if it is returned; undisturbed, success if and only if the plan is admissible and copyable, and otherwise the error of the failing check or one with its cause in the source |
| PathOverlap.ReleaseAbsolutePath | crates/core-profiles/src/migration.rs:442-495 | accepts exactly the normalized drive paths with valid names, and returns the path unchanged |
| PathOverlap.ComponentIs | crates/core-profiles/src/migration.rs:532-566 | a component is valid exactly if it is not empty, does not end in a dot or blank, holds no control character and none of nine others, and names no device up to its first dot, in any case |
| PathOverlap.AcceptedIs | crates/core-profiles/src/migration.rs:442-529 | a path is accepted exactly if it is a drive letter, a colon, a backslash and valid components joined by backslashes |
| PathOverlap.SplitJoin | crates/core-profiles/src/migration.rs:520-529 | splitting an accepted path gives back the components it was joined from |
| PathOverlap.JoinPrefix | crates/core-profiles/src/migration.rs:797-807 | text prefix followed by a separator is component-list prefix |
| PathOverlap.KeyIsFolded | crates/core-profiles/src/migration.rs:809-814 | the key of an accepted path is its case-folded components, joined |
| PathOverlap.OverlapIsExact | crates/core-profiles/src/migration.rs:797-814 | for accepted paths the textual overlap test holds if and only if one case-folded component list starts the other |
| CommandLine.AppendQuotedArgument | crates/platform-win32/src/tokens.rs:880-909 | the loop with its backslash counter writes the quoted form of the argument |
| CommandLine.BuildWindowsCommandLine | crates/platform-win32/src/tokens.rs:869-878 | the program, each argument after a space, and a terminator |
| CommandLine.ScanEscaped | crates/platform-win32/src/tokens.rs:894-908 | an escaped argument is scanned back to itself, with any run of backslashes before a quote or at the end |
| CommandLine.ArgumentsRoundTrip | crates/platform-win32/src/tokens.rs:869-909 | every argument list, empty arguments included, is split back to itself, under both readings of a doubled quote |
| CommandLine.SplitQuotedProgram | crates/platform-win32/src/tokens.rs:869-878 | a quoted program name comes back with its trailing backslashes doubled, because the splitter knows no escapes there |
| CommandLine.RoundTrip | crates/platform-win32/src/tokens.rs:869-909 | the whole command line is split back to program and arguments if and only if no text holds a NUL and the program holds no quote and, when quoted, does not end in a backslash |
| DirectoryBuffer.ParseDirectoryBuffer | crates/platform-win32/src/secure_fs.rs:691-746 | for every buffer the walk ends, reads in bounds and answers the specified walk |
| DirectoryBuffer.ReadsRecord | crates/platform-win32/src/secure_fs.rs:705-721 | the fields of a written record are read back at their offsets |
| DirectoryBuffer.WalkChain | crates/platform-win32/src/secure_fs.rs:697-745 | a written chain at any offset is answered by its records if the last one starts at least 112 bytes before the end of the buffer, and refused otherwise |
| DirectoryBuffer.RoundTrip | crates/platform-win32/src/secure_fs.rs:691-746 | a buffer holding the chained encoding of a list without reparse points is answered with exactly that list minus the dot entries if and only if the last record starts at least 112 bytes before its end, whatever follows the chain |
| DirectoryBuffer.FullBuffer | crates/platform-win32/src/secure_fs.rs:699-704 | a buffer that ends with the chain is read back exactly when the last record, name and padding included, takes 112 bytes |
| DirectoryBuffer.ListingIsReadBack | crates/platform-win32/src/secure_fs.rs:691-746 | the answer for any written directory and any rest of the buffer: its records in order without dots, directories those with bit 4 set, refused for a record with bit 10 set, or refused when less than 112 bytes are left from the last record on |
| DirectoryBuffer.MalformedIsRefused | crates/platform-win32/src/secure_fs.rs:699-743 | in a buffer of any origin a short rest, an odd name length, or a name or next record that does not fit is refused |
| DirectoryBuffer.AnswerIs | crates/platform-win32/src/secure_fs.rs:720-731 | one reparse point anywhere refuses the directory; otherwise every record but the dots is there |
| Snapshot.SnapshotEngine.CreateFile | crates/audit-journal/src/storage.rs:446-482 | after a failed creation the file is gone unless its deletion failed, and that failure is reported except after a failed kind check |
| Snapshot.SnapshotEngine.SaveHive | crates/audit-journal/src/snapshot.rs:225-268 | a hive with its digest and identity, or nothing, or a reported cleanup failure |
| Snapshot.SnapshotEngine.WriteMetadata | crates/audit-journal/src/snapshot.rs:289-309 | the metadata beside the hive, or neither, or a failed cleanup |
| Snapshot.SnapshotEngine.Finish | crates/audit-journal/src/snapshot.rs:401-429 | a failed privilege restoration takes a complete pair away again, each combination of outcomes has its error, and no cleanup failure is dropped from the combined one |
| Snapshot.SnapshotEngine.CreateRegistrySnapshot | crates/audit-journal/src/snapshot.rs:204-313 | success leaves a pair the inventory accepts, every call having succeeded; a cleanup failure is reported if and only if a cleanup step failed whose outcome is looked at; an error leaves the directory unchanged if and only if no deletion failed; something is left without a report if and only if the deletion whose result is discarded failed and no other one did, and a family of schedules for which that happens |
| Snapshot.SnapshotEngine.ValidateInventoryEntry | crates/audit-journal/src/snapshot.rs:340-392 | accepts only entries whose hive exists with the recorded identity and digest; undisturbed exactly those |
| Snapshot.PairIsSound | crates/audit-journal/src/snapshot.rs:317-338 | a new pair keeps every older inventory entry valid |
| CloseProtocol.StepKeepsInv | crates/app-ui/src/controller.rs:1357-1422 | mutual exclusion, the slot holding the token of the running migration, at most one migration behind the active flag |
| CloseProtocol.RecordDooms | crates/app-ui/src/controller.rs:1564-1578 | a close recorded while a migration is open dooms its token, published before or after |
| CloseProtocol.DeferredClose | crates/app-ui/src/controller.rs:567-610 | from then on, in every interleaving, the published token is cancelled and the migration's finish answers that the window closes, as long as no other finish exchanges the flag first |
| CloseProtocol.PublishedTokenIsCancelled | crates/app-ui/src/controller.rs:1564-1570 | for a token already published the cancellation needs no such condition |
| CloseProtocol.FinishAnswersLastRecord | crates/app-ui/src/controller.rs:605-609 | in every run a finish answers yes if and only if a close was recorded after the flag was last exchanged |
| CloseProtocol.CheckAnswersLastRecord | crates/app-ui/src/controller.rs:1358-1364 | publishing a token cancels it if and only if a close was recorded after the flag was last exchanged |
| CloseProtocol.CloseCancelsToken | crates/app-ui/src/controller.rs:1564-1578 | with migrations started and closes handled on one thread, as the window does (crates/app-ui/src/main.rs:87-99, 350-357), a close recorded for an open migration cancels its token, whatever other operations finish |
| CloseProtocol.ButtonCancels | crates/app-ui/src/controller.rs:1525-1530 | the cancel button cancels the token in the slot for good |
| CloseProtocol.CancelledForAReason | crates/app-ui/src/controller.rs:1525-1578 | no token is ever cancelled without a press of the button for it or a recorded close |
| CloseProtocol.TokenCanBeMissed | crates/app-ui/src/controller.rs:599-603 | one thread is needed for that: a close handler that ran elsewhere while a migration is being published could record a request that a finishing scan takes, and the token would be published uncancelled |
| CloseProtocol.CloseCanBeLost | crates/app-ui/src/controller.rs:605-609 | the condition is needed: between the two writes of a finishing scan a migration begins and a close is recorded for it; the scan takes the flag and the migration's finish answers no |

## Left out

- Win32 and NT calls, handles, share modes, access control, SIDs, privileges and tokens: only their atomic effect or failure.
- JSON, timestamps, random bytes and SHA-256 internals: records, arbitrary ids and an injective constructor.
- Lock timeouts, sleeps and service polling: real time; locks are mutual exclusion.
- Torn journal lines and disk-level sync failures: an append is one step; the loader refuses bad lines.
- Slint user interface, localization, status rendering, folder picker, scripts: presentation.
- Profile scanner, health counts, MULTI_SZ parsing, process compensation, audit export: easier than what is here.
- `SecureDirectory::overlaps`: it compares identity chains that start at the opened drive root (`crates/platform-win32/src/secure_fs.rs:511-527`), so a SUBST root inside the other directory cuts the chain; its outcome is an input of the migration model.
- Instances.AllRunsKeepInv: a lock holder's actions are protocol steps; that the traces of the code are such steps is proved in `LegacyRecovery` for one call at a time, and `Instances.HolderTraceIsRun` places the trace of one call in the system of all instances.
- LegacyRecovery.ProgramData.OpenBootstrapAndLock: what another lock holder does while this call waits lies before the state the model starts from.
- LegacyRecovery.ProgramData.ExecuteRecovery: a rename whose reported failure is undone by the deletion that follows is one step without effect.
- Journal.AuditLogger.Log: another process writing the same journal between two calls is left to the storage lock; the display buffer of each process is its own.
- Repair.RepairTransaction.ExecutePlan: SID syntax, loaded session, lock inspection and path checks are one input; trimming knows the ASCII blanks.
- Migration.MigrationEngine.Execute: SID syntax, path checks and the loaded-profile check are one input; the source is opened so that nobody can write it and does not change during the copy.
- Migration.MigrationEngine.CopyChunks: a chunk counts as moved once it is written; one that was read and whose write failed shows in no report, as in the code.
- Migration.MigrationEngine.Entries: the merge of several directory buffers into one listing; one buffer is the subject of `DirectoryBuffer`.
- Snapshot.SnapshotEngine.CreateRegistrySnapshot: the generated file name is an input; listing the inventory and its sort by time are not modelled, only the validation of each entry.
- CloseProtocol.DeferredClose: a poisoned mutex is not modelled; the cancel button is one step.
