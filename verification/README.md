# Hane tooling models

Dafny models of the parts of the Hane repository whose correctness is about whole runs: writing
files that survive crashes, validating the GUI under one display lock, building and publishing
releases, measuring scroll timing, and a few algorithms with exact specifications. Each model is
proved for all inputs, all interleavings and all failures of its surroundings.

`dafny verify dfyconfig.toml` checks the whole project.

## What is modelled

- **AtomicFile** is the crash-safe replace of `crates/ai/src/atomic_file.rs`: any number of
  processes write, sync, rename and sync one directory, any call may fail, processes die and the
  machine crashes between any two calls. A crash keeps, for each name on its own, any value the
  name had since the last directory sync. `Directory.AtomicWriteBytes` is the call itself with
  other processes' steps in between.
- **UpdateJournal**, **UpdateApply**, **UpdateRecovery** and **UpdateRuns** are the journaled update
  of `crates/update/src/apply.rs` and `journal.rs`: backups, replacements, the health check and
  recovery. Every call may fail before, halfway or after it took effect, and every process may die
  between two calls. Where nothing is said of `quiet`, anyone may change any file at any moment.
- **GuiValidate**, **Publication**, **GuiMain** and **ValidationRecord** are
  `scripts/gui_validate.py`: the stages of a run with exceptions and aborts at every point, and
  the publication of its result document while signals arrive and file operations fail.
  **ExecutionLock** is the display lock it shares with `scripts/windows_gui_lock_launcher.py`.
- **ReleaseArchive**, **Signatures**, **Documents**, **DocumentCodec**, **ReleaseInventory**,
  **ReleaseRoundTrip**, **ReleaseZips**, **ReleaseCatalog**, **Extraction**, **ReleaseHistory** and
  **MachO** are `scripts/release_catalog.py`: structural checks of a ZIP, the signed inventory and
  catalog and their round trips, extraction onto a disk that may ignore case, the Mach-O command table, and
  whole histories of planned and published releases.
- **ScrollCollector**, **ScrollFields** and **ScrollAssessment** follow one scroll measurement from
  the callbacks in `scripts/hosted_gui_interaction.swift` through its printed fields to the two
  Python readers; **TimingLog** is the append-only log it reads Hane's own timing from.
- **LineRun**, **Insertion**, **InlineScenario**, **ModelWalk**, **DateLabel** and **ChunkedInt**
  (with **Decimal**) are the algorithms named in the table below.

The outside world is arbitrary: a havoc assignment, a function given by the caller or a parameter
stands for what a file system, a process, a server, a signal, an editor or a clock may do next.
Clocks are integer ticks that do not go back, and elapsed times are real numbers. No hash is
assumed injective; where two files with one hash would matter, a lemma says so. Signatures are
ideal only where a lemma says so in a `requires`. Unicode folding, upper-casing and UTF-8 length,
deflate sizes, JSON and base64 text are parameters, with the law a lemma needs stated on it: of
JSON for documents of known fields, texts and 64-bit integers only, of times for years 1000 to
9999. **DocumentCodec** exhibits functions that keep all these laws at once.
Instances of processes are never renumbered while they live, temporary sequence numbers do not
reach 2^64, and callers' targets are not named like temporary files.

## Where the code differs from what it says

- `do_build` compares with the SHA of preflight only when that SHA is not empty
  (`BaselineComparedIffNonEmpty`).
- A child whose log file cannot be closed right after the start is lost to cleanup: the exact
  condition is part of `RunValidation`, and `LogCannotBeClosed` is such a run.
- A timeout of the first image check in `capture` is neither an environment nor an OS error, so
  the run ends with every step recorded but nothing published (`ImageCheckTimesOut`). That is so
  exactly for what the try suite raises besides aborts and those errors (`RunValidation`).
- The collision key is folded after composing and not composed again. On a disk that compares
  names by canonical caseless matching, U+03AA U+0301 and U+0390 are one name with two keys, and
  extracting an accepted ZIP can lose a file (`CanonicalCaselessIsNot`, `CollisionSlipsThrough`);
  the checks suffice exactly on disks that identify no two valid names with different keys
  (`ApartExactlyWhenCompatible`).
- The validity of a catalog is cut to whole seconds: less than one second is refused, and
  anything under 180 days and one second is accepted (`WholeSeconds`).
- A staged directory within all size limits can still be refused once zipped, because a large
  file may compress too well (`StagingLimits`).
- A draft left by an abandoned release and published by hand, or a release made by hand from its
  assets, blocks every later release if the sequence has been given away since, or the catalog is
  half, unverifiable or misnamed (`RecklessSticks`, `CopyingSticks`, `StuckForever`); nothing else
  does (`SoundExactlyWhenCareful`, `PatientIsFine`).
- The sequence of a published release that is deleted or made a draft again is given to the next
  release, since only public catalogs count (`WithdrawnSequenceReturns`).
- `apply` promises to change nothing while any file differs from its recorded state, but looks at the
  files the update leaves alone only after replacing the others. If one of those differs, the old
  version is put back and recovery asks for a hand; the exact condition is part of `Apply`.
- Off Unix, `Ok` does not survive a crash by the code's own doing
  (`OkIsNotDurableWithoutDirectorySync`); there the platform is relied on.
- `relative_label` raises for other dates when today is in January of year 1; the model returns
  nothing there.
- The patterns for tags, commits and hashes also match before a final newline; the models keep
  that.

## Model

| member | source | states |
|---|---|---|
| `AtomicFile.TempNamesDistinct` | crates/ai/src/atomic_file.rs:105-113 | temporary names of writers that differ in process, sequence or stem are different file names |
| `AtomicFile.StepInv` | crates/ai/src/atomic_file.rs:96-143 | every step of every process, every failure, kill and crash keeps the invariant tying directory entries to writers, contents and rename order |
| `AtomicFile.CrashInv` | crates/ai/src/atomic_file.rs:1-20 | after a crash each name holds one of the values it may have had since the last directory sync, and no renamed file has lost a byte |
| `AtomicFile.RenameInv` | crates/ai/src/atomic_file.rs:114-125 | a rename moves a complete, synced file onto its target and ranks after every earlier rename |
| `AtomicFile.SyncDirectoryInv` | crates/ai/src/atomic_file.rs:26-36 | after a successful directory sync the entry just renamed, or a later one, is the oldest value a crash can bring back |
| `AtomicFile.TargetNeverTorn` | crates/ai/src/atomic_file.rs:1-6 | over every interleaving, a target holds its initial value or all the bytes of a writer of that target that reached rename |
| `AtomicFile.NotPersistedNeverVisible` | crates/ai/src/atomic_file.rs:38-46 | a writer told NotPersisted is not, and after no crash becomes, the value of any target |
| `AtomicFile.SyncFailedStillLanded` | crates/ai/src/atomic_file.rs:47-55 | a writer told RenameSucceededSyncFailed did rename its complete bytes |
| `AtomicFile.OkIsDurable` | crates/ai/src/atomic_file.rs:12-20 | on Unix, in every later state and after every crash, the target of a writer told Ok holds its bytes or those of a later rename |
| `AtomicFile.OkIsNotDurableWithoutDirectorySync` | crates/ai/src/atomic_file.rs:31-36 | where the directory is not synced, a concrete run returns Ok and then loses the file in a crash |
| `AtomicFile.TempFilesAreNotStolen` | crates/ai/src/atomic_file.rs:105-140 | the temporary a failed writer removes is its own or a dead one's, and a synced writer's temporary is still its own complete file |
| `AtomicFile.Directory.AtomicWriteBytes` | crates/ai/src/atomic_file.rs:96-143 | the call itself, with any steps of other processes between its system calls: with its temporary name free and every call working it is Ok unless the process is killed; NotPersisted exactly when creating the directory or a call up to the rename failed, the temporary then being gone unless its removal failed; RenameSucceededSyncFailed exactly when only the directory sync did; and each result carries its promise |
| `AtomicFile.Directory.WriteAll` | crates/ai/src/atomic_file.rs:114-120 | any split of the bytes into writes leaves the file opened, failed or its process dead |
| `AtomicFile.Directory.OthersRun` | crates/ai/src/atomic_file.rs:23-24 | steps of others leave a running writer's record alone or kill it |
| `AtomicFile.ProcessesDie` | crates/ai/src/atomic_file.rs:23-24 | a living process may die at any moment with all its unfinished writes, and the directory stays as it is |
| `UpdateApply.Updater.Persist` | crates/update/src/journal.rs:343-359 | success means the store held this writer's journal and now holds the next; after a failure it holds either; a writer the store has overtaken changes nothing |
| `UpdateApply.Updater.AdvancePhase` | crates/update/src/journal.rs:361-365 | advances exactly along the transitions of the phase, and keeps disk and stored journal in agreement although a failed store may have landed |
| `UpdateApply.Updater.AdvanceStep` | crates/update/src/journal.rs:367-371 | the same for a step: only forward, while applying, or to restored, while rolling back |
| `UpdateApply.Updater.Change` | crates/update/src/apply.rs:181-186 | a file is changed only with its intent stored and its content as recorded, and however the change fails the disk agrees with the journal |
| `UpdateApply.Updater.BackUpAll` | crates/update/src/apply.rs:159-174 | every old file has its whole backup before the first file is touched, and no installed file changes meanwhile |
| `UpdateApply.Updater.ReplaceOne` | crates/update/src/apply.rs:175-188 | one step goes from planned to applied, its intent stored before the file is touched, the others as they were |
| `UpdateApply.Updater.RunSteps` | crates/update/src/apply.rs:154-206 | success means every file is the new one, those left alone are theirs, and that is stored; on agreeing files and with no failing call it succeeds exactly if those left alone are theirs |
| `UpdateJournal.Transitions` | crates/update/src/journal.rs:48-79 | the transitions of phases and of steps, all of them |
| `UpdateRecovery.Choose` | crates/update/src/journal.rs:616-672 | a step is left at its old content, undone on founded grounds, or hopeless: neither old, nor new with a backup, nor missing with one |
| `UpdateRecovery.Decide` | crates/update/src/journal.rs:569-691 | the decision is the one the files call for: keep the old or new version exactly when it is whole, roll back exactly the steps that are not old, else ask for a hand |
| `UpdateRecovery.ToUndo` | crates/update/src/journal.rs:614-688 | the actions of a rollback are exactly the steps whose files are not the old ones, and they were all intended exactly when only intended steps changed their files |
| `UpdateRecovery.Perform` | crates/update/src/apply.rs:389-429 | without the grounds for it nothing is touched; done means the file is the old one again, the step is stored as restored, and no other file changed |
| `UpdateRecovery.PerformAll` | crates/update/src/apply.rs:344-348 | all actions, last one first, bring every step back to its old file |
| `UpdateRecovery.Undo` | crates/update/src/apply.rs:318-365 | put back exactly when every change was intended and the files left alone are theirs; nothing is touched when some change was not intended; asking for a hand is stored |
| `UpdateRecovery.EndingOf` | crates/update/src/apply.rs:307-365 | journal and files alone tell how recovery ends |
| `UpdateRecovery.Recover` | crates/update/src/apply.rs:296-367 | kept or put back means that version is whole and stored as such, each step put back being marked restored; a hopeless or unintended change means nothing is touched, and while awaiting health nothing is before the health child is gone; with no failing call it ends as journal and files tell, whatever they are; terminal journals stay, and every other one that is left to a hand says so in the store, unless storing just that failed |
| `UpdateRecovery.Require` | crates/update/src/apply.rs:369-373 | a journal in step with its store ends asking for a hand, both in memory and stored, with the same plan, if the last load and store worked; a terminal one stays |
| `UpdateRuns.Apply` | crates/update/src/apply.rs:109-152 | with no failing call: refused with nothing changed exactly while the parent runs, the journal is not fresh, or any file of a step is not the old one; else it gets to the health check exactly if the files left alone are theirs, and otherwise the store asks for a hand; reverted always means that the old version is whole |
| `UpdateRuns.ConcludeHealth` | crates/update/src/apply.rs:223-292 | committed means healthy, stored and whole, and without a failing call is exactly healthy and whole; otherwise reverted exactly when recoverable, and else the store asks for a hand; no file is changed before the health child is gone |
| `UpdateRuns.AgreeingRecoverable` | crates/update/src/apply.rs:1-9 | files that agree with the journal can be recovered in every state it can be in exactly if it does not ask for a hand already and the files left alone are theirs |
| `UpdateRuns.Run` | crates/update/src/apply.rs:1-9 | any sequence of applying, concluding, recovering and restarting, with any call failing or being the last of its process, keeps: each write was intended and replaced only recorded content, files nobody else changes go on agreeing with the stored journal, and those left alone stay; once concluded nothing is written any more |
| `UpdateRuns.StartUp` | crates/update/src/apply.rs:294-367 | after any such run, a start without failing calls ends with the whole old or whole new version, the new one exactly if committed, unless the journal already asks for a hand or a file left alone has changed; then every file of a step is in reach, and the store asks for a hand unless the update was already concluded |
| `Publication.Publisher.Publish` | scripts/gui_validate.py:1073-1117 | published, with the code of the document, exactly when this run holds the lock, the directory is its own and every file operation worked, and withdrawn and blocked otherwise; at most one extra write, exit 0 means the last check saw no abort, and a passing receipt beside another code means its removal failed |
| `Publication.Publisher.WriteUntilCurrent` | scripts/gui_validate.py:1092-1109 | the loop ends after at most two writes; with a receipt that includes every abort its last check saw exactly when every file operation worked, and with both files withdrawn otherwise |
| `Publication.Publisher.IncorporateAborts` | scripts/gui_validate.py:1059-1070 | pending aborts change the document at most once, never leave it passing, and keep its summary in agreement |
| `Publication.Publisher.WriteDocument` | scripts/gui_validate.py:1094-1098 | summary and receipt are both whole and of this document exactly when all four file operations worked; otherwise the receipt is as it was |
| `Publication.Publisher.Invalidate` | scripts/gui_validate.py:1099-1107 | each canonical file is gone unless removing it failed |
| `Publication.Publisher.Reserve` | scripts/gui_validate.py:229-247 | a directory is claimed exactly when it was empty and could be, and claiming it again changes nothing |
| `Publication.DowngradedIsMarked` | scripts/gui_validate.py:1064-1070 | a document with an abort folded in keeps what was recorded, has the abort last, turns a pass into blocked and keeps every other verdict, and stays consistent |
| `Publication.ExitCodes` | scripts/gui_validate.py:41-43 | 0 exactly for a pass, 1 exactly for a failure, 2 otherwise |
| `Publication.Publisher.ArrivedMeansMarked` | scripts/gui_validate.py:1093-1093 | an abort that arrived before publication is always in what is published |
| `GuiMain.ValidateAndPublish` | scripts/gui_validate.py:1011-1056 | without a result, exit 1, exactly when the last thing the try suite raised is what no clause catches; delivered, 0 exactly for a run whose steps all passed with no abort after it, 1 exactly for a failed build, start or child, 2 otherwise; undelivered, 2; exit 0 means result.json is the complete record of a run on a clean checkout with no child left; the lock descriptor is closed in every case |
| `GuiValidate.WorstIs` | scripts/gui_validate.py:786-788 | the priority minimum is fail if any step failed, else blocked if any was, else pass if any passed; skipped steps do not count |
| `GuiValidate.PassMeansAllPass` | scripts/gui_validate.py:786-788 | although skipped steps are ignored, the verdict is pass exactly when every recorded step passed |
| `GuiValidate.ReasonsExactly` | scripts/gui_validate.py:788-789 | the overall reasons are exactly those given for steps that did not pass |
| `GuiValidate.Validator.RunValidation` | scripts/gui_validate.py:820-884 | whatever is raised where, each stage is recorded once, in order, and cleanup once; there is no result exactly when the last thing raised by a call of the try suite is what no clause catches; the verdict passes iff all steps do, and fails iff compiler or artifact check broke on an undisturbed checkout, the child could not be started, or it exited before its window was seen; passing binds all SHAs, a clean tree, the tools, the ready child, its window and its image seen, and a stopped child; a started child reaches cleanup iff closing its log did not raise |
| `GuiValidate.NothingGoesWrong` | scripts/gui_validate.py:820-884 | a run in which every call works passes |
| `GuiValidate.ImageCheckTimesOut` | scripts/gui_validate.py:534-565 | a run whose first image check times out records every stage and the cleanup and has no result |
| `GuiValidate.LogCannotBeClosed` | scripts/gui_validate.py:403-419 | a run whose child was started but whose log cannot be closed ends with the child running and cleanup told there is none |
| `GuiValidate.CompilerFails` | scripts/gui_validate.py:592-637 | a run on a clean commit that does not compile has the verdict fail |
| `GuiValidate.Validator.CaptureImage` | scripts/gui_validate.py:511-572 | a timeout of the first image check is raised as it is, one of the second attempt as an environment error; an image counts only when nothing was raised |
| `GuiValidate.Validator.TryStages` | scripts/gui_validate.py:831-862 | a prefix of the stages is recorded, in order, whatever is raised and wherever an abort arrives, even after the last skipped stage; what was started or created is owned, and what was raised in a stage was raised in the active one, of which nothing is recorded |
| `GuiValidate.Validator.RecordMissing` | scripts/gui_validate.py:867-872 | the stages without a step are appended in order, blocked if active when interrupted and skipped otherwise |
| `GuiValidate.Validator.RunStages` | scripts/gui_validate.py:820-875 | a stage that was cut short by what it raised is recorded as blocked |
| `GuiValidate.MissingExactly` | scripts/gui_validate.py:871-875 | of the stages without a step, in order, the active one is blocked and the others are skipped |
| `GuiValidate.Validator.RecordFault` | scripts/gui_validate.py:863-866 | an abort adds a blocked run step, an environment error a blocked setup step, anything else nothing |
| `GuiValidate.Validator.DoPreflight` | scripts/gui_validate.py:575-611 | preflight passes only on a clean tree at the expected SHA |
| `GuiValidate.Validator.DoBuild` | scripts/gui_validate.py:614-639 | passes only on five agreeing clean looks, and fails exactly when compiler or artifact check broke and the looks before and after agree and are accepted |
| `GuiValidate.Validator.RunBuild` | scripts/gui_validate.py:322-395 | a build result comes from a clone observed clean at its commit before and after the compiler |
| `GuiValidate.Validator.SnapshotCheckout` | scripts/gui_validate.py:297-320 | the build directory is recorded as soon as it exists, even when an abort is delivered |
| `GuiValidate.BaselineComparedIffNonEmpty` | scripts/gui_validate.py:619-621 | the comparison with the SHA seen or asked for binds exactly when that SHA is not empty; a clean checkout of just that SHA is accepted |
| `GuiValidate.OneCommit` | scripts/gui_validate.py:575-639 | with a SHA from preflight, every look in a passing run saw that one commit, clean |
| `GuiValidate.Validator.LaunchChild` | scripts/gui_validate.py:397-419 | a started child is returned unless closing its log file raised |
| `GuiValidate.Validator.DoLaunch` | scripts/gui_validate.py:642-677 | a started child is in the holder before an abort is delivered; fail means it never started or has exited, blocked means the deadline passed |
| `GuiValidate.Validator.DoWindowDiscovery` | scripts/gui_validate.py:680-710 | fail means the child has exited, blocked means the deadline passed without a window |
| `GuiValidate.Validator.DoCleanup` | scripts/gui_validate.py:747-766 | cleanup is given the holder once and passes only if the child is gone |
| `GuiValidate.Validator.AcquireExecution` | scripts/gui_validate.py:194-211 | the lock's descriptor is never open without being recorded, whatever fails or is delivered |
| `GuiValidate.Validator.CleanupBuild` | scripts/gui_validate.py:213-219 | the build directory is removed or an error is noted |
| `GuiValidate.CompleteByCleanup` | scripts/gui_validate.py:873-876 | the cleanup step completes the record without hiding an unexplained skip |
| `ExecutionLock.StepInv` | scripts/gui_validate.py:194-227 | every start, open, lock, launch, hand-on, close and death keeps lock, holders and processes consistent |
| `ExecutionLock.AtMostOneChild` | scripts/gui_validate.py:397-419 | in every run of any number of validators and launchers at most one launched program is alive |
| `ExecutionLock.LockedIffHeld` | scripts/windows_gui_lock_launcher.py:1-18 | the lock is held exactly while its acquirer, the child, or something the child started has it open |
| `ExecutionLock.AcquireSucceedsIffFree` | scripts/windows_gui_lock_launcher.py:123-150 | an acquirer gets the lock exactly when every earlier holder is gone |
| `ExecutionLock.LockOutlivesAcquirer` | scripts/gui_validate.py:404-410 | from when a child is seen until it is gone the lock stays the one it inherited |
| `ExecutionLock.OrphanHolds` | scripts/windows_gui_lock_launcher.py:123-210 | a concrete run: of two validators the first takes the lock, starts its child and dies, and the child holds the lock |
| `ExecutionLock.SecondWaitsForOrphan` | scripts/windows_gui_lock_launcher.py:123-210 | there the second is refused while the child lives and gets the lock once it has gone |
| `ExecutionLock.ChildUnchanged` | scripts/windows_gui_lock_launcher.py:192-194 | a child keeps its description for life |
| `ExecutionLock.Display.LaunchWithLock` | scripts/windows_gui_lock_launcher.py:162-210 | with the lock free, a command, and everything going well, the child is started and the launcher returns or is killed; without a command or while anyone holds the lock nothing starts; on return the handle is closed and the child has exited; an interrupt outside the wait closes the handle too, except right after acquiring it, and however the call ends, a child that is still there holds the lock |
| `ExecutionLock.Display.AcquireExclusive` | scripts/windows_gui_lock_launcher.py:123-150 | acquiring succeeds only if no process holds any description of the lock, does succeed then if the file can be opened, and otherwise changes nothing |
| `ReleaseArchive.JoinOfSplit` | scripts/release_catalog.py:446-446 | splitting a name at slashes loses nothing, and no part contains a slash |
| `ReleaseArchive.ValidateMemberName` | scripts/release_catalog.py:440-450 | accepts exactly the portable relative names within the byte limits |
| `ReleaseArchive.StripIsTrim` | scripts/release_catalog.py:440-470 | for a valid name, stripping slashes for the collision key removes at most the one of a directory |
| `ReleaseArchive.OpenArchive` | scripts/release_catalog.py:456-497 | accepts exactly the ZIPs whose size, count, names, entries, pairwise keys and total are all in order, and reports the total |
| `ReleaseArchive.LoneEntry` | scripts/release_catalog.py:476-490 | a validly named entry alone is accepted exactly if it is not encrypted, stored or deflated, within the size and ratio limits, and of a plain Unix mode: file, directory or no type, without set-user-ID or set-group-ID |
| `ReleaseArchive.SpecialFilesRefused` | scripts/release_catalog.py:484-490 | pipes, devices, links, sockets and set-ID files spoil any ZIP |
| `ReleaseArchive.OtherFormatsRefused` | scripts/release_catalog.py:476-479 | encrypted entries and other compression methods spoil any ZIP |
| `ReleaseArchive.AcceptedTogether` | scripts/release_catalog.py:456-493 | all entries are acceptable and valid, none has another's key, and count and sizes keep the limits |
| `ReleaseArchive.LongNamesRefused` | scripts/release_catalog.py:440-450 | paths over 240 bytes and parts over 255 spoil any ZIP |
| `ReleaseArchive.ExpansionBounded` | scripts/release_catalog.py:477-495 | accepted entries unpack to at most 500 times their compressed size, give or take a constant for each entry |
| `ReleaseArchive.NamesUnique` | scripts/release_catalog.py:470-473 | two entries of an accepted ZIP with the same collision key are the same entry |
| `ReleaseArchive.Find` | scripts/release_catalog.py:496-496 | finds an entry of that name that is a file, or there is none |
| `Signatures.DomainsNeverMeet` | scripts/release_catalog.py:49-50 | no inventory message is a catalog message |
| `Signatures.VerifySignature` | scripts/release_catalog.py:276-304 | accepts exactly when some entry signs under a trusted key and every entry before it is well shaped but does not |
| `Signatures.SignedVerifies` | scripts/release_catalog.py:266-304 | a signature file made with a trusted 32-byte seed verifies over what it was made for |
| `DocumentCodec.ReadsBack` | scripts/release_catalog.py:212-213 | there is a codec that reads every document of the kinds built here back as itself, so the law assumed of one can be met |
| `DocumentCodec.PlainSchemeIsLawful` | scripts/release_catalog.py:260-304 | a scheme with that codec keeps every law assumed of keys, signatures and base64 |
| `DocumentCodec.PlainWorldIsLawful` | scripts/release_catalog.py:194-205 | and so does a world with it, over any hash, character tables and contents checks |
| `Signatures.InventorySignatureIsNoCatalogSignature` | scripts/release_catalog.py:49-50 | if only inventories were ever signed, no signature file makes any bytes a catalog |
| `ReleaseInventory.VerifyList` | scripts/release_catalog.py:752-776 | accepts exactly the lists that name every owned file once, with its size and hash |
| `ReleaseInventory.NoRepeatIffFullSize` | scripts/release_catalog.py:775-776 | comparing the set's size with the list's detects exactly the repetitions |
| `ReleaseInventory.VerifyArchiveInventory` | scripts/release_catalog.py:721-777 | accepts exactly when the inventory is signed, for this release, and lists exactly the owned files; returns its hash |
| `ReleaseInventory.EntryFor` | scripts/release_catalog.py:753-773 | each owned file of an accepted ZIP has exactly one entry |
| `ReleaseInventory.ListDetermines` | scripts/release_catalog.py:752-776 | a list fixes the names of the files it is accepted for, and the size and hash of each |
| `ReleaseInventory.InventoryDetermines` | scripts/release_catalog.py:721-777 | inventory bytes fix the release, and the files byte for byte exactly unless two of one name collide under the hash |
| `ReleaseInventory.SameInventorySameBytes` | scripts/release_catalog.py:721-777 | two ZIPs accepted with the same inventory bytes are of the same release, and own the same files byte for byte exactly unless two collide under the hash |
| `ReleaseInventory.InventoryFiles` | scripts/release_catalog.py:569-581 | succeeds exactly when the kept names are valid and pairwise non-colliding, with one entry each in walking order |
| `ReleaseInventory.MakeZip` | scripts/release_catalog.py:637-649 | succeeds exactly when every name is valid, with one plain member per file |
| `ReleaseInventory.OwnedPathIs` | scripts/release_catalog.py:748-751 | the owned paths are the files under the prefix other than the inventory and its signature |
| `ReleaseRoundTrip.BuiltListsExactly` | scripts/release_catalog.py:569-593 | the inventory built from a tree lists exactly that tree, if no file is too big |
| `ReleaseRoundTrip.BuiltDescribes` | scripts/release_catalog.py:584-607 | the built document is accepted for its tree exactly when the tree is not empty and within the limits |
| `ReleaseRoundTrip.BuiltInventoryAccepted` | scripts/release_catalog.py:721-777 | a ZIP owning the tree and carrying its signed inventory passes exactly when inventory and tree fit, under any prefix |
| `ReleaseRoundTrip.StagedZipAcceptable` | scripts/release_catalog.py:456-497 | the ZIP of a directory passes the structural checks exactly when the directory keeps the limits, the compression ratio included |
| `ReleaseRoundTrip.StagedContent` | scripts/release_catalog.py:503-514 | each staged file is read back from its member, and nothing else is |
| `ReleaseRoundTrip.StagedOwns` | scripts/release_catalog.py:748-751 | the staged ZIP owns exactly the inventoried tree |
| `ReleaseRoundTrip.StagingRoundTrip` | scripts/release_catalog.py:569-649 | inventory, sign, zip, open and verify succeed exactly when the staged directory keeps the limits and is not empty |
| `ReleaseZips.VerifyWindowsZip` | scripts/release_catalog.py:686-718 | succeeds exactly when structure, signed inventory at its place and contents checks are all in order, and reports the unpacked size and the hash of the inventory |
| `ReleaseZips.VerifyMacosZip` | scripts/release_catalog.py:780-849 | the same with the inventory beside the application, and the bundle identity reported |
| `ReleaseZips.StagedWindowsVerifies` | scripts/release_catalog.py:686-718 | the ZIP of a staged Windows release verifies exactly when it keeps the limits, is not empty and its particular files are in order |
| `ReleaseZips.StagedIsSound` | scripts/release_catalog.py:569-649 | a staged, inventoried, signed and zipped directory verifies exactly when it keeps the limits and is not empty, and what is reported is the hash of its own inventory |
| `ReleaseZips.VerifiedIsBounded` | scripts/release_catalog.py:686-718 | a verified ZIP keeps the size limits the catalog is checked against |
| `ReleaseCatalog.WholeSeconds` | scripts/release_catalog.py:885-886 | the printed window is in range exactly from one second to just under 180 days and one second |
| `ReleaseCatalog.TagOfVersion` | scripts/release_catalog.py:156-165 | every major, minor and patch number has a stable tag whose version it is |
| `ReleaseCatalog.StableTagExactly` | scripts/release_catalog.py:156-165 | stable tags are exactly the printed versions after a v, a final newline tolerated |
| `ReleaseCatalog.BuildsExactly` | scripts/release_catalog.py:860-923 | a catalog is built exactly from a stable tag, a full commit, a 64-bit sequence from 1 on and two verified ZIPs, unless too long |
| `ReleaseCatalog.BuiltSays` | scripts/release_catalog.py:876-923 | a built catalog names channel, repository, tag, version, commit, sequence, protocols, compatibility, times and targets as given |
| `ReleaseCatalog.TargetsSay` | scripts/release_catalog.py:876-905 | each target entry states its asset's name, size, hash, unpacked size, layout and inventory hash |
| `ReleaseCatalog.BuiltCovers` | scripts/release_catalog.py:860-913 | the document built over verified ZIPs covers them exactly in its window and for its sequence |
| `ReleaseCatalog.BuiltCatalogAccepted` | scripts/release_catalog.py:952-1018 | a catalog built over verified ZIPs and signed is accepted over them exactly from 24 hours before publication until expiry, for its sequence, if its validity is at least a second and under 180 days and a second |
| `ReleaseCatalog.CatalogBindsRelease` | scripts/release_catalog.py:952-1018 | accepted with the same catalog bytes means the same tag and commit, and ZIPs of the same sizes and hashes |
| `Extraction.ResolveStays` | scripts/release_catalog.py:440-450 | a checked name resolves below the destination |
| `Extraction.TargetsDiffer` | scripts/release_catalog.py:436-473 | on a disk that identifies no two valid names with different keys, no two entries of an accepted ZIP have the same place |
| `Extraction.ApartExactlyWhenCompatible` | scripts/release_catalog.py:436-473 | the checks keep the entries of every accepted ZIP apart exactly on such disks |
| `Extraction.CollisionSlipsThrough` | scripts/release_catalog.py:436-437 | for any two valid names the disk identifies although their keys differ, and every archive size in the limits, there is an accepted ZIP of two files with one place and different contents |
| `Extraction.CanonicalCaselessIsNot` | scripts/release_catalog.py:436-437 | a disk that compares by canonical caseless matching is no such disk: U+03AA U+0301 and U+0390 |
| `Extraction.TargetsPlaced` | scripts/release_catalog.py:1172-1181 | the entries of an accepted ZIP have places below an empty destination, distinct ones if the disk identifies no two valid names with different keys |
| `Extraction.LayoutIs` | scripts/release_catalog.py:1172-1181 | whatever the disk identifies, after any number of entries each place holds what it held, a directory on the way, or the last file written to it |
| `Extraction.WayBlocked` | scripts/release_catalog.py:1175-1178 | making directories fails exactly where an earlier file needs to be a directory |
| `Extraction.PlaceTaken` | scripts/release_catalog.py:1179-1179 | a file cannot be written exactly where an earlier entry is, or needed, a directory |
| `Extraction.Disk.MakeDirectories` | scripts/release_catalog.py:1176-1178 | fails exactly at a file on the way, and otherwise adds exactly the missing directories |
| `Extraction.MadeIs` | scripts/release_catalog.py:1169-1171 | a missing destination is made with the directories above it, empty, and one that exists is left alone |
| `Extraction.Disk.Extract` | scripts/release_catalog.py:1167-1181 | succeeds exactly when the destination is an empty directory or can be made, the ZIP is acceptable and readable, and no file is where another entry needs a directory, on every disk; writes at most the unpacked limit |
| `Extraction.ExtractedExactly` | scripts/release_catalog.py:1172-1181 | with distinct places every file of the archive is where its name says, with its content |
| `Extraction.ExtractedBelow` | scripts/release_catalog.py:1172-1181 | whatever the disk identifies, nothing is new but directories and the last file written to each place, all below the destination, and nothing that was there changes |
| `Extraction.FilesKeptExactly` | scripts/release_catalog.py:1172-1181 | no file of the archive is lost exactly when files that share a place have the same contents |
| `Extraction.ReadsItself` | scripts/release_catalog.py:503-514 | reading by name yields the entry itself |
| `Extraction.FileBytesBounded` | scripts/release_catalog.py:491-495 | the bytes of any first files are at most the checked unpacked size |
| `ReleaseHistory.PublishedCatalogs` | scripts/release_catalog.py:1062-1085 | fails exactly on a public half-present, unverifiable or misnamed catalog, and otherwise lists every public catalog |
| `ReleaseHistory.HighestIs` | scripts/release_catalog.py:1100-1100 | the maximum is attained and bounds every sequence |
| `ReleaseHistory.PlanRelease` | scripts/release_catalog.py:1105-1130 | succeeds exactly under the listed conditions, with 1 for the first catalog and else the successor of one public sequence, above all of them |
| `ReleaseHistory.PlannedExactly` | scripts/release_catalog.py:1106-1130 | planning succeeds exactly if the tag is free, its version as one number exceeds that of every other stable version tagged or public, and the public catalogs are whole, distinct and below the limit |
| `ReleaseHistory.StepInv` | scripts/release_catalog.py:1088-1130 | planning, publishing, abandoning, foreign tags and foreign releases that are no public catalogs keep sequences and versions in step |
| `ReleaseHistory.SequencesFollowVersions` | scripts/release_catalog.py:1062-1130 | in every history whose hand-made releases were checked first, published drafts and copied catalogs included, and from which nothing was withdrawn, the public sequences are exactly 1..n and follow the versions |
| `ReleaseHistory.SoundExactlyWhenCareful` | scripts/release_catalog.py:1062-1130 | in every history, with releases made by hand from any catalog ever signed, drafts published by hand and releases withdrawn, the public sequences stay distinct and the catalogs whole exactly when no release made or draft published by hand is half, unverifiable or misnamed, or has a sequence already public or planned |
| `ReleaseHistory.StepSound` | scripts/release_catalog.py:1062-1130 | of all steps, withdrawals and hand-made releases from earlier catalogs included, exactly the unchecked ones made by hand lead from a sound history to an unsound one |
| `ReleaseHistory.CarefulDraftIsNext` | scripts/release_catalog.py:1088-1103 | a draft whose sequence is free carries the very next one, and takes its place after all others |
| `ReleaseHistory.CarefulReleaseIsNext` | scripts/release_catalog.py:1069-1103 | a checked public release made by hand from a catalog signed earlier carries the very next sequence, and nothing is planned |
| `ReleaseHistory.StuckForever` | scripts/release_catalog.py:1062-1093 | after a reuse or a broken public catalog every later plan fails until something is withdrawn |
| `ReleaseHistory.RecklessSticks` | scripts/release_catalog.py:1069-1093 | a concrete history, two plans and a draft published by hand, ends in such a reuse |
| `ReleaseHistory.CopyingSticks` | scripts/release_catalog.py:1069-1093 | a concrete history in which an abandoned draft's catalog is put on a new release made by hand ends in a reuse as well |
| `ReleaseHistory.PatientIsFine` | scripts/release_catalog.py:1069-1103 | a concrete history in which a draft is published by hand leaves the next release possible |
| `ReleaseHistory.MajorComesFirst` | scripts/release_catalog.py:156-160 | a concrete history: 2.0 is planned after 1.9 and gets the next sequence, and then 1.10 is refused and 2.1 is not |
| `ReleaseHistory.WithdrawnSequenceReturns` | scripts/release_catalog.py:1088-1103 | a concrete history: the sequence of a published and deleted release is given to the next one |
| `ReleaseHistory.ReuseIsClash` | scripts/release_catalog.py:1089-1092 | a repeated sequence comes from two public releases |
| `MachO.LoadCommands` | scripts/release_catalog.py:369-389 | accepts exactly the inputs whose first commands tile a prefix of the declared region, and returns their numbers |
| `MachO.TablesAgree` | scripts/release_catalog.py:379-388 | two tables tiling one region agree as far as both go |
| `MachO.TableRecovered` | scripts/release_catalog.py:369-389 | the commands of an accepted input are determined by it |
| `MachO.WellFormedFileTiles` | scripts/release_catalog.py:369-389 | every well-formed serialization, with slack and trailing bytes, is accepted as its table |
| `MachO.TruncatedTableRejected` | scripts/release_catalog.py:380-381 | a region that ends inside a command's first eight bytes tiles no table of the declared length |
| `MachO.MalformedEntryRejected` | scripts/release_catalog.py:384-385 | an entry size below eight or past the region admits no table |
| `MachO.OnlyHeaderAndRegionMatter` | scripts/release_catalog.py:373-378 | bytes after the declared region never matter |
| `MachO.Decode32Injective` | scripts/release_catalog.py:373-374 | little-endian decoding loses nothing |
| `MachO.LittleEndian` | scripts/release_catalog.py:373-374 | the first byte is the lowest |
| `MachO.HeaderExactly` | scripts/release_catalog.py:369-378 | only the 64-bit magic number is accepted, with the declared region inside the file |
| `ScrollCollector.WindowBound` | scripts/hosted_gui_interaction.swift:789-789 | truncating 135 ms to whole ticks never lets in a sample later than 135 ms |
| `ScrollCollector.WindowExact` | scripts/hosted_gui_interaction.swift:789-789 | the window holds exactly the ticks of at most 135 ms |
| `ScrollCollector.MillisecondsMonotone` | scripts/aadw_scroll_event_observation.py:153-159 | milliseconds order as ticks do |
| `ScrollCollector.MillisecondsExact` | scripts/aadw_scroll_event_observation.py:153-159 | ticks worth a whole number of milliseconds are that many |
| `ScrollCollector.DisplayCapture.OnSample` | scripts/hosted_gui_interaction.swift:878-963 | every callback keeps the collection ordered and in the window; exactly the timely frames that keep the order are collected, up to 64, and exactly the unusable, disordered and excess ones spoil it |
| `ScrollCollector.DisplayCapture.Examine` | scripts/hosted_gui_interaction.swift:878-944 | exactly the complete, timely samples with an image are considered, with callback and ready times on one clock, and exactly the unusable ones spoil the collection |
| `ScrollCollector.DisplayCapture.WaitForDisplayResponses` | scripts/hosted_gui_interaction.swift:834-860 | what is returned was displayed and ready by then |
| `ScrollFields.Print` | scripts/hosted_gui_interaction.swift:1281-1312 | the printed fields show the measurement |
| `ScrollFields.ProductShown` | scripts/hosted_gui_interaction.swift:1281-1312 | the product's timing fields show it, or that there is none |
| `ScrollFields.ReadBack` | scripts/hosted_scroll_inertia_gui.py:617-640 | a printed response is read back as its sample |
| `ScrollFields.ParseDisplayResponses` | scripts/hosted_scroll_inertia_gui.py:599-662 | accepts exactly a valid, complete, distinct, ordered collection within 135 ms, and rebuilds it |
| `ScrollFields.CollectionAccepted` | scripts/hosted_scroll_inertia_gui.py:599-662 | whatever the collector gathers, if not empty, is accepted exactly when valid, and rebuilt exactly |
| `ScrollFields.CheckResponse` | scripts/hosted_scroll_inertia_gui.py:623-642 | the running comparison decides exactly whether the list with one more response is acceptable |
| `ScrollAssessment.ParseCapture` | scripts/hosted_scroll_inertia_gui.py:539-677 | accepts exactly frames present and ordered in ticks, on the route; refused responses do not discard the frames |
| `ScrollAssessment.OrderInTicks` | scripts/hosted_scroll_inertia_gui.py:582-597 | the order checked in milliseconds is the order of the ticks |
| `ScrollAssessment.AssessDisplays` | scripts/aadw_scroll_event_observation.py:232-270 | the display loop accepts exactly distinct, ordered responses after the event |
| `ScrollAssessment.AssessorReads` | scripts/aadw_scroll_event_observation.py:235-250 | a reading takes each value from its own field, of a complete frame with some image path |
| `ScrollAssessment.Assess` | scripts/aadw_scroll_event_observation.py:175-321 | unavailable exactly when a stage is missing, and ordered exactly when event, receipt and paint are in order |
| `ScrollAssessment.AcceptedIsAssessed` | scripts/aadw_scroll_event_observation.py:226-270 | whatever the parser accepts, the assessor's display loop accepts |
| `ScrollAssessment.MeasurementIsAssessed` | scripts/aadw_scroll_event_observation.py:175-321 | a valid measurement beside Hane's timing on the same clock is always assessed |
| `ScrollAssessment.Finish` | scripts/hosted_gui_interaction.swift:1252-1312 | a finished collection, its images written after its last frame was displayed and ready, is printed so that the parser accepts it exactly when valid and rebuilds it |
| `TimingLog.LinesOfConcat` | scripts/hosted_gui_interaction.swift:1153-1155 | appending bytes appends lines |
| `TimingLog.LinesReadBack` | scripts/hosted_gui_interaction.swift:1155-1155 | lines written one after the other are read as they were written |
| `TimingLog.ReadingIsStableUnderGrowth` | scripts/hosted_gui_interaction.swift:1143-1164 | once a record is returned every longer log returns the same |
| `TimingLog.PartialLineIgnored` | scripts/hosted_gui_interaction.swift:1153-1155 | bytes after the last newline do not matter |
| `TimingLog.EarlierBytesIgnored` | scripts/hosted_gui_interaction.swift:1147-1152 | bytes before the offset do not matter |
| `TimingLog.StaleRowsIgnored` | scripts/hosted_gui_interaction.swift:1156-1160 | complete lines inserted in the log between complete lines change nothing if none of them parses to a record after the event |
| `TimingLog.FirstUsable` | scripts/hosted_gui_interaction.swift:1155-1163 | the first row received at or after the event, or there is none |
| `LineRun.CoherentVisibleLineRun` | scripts/hosted_scroll_inertia_gui.py:132-167 | returns the one maximal run that beats all others, or nothing when there is none; a statement about the set of readings only |
| `LineRun.SelectionIsUnique` | scripts/hosted_scroll_inertia_gui.py:132-167 | a set of readings selects at most one run |
| `LineRun.SelectedExactly` | scripts/hosted_scroll_inertia_gui.py:159-167 | the selected run has more readings than every other, or as many over a longer span |
| `LineRun.MaximalRuns` | scripts/hosted_scroll_inertia_gui.py:142-158 | the scan finds exactly the maximal chains with gaps of at most two |
| `LineRun.UniqueStrongest` | scripts/hosted_scroll_inertia_gui.py:159-167 | the run whose count and span beat all others, or none |
| `LineRun.SortedDistinct` | scripts/hosted_scroll_inertia_gui.py:141-141 | sorted, without repetition, same readings |
| `LineRun.IsolatedReadingAddsOneRun` | scripts/hosted_scroll_inertia_gui.py:132-167 | a reading far from all others changes the runs by exactly its own |
| `LineRun.IsolatedReadingIgnored` | scripts/hosted_scroll_inertia_gui.py:132-167 | such a reading never changes a selected run of at least two readings |
| `LineRun.IsolatedReadingSpoilsSingleRow` | scripts/hosted_scroll_inertia_gui.py:132-167 | a selected single reading stops being selected once an isolated one is added |
| `Insertion.LocateSingleInsertionOffset` | scripts/hosted_gui_interaction.py:341-355 | an offset is returned exactly when it is the only one explaining the edit |
| `Insertion.TwoExplanations` | scripts/hosted_gui_interaction.py:341-355 | two offsets explain one edit exactly when the insertion commutes with the text between them |
| `Insertion.SingleCharacterExplanations` | scripts/hosted_gui_interaction.py:341-355 | a character is explained by exactly the offsets of the run of that character |
| `Insertion.SingleCharacterLocated` | scripts/hosted_gui_interaction.py:341-355 | a character is located exactly when no equal character touches it |
| `Insertion.FreshMarkLocated` | scripts/hosted_gui_interaction.py:341-355 | a mark with a character the text lacks is located at every offset |
| `Insertion.MatchedButNotCanonicalIffAmbiguous` | scripts/hosted_gui_interaction.py:940-985 | matched bytes are refused exactly when another offset explains them too |
| `Insertion.FreshMarkClassification` | scripts/hosted_gui_interaction.py:940-985 | with a fresh mark that branch is dead, and fail means the text is no insertion of the mark |
| `Insertion.FreshMarkMiss` | scripts/hosted_gui_interaction.py:940-975 | a fresh mark elsewhere blocks, as a far miss exactly more than four characters away; nothing inserted blocks too |
| `InlineScenario.EditorSession.WaitForFixtureBytes` | scripts/hosted_gui_interaction.py:473-487 | stops at the first read of the expected text, gives up only at the deadline, and sleeps exactly once between two reads |
| `InlineScenario.EditorSession.WaitForFixtureSettledBytes` | scripts/hosted_gui_interaction.py:490-520 | reads until the deadline and succeeds exactly when some match survived every later read, which is when the final read matches |
| `InlineScenario.EditorSession.RestoreScenarioBaseline` | scripts/hosted_gui_interaction.py:841-873 | success exactly when the save, every undo and the caret move were answered and the last wait ended on the baseline; giving up exactly when save and eight undos were answered and it did not; each undo is followed by a wait of its own |
| `InlineScenario.EditorSession.BoundaryEditCheck` | scripts/hosted_gui_interaction.py:913-993 | evidence exactly when click and typing worked; then the classification of the text read decides between fail, blocked and going on, and a check that goes on passes exactly when the undo worked and the baseline was read back |
| `InlineScenario.EditorSession.ConfirmReproducibility` | scripts/hosted_gui_interaction.py:996-1077 | the outcome never changes; the mismatch counts as reproduced exactly when the repeated check saw the same text, offset and landing as the first, and then it was blocked too |
| `InlineScenario.SameOffsetSameEvidence` | scripts/hosted_gui_interaction.py:1051-1058 | comparing the two offsets is as good as comparing everything that was seen |
| `InlineScenario.EditorSession.RunMutatingSubtest` | scripts/hosted_gui_interaction.py:876-890 | going on means the baseline was observed last; not going on means the process is gone, something was not answered, or something else was observed last; where the editor's answers leave no doubt which action stops the script, and how, the outcome is that one |
| `InlineScenario.EditorSession.RunSubtests` | scripts/hosted_gui_interaction.py:1802-1813 | executed subtests are a prefix, each began on the observed baseline, nothing runs after a failed restore, and the last restore failed only without a process, an answer or the baseline; the outcomes that the editor's answers foretell are the first ones |
| `InlineScenario.EditorSession.ObligingEditor` | scripts/hosted_gui_interaction.py:876-993 | an editor that answers every call and shows every awaited text, in a document without the mark, gets through a whole script with one read for each text |
| `InlineScenario.EverySubtestEndsAtBaseline` | scripts/hosted_gui_interaction.py:1250-1743 | every kind of subtest of the scenario ends by reading the baseline |
| `ModelWalk.FetchChatgptModels` | crates/ai/src/models.rs:47-125 | at most 50 calls, no cursor twice, at most 1000 models, each outcome explained by the pages seen; the error after the loop cannot be reached |
| `ModelWalk.FirstPage` | crates/ai/src/models.rs:52-120 | what the first page alone decides: a list without next cursor is the answer, an empty or other cursor is invalid, a text is asked for next, more than 1000 items are too many |
| `ModelWalk.AppendPage` | crates/ai/src/models.rs:47-125 | the visible text-capable models of a page in order, unless an item is malformed |
| `ModelWalk.VisibleExactly` | crates/ai/src/models.rs:68-98 | a model is listed exactly for an item that is not hidden and takes text, with its own fields, and is the default only where the item says so |
| `ModelWalk.StatelessWalk` | crates/ai/src/models.rs:47-125 | for a server that is a function of the cursor, success is exactly an ending chain within the limits, with all its models in order |
| `ModelWalk.CompleteWalkIsDistinct` | crates/ai/src/models.rs:47-125 | an ending chain of such a server never names a cursor twice |
| `ModelWalk.WalksAgree` | crates/ai/src/models.rs:47-125 | two walks of one server agree as far as both go |
| `DateLabel.LabelHasLeftInverse` | scripts/hosted_date_badge_gui.py:461-476 | on any hundred years containing today, the label determines its date |
| `DateLabel.WeekdaySuffixWindow` | scripts/hosted_date_badge_gui.py:466-471 | the weekday is shown exactly from the clamped same day of last month until yesterday |
| `DateLabel.WeekdaysFollow` | scripts/hosted_date_badge_gui.py:457-458 | weekdays follow each other through all months and leap years, and 1 January 2024 was a Monday |
| `DateLabel.BeforeIsCalendarOrder` | scripts/hosted_date_badge_gui.py:466-471 | dates are compared in calendar order |
| `DateLabel.LabelShape` | scripts/hosted_date_badge_gui.py:461-476 | the shape of a label tells which of the four cases made it |
| `DateLabel.FixturesCoverEveryShape` | scripts/hosted_date_badge_gui.py:508-588 | the fixtures exist exactly from year 2 on and then show all four shapes |
| `ChunkedInt.ParseIntInChunks` | scripts/aadw_jev_contract.py:105-121 | equals the decimal value for every signed literal and every chunk width |
| `ChunkedInt.LiteralReadsBack` | scripts/aadw_jev_contract.py:115-121 | a printed number is read as itself, and as its opposite after a minus |
| `ChunkedInt.PowerOfTen` | scripts/aadw_jev_contract.py:120-120 | the power the accumulator is scaled by |

## Left out

- `Publication.Publisher.Publish`: failures of printing the summary are not modelled; such an exception leaves the receipt as written.
- `GuiValidate.Validator.TryStages`: the instants inside installing and restoring signal handlers, and between leaving the try suite and marking the run as finalizing, are not interruptible in the model; a second abort there is not covered.
- `GuiValidate.Validator.DoWindowDiscovery`: the time a single window query takes is not limited in the model.
- `AtomicFile.Directory.AtomicWriteBytes`: one directory at a time; creating the parent directories is a single call that works or not, and a rename that reports failure is taken to have had no effect.
- `UpdateApply.Updater.Mutate`: the platform adapters (pinned handles, scratch files, macOS bundle exchange) are one change bound to the expected content; an adapter that does not bind it is not covered.
- `UpdateRuns.Run`: one install and one transaction; leases, the choice of the placement, the sealed recovery digest, journals that do not parse, and paths that differ only in case are not modelled.
- `ExecutionLock.Display.LaunchWithLock`: making the handle inheritable and resetting it are not separate steps, since only the listed handle reaches the child.
- `ScrollFields.Print`: fields are typed values grouped by their prefix; the text of names, numbers and lines is not modelled, nor an image path with a line break in it.
- `ScrollCollector.WindowBound`: real arithmetic; rounding of binary floating point is not modelled.
- `ReleaseInventory.MakeZip`: deflate is a size function, and reading a member back yields what was stored.
- `ReleaseInventory.InventoryFiles`: the updater identity record that `build_inventory` also demands is a property of one file's bytes and is not modelled.
- `ReleaseCatalog.BuiltCatalogAccepted`: the MSIX, property list, identity and signature-command checks of the two ZIP verifiers are one predicate each, since they are flat conjunctions over single files; publication or expiry outside the years 1000 to 9999 is not covered.
- `Extraction.Disk.Extract`: setting the executable bit is not modelled.
- `ReleaseHistory.PlanRelease`: paging through GitHub, and its limit of a thousand pages, is taken as reading the whole list.
- `TimingLog.FirstUsable`: parsing one line of the log is a parameter.
- `InlineScenario.EditorSession.RunSubtests`: the screenshots and OCR of each subtest are steps that succeed or not.
- `evaluate_lines_coast` and the other `evaluate_*` functions, `best_matches_satisfying` and `_is_json_value`: threshold tests and structural recursions settled by reading one body.
- Downloading release assets, `verify_macos_codesign`, the command lines, and all other scripts and crates: thin adapters around foreign tools.
