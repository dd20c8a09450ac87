# A verified model of the TikTok Manager backend

This project models the parts of the backend where state, interleaving or text formats make mistakes easy, and proves
what those parts promise. `dafny verify dfyconfig.toml` checks all of it.

- **Content store.** Uploads, replacements and thumbnails share one deduplicated blob store: private files on one side,
  database rows and references on the other, one maintenance lock from digest lookup to commit, compensation after
  rollback, and a garbage collector with a grace period. `ContentStorage` and `ContentUploads` are the loops in place;
  `ContentProtocol` is the same store as a step system with any number of processes, crashes at any point and outside
  changes; `ContentInvariant` and `ContentSafety` are about every run of it; `ContentCleanup` joins the two views, and
  `ContentReclaim` shows that what nothing references goes.
- **Artifact store.** `ArtifactEviction` is the eviction loop as a function with its accounting, `AutomationArtifacts` the
  store that runs it, with every way a call can fail, and `ArtifactRuns` what holds over whole runs of such calls.
- **Versions and jobs.** `ContentVersions` is an asset whose versions finish inspection in any order; `ContentJobs` is the
  scheduler, its reconciliation passes and the execution fence.
- **Deliveries.** `RemoteNames` is the name a delivery gets on the device, `ContentDelivery` its creation,
  `DeliveryProgress` its status while jobs are claimed, cancelled and taken over.
- **UI hierarchy.** `UiHierarchy`, `UiElements`, `UiParser`, `UiEncoding` and `UiSession` flatten an element tree into an
  array, show what each node keeps of its element and that nothing else is lost, and check a tap against the fingerprint.
- **Configuration.** `Toml` has the quoting and the two notions of a line; `ConfigFile`, `ConfigUpgrade` and `ConfigLines`
  the in-place upgrade; `ConfigDocument`, `ConfigRoundTrip` and `ConfigWritten` printing and reading any schema;
  `ApplicationConfiguration` the actual record and schema, `ApplicationKeys` the key of each of its fields and the checks
  of a record, `ApplicationUpgrade` and `ApplicationOldFile` what the upgrade means for the configuration that is loaded,
  `ApplicationDefaults` what a host installs.
- **Managed applications.** `AppManagement` is observe, decide, install, observe again against a device with faults.

## Results that qualify a promise

Some promises hold only under a condition. Each is stated with its exact condition.

1. A blob that has once left the active state makes its bytes unusable for ever: every later upload of them is refused
   (`LostDigestRefused`), because dedup looks at rows of every status; no other bytes are refused for that reason
   (`LostDigestExactly`).
2. Cleanup promises to report uncertain files and never to remove them. It removes a reported file exactly when an aged
   orphan row has that file with the wrong length (`ReportedYetRemoved`, with an example).
3. A failed upload leaves nothing behind, with two exceptions. If the directory sync after the rename fails, the caller
   never learns the key, so that one file stays. And if releasing the lock or loading the response fails after the commit,
   the caller sees a failure although everything is committed (`CreateUpload`).
   Thumbnail generation keeps the key of the installed file past its commit: if the release of the lock fails then, its
   handler removes the file, and the committed variant is left without it exactly when its row is new
   (`InstallThumbnail`, `CommittedFileRemovedExample`). In every run this is the only way, apart from outsiders, in which
   the file of a referenced blob changes (`ReferencedFileKept`).
4. Archiving and restoring is transparent for the ready flag; for the whole status it is so under a condition that is
   stated (`ArchivingTransparent`, `ArchivingNotTransparentExample`).
5. One live inspection per version holds as long as no terminal job is revived; a revival keeps it exactly when the
   version has no live inspection (`RevivalExact`, `RevivalExample`).
6. The idempotency key of a delivery protects one resolved version: a later call with the same runtime, key and option
   gets the first call's delivery if and only if it resolves to the same version (`IdempotentExactly`). A caller that loses
   a race gets a bare integrity error, because the constraint fires at the flush, outside the handler (`RaceLost`).
7. Succeeded or cancelled is final if and only if no execution is at work (`FinalExactly`); along a run it stays exactly as
   long as every execution that ends meanwhile ends alike (`SettledStays`, `CancelledStays`). The failure handlers write
   their status without looking at the claim, so runs exist in which a success or a cancellation is undone
   (`StaleExecutionOverwrites`, `CancelledUndone`).
8. The configuration upgrade reads lines as Python's `splitlines` does. They are TOML's lines exactly when no foreign line
   break occurs (`SplitExact`). When the upgrade inserts anything, the lines of the file survive if and only if no line
   holds such a break before its trailing blanks (`LinesSurviveExactly`); with U+2028 inside a string, which TOML allows as
   it does U+0085 and U+2029, the value is cut off by any upgrade that inserts anything (`BrokenValue`), and after the
   program's own upgrade the file can no longer be loaded (`BrokenValueLost`).
9. A printed configuration loads back exactly when it passes its own checks, its texts have no control characters other
   than tab and its paths do not start with a tilde (`LoadPrinted`).
10. The upgrade keeps what a file loads if and only if every key the file lacks falls back, in the loader, on the value that
    is installed (`UpgradeLoadsSame`). The lock directories do not: the loader falls back on /tmp, an installation has its
    own, so an old file loads other directories after its upgrade (`OldFileExactly`, `LockDirectoryMoves`): on every host
    with plain directories, whatever installation the file is from (`OldInstallationMoves`), and nothing else changes
    (`OldInstallationLoads`).
11. On a device that refuses lower version codes, as an install without `-d` asks it to, no call downgrades anything. On any
    other device the program's own checks are enough if and only if the bytes hold the application's own package
    (`KeepsCodesExactly`). A basic version is not inspected, so even on a strict device its bytes can add or replace a
    foreign package (`OthersUntouchedExactly`, `ForeignPackageReplaced`).
12. A failed delete takes an artifact out of the counted sum although its bytes stay; the loop's counter and the database
    sum differ by exactly these sizes (`Conservation`), and the refusal follows the database sum (`RefusalExact`).
13. A call that fails to store an artifact leaves neither row nor file, unless it fails after its commit: then the row stays
    and counts, and it lacks its file if and only if the refresh failed (`WhatACallLeaves`, `FailedRefreshExample`). For a
    request with a job such a row is the answer to every repeat: while the job is live, no cleanup takes it away and the
    same bytes are answered with "not found" (`RepeatsRefused`). A cleanup that stops, in its loop or at its commit, has
    removed files; unless the caller commits the session afterwards, the rows of these files stay active. These two,
    and outsiders, are the only ways in which an active row loses its bytes (`StepIntactExactly`, `RunIntact`). A request
    is refused for space only if its cleanup went through (`RunRefusalExact`).

## Model

| member | source | states |
|---|---|---|
| ContentStorage.ContentStorageService.StageStream | backend/app/services/content_storage.py:97-142 | under any chunking and any partial writes the staged file is the concatenation of the chunks, within the limit, with its own size and digest; every refusal means what it says and leaves the staging directory as it was |
| ContentStorage.ContentStorageService.WriteAll | backend/app/services/content_storage.py:124-127 | partial writes of any positive length append the chunk exactly once |
| ContentStorage.ContentStorageService.MaterializeBlob | backend/app/services/content_storage.py:188-253 | reuse, refusal or one new file and row, each changing exactly what it should; a failed install leaves its file only when the directory sync failed |
| ContentStorage.ContentStorageService.VerifyBlob | backend/app/services/content_storage.py:255-303 | succeeds exactly on files whose type, size and digest match the row, under any read sizes, and says why not otherwise |
| ContentStorage.ContentStorageService.RemoveInstalled | backend/app/services/content_storage.py:375-389 | removes the file unless it is unsafe; an absent file is no error |
| ContentStorage.ContentStorageService.DiscardStaged | backend/app/services/content_storage.py:363-373 | afterwards the staging file is gone and nothing else is |
| ContentStorage.ContentStorageService.ReconcileLocked | backend/app/services/content_storage.py:403-459 | rows become missing or orphaned exactly as files and references say; the counters and the reported names are exact; the session is committed |
| ContentStorage.ContentStorageService.ScanStaging | backend/app/services/content_storage.py:408-425 | exactly the stale generated files are removed, all others are reported |
| ContentStorage.ContentStorageService.ReconcileOne | backend/app/services/content_storage.py:433-454 | the loop body for one row |
| ContentStorage.ContentStorageService.ScanRows | backend/app/services/content_storage.py:427-454 | the loop over the rows, with exact counters |
| ContentStorage.ContentStorageService.Cleanup | backend/app/services/content_storage.py:461-510 | reconciliation followed by a sweep of aged orphans; rows, files, counters and the byte sum are those of the two passes |
| ContentStorage.ContentStorageService.SweepOne | backend/app/services/content_storage.py:492-502 | one candidate: file and row change together or not at all |
| ContentStorage.ContentStorageService.SweepOrphans | backend/app/services/content_storage.py:487-502 | the sweep loop against the files as they were at its start |
| ContentUploads.CreateUpload | backend/app/services/content_assets.py:45-131 | success leaves a committed reference to an active row for exactly the uploaded bytes; a failure after the commit leaves all of that too; any other failure leaves rows, references, staging and blobs untouched, except for the installed file when the directory sync failed |
| ContentUploads.InstallThumbnail | backend/app/services/content_thumbnail.py:103-134 | the same for the install section of thumbnail generation, except that after a failed release of the lock the committed reference lacks its file exactly when its row is new |
| ContentUploads.Install | backend/app/services/content_assets.py:66-129 | admit, reference, commit, and compensation after rollback, up to the commit; what follows the commit is in the two callers |
| ContentUploads.AdmitMeaning | backend/app/services/content_storage.py:195-216 | what each admission answer says about digests, statuses and quota |
| ContentBlobs.SweepFilesExact | backend/app/services/content_storage.py:487-502 | a sweep removes exactly the safe files of unreferenced, aged orphans |
| ContentBlobs.SuspectNamesExact | backend/app/services/content_storage.py:443-450 | the reported rows are exactly those whose file is unsafe or has the wrong length |
| ContentBlobs.KnownNamesExact | backend/app/services/content_storage.py:428 | the known names are exactly the keys of all rows |
| ContentBlobs.ReconcileKeepsKeys | backend/app/services/content_storage.py:433-457 | the names known before and after the pass are the same |
| ContentBlobs.OccupiedConservation | backend/app/services/content_storage.py:205-212 | what leaves the quota sum is exactly what became missing or deleted |
| ContentBlobs.OccupiedExact | backend/app/services/content_storage.py:205-212 | only active and orphaned rows count toward the quota, each with its size |
| ContentBlobs.ReconcileExact | backend/app/services/content_storage.py:433-454 | a pass orphans a row exactly if it was active and unreferenced with its file in place, marks it missing exactly if it was active or orphaned and its file is absent, and changes nothing else |
| ContentBlobs.SweepExact | backend/app/services/content_storage.py:483-502 | a sweep deletes a row exactly if it is an unreferenced orphan of at least the grace period whose file is absent or safe |
| ContentBlobs.UncertainExact | backend/app/services/content_storage.py:443-457 | a pass reports exactly the files under no row's key and those that are unsafe or of the wrong length |
| ContentBlobs.StaleExact | backend/app/services/content_storage.py:408-425 | exactly the private files under generated names of at least the given age leave the staging directory |
| ContentInvariant.StepKeepsInv | backend/app/services/content_storage.py:188-253 | every step of every process, of the operating system or of an outsider keeps the store's invariant: lock, digests, references, files, owners and quota |
| ContentSafety.RunInv | backend/app/services/content_assets.py:66-131 | the invariant holds in every state of every run |
| ContentSafety.RunAdvances | backend/app/services/content_storage.py:437-454 | rows keep their identity, statuses never move back, and the time stamp of an orphan is frozen |
| ContentSafety.GarbageSafety | backend/app/services/content_storage.py:483-502 | in every state of every run a committed reference points at an active or missing blob, and each digest and each key has at most one row |
| ContentSafety.ReferencedFileKept | backend/app/services/content_storage.py:492-502 | apart from outsiders, a step changes the file of a referenced blob exactly if it is the removal by the operation that committed the row and then failed to release the lock |
| ContentSafety.CommittedFileRemovedExample | backend/app/services/content_thumbnail.py:126-134 | a run of one thumbnail after which a committed variant's row is active and its file is gone |
| ContentSafety.FilesExact | backend/app/services/content_storage.py:218-253 | in every state of every run, for names not changed from outside: exactly which files exist, and those of rows are intact |
| ContentSafety.FileRowAgreement | backend/app/services/content_storage.py:218-253 | without crashes, failed releases of the lock and outside changes, at points with no install, compensation or sweep in flight, the directory holds exactly the intact files of active and orphaned rows |
| ContentSafety.RemovalExact | backend/app/services/content_assets.py:113-129 | compensation before a commit removes exactly the file its own operation installed, which no row owns |
| ContentSafety.MistakenRemovalOwned | backend/app/services/content_thumbnail.py:126-134 | the removal after a failed release of the lock hits the file of the committed row |
| ContentSafety.LeakedFileStays | backend/app/services/content_storage.py:455-457 | a file left by a crash between rename and commit is reported by every pass and removed by none |
| ContentSafety.OrphanOrigin | backend/app/services/content_storage.py:451-454 | every orphan was orphaned by one pass and has kept that pass's time since |
| ContentSafety.GracePeriod | backend/app/services/content_storage.py:476-502 | a deleted blob was orphaned at least the grace period before the time of the cleanup that deleted it, and stayed an orphan in between |
| ContentSafety.SweepCutoff | backend/app/services/content_storage.py:476-478 | the cutoff of a sweep is its start time minus its grace |
| ContentSafety.RunQuota | backend/app/services/content_storage.py:205-216 | active plus orphaned bytes never exceed the quota in any reachable state |
| ContentSafety.LostDigestRefused | backend/app/services/content_storage.py:195-203 | after a blob left the active state every later admission of its digest is refused |
| ContentSafety.LostDigestExactly | backend/app/services/content_storage.py:195-203 | that refusal is given exactly for digests of which some blob has ever left the active state |
| ContentCleanup.CleanupAccounting | backend/app/services/content_storage.py:484-509 | one cleanup lowers the quota sum by exactly the reclaimed bytes plus the sizes of rows it newly marked missing |
| ContentCleanup.ReportedYetRemoved | backend/app/services/content_storage.py:443-450 | a reported file is removed by the same cleanup if and only if it has the wrong length under an unreferenced, aged orphan |
| ContentCleanup.ReportedYetRemovedExample | backend/app/services/content_storage.py:443-502 | a concrete store in which that happens |
| ContentCleanup.UnlinkAllFiles | backend/app/services/content_storage.py:492-498 | the sweep made of single steps leaves the files the in-place loop promises |
| ContentCleanup.UnlinkAllSwept | backend/app/services/content_storage.py:492-502 | and records exactly the rows whose file it removed |
| ContentCleanup.CleanupRefines | backend/app/services/content_storage.py:461-510 | begin, sweep and commit of the step system end in the state of one cleanup call |
| ContentCleanup.UploadRuns | backend/app/services/content_assets.py:66-112 | an undisturbed upload can take each of its steps and ends with the committed reference to an active row for its bytes, a new one unless they were there, or is refused and changes nothing |
| ContentReclaim.NextPassOrphans | backend/app/services/content_storage.py:451-454 | the next pass orphans every active blob that nothing references |
| ContentReclaim.OrphanedSince | backend/app/services/content_storage.py:433-454 | over any run it stays orphaned, with that pass's time and without references, unless its file is lost |
| ContentReclaim.CleanupReclaims | backend/app/services/content_storage.py:483-502 | an undisturbed cleanup deletes every such orphan whose grace period is over, and its file |
| ContentReclaim.Reclaimed | backend/app/services/content_storage.py:461-510 | so every unreferenced blob is reclaimed by any undisturbed cleanup at least the grace period after the pass that orphaned it |
| ArtifactEviction.OldestFirstExact | backend/app/services/automation_artifacts.py:377-383 | the query yields exactly the active rows, each once, increasing in creation time and then id |
| ArtifactEviction.Conservation | backend/app/services/automation_artifacts.py:384-405 | counter + released + missing bytes equal the initial active sum, and the counter exceeds the database sum by exactly the sizes of failed deletes |
| ArtifactEviction.Fate | backend/app/services/automation_artifacts.py:386-404 | an artifact stays active if and only if its job is live, or it is unexpired and the loop total before it left room |
| ArtifactEviction.EvictionIsPrefix | backend/app/services/automation_artifacts.py:377-404 | an unexpired artifact loses its status only under pressure, and then so did every older one without a live job |
| ArtifactEviction.OldestGoFirst | backend/app/services/automation_artifacts.py:381-399 | over the fields: when an unexpired artifact loses its status, so does every older active one without a live job |
| ArtifactEviction.ExpiryExact | backend/app/services/automation_artifacts.py:448-461 | an artifact expires at its own time or after the retention of its kind |
| ArtifactEviction.LiveJobs | backend/app/services/automation_artifacts.py:463-470 | pending, retrying, running and cancelling jobs are live |
| ArtifactEviction.ProtectedKept | backend/app/services/automation_artifacts.py:388-391 | artifacts of live jobs are untouched, and if the quota is still exceeded nothing else stays active |
| ArtifactEviction.RefusalExact | backend/app/services/automation_artifacts.py:124-127 | after cleanup the recomputed sum leaves no room if and only if the bytes of live jobs and the new bytes exceed the quota, however many deletes failed |
| ArtifactEviction.CleanupShrinks | backend/app/services/automation_artifacts.py:384-412 | cleanup never raises the database sum |
| ArtifactEviction.ActiveAppend | backend/app/services/automation_artifacts.py:472-480 | the database sum counts the sizes of the active rows |
| ArtifactEviction.ProtectedAppend | backend/app/services/automation_artifacts.py:388-389 | and the protected sum those of the active rows of live jobs |
| ArtifactEviction.PressureFades | backend/app/services/automation_artifacts.py:386-400 | the counter never grows during the loop |
| AutomationArtifacts.AutomationArtifactStore.DeleteManagedFile | backend/app/services/automation_artifacts.py:414-438 | removes a safe file of the right size, tolerates an absent one, refuses any other |
| AutomationArtifacts.AutomationArtifactStore.EvictArtifact | backend/app/services/automation_artifacts.py:386-404 | the loop body over rows, files and counters |
| AutomationArtifacts.AutomationArtifactStore.CleanupLocked | backend/app/services/automation_artifacts.py:370-412 | rows, files and every counter are those of the eviction, committed; a cleanup that stops in its loop or at its commit has committed nothing, and has removed the files of the iterations before |
| AutomationArtifacts.AutomationArtifactStore.StoreBytes | backend/app/services/automation_artifacts.py:88-185 | early answers change nothing; otherwise the answer and everything left are exact for every combination of faults: without a commit no row and no file is added; after one the row stays even when the caller is told of a failure, and lacks its file exactly if the refresh failed; the database sum stays within the quota |
| AutomationArtifacts.AutomationArtifactStore.StoreLocked | backend/app/services/automation_artifacts.py:123-185 | the section under the maintenance lock, with the commit and the refresh in one handler |
| ArtifactRuns.RunWithinQuota | backend/app/services/automation_artifacts.py:123-127 | from an empty table on, over any requests, cleanups, faults and changes of jobs and files, the database sum never exceeds the quota |
| ArtifactRuns.RunRefusalExact | backend/app/services/automation_artifacts.py:123-127 | over any run a request is refused for space exactly when its cleanup and the query of the sum went through, the lock was released, and the live jobs' bytes and its own do not fit |
| ArtifactRuns.WhatACallLeaves | backend/app/services/automation_artifacts.py:165-185 | a call adds a row exactly if its commit took effect; the row lacks its file exactly if the refresh failed, and stays behind a failure exactly if the refresh or the release of the lock failed |
| ArtifactRuns.StepKept | backend/app/services/automation_artifacts.py:386-405 | no step removes a row or changes more than an active status, none touches a live job's row, and the only new row is the one of an admitted request under a fresh key |
| ArtifactRuns.CleanupOutcome | backend/app/services/automation_artifacts.py:391-438 | what becomes of one row and its file: an evicted row is failed exactly if its file is there and unsafe or of another size, and only then keeps it; any other file of an evicted row is gone, and a row that stays keeps its file |
| ArtifactRuns.StepIntactExactly | backend/app/services/automation_artifacts.py:386-405 | with every active row's bytes in place, a step takes some of them if and only if it is a failed refresh, a stopped cleanup that has removed a file and whose rows are lost, or a change from outside |
| ArtifactRuns.RunIntact | backend/app/services/automation_artifacts.py:386-405 | over any run without such steps every active row has its file with its bytes |
| ArtifactRuns.RefreshFailureBereaves | backend/app/services/automation_artifacts.py:177-184 | a failed refresh for a request with a job leaves the only row that holds its bytes, without a file |
| ArtifactRuns.RepeatsRefused | backend/app/services/automation_artifacts.py:246-249 | while the job is live and nobody puts the file back, that row outlives every step and every repeat is answered with "not found" |
| ArtifactRuns.FailedRefreshExample | backend/app/services/automation_artifacts.py:177-184 | a run of one screenshot and its refused repeat |
| AutomationArtifacts.FindSame | backend/app/services/automation_artifacts.py:108-118 | a job's existing copy is an active row with the same kind, name, size and digest, and is found if there is one |
| AutomationArtifacts.StoredExpires | backend/app/services/automation_artifacts.py:160-175 | without a time of its own a stored artifact expires after the configured days of its kind |
| AutomationArtifacts.EarlyNoneExact | backend/app/services/automation_artifacts.py:100-121 | a request goes on to the quota exactly if it is well formed and no active row of its job holds its bytes |
| AutomationArtifacts.EarlySuccessExact | backend/app/services/automation_artifacts.py:108-121 | it is answered with a row exactly if that row is the first to hold its bytes and its file is in place |
| AutomationArtifacts.MatchesExact | backend/app/services/automation_artifacts.py:109-118 | what it takes to hold the bytes of a request |
| FileNames.NormalizedShape | backend/app/services/automation_artifacts.py:305-322 | every normalized name is nonempty, at most 255 safe ASCII characters and does not start with a dot |
| FileNames.NormalizeExact | backend/app/services/automation_artifacts.py:305-322 | which names are refused, and what every character of the others becomes |
| FileNames.NormalizeIdentity | backend/app/services/automation_artifacts.py:318-322 | names that are safe, short and without outer dots are their own normal form |
| FileNames.NormalizeTwice | backend/app/services/automation_artifacts.py:318-322 | normalizing again changes nothing if and only if the cut left no trailing dot |
| ContentVersions.ContentAsset.Inspected | backend/app/services/content_inspection.py:202-265 | one completed inspection, in place |
| ContentVersions.ContentAsset.CreateReplacement | backend/app/services/content_assets.py:142-175 | the next version number, refused for deleted assets |
| ContentVersions.ContentAsset.UpdateArchived | backend/app/services/content_assets.py:243-269 | archiving and restoring, refused for deleted assets |
| ContentVersions.ContentAsset.SoftDelete | backend/app/services/content_assets.py:272-290 | deletion, refused while a delivery is active |
| ContentVersions.CurrentIsNewestReady | backend/app/services/content_inspection.py:232-240 | after any events in any order the pointer is null if no version is ready and else names the ready version with the largest number; a listed asset is ready exactly when some version is |
| ContentVersions.CompletionExact | backend/app/services/content_inspection.py:223-265 | one completed inspection of a version in progress: its new status, the pointer and the asset's status; no other version changes |
| ContentVersions.OthersExact | backend/app/services/content_assets.py:134-200 | every other event: stale completions change nothing, a replacement adds one version, the rest change the status only |
| ContentVersions.NumbersConsecutive | backend/app/services/content_assets.py:156-170 | over any events version numbers are consecutive, from one |
| ContentVersions.VersionsExact | backend/app/services/content_assets.py:134-200 | a version exists exactly if it was uploaded or a replacement named it |
| ContentVersions.VersionFate | backend/app/services/content_inspection.py:223-265 | over any events a version is ready exactly if its first completion was valid, and invalid exactly if that was not |
| ContentVersions.DeletedAbsorbs | backend/app/services/content_inspection.py:239-240 | deleted is for ever |
| ContentVersions.FailedReplacementHarmless | backend/app/services/content_inspection.py:251-261 | a rejected replacement leaves the ready asset and its pointer alone |
| ContentVersions.ArchivingTransparent | backend/app/services/content_assets.py:261-268 | archive, any inspections and replacements, restore: versions, pointer and ready flag as if never archived, the whole status exactly under the stated condition |
| ContentVersions.ArchivingNotTransparentExample | backend/app/services/content_assets.py:325-334 | a run after which the whole status differs |
| ContentJobs.Scheduler.Inspect | backend/app/services/content_jobs.py:207-247 | a live job is reused, otherwise one is added and pointed at |
| ContentJobs.Scheduler.MakeThumbnail | backend/app/services/content_jobs.py:149-204 | a thumbnail job only for ready visual versions without a ready variant |
| ContentJobs.Scheduler.ReconcileInspections | backend/app/services/content_jobs.py:250-284 | the pass over all versions and its counter |
| ContentJobs.Scheduler.ReconcileThumbnails | backend/app/services/content_jobs.py:287-331 | the thumbnail pass and its counter |
| ContentJobs.InspectExact | backend/app/services/content_jobs.py:207-247 | a job that may still run is reused; otherwise one is added and pointed at |
| ContentJobs.ThumbnailExact | backend/app/services/content_jobs.py:149-204 | the same for thumbnails, for exactly the versions that lack one |
| ContentJobs.ReconcileExact | backend/app/services/content_jobs.py:262-280 | one step of each pass schedules exactly what is needed, over the statuses of the version and its last job |
| ContentJobs.EventExact | backend/app/services/content_jobs.py:207-247 | what each other event changes |
| ContentJobs.InspectionPassSettles | backend/app/services/content_jobs.py:262-280 | a pass only appends jobs, touches no version it has not reached and settles the others |
| ContentJobs.SettledPassIdle | backend/app/services/content_jobs.py:266-276 | a pass schedules nothing if and only if every version it may touch is settled |
| ContentJobs.ReconcileFixpoint | backend/app/services/content_jobs.py:250-331 | after one pass every processing version has a live or finally failed job and a second pass schedules nothing; likewise for thumbnails |
| ContentJobs.OneLiveInspection | backend/app/services/content_jobs.py:215-222 | while no terminal job is revived no version has two live inspection jobs |
| ContentJobs.RevivalExact | backend/app/services/content_jobs.py:268-278 | a revival keeps that exactly when the version has no live inspection job |
| ContentJobs.RevivalExample | backend/app/services/content_jobs.py:268-278 | a superseded, revived job: two live jobs for one version |
| ContentJobs.SupersededForEver | backend/app/services/content_job_execution.py:32-42 | a job its version no longer points at never passes the fence again |
| ContentJobs.FenceExclusive | backend/app/services/content_job_execution.py:35-39 | two jobs never pass the fence for one version |
| RemoteNames.IdRecoverable | backend/app/services/content_delivery.py:247-263 | the delivery id can be read back from the remote name, whatever name was requested |
| RemoteNames.PathsDiffer | backend/app/services/content_delivery.py:127-130 | two deliveries never share a path |
| RemoteNames.RemoteShape | backend/app/services/content_delivery.py:261-263 | a stem of at most 180 safe characters, the id and the extension |
| RemoteNames.RemoteExact | backend/app/services/content_delivery.py:247-263 | the name is made of the first 180 characters of the stem of the requested or default name, the id and the extension, and is refused exactly for a bad extension or name |
| RemoteNames.StemExact | backend/app/services/content_delivery.py:261 | the stem ends before the last inner dot |
| RemoteNames.StemShape | backend/app/services/content_delivery.py:261 | the fallback stem is never needed |
| RemoteNames.PathExact | backend/app/services/content_delivery.py:130 | the path is the name in the managed download directory |
| RemoteNames.PushedExact | backend/app/services/android_automation.py:495-496 | the pushed name equals the recorded one if and only if it has at most 255 characters and an ASCII extension |
| RemoteNames.ShortEnough | backend/app/services/android_automation.py:495-496 | which holds for stored extensions and ids of up to 63 digits |
| ContentDelivery.ContentDeliveryService.CreateDelivery | backend/app/services/content_delivery.py:38-155 | the whole call, with nobody else at work |
| ContentDelivery.FindSlot | backend/app/services/content_delivery.py:85-91 | the delivery with a version, runtime and key, found if there is one |
| ContentDelivery.NewestOpen | backend/app/services/content_delivery.py:99-110 | the newest pending, delivering or succeeded delivery with the same option |
| ContentDelivery.NoTwoAlike | backend/app/services/content_delivery.py:84-130 | in every table of every run, with racing callers, at most one delivery per version, runtime and key, and no two with one path |
| ContentDelivery.CreatedIsDeliverable | backend/app/services/content_delivery.py:59-83 | a new delivery pins a ready version with active bytes of an undeleted library asset, the requested or else the current one |
| ContentDelivery.ResolveExact | backend/app/services/content_delivery.py:50-83 | which answer each check gives |
| ContentDelivery.ResolvedExact | backend/app/services/content_delivery.py:67-83 | and what is left to the version, the runtime and the key |
| ContentDelivery.KeyExact | backend/app/services/content_delivery.py:80-83 | the keys that are accepted |
| ContentDelivery.KeyedExact | backend/app/services/content_delivery.py:84-130 | with a key: the delivery of the same version and runtime under that key, a refusal for another option, or a new delivery with every field |
| ContentDelivery.NewestExact | backend/app/services/content_delivery.py:99-110 | the lookup without a key, over the fields |
| ContentDelivery.KeyedRepeat | backend/app/services/content_delivery.py:85-98 | a keyed repeat gets the existing delivery, or is refused for a different option |
| ContentDelivery.IdempotentOverRuns | backend/app/services/content_delivery.py:85-98 | the same over whole runs: later calls with the same resolved version, runtime, key and option answer with the first call's delivery |
| ContentDelivery.DeliveriesStay | backend/app/services/content_delivery.py:114-130 | once created, everything but the status of a delivery stays |
| ContentDelivery.UnkeyedExact | backend/app/services/content_delivery.py:99-112 | without a key a delivery is wanted exactly when none is open or a repeat was asked for; then it is created as pending under its own name or refused for a bad name, otherwise the newest open one is the answer |
| ContentDelivery.UnkeyedTwice | backend/app/services/content_delivery.py:99-112 | the same unkeyed request twice gives one delivery |
| ContentDelivery.ConstraintIdle | backend/app/services/content_delivery.py:157-170 | with nobody else at work the unique constraint never decides |
| ContentDelivery.IdempotentExactly | backend/app/services/content_delivery.py:67-98 | over whole runs, a later call with the same runtime, key and option answers with the first call's delivery if and only if it resolves to the same version |
| ContentDelivery.RaceLost | backend/app/services/content_delivery.py:114-126 | a call gets the bare integrity error exactly when its lookup missed a delivery committed meanwhile under its key |
| DeliveryProgress.DeliveryRecord.MarkCancelledForJob | backend/app/services/content_delivery.py:206-218 | cancels unless succeeded or cancelled |
| DeliveryProgress.DeliveryRecord.SyncFailedJob | backend/app/services/content_delivery.py:221-234 | follows the job unless succeeded or cancelled |
| DeliveryProgress.DeliveryRecord.Execute | backend/app/services/content_delivery_job_execution.py:48-176 | the status after one execution, for every way it can end |
| DeliveryProgress.StatusAfter | backend/app/services/content_delivery_job_execution.py:48-176 | exactly the steps after which a delivery has each of its statuses |
| DeliveryProgress.ClaimAfter | backend/app/services/content_delivery_job_execution.py:48-66 | what the steps do to the claim and the executions at work |
| DeliveryProgress.FinalExactly | backend/app/services/content_delivery_job_execution.py:143-176 | a settled status stays over every possible continuation if and only if no execution is at work |
| DeliveryProgress.SettledStays | backend/app/services/content_delivery_job_execution.py:127-176 | along one run it stays exactly as long as every execution that ends meanwhile ends alike, told by its ending and its claim |
| DeliveryProgress.SettledForEver | backend/app/services/content_delivery_job_execution.py:48-53 | with nobody at work succeeded and cancelled are final |
| DeliveryProgress.SucceededForEver | backend/app/services/content_delivery_job_execution.py:127-128 | in particular: if executions never overlap, every success is final |
| DeliveryProgress.StaleExecutionOverwrites | backend/app/services/content_delivery_job_execution.py:143-156 | a run in which an execution without its claim overwrites another one's success |
| DeliveryProgress.CancelledStays | backend/app/services/content_delivery_job_execution.py:143-176 | a cancellation stays if and only if every execution that ends meanwhile is stopped or finishes without its claim |
| DeliveryProgress.CancelledUndone | backend/app/services/content_delivery_job_execution.py:143-156 | a run in which a cancellation is undone |
| UiParser.UiHierarchyParser.Parse | backend/app/services/android_ui_hierarchy.py:67-121 | succeeds exactly when there is a node element, all are accepted, and count and depth fit the limits; the array then encodes the node-only forest, and its i-th node says what the i-th element of the document says, but for the texts of password fields |
| UiParser.UiHierarchyParser.Walk | backend/app/services/android_ui_hierarchy.py:80-114 | appends the subtree of one element, the first node describing that element, and patches its child links |
| UiParser.UiHierarchyParser.WalkAll | backend/app/services/android_ui_hierarchy.py:112-120 | the node elements of a list in order, other tags skipped |
| UiElements.InfoExact | backend/app/services/android_ui_hierarchy.py:83-111 | over the attributes: which elements are accepted, and what their node keeps; of a password field neither text nor description |
| UiElements.ForestExact | backend/app/services/android_ui_hierarchy.py:80-120 | a document is accepted exactly if all its node elements are and none is nested too deeply |
| UiElements.NodesDescribe | backend/app/services/android_ui_hierarchy.py:101-114 | one node per node element, in document order |
| UiElements.RootCounts | backend/app/services/android_ui_hierarchy.py:115 | the document's own element counts if it is a node |
| UiEncoding.BoundsText | backend/app/services/android_ui_hierarchy.py:86-89 | any digit strings in the bounds pattern are read by value |
| UiEncoding.BoundsShape | backend/app/services/android_ui_hierarchy.py:13 | nothing else is accepted |
| UiEncoding.BoundsRoundTrip | backend/app/services/android_ui_hierarchy.py:13 | printed bounds read back |
| UiEncoding.LinksExact | backend/app/services/android_ui_hierarchy.py:100-114 | node i has index i, parents precede children, child lists are increasing and exactly the inverse of the parent links |
| UiEncoding.SubtreeContiguous | backend/app/services/android_ui_hierarchy.py:112-114 | each subtree is one contiguous interval |
| UiEncoding.Lossless | backend/app/services/android_ui_hierarchy.py:78-121 | the forest can be rebuilt from the array |
| UiEncoding.EncodingUnique | backend/app/services/android_ui_hierarchy.py:78-121 | a forest has only one array |
| UiSession.AndroidUiSession.TapElement | backend/app/services/android_ui_automation.py:83-89 | taps the middle of the resolved bounds only when the fingerprint on screen is the snapshot's |
| UiSession.TapHitsSameNode | backend/app/services/android_ui_automation.py:86-89 | a tap that goes through hits the node with the same place, links, identifiers and bounds |
| UiSession.CenterInside | backend/app/services/android_ui_hierarchy.py:33-34 | a tap goes to the middle, rounded down, which lies inside accepted bounds |
| UiSession.FingerprintExact | backend/app/services/android_ui_hierarchy.py:122-128 | equal fingerprints if and only if the trees agree on everything but the wording of texts and four flags |
| UiSession.MaskExact | backend/app/services/android_ui_hierarchy.py:122-127 | the fields in which two nodes of equal fingerprint agree |
| UiSession.MaskTreesExact | backend/app/services/android_ui_hierarchy.py:122-128 | and the same for trees |
| Toml.EscapeStep | backend/app/config.py:661-663 | the two replacement passes escape each character on its own |
| Toml.EscapeRoundTrip | backend/app/config.py:661-663 | a reader gives back the escaped text and leaves what follows, unless a control character makes it reject |
| Toml.QuoteRoundTrip | backend/app/config.py:661-663 | quoting is undone by reading a basic string (section "String" of TOML v1.0.0) if and only if the text has no control character other than tab |
| Toml.LinesExact | backend/app/config.py:751 | where a line ends, for TOML and for Python |
| Toml.SplitExact | backend/app/config.py:751 | the editor's lines are TOML's lines if and only if there is no foreign line break |
| ConfigFile.LineEditor.InsertMissingSection | backend/app/config.py:793-812 | the edited lines: after the last line of the section, or as a new section at the end |
| ConfigFile.RenderReads | backend/app/config.py:806 | an inserted line reads back as the key and value it was made from |
| ConfigFile.InsertedReads | backend/app/config.py:793-812 | one insertion appends the missing items to its own section and changes no other entry of any section |
| ConfigUpgrade.UpgradeInPlace | backend/app/config.py:666-758 | the upgrade as a sequence of insertions |
| ConfigUpgrade.UpgradeReads | backend/app/config.py:709-758 | every section reads as before, in the same order and with the same values, followed by exactly the missing wanted items |
| ConfigUpgrade.UpgradeReadsLines | backend/app/config.py:709-758 | for texts in which editor and reader see different lines: every section reads as the editor's lines do, followed by exactly the items the reader's lines lack |
| ConfigUpgrade.UpgradeValue | backend/app/config.py:709-713 | a present value stays, a missing wanted key gets its default, any other key stays absent |
| ConfigUpgrade.UpgradeElsewhere | backend/app/config.py:751-756 | the other sections read as before |
| ConfigUpgrade.UpgradeTwice | backend/app/config.py:748-749 | afterwards nothing is missing and a second upgrade changes nothing |
| ConfigUpgrade.LinesKept | backend/app/config.py:751-758 | every line that is not blank stays, in the same order; only the last line of the file can lose trailing blanks |
| ConfigUpgrade.StripJoin | backend/app/config.py:758 | the final strip drops blank last lines and the trailing blanks of the last one |
| ConfigUpgrade.UpgradeLines | backend/app/config.py:751-758 | the lines a reader finds after an upgrade of any text |
| ConfigUpgrade.ForeignBreakLost | backend/app/config.py:751-758 | an upgrade that inserts anything leaves no line break character but the newline |
| ConfigLines.PythonKept | backend/app/config.py:751-758 | every line of Python's that is not blank survives, whatever the text |
| ConfigLines.SplitAlike | backend/app/config.py:751 | if foreign breaks stand in trailing blanks only, each of TOML's lines is the start of one of Python's |
| ConfigLines.LinesSurviveExactly | backend/app/config.py:751-758 | every line a reader saw survives, up to blanks, if and only if no line holds a foreign break before its trailing blanks |
| ConfigLines.BrokenValue | backend/app/config.py:751-758 | a file whose string with U+2028 becomes an unclosed one under every upgrade that inserts anything |
| ConfigDocument.SettingRoundTrip | backend/app/config.py:271-390 | a printed setting of each type reads back if and only if it is recoverable |
| ConfigDocument.WholeExact | backend/app/config.py:280-286 | exactly which entries are whole numbers, and which number each is |
| ConfigDocument.RealExact | backend/app/config.py:380 | exactly which entries are floats, by the parts of their text |
| ConfigDocument.TildeExact | backend/app/config.py:270-273 | how a path that starts with a tilde is read |
| ConfigDocument.ReadGroupsExact | backend/app/config.py:271-390 | the record is loaded exactly when each field is |
| ConfigRoundTrip.SerializedReads | backend/app/config.py:815-895 | when every printed value is on one line a reader finds exactly the printed items of each section |
| ConfigRoundTrip.SerializedBreaks | backend/app/config.py:815-895 | the first value with a newline in it becomes unreadable |
| ConfigRoundTrip.DocumentRoundTrip | backend/app/config.py:815-895 | for any well-formed schema, printed settings are read back if and only if each of them is recoverable |
| ConfigWritten.SerializedAbsent | backend/app/config.py:815-895 | a section that was not printed has no entries |
| ConfigWritten.SerializedPlain | backend/app/config.py:815-895 | printed documents without line breaks in their values meet the conditions of the upgrade |
| ApplicationConfiguration.SchemaGood | backend/app/config.py:271-390 | the sections differ, and within each the keys are bare and differ |
| ApplicationConfiguration.RecordRecovered | backend/app/config.py:49-102 | the record and its values in printing order determine each other |
| ApplicationConfiguration.LoadPrinted | backend/app/config.py:250-393 | loading a printed configuration gives exactly that configuration if and only if it passes its checks and its texts are recoverable |
| ApplicationUpgrade.UpgradedField | backend/app/config.py:666-752 | field by field: what was in the file loads as before, what was missing in one of the five sections loads as the installed default |
| ApplicationUpgrade.LoadedFields | backend/app/config.py:271-390 | the loaded record is what each field reads |
| ApplicationKeys.DatabaseFound | backend/app/config.py:273 | each field of this section is read from its own key, with its own fallback |
| ApplicationKeys.SecurityFound | backend/app/config.py:274-276 | each field of this section is read from its own key, with its own fallback |
| ApplicationKeys.ProvisioningFound | backend/app/config.py:277-282 | each field of this section is read from its own key, with its own fallback |
| ApplicationKeys.NetworkFound | backend/app/config.py:283-288 | each field of this section is read from its own key, with its own fallback |
| ApplicationKeys.AutomationFound | backend/app/config.py:289-306 | each field of this section is read from its own key, with its own fallback |
| ApplicationKeys.ContentFound | backend/app/config.py:307-325 | each field of this section is read from its own key, with its own fallback |
| ApplicationKeys.ContentMoreFound | backend/app/config.py:325-351 | each field of this section is read from its own key, with its own fallback |
| ApplicationKeys.ManagedAppsFound | backend/app/config.py:352-376 | each field of this section is read from its own key, with its own fallback |
| ApplicationKeys.WorkflowFound | backend/app/config.py:377-381 | each field of this section is read from its own key, with its own fallback |
| ApplicationKeys.AndroidUiFound | backend/app/config.py:382-386 | each field of this section is read from its own key, with its own fallback |
| ApplicationKeys.RuntimeFound | backend/app/config.py:387-389 | each field of this section is read from its own key, with its own fallback |
| ApplicationKeys.DatabasePrinted | backend/app/config.py:818-820 | and printed under it |
| ApplicationKeys.SecurityPrinted | backend/app/config.py:821-823 | and printed under it |
| ApplicationKeys.ProvisioningPrinted | backend/app/config.py:824-831 | and printed under it |
| ApplicationKeys.NetworkPrinted | backend/app/config.py:832-839 | and printed under it |
| ApplicationKeys.AutomationPrinted | backend/app/config.py:840-849 | and printed under it |
| ApplicationKeys.ContentPrinted | backend/app/config.py:850-856 | and printed under it |
| ApplicationKeys.ContentToolsPrinted | backend/app/config.py:856-860 | and printed under it |
| ApplicationKeys.ContentImagesPrinted | backend/app/config.py:860-867 | and printed under it |
| ApplicationKeys.ManagedAppsPrinted | backend/app/config.py:868-878 | and printed under it |
| ApplicationKeys.WorkflowPrinted | backend/app/config.py:879-883 | and printed under it |
| ApplicationKeys.AndroidUiPrinted | backend/app/config.py:884-890 | and printed under it |
| ApplicationKeys.RuntimePrinted | backend/app/config.py:891-894 | and printed under it |
| ApplicationKeys.PrintedRead | backend/app/config.py:815-895 | a reader of the printed file finds exactly these items, unless a text holds a newline |
| ApplicationKeys.ChecksExact | backend/app/config.py:104-158 | a record passes exactly if every number it holds in the five sections is positive and neither an artifact, nor an upload, nor an application may be larger than all of them together |
| ApplicationKeys.PositiveExact | backend/app/config.py:140-141 | which decimal numbers are positive, by their digits |
| ApplicationUpgrade.UpgradeLoadsSame | backend/app/config.py:241-243 | upgrading a file that loads keeps what is loaded if and only if each key it lacks falls back on the installed value |
| ApplicationUpgrade.UpgradeOnce | backend/app/config.py:748-749 | an upgraded file needs no second upgrade |
| ApplicationOldFile.OldLoads | backend/app/config.py:250-393 | a file from before the five sections loads with the fallbacks in them |
| ApplicationOldFile.OldFileExactly | backend/app/config.py:666-752 | its upgrade keeps what is loaded if and only if all that is installed in the five sections equals the fallbacks |
| ApplicationOldFile.UpgradedOldLoads | backend/app/config.py:666-752 | after its upgrade such a file loads what is installed in the five sections and elsewhere what it loaded before |
| ApplicationOldFile.LockDirectoryMoves | backend/app/config.py:344-351 | such a file loads the lock directory of the loader before its upgrade and the installed one after it |
| ApplicationDefaults.InstalledFits | backend/app/config.py:162-226 | on every host with plain directories the installed configuration is recoverable, is printed without foreign line breaks and passes its own checks |
| ApplicationDefaults.BootstrapLoads | backend/app/config.py:229-247 | there the first start loads exactly the configuration it has written |
| ApplicationDefaults.OwnLockDirectory | backend/app/config.py:207 | no host installs the lock directory the loader falls back on |
| ApplicationDefaults.FallbacksOnly | backend/app/config.py:182-226 | what is installed in the five sections is what the loader falls back on, but for the two lock directories |
| ApplicationDefaults.ProductionFallbacks | backend/app/config.py:162-181 | and in the other sections of a production host every key with a fallback is installed with it |
| ApplicationDefaults.DeploymentsApart | backend/app/config.py:166-181 | development and production of one user share no data, locks, device names or ports |
| ApplicationDefaults.OldInstallationLoads | backend/app/config.py:241-243 | on every host an old file of any installation loads before its upgrade, and after it the same but for the two lock directories |
| ApplicationDefaults.OldInstallationMoves | backend/app/config.py:241-243 | a file of any installation from before the five sections loads, and loads something else after its upgrade |
| ApplicationDefaults.BrokenValueLost | backend/app/config.py:751-758 | with the program's five tables the content root of that file is read before the upgrade and not after it, and the upgraded file does not load |
| AppManagement.Device.InstallPackage | backend/app/services/adb_executor.py:209-218 | the command sets the package of its bytes, unless the device refuses a lower code; a failed command may have done so too |
| AppManagement.AndroidAppManagementService.Install | backend/app/services/android_app_management.py:110-177 | the whole call for every fault |
| AppManagement.AndroidAppManagementService.Verify | backend/app/services/android_app_management.py:234-246 | the same checks without an install |
| AppManagement.KnownVersion | backend/app/services/android_app_management.py:315-321 | a ready or retired version with the observed code, found if there is one |
| AppManagement.ResolveExact | backend/app/services/android_app_management.py:196-232 | which versions and bytes are acceptable, and the refusal of each other request |
| AppManagement.DecideExact | backend/app/services/android_app_management.py:119-139 | each answer to an installed package, with its exact condition |
| AppManagement.UpdateExact | backend/app/services/android_app_management.py:303-334 | why a verified version does not replace an installed one |
| AppManagement.BeforeCommand | backend/app/services/android_app_management.py:119-157 | the answers of a call that fails ahead of the command |
| AppManagement.CommandExact | backend/app/services/android_app_management.py:140-170 | what the command leaves on the device, and the answer when it or the look after it fails |
| AppManagement.ConfirmExact | backend/app/services/android_app_management.py:166-177 | the answers to what the second look finds |
| AppManagement.ReportExact | backend/app/services/android_app_management.py:248-262 | what a success reports |
| AppManagement.SuccessConverges | backend/app/services/android_app_management.py:166-175 | a verified install succeeds only on a converged device and reports what is there; "changed" exactly when it issued the command |
| AppManagement.VerifyExact | backend/app/services/android_app_management.py:234-246 | verify succeeds exactly on converged devices, where a verified install issues nothing and answers the same |
| AppManagement.RepeatInstallsNothing | backend/app/services/android_app_management.py:122-134 | an immediate repeat of a success never issues a command, whatever goes wrong in it |
| AppManagement.DecisionExact | backend/app/services/android_app_management.py:119-145 | exactly when a call reaches the device and exactly when it is refused as a downgrade; without a command nothing changes, with one only the package of the bytes |
| AppManagement.InstallConverges | backend/app/services/android_app_management.py:119-175 | a faithful build converges in one call from an absent or a known older version |
| AppManagement.RunKeepsCodes | backend/app/services/android_app_management.py:303-314 | over any run of calls with any faults no version code goes down, if the bytes are faithful or the device is strict |
| AppManagement.KeepsCodesExactly | backend/app/services/android_app_management.py:196-232 | on all devices and with all faults a call lowers no code if and only if its bytes hold the application's own package |
| AppManagement.OthersUntouchedExactly | backend/app/services/android_app_management.py:140-145 | all other packages are left alone if and only if the bytes hold the application's own package |
| AppManagement.ForeignPackageReplaced | backend/app/services/android_app_management.py:166-168 | a basic call replaces a foreign package by the one in its bytes and reports a failure |
| AppManagement.ChangesOnce | backend/app/services/android_app_management.py:110-177 | over any run of calls for one faithful version, with any faults, the device changes at most once, to the package of the bytes |
| AppManagement.IdleForEver | backend/app/services/android_app_management.py:303-334 | after one call without faults no later call of any run for the same version issues a command or changes the device |
| AppManagement.BasicRepeatExact | backend/app/services/android_app_management.py:275-286 | a repeated basic install with the remembered version succeeds if and only if a code or name was reported or none is asked for |
| AppManagement.BasicNeverUpdates | backend/app/services/android_app_management.py:135-138 | a basic install never replaces an installed package |

## Left out

- File permissions, ownership, symbolic links and directory descriptors: one flag per file says whether it is safe.
- Operating system errors while unlinking or syncing inside a cleanup: in the step system they are crashes of that process.
- SHA-256 and the JSON text under the fingerprint: digests are ideal, one per content.
- uuid generation: fresh keys are preconditions of the operations that take them.
- NFKC normalization: names are taken as already normalized; Unicode digits in the bounds pattern are not accepted.
- XML parsing, the size limit of the document and the refusal of document types: the model starts at the element tree.
- The maintenance lock as a value: it is explicit in the step system only; the in-place methods run under it.
- ContentVersions.CurrentIsNewestReady: takes each completed inspection as one atomic step on the asset, because the inspection lock is per version and two sessions could otherwise overwrite each other's pointer.
- Database isolation: reads under the maintenance lock see the last committed state.
- ContentSafety.FileRowAgreement: for runs without crashes, failed releases of the lock and outside changes; FilesExact says what holds with them.
- Media inspection, thumbnails and their tools, application inspection, and network, readiness and Runtime locks: only their outcomes appear.
- Job claims, leases and retries: in ContentJobs a job moves between statuses freely, in DeliveryProgress a claim is a number.
- ArtifactRuns.WhatACallLeaves: without failures ahead of the cleanup (the early lookup, preparing the root, taking the lock), which change nothing, and without errors of the handlers themselves (rollback, unlinking, closing descriptors); a root that cannot be opened for the new file counts as a failed write.
- AutomationArtifacts.AutomationArtifactStore.StoreBytes: starts from a session without uncommitted changes of its caller, which the cleanup's commit would commit along.
- ApplicationDefaults.InstalledFits: for directories that are absolute, normalized and not the file system's root, with the home directory taken as resolved; directories with control characters are on the other side of LoadPrinted.
- Titles, notes, tags, events and job logs.
- ContentDelivery.CreateDelivery: nobody else at work; racing callers are in the function it is tied to, where the lookups see a prefix of the table and the unique constraint the whole. The handler around the commit is not modelled, because the constraint has fired at the flush before it.
- DeliveryProgress.SucceededForEver: a sufficient condition on whole runs; FinalExactly and SettledStays have the exact ones.
- Deletion of delivery rows, artifact rows or assets: ids are places in a table and are not reused.
- Environment overrides, environment isolation checks and the file permissions of the configuration.
- Documents with comments behind values, multi-line values, dotted or quoted keys, inline tables (for a top-level `content = { root = "x" }` the editor appends a second `[content]`, which no longer loads; the model's reader does not see the first), and spacing or comments on header lines; the model reads whole-line headers and one-line entries, and only the keys the application looks up, while the real reader also rejects errors elsewhere in the file.
- Conversions of other TOML types by the loader (an integer written as a string, a number for a flag), underscores and other bases in numbers: the model fails to load them. A float that is too small for a double and rounds to zero is accepted as positive.
- ApplicationConfiguration.LoadPrinted: keeps the one float as the literal that is printed for it, and paths as their text; path normalization is taken as done, and home directories do not end in a slash.
- The kind of error a load ends with: a missing home directory and an invalid file are one failure here.
- Sanity of what ADB reports: the model takes the observed package as given, apart from its name and path.
