# Verified model of the WhatsApp bridge's stateful cores

This project models, in Dafny 4.11, the parts of `whatsapp-bridge` that carry state across crashes,
interleavings or replays, and proves what their comments promise.
`dafny verify dfyconfig.toml` checks everything. Each area is a step system or a class whose methods
are proved against specification functions, and the lemmas beside it state what holds over whole runs.

| files | area |
|---|---|
| `MediaProtocol`, `MediaSafety`, `MediaDeleteRace`, `MediaSteps`, `MediaRecovery`, `MediaSweep`, `MediaPurge`, `MediaDeletion`, `MediaPaging`, `MediaStorage` | S3 media: publication, deletion, recovery, sweeping, paged purge |
| `ZipFormat`, `ZipReader`, `ZipArchive`, `ZipDigest`, `ZipStream`, `ZipExport` | the replayed ZIP64 stream, a reader for it, and the export that is streamed |
| `MediaQuota`, `QuotaAdmission`, `MediaCap` | local quota, eviction, the byte-capped file |
| `Spools`, `SpoolPools` | the verified spool pool |
| `ConnectionEvents`, `ConnectionProblem` | connection notifications, the durable connection problem |
| `MarkRead`, `LockTable`, `Inflight`, `Logging`, `Labels`, `OperatorLimiter`, `ChatPolicy` | smaller cores |
| `Bytes`, `Runes`, `Sums`, `Strings`, `Wrappers` | machine integers, UTF-8, sums over maps, byte order, options |

## How to read the models

**S3 media.** A `State` holds, for each content hash, the stored object, the catalog row, the deletion
marker, the upload intent and the stage of whoever holds the hash's lock, next to the refs and the
message rows. Every SQL statement and every remote request is its own step. A remote request may fail
without effect or fail after taking effect. A crash may come between any two steps; it releases the
locks and keeps everything durable. Messages may be stored or dropped at any time, without the lock;
the merge of two chats runs at startup (`main.go:244`), before the store exists (`main.go:284`), so it
moves refs only while nothing is locked. `MediaStore` is the object whose methods perform recovery,
sweeping and deletion only through these steps, so the run-level lemmas apply to it. A `Trouble` says
where a recovery action's requests fail, a `Fault` where `Delete` fails on one object; both are
arbitrary, and a failed removal may or may not have been applied.
Assumptions: only this instance writes under its prefix, hashes do not collide, a failed remote request
is settled before the next one to the same object, a failed SQL statement has no effect, and both
journals exist. Recovery and purge are modelled without concurrent writers, as their laws are stated.

**ZIP64.** `ZipReader` follows PKWARE's APPNOTE.TXT (sections 4.3.7, 4.3.9, 4.3.12, 4.3.14, 4.3.15,
4.3.16 and 4.5.3) and knows nothing of the writer. In `ZipStream` three arbitrary replays and an arbitrary
manifest run are parameters; in `ZipExport` each replay is the export's walk over a store that may
change between the replays. Checksums and hashes are parameters too; "no collision" is asked only of the texts that
a run actually hashed, because no hash of fixed length is injective on all texts.

**Quota.** `QuotaCache.turns` is what other goroutines do (publish within their reservation, finish,
remove files) at each point where the accounting lets them run. It is arbitrary, and so is `patience`,
which ends the caller's context. Proofs therefore cover every interleaving. `Since` ties what the files
were to what they are: each that is gone was evicted or removed in a turn taken meanwhile, each that came
was published in one.

**Spools, locks, transfers, notifications.** Objects that outlive their table entry have identities.
Goroutines appear as stages, and every enabled step may come next.

## Findings

Five promises hold only under a condition.

* `Delete` compares a count of selected refs with a count of all refs that it reads later. The refs it
  counts were all selected if and only if no event between the two reads deleted a selected row or
  published other content for one; the refs the cascade then drops were all selected if and only if every
  other counted ref is taken before the cascade (`RemovalIsExactIff`). A message deletion does not take
  the lock, so the object of another row can be removed (`PurgeCanTakeAnothersObject`).
* When a ready spool cannot be reopened its entry goes although others may still read it, and the last
  reader's close then takes its bytes off a second time (`ReopenSoundIff`, `UnsafeReopenSubtractsTwice`).
* A page of 2000 unread rows that share one second with the next row moves the read marker over that row
  too, and only such a page does (`MarkWholeChatRead`, `CrowdedSecond`); the source documents this one.
* After any run the saved connection problem can be read at the next start if and only if what was saved
  last is not a session cleanup of a problem whose kind is not the one its code stands for
  (`RunReadsIff`). While a session is revoked, a generic report leaves such a problem if and only if no
  restriction absorbs it, the client is not retired, and its code stands for a kind of its own
  (`GenericReportSpoilsIff`); a 502 does (`GenericFailureSpoilsCleanup`).
* The deployment's chat list takes effect after being normalized twice, and the chat picker reads it after
  being normalized once. No chat outside the picker's list is ever allowed, whatever the runtime list and
  the chat, if and only if the picker's list allows, for each of its items without `@` that holds a colon,
  the text before the colon (`EffectiveWithinDeploymentIff`); a list of one such item fails (`EffectiveBeyondDeployment`).

## Model

| member | source | states |
|---|---|---|
| MediaSafety.RunSafe | whatsapp-bridge/media_s3.go:340-507 | over every run of puts, deletes, opens, orphan removals, reconcilers, message changes and crashes, every hash satisfies the facts its stage relies on |
| MediaSafety.StepSafe | whatsapp-bridge/media_s3_maintenance.go:67-155 | each single step, with each way its request can end, keeps the invariant of every hash |
| MediaSafety.EnvironmentSafe | whatsapp-bridge/store.go:664-671 | storing or dropping a message, the startup merge that moves a ref, and a crash keep the invariant |
| MediaSafety.PublishedRefsAreReadable | whatsapp-bridge/media_s3.go:463-507 | in every reachable state a ref whose hash has no deletion marker names a stored object of the catalogued size |
| MediaSafety.StoredObjectsAreCharged | whatsapp-bridge/media_s3_maintenance.go:216-222 | in every reachable state every stored object is charged exactly its length, by its row or by its upload intent |
| MediaSafety.UsageCoversBucket | whatsapp-bridge/media_s3_maintenance.go:163-170 | the sum of all charges is never below the bytes in the bucket |
| MediaSafety.OpenFindsObject | whatsapp-bridge/media_s3.go:202-282 | a reader that reached its GET finds the object with the promised size |
| MediaSafety.CommitPublishes | whatsapp-bridge/media_s3.go:463-507 | a successful commit leaves the row served by the object and no marker or intent behind |
| MediaDeleteRace.RemovalIsExactIff | whatsapp-bridge/media_s3_maintenance.go:69-133 | over the run from a delete's lock to the cascade: the refs counted are all selected if and only if no event between the two reads takes a selected one; those the cascade drops are all selected if and only if each other counted ref is taken before it, and exactly the selected ones if and only if no selected one is |
| MediaDeleteRace.TakenBy | whatsapp-bridge/delete_message.go:47-56 | while a delete goes on an event takes a ref off its object exactly if it deletes that row or publishes other content for it |
| MediaDeleteRace.FreshPutPublishes | whatsapp-bridge/media_s3.go:373-507 | an uninterrupted put of new content ends with the row attached to a stored, catalogued object |
| MediaDeleteRace.DedupedPutPublishes | whatsapp-bridge/media_s3.go:373-412 | an uninterrupted put of stored content adds a ref and changes nothing else |
| MediaDeleteRace.PurgeCanTakeAnothersObject | whatsapp-bridge/media_catalog.go:3-4 | a concrete run in which purging one message removes the bytes another message still uses |
| MediaSweep.PassShrinksBacklog | whatsapp-bridge/media_s3_maintenance.go:172-214 | no sweep grows the backlog of markers, intents and orphans, wherever its requests fail, and one whose requests succeed clears it or shrinks it by at least a page |
| MediaSweep.PassKeepsSurvivors | whatsapp-bridge/media_s3_recovery.go:86-198 | no sweep, failed requests or not, loses a ref whose object is stored, except those that expired |
| MediaRecovery.NoBacklogIsRecovered | whatsapp-bridge/media_s3_recovery.go:86-198 | with an empty backlog the bucket, the catalog and the referenced hashes are the same |
| MediaSweep.RecoveryConverges | whatsapp-bridge/media_s3_maintenance.go:172-261 | from any state after a crash, any sequence of sweeps with enough undisturbed 256-row passes for the backlog ends with no markers, no intents, bucket = catalog = referenced hashes, and the refs of stored objects unharmed but for expiry |
| MediaPurge.ReportTotals | whatsapp-bridge/media_s3_maintenance.go:14-161 | a report counts every cached selected row once and every removed object's bytes once |
| MediaPurge.PurgeTwice | whatsapp-bridge/media_s3_maintenance.go:14-161 | purging two selections one after the other is purging their union |
| MediaPurge.PurgeRemovable | whatsapp-bridge/media_s3_maintenance.go:99-106 | what two purges remove splits into what the first and then the second removes, without overlap |
| MediaPaging.DryObjectsAreRemovable | whatsapp-bridge/media_s3_maintenance.go:315-328 | the dry run's set formula selects exactly the objects a purge of all selected rows would remove |
| MediaPaging.WalkNext | whatsapp-bridge/media_s3_maintenance.go:280-313 | deleting the page after the cursor and moving the cursor to its last row keeps rows, files and bytes in step |
| MediaStorage.MediaStore.ReconcileDeletionLocked | whatsapp-bridge/media_s3_recovery.go:18-57 | a marked row goes with its refs exactly if its object is gone, else only the marker goes; a failed request leaves everything for the next pass |
| MediaStorage.MediaStore.ReconcileDeletion | whatsapp-bridge/media_s3_recovery.go:115-130 | the same, under the hash's own lock |
| MediaStorage.MediaStore.RemoveOrphan | whatsapp-bridge/media_s3_maintenance.go:455-473 | an object and its row go exactly if no ref names them at that moment and no request fails |
| MediaStorage.MediaStore.ReconcileUpload | whatsapp-bridge/media_s3_recovery.go:165-196 | an intent is resolved unless a request fails; its object goes exactly if it was never published |
| MediaStorage.MediaStore.ReconcilePendingDeletions | whatsapp-bridge/media_s3_recovery.go:86-132 | settles one page of markers, each failing or not, and reports the bytes of the rows it dropped and the failures |
| MediaStorage.MediaStore.ReconcilePendingUploads | whatsapp-bridge/media_s3_recovery.go:136-198 | resolves one page of intents, each failing or not, and reports the bytes of unpublished objects and the failures |
| MediaStorage.MediaStore.SweepUnreferenced | whatsapp-bridge/media_s3_maintenance.go:224-261 | removes one page of unreferenced objects, each failing or not, and reports their bytes and the failures |
| MediaStorage.MediaStore.Sweep | whatsapp-bridge/media_s3_maintenance.go:172-214 | its two journal passes, the walk over expired rows and the orphan pass, in order, are one sweep; files, bytes and failures are the sums over them |
| MediaStorage.MediaStore.Recover | whatsapp-bridge/media_s3_maintenance.go:172-261 | sweeping while a backlog is left terminates with the store recovered and exactly the surviving refs |
| MediaStorage.MediaStore.DeleteObject | whatsapp-bridge/media_s3_maintenance.go:69-155 | the selected refs of an object go, and the object with them when nothing else refers to it; at each of its requests it can fail, and a failed removal is settled before the lock is given back |
| MediaStorage.MediaStore.Plan | whatsapp-bridge/media_s3_maintenance.go:14-66 | groups the cached selected rows by object, each row once, remembering the last |
| MediaStorage.MediaStore.Delete | whatsapp-bridge/media_s3_maintenance.go:14-161 | it fails exactly if a planning query or one of the chosen rows' objects makes it, and otherwise deals with all of them; a row is reported as purged exactly if its object was dealt with in full, has then lost its ref, and no row outside the selection has; a dry run changes nothing; when nothing fails both report the same and the real one purges exactly the chosen rows |
| MediaDeletion.ReportIsTruthful | whatsapp-bridge/media_s3_maintenance.go:29-39 | whatever subset of the objects was dealt with and however each failed, the final report claims no ref that is still there |
| MediaDeletion.DeletedNext | whatsapp-bridge/media_s3_maintenance.go:69-158 | dealing with one more object, failing or not, changes the store by that object only, so the order of the objects does not matter |
| MediaDeletion.SoundDelete | whatsapp-bridge/media_s3_maintenance.go:14-161 | with no fault the objects one by one add up to the purge of the chosen rows |
| MediaStorage.MediaStore.NextPage | whatsapp-bridge/media_s3_maintenance.go:280-313 | returns the first 256 matching rows after the cursor, each once and in keyset order, and the position of the last |
| MediaStorage.MediaStore.PurgeMatching | whatsapp-bridge/media_s3_maintenance.go:280-328 | a paged purge through real deletes removes exactly the matching rows, and its summed files and bytes equal the dry run's prediction |
| ZipFormat.NumberRoundTrip | whatsapp-bridge/operator_zip.go:44-51 | a little-endian number of enough bytes reads back |
| ZipFormat.FieldAt | whatsapp-bridge/operator_zip.go:44-51 | each field of a record in place reads back at its offset |
| ZipReader.CentralReads | whatsapp-bridge/operator_zip.go:76-88 | a central header in place, with its saturated sizes, reads back through its ZIP64 extra field |
| ZipReader.ItemReads | whatsapp-bridge/operator_zip.go:60-75 | a local header, its data and its descriptor in place read back as the entry |
| ZipArchive.ArchiveReads | whatsapp-bridge/operator_zip.go:60-97 | an archive laid out this way reads back as exactly its items, in order |
| ZipDigest.StreamInjective | whatsapp-bridge/operator_zip.go:98-101 | entry lists with newline-free names that feed the digest the same text are equal |
| ZipDigest.DigestDetects | whatsapp-bridge/operator_zip.go:3-7 | without a collision among the hashed texts, equal digests mean equal replays |
| ZipStream.CountingWriter.Write | whatsapp-bridge/operator_zip.go:35-42 | bytes are appended and the count stays the length modulo 2^64 |
| ZipStream.CountingWriter.WriteNumbers | whatsapp-bridge/operator_zip.go:44-51 | writes exactly the record's fields |
| ZipStream.CountingWriter.WriteLocal | whatsapp-bridge/operator_zip.go:60-72 | refuses names over 65535 bytes, else writes the local header |
| ZipStream.CountingWriter.WriteCentral | whatsapp-bridge/operator_zip.go:76-88 | refuses names over 65535 bytes, else writes the central header |
| ZipStream.CountingWriter.WriteEnd | whatsapp-bridge/operator_zip.go:90-96 | writes the three end records pointing back at the count before them |
| ZipStream.WriteSegments | whatsapp-bridge/operator_zip.go:103-124 | the first pass writes each entry's segment, and a failed one wrote only a part of that |
| ZipStream.WriteHeaders | whatsapp-bridge/operator_zip.go:156-173 | the third pass writes one header per entry, each with the offset of its segment modulo 2^64 |
| ZipStream.WriteManifest | whatsapp-bridge/operator_zip.go:141-154 | the manifest is closed only if it succeeded and its replay's digest matched |
| ZipStream.StreamArchive | whatsapp-bridge/operator_zip.go:103-185 | succeeds exactly when all checks pass and then emits segments, directory and end records; a refused run names the first check that failed and stops before the manifest's header |
| ZipStream.EmittedIsArchive | whatsapp-bridge/operator_zip.go:156-185 | when the replays agree and the output fits 64 bits, the emitted bytes are the archive of the entries and the manifest, every wrapped offset being true |
| ZipStream.PlainStreamReads | whatsapp-bridge/operator_zip.go:103-185 | a successful run with newline-free names and no collision replayed the same entries three times, and its output reads back as them plus manifest.json |
| ZipExport.NoControlNoNewline | whatsapp-bridge/media.go:500-513 | a name without a control rune holds no newline byte, whatever bytes it is made of |
| ZipExport.ScanFinds | whatsapp-bridge/media_cache_path.go:133-150 | the lookup answers with the first name that is a regular file, with nothing exactly if all are absent, and with the error otherwise |
| ZipExport.FindCached | whatsapp-bridge/media_cache_path.go:113-150 | both loops, skipped duplicates included, compute that lookup after checking every name |
| ZipExport.ExportedNamesArePlain | whatsapp-bridge/operator_export.go:120-230 | every name an export gives an entry is newline-free |
| ZipExport.ExportWalk | whatsapp-bridge/operator_export.go:120-230 | the walk ends well exactly if every table, marker and cached file could be written, and then it emitted all of them in order, refused and uncached rows left out |
| ZipExport.Export | whatsapp-bridge/operator_export.go:350-352 | a streamed export was undisturbed in all three replays and, unless two hashed texts collide, reads back as exactly what the first replay exported followed by manifest.json; undisturbed replays that agree are streamed |
| MediaQuota.ActionCharge | whatsapp-bridge/media_quota.go:196-201 | publishing within a reservation, releasing it and removing files never raise the charge |
| MediaQuota.ReserveCharge | whatsapp-bridge/media_quota.go:345-350 | a reservation for a free path raises the charge by exactly its bytes |
| MediaQuota.PublishedWithinCharge | whatsapp-bridge/media_quota.go:196-201 | published bytes never exceed the charge |
| MediaQuota.SnapshotCharge | whatsapp-bridge/media_quota.go:352-358 | reservations that finish during an accounting leave its older snapshot an upper bound |
| MediaQuota.RunStaysWithinQuota | whatsapp-bridge/media_quota.go:202-359 | over every interleaving of admissions, publications, releases and removals the charge and the published bytes stay within a fixed quota |
| QuotaAdmission.LowWaterIsFloor | whatsapp-bridge/media_quota.go:361-367 | the low-water mark is floor(quota*target/100), below the quota, and no intermediate result leaves 64 bits |
| QuotaAdmission.Sort | whatsapp-bridge/media_quota.go:283-288 | the same candidates, oldest first, ties by path |
| QuotaAdmission.QuotaCache.Tally | whatsapp-bridge/media_quota.go:246-255 | drops exactly the finished reservations and sums the running ones |
| QuotaAdmission.QuotaCache.Scan | whatsapp-bridge/media_quota.go:261-280 | whatever happens meanwhile, the count covers what is left and never exceeds the charge it began with, and every evictable file left is a candidate; it removes nothing itself and gives up only when the caller does |
| QuotaAdmission.QuotaCache.Evict | whatsapp-bridge/media_quota.go:289-313 | the files that go, other than by others, are exactly the evicted ones; usage falls by exactly their bytes; before the last eviction usage was not yet low enough, and after it it is, or none is left, or the caller gave up |
| QuotaAdmission.QuotaCache.Account | whatsapp-bridge/media_quota.go:246-323 | evicts only under pressure as counted and no more than needed; the low-water flag afterwards is exactly what the counted usage less the evicted bytes says; that usage bounds the charge from above and stays within the quota |
| QuotaAdmission.QuotaCache.Acquire | whatsapp-bridge/media_quota.go:202-359 | each outcome exactly when its reason holds, with the exact limit; keeps the charge within the quota; the only files it takes are the evicted ones, under pressure, evictable, oldest first, no more than needed; admits after pressure only at or below low water; pauses only when nothing evictable is left |
| QuotaAdmission.QuotaCache.Reserve | whatsapp-bridge/media_quota.go:333-351 | the reservation fits what the accounting left over |
| MediaCap.WireCapIsExact | whatsapp-bridge/media_cap.go:162-176 | the wire cap fits int64 and admits a ciphertext exactly when its plaintext ends in a block the limit reaches |
| MediaCap.CappedMediaFile.Check | whatsapp-bridge/media_cap.go:212-219 | refuses exactly what would reach beyond the limit, without overflow, and remembers it |
| MediaCap.CappedMediaFile.Perform | whatsapp-bridge/media_cap.go:221-244 | writes, positioned writes and truncations beyond the limit change nothing; all others act as on the plain file, which never outgrows the limit |
| MediaCap.WriteDownload | whatsapp-bridge/media_cap.go:164-196 | publishes exactly when the fill succeeded, no operation reached beyond the wire cap and the result is within the plain limit |
| MediaCap.HonestDownloadIsAccepted | whatsapp-bridge/media_cap.go:162-176 | a download confined to the ciphertext of a plaintext within the limit is never refused |
| MediaCap.DiskStaysWithinCap | whatsapp-bridge/media_cap.go:212-244 | at no moment is the file longer than the cap |
| Spools.StepKeepsInv | whatsapp-bridge/media_s3_spools.go:50-216 | every pool operation keeps the counters equal to the sums over entries and within all bounds |
| Spools.RunKeepsAccounts | whatsapp-bridge/media_s3_spools.go:50-216 | over every run bytes, readers and entries are exact and bounded, and an open reader's spool is in the table |
| Spools.IdleEntriesAreReady | whatsapp-bridge/media_s3_spools.go:155-197 | while files can be removed and before shutdown, an entry nobody reads is always ready, so a failed or discarded download stops being charged with its last reader |
| Spools.ReopenSoundIff | whatsapp-bridge/media_s3_spools.go:127-141 | a reopen keeps the accounting if and only if it succeeds, its file stays, or nobody reads the spool |
| Spools.UnsafeReopenSubtractsTwice | whatsapp-bridge/media_s3_spools.go:132-137 | after the unsafe case, closing the last reader leaves the byte total short by the spool's size |
| Spools.ShrinkKeepsInv | whatsapp-bridge/media_s3_transient.go:185-187 | shrinking a reservation to the actual size keeps the accounting |
| SpoolPools.SpoolPool.Oldest | whatsapp-bridge/media_s3_spools.go:98-103 | finds an unread entry idle for longest, if any entry is unread |
| SpoolPools.SpoolPool.MakeRoom | whatsapp-bridge/media_s3_spools.go:97-114 | terminates, evicts only unread entries, longest idle first, and before the last of them there was no room; it grants what evicting every unread entry would allow, and refuses for want of room only if even that would not do |
| SpoolPools.SpoolPool.AcquireKey | whatsapp-bridge/media_s3_spools.go:70-142 | each refusal exactly when its reason holds; a new entry is opened, while the unread files can be removed, if and only if its file opens and it fits once every unread entry is gone, with exactly the size granted then; an existing one is reused; the pool stays valid exactly unless it forgets a spool that is being read |
| SpoolPools.SpoolPool.Verified | whatsapp-bridge/media_s3_spools.go:144-153 | makes the spool ready unless pool or reader is closed |
| SpoolPools.SpoolPool.DiscardKey | whatsapp-bridge/media_s3_spools.go:155-164 | unreadies an entry and removes it if nobody reads it |
| SpoolPools.SpoolPool.Release | whatsapp-bridge/media_s3_spools.go:168-197 | a reader's close counts once, and the last one removes or idles the spool |
| SpoolPools.SpoolPool.TimerFires | whatsapp-bridge/media_s3_spools.go:188-194 | a timer removes only the very spool it was set for, unread and idle long enough |
| SpoolPools.SpoolPool.Publish | whatsapp-bridge/media_s3_transient.go:180-190 | a finished transient download keeps only its actual bytes charged |
| SpoolPools.SpoolPool.Close | whatsapp-bridge/media_s3_spools.go:199-216 | shutdown closes every reader and drops every entry whose file can be removed, with exact books |
| ConnectionEvents.StepKeepsInv | whatsapp-bridge/connection_events.go:22-159 | every step keeps the log, the one pending debounce and the delivery order |
| ConnectionEvents.PostsFollowTheLog | whatsapp-bridge/connection_events.go:105-159 | at most one POST runs, and POSTs carry transitions in the order they were recorded, deadlines included |
| ConnectionEvents.NoRepeatedTransition | whatsapp-bridge/connection_events.go:39-43 | no two transitions in a row are equal |
| ConnectionEvents.OneLiveDebounce | whatsapp-bridge/connection_events.go:30-38 | at most one debounce can still record, and a cancelled one records nothing |
| ConnectionEvents.EveryTransitionIsQueued | whatsapp-bridge/connection_events.go:62-66 | with a legacy sender every recorded transition gets exactly one delivery, in order |
| ConnectionEvents.FlapIsInvisible | whatsapp-bridge/connection_events.go:19-21 | a disconnect undone within the debounce leaves log, queue and last event as they were |
| ConnectionEvents.QueueNeverSticks | whatsapp-bridge/connection_events.go:142-159 | while a delivery is not done, it or an earlier one has a next step |
| ConnectionEvents.Notifier.NotifyConnection | whatsapp-bridge/connection_events.go:22-76 | cancels, suppresses, records or debounces as specified |
| ConnectionEvents.Notifier.DebounceEnds | whatsapp-bridge/connection_events.go:79-107 | a debounce records its transition only if neither it nor the process was cancelled |
| ConnectionEvents.Notifier.FinishDelivery | whatsapp-bridge/connection_events.go:142-159 | a delivery is done at once, or keeps its place until its predecessor is |
| ConnectionEvents.Notifier.Stop | whatsapp-bridge/connection_events.go:161-169 | closes the notifier and cancels the pending debounce |
| ConnectionProblem.RecordedFacts | whatsapp-bridge/connection_problem.go:160-222 | a report never loses a restriction or an unlink, and a generic one adds neither |
| ConnectionProblem.RecordedReadable | whatsapp-bridge/connection_problem.go:409-456 | what a persistent report records passes the reader's validation |
| ConnectionProblem.RunKeepsInv | whatsapp-bridge/connection_problem.go:227-325 | over every run, session cleanups included, memory and disk agree on both facts unless a write is known to have failed, and a temporary ban ends after it began |
| ConnectionProblem.PersistedFactsSurvive | whatsapp-bridge/connection_problem.go:147-222 | over reports, write failures, retries, session cleanups and same-build restarts a persisted restriction or unlink is never lost |
| ConnectionProblem.UnlinkSurvives | whatsapp-bridge/connection_problem.go:182-192 | over such a run a persisted unlink keeps its moment and device, in memory and on disk, until a new unlink is reported, and its session counts as removed if and only if it did before or a cleanup was saved |
| ConnectionProblem.RestrictionSurvives | whatsapp-bridge/connection_problem.go:174-198 | and a persisted restriction keeps its kind, code, reason, expiry and start until a new restriction is reported, whatever unlinks come |
| ConnectionProblem.RunReadsIff | whatsapp-bridge/connection_problem.go:409-456 | after any run the saved problem passes the reader if and only if the last thing saved is not a cleanup of a problem whose kind its code does not stand for |
| ConnectionProblem.WrittenReadsBack | whatsapp-bridge/connection_problem.go:409-495 | the same build then reads back exactly what was saved |
| ConnectionProblem.UpgradeReleasesOnlyOutdated | whatsapp-bridge/connection_problem.go:458-473 | a restart of another build releases exactly an outdated-client restriction and never the unlink |
| ConnectionProblem.CleanupReadableIff | whatsapp-bridge/pairing.go:93-120 | what session cleanup saves can be read back if and only if its kind is the one its code stands for |
| ConnectionProblem.GenericReportSpoilsIff | whatsapp-bridge/connection_problem.go:160-222 | a generic report while unlinked makes it unreadable if and only if nothing restricts, the client is not retired, and the code has a kind other than "other" |
| ConnectionProblem.GenericFailureSpoilsCleanup | whatsapp-bridge/pairing.go:93-120 | a run of an unlink, a generic 502 and a cleanup leaves a saved problem the next start refuses |
| ConnectionProblem.ProblemRecorder.Record | whatsapp-bridge/connection_problem.go:160-222 | remembers and persists the merged problem |
| ConnectionProblem.ProblemRecorder.Resolve | whatsapp-bridge/connection_problem.go:283-304 | releases the restriction only once the remaining unlink is saved |
| ConnectionProblem.ProblemRecorder.CleanUp | whatsapp-bridge/pairing.go:107-120 | remembers the session as removed only once that is saved |
| ConnectionProblem.ProblemRecorder.Clear | whatsapp-bridge/connection_problem.go:307-325 | forgets memory and disk together, or flags the failure and keeps both |
| MarkRead.CoveredPrefix | whatsapp-bridge/mark_read.go:344-380 | the cut is the furthest safe one, except that a page of one overflowing second is covered whole |
| MarkRead.GroupBySender | whatsapp-bridge/mark_read.go:403-428 | one group per sender in first-seen order, each in page order, unaddressable rows apart |
| MarkRead.GroupsPartitionPage | whatsapp-bridge/mark_read.go:390-428 | every row is in exactly one group, or unaddressable |
| MarkRead.SendReceipts | whatsapp-bridge/mark_read.go:269-308 | the receipts that go out are the due ones in order up to the first not accepted; what is acknowledged is exactly what they name; failure and refusal exactly when their cause holds |
| MarkRead.DueNamed | whatsapp-bridge/mark_read.go:276-303 | the due receipts name only messages of the groups, and all of them when every sender resolves |
| MarkRead.DueIsAddressed | whatsapp-bridge/mark_read.go:276-303 | each holds one to a hundred messages of one group, whose sender is none or resolves |
| MarkRead.SavedIsNotRepeated | whatsapp-bridge/mark_read.go:468-491 | receipts saved after a refusal are never due again, whatever the marker |
| MarkRead.SafeCutIsHonest | whatsapp-bridge/mark_read.go:344-352 | a safe cut of the page covers no unacknowledged row of the whole archive |
| MarkRead.OneSecondIsDishonest | whatsapp-bridge/mark_read.go:354-355 | in the excepted case the marker does cover a row nobody acknowledged |
| MarkRead.CrowdedSecond | whatsapp-bridge/mark_read.go:354-355 | 2001 unread rows in one second are such a case |
| MarkRead.ChatArchive.UnreadInbound | whatsapp-bridge/store.go:1093-1140 | the unread rows in order, up to the limit |
| MarkRead.ChatArchive.MarkChatRead | whatsapp-bridge/store.go:939-952 | the marker only moves forward |
| MarkRead.ChatArchive.AcknowledgedPrefix | whatsapp-bridge/store.go:1144-1159 | the latest saved receipt before the first row still unread |
| MarkRead.ChatArchive.MarkWholeChatRead | whatsapp-bridge/mark_read.go:208-342 | acknowledges exactly what its delivered receipts name and the unaddressable rows, and saves that exactly on a refusal; the marker covers only acknowledged rows if and only if the page is not one acknowledged overflowing second, goes as far as the safe cuts and saved receipts let it, and stands on an acknowledged row; when all receipts go out the unread set shrinks |
| MarkRead.ChatArchive.MarkUntilRead | whatsapp-bridge/mark_read.go:54-60 | repeating the call while receipts go out terminates with nothing unread |
| LockTable.StepKeepsInv | whatsapp-bridge/media_s3.go:129-154 | entering, taking, cancelling, unlocking and leaving keep the table exact |
| LockTable.MutualExclusion | whatsapp-bridge/media_s3.go:122-154 | over every run at most one goroutine holds a hash's gate |
| LockTable.UsersShareGate | whatsapp-bridge/media_s3.go:122-154 | two gates for one hash are never in use together |
| LockTable.EntryWhileUsed | whatsapp-bridge/media_s3.go:127-128 | a hash has an entry exactly while some goroutine uses it, cancelled waiters included |
| LockTable.HashLocks.EnterHash | whatsapp-bridge/media_s3.go:129-138 | joins the hash's gate, creating it if there is none |
| LockTable.HashLocks.Release | whatsapp-bridge/media_s3.go:139-146 | the last user removes the entry |
| Inflight.OneRunPerKey | whatsapp-bridge/media_inflight.go:85-130 | at most one transfer runs per key |
| Inflight.AnswersComeFromOverlappingRuns | whatsapp-bridge/media_inflight.go:71-79 | a caller that waits gets the result of a run that was registered when it came, and a success never exceeds the caller's own limit |
| Inflight.WaitMeansIdle | whatsapp-bridge/media_inflight.go:152-157 | the wait ends exactly when no run is left |
| Inflight.StoppedStaysIdle | whatsapp-bridge/media_inflight.go:159-163 | after stop no run starts, so an idle group stays idle |
| Inflight.TransferGroup.Join | whatsapp-bridge/media_inflight.go:85-119 | joins the run for the key, starts one, or turns the caller away after stop |
| Inflight.TransferGroup.Unregister | whatsapp-bridge/media_inflight.go:103-109 | a returned run leaves the table before its callers wake |
| Logging.OneLineReadsBack | whatsapp-bridge/logging.go:154-182 | the original bytes can be read back from a line |
| Logging.OneLineInjective | whatsapp-bridge/logging.go:154-182 | different byte strings never share a line |
| Logging.OneLineIsSafe | whatsapp-bridge/logging.go:184-200 | a line is valid UTF-8 without control, separator or reordering runes |
| Logging.PlainIsUnchanged | whatsapp-bridge/logging.go:160-163 | text that needs no escape comes back unchanged |
| Logging.EncodeLine | whatsapp-bridge/logging.go:160-182 | the loop and its shortcut both compute the encoding |
| Logging.EscapedTextBoundary | whatsapp-bridge/logging.go:81-102 | the loop finds the last token boundary within the budget |
| Logging.CutIsAnEncoding | whatsapp-bridge/logging.go:78-102 | cutting an encoded line at the boundary leaves the encoding of a prefix of the original |
| Logging.CutIsLongest | whatsapp-bridge/logging.go:78-102 | of all prefixes of the original whose encoding begins the line and fits the budget, the cut leaves the longest |
| Logging.ShorterCutFits | whatsapp-bridge/logging.go:78-102 | of all prefixes it need not: the first byte of a line separator alone would fit where the separator does not |
| Logging.CapLine | whatsapp-bridge/logging.go:104-111 | a record is at most 8192 bytes with its newline, and unchanged if it fits |
| Logging.CappedLineIsReadable | whatsapp-bridge/logging.go:104-111 | a capped line is the encoding of a known prefix followed by the marker |
| Labels.SameEventsSameRow | whatsapp-bridge/labels.go:67-76 | a chat label row depends only on which events arrived, not on order or repetition |
| Labels.AppliedDecides | whatsapp-bridge/labels.go:67-76 | the row holds the latest moment, labeled unless an unlabel came at that moment |
| Labels.TwinMergeIsUnion | whatsapp-bridge/labels.go:95-108 | merging two twin rows at read time equals sending both event sets to one row |
| Labels.DeletionIgnoresOrder | whatsapp-bridge/labels.go:54-65 | whether a label is deleted depends only on which events arrived |
| Labels.NamesDependOnOrder | whatsapp-bridge/labels.go:54-65 | two edits of one millisecond keep the name that came last |
| Labels.LabelStore.StoreChatLabel | whatsapp-bridge/labels.go:67-76 | the conditional upsert applies one more event to its row only |
| Labels.LabelStore.StoreLabel | whatsapp-bridge/labels.go:54-65 | the conditional upsert applies one more edit to its label only |
| Labels.LabelStore.ListLabels | whatsapp-bridge/labels.go:95-126 | lists in the order of their identifiers exactly the catalogued labels that are not deleted, or wanted anyway, and that the union of the chat's and its twin's events leaves on it |
| OperatorLimiter.WindowBound | whatsapp-bridge/operator.go:45-70 | in any window a key is admitted at most capacity + window*capacity/60 times |
| OperatorLimiter.PruneIsUnobservable | whatsapp-bridge/operator.go:50-55 | forgetting idle peers changes what nobody can spend at any later moment |
| OperatorLimiter.TakeCost | whatsapp-bridge/operator.go:61-69 | an admission costs its key one token and no other key anything |
| OperatorLimiter.OthersLeaveBuckets | whatsapp-bridge/operator.go:50-55 | over any run of other peers' requests a bucket is left as it was or forgotten, and not forgotten within ten minutes |
| OperatorLimiter.RetryIsAdmittedIff | whatsapp-bridge/operator.go:45-70 | after any run of other peers' requests a peer that waited out its refusal is admitted if and only if it still has its bucket or the table has room, and it has its bucket when those requests came within ten minutes |
| OperatorLimiter.Limiter.TakeToken | whatsapp-bridge/operator.go:45-70 | prunes, refills, refuses or admits as specified |
| ChatPolicy.IntersectionIsBoth | whatsapp-bridge/chat_policy.go:107-128 | for a restricted runtime list and any deployment list, restricted or not, the result allows exactly what both allow, for every string |
| ChatPolicy.RuntimeNarrows | whatsapp-bridge/runtime_settings.go:251-263 | for all items of both settings, a runtime list allows, of what is allowed without it, exactly what it allows itself |
| ChatPolicy.EntryMatchesIff | whatsapp-bridge/runtime_settings.go:93-105 | each entry of a runtime list matches itself if and only if the whole list passes the pattern; otherwise nothing is allowed |
| ChatPolicy.NormalTwiceIff | whatsapp-bridge/chat_policy.go:132-151 | an item is normalized once and for all if and only if it is not a text without `@` that holds a colon, and the second time always |
| ChatPolicy.ReparseKeepsListIff | whatsapp-bridge/runtime_settings.go:105-106 | parsing a list, keeping its entries and parsing them again gives the same list if and only if it has no such item |
| ChatPolicy.EffectiveWithinDeploymentIff | whatsapp-bridge/operator_chats.go:129-132 | for every deployment list: no runtime list ever allows a chat outside it if and only if it allows, for each of its items without `@` that holds a colon, the text before the colon |
| ChatPolicy.EffectiveBeyondDeployment | whatsapp-bridge/operator_chats.go:129-132 | the input: a list of one such item allows that text in force, and not as the picker reads it |
| ChatPolicy.Intersect | whatsapp-bridge/chat_policy.go:107-128 | the three loops compute the intersection |
| ChatPolicy.Parse | whatsapp-bridge/chat_policy.go:153-172 | sorts normalized items into exact entries and wildcards; only a list of blanks is unrestricted |

## Left out

- MediaSweep.RecoveryConverges: assumes no concurrent writers, as the law is about a quiet store.
- MediaStorage.MediaStore.Sweep: the deletions of expired rows succeed; only its journal and orphan passes may fail.
- MediaStorage.MediaStore.Delete: nothing else runs meanwhile; what concurrent steps can do to one object is in `MediaDeleteRace`.
- ZipStream.StreamArchive: the output writer never fails; a failing client only cuts the output short.
- ZipStream.PlainStreamReads: asks for newline-free names, which `ZipExport.ExportedNamesArePlain` shows of every export, for no hash collision among the hashed texts and for an output below 2^64 bytes.
- ZipExport.ExportWalk: the tables' rows and the manifest's JSON are arbitrary bytes, and a cached file's names are whatever the row gives.
- MediaQuota.RunStaysWithinQuota: assumes a fixed quota and that a reserved path is free, which single-flight and the cache check before admission ensure; on-demand downloads bypass the quota by design.
- Spools.RunKeepsAccounts: excludes exactly the unsafe reopen that `ReopenSoundIff` describes.
- SpoolPools.SpoolPool.AcquireKey: file contents and digests are not modelled, only sizes, readiness and readers.
- ConnectionProblem.WrittenReadsBack: the problem itself reads back; its JSON encoding and the 4096-byte limit are not modelled.
- MarkRead.ChatArchive.MarkWholeChatRead: archive writes succeed, and rows with unparseable timestamps are not modelled.
- Labels.DeletionIgnoresOrder: covers the deleted flag and its moment only, because the other columns do depend on order (`NamesDependOnOrder`).
- OperatorLimiter.WindowBound: exact reals and non-decreasing time instead of floating point and a wall clock.
- ChatPolicy.RuntimeNarrows: lists are sets of items, without joining and splitting them at commas, and of the Unicode tables only what `Laws` says is used.
- `Open`'s verified spooling of the remote body and the read-only mode of recovery.
- `lockMediaQuota`, whose lease is what makes admissions one at a time here, and `mediaCachingPaused`, a report on the same numbers.
- The S3 quota (`media_s3_quota.go`), which needs a bound between reservations and stored sizes that the code does not state.
- `waitConnectionAllowedContext`.
- `allowsIdentity`, Brazilian number twins and every HTTP handler.
- Log prefixes, levels and continuation markers, which add only fixed ASCII text around an encoded line.
- Message extraction, history sync, pairing flows and metrics: long, but without state worth proving.
