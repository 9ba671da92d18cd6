# AERA Recovery: verified models of its stateful cores

This project models, in Dafny, the parts of AERA Recovery that change device state or decide whether such a
change was safe, and proves what they keep over every input, every failure point and every interleaving.

- **Image flashing on Super.** `SuperTable` is the logical-partition table and the contract of the metadata
  builder, `SuperLayout` and `RomLayout` are the two planners, `FlashTransaction` says what the preparation trackers
  must record and what a rollback makes of them, `FlashRequest` says what a request asks for and what it may cost,
  `BatchOrder` is the order of a batch's outward steps, and `PartitionManager` is the preparation, the rollback and
  the batch, with every system call free to fail.
- **Mounts.** `FlashMounts` plans which mounts to release, releases them deepest first, and puts them back from any
  point where the release stopped.
- **ABL inspection.** `AblImage` holds the ELF and PE header arithmetic, `AblScan` and `AblInspect` the budgeted
  recursive scan, `AblCoverage` what a definite verdict has looked at, `AblExtent` the truncated read,
  `AblWitness` byte-level images on which the code's checks part, and `AblGuard` the digest cache and the exit warning
  over whole runs.
- **Smaller cores.** `FlashLog` is the rotating log and its archive, `ManualRecorder` the recorder's thread and mutex
  protocol, `Pairing` the generation-guarded pairing timers, `BlockIo` the write-and-read-back loops, `Settings` the
  settings file, and `FindFile` the file search.

`dafny verify dfyconfig.toml` checks the whole project.

Conventions. A method's parameter `works` says that the system calls it makes do not fail; without it each call may
fail at any point. Ghost parameters (`t0`, `m0`, `order`, ...) name earlier states for the contracts; the ghost fields
`trace`, `phase` and `released` of the partition manager record the outward steps of a batch and the devices its
preparation let go of. Table sizes are counted in logical blocks; the builder rounds byte sizes up to whole blocks. Every lemma turns
automatic induction off, so each induction is the one written in its body.

Where the code does not do what one would expect, the code is modelled as it is and the exact condition is proved:

- A rollback can unmap logical partitions that preparation never touched. They are listed in the layout mappings before
  planning is finished, but recorded for remapping only when they are released. With working calls a failed batch loses
  exactly the devices of a request that is valid, lists them and does not fit Super (`RefusalLoses` in
  `RunImageFlashBatch`, `RefusalIsNotFitting`), and one such request is given, with and without a package layout
  (`PlanningFailureLosesMapping`).
- The rotation counter of the log is 32 bits wide, so `Truncated` is right exactly when the stream's length fills fewer
  than 2^32 segments before the current one, or a number of them that is not 0 or 1 modulo 2^32 (`TruncatedIff`);
  a stream of 2^32 segments and one byte is reported complete (`WrappedCounterDenies`).
- An empty ELF segment that starts beyond the read extent turns a definite verdict into Unknown
  (`TruncatedReadKeepsVerdict`); a partition of 400 bytes where this happens is given (`TruncationLosesVerdict`).
- The two PE validators differ exactly in the declared header size, and in empty sections that start beyond the file
  (`PeValidatorsAgree`); every image the file validator accepts has a variant that only it accepts
  (`UndeclaredHeadersSplitValidators`).
- Publishing a pairing session does not look whether there is one already. Sessions stay accounted for exactly in the
  runs where every publish finds none (`AccountedIffVacant`); below the counter wrap, exactly in the same runs every timer
  of the current generation is the current session's own (`TimersOwnIffVacant`); two overlapping starts show the failure
  (`OverlappingStartsBreakIt`).
- A name or value of 511 bytes or more, or with a NUL in it, does not survive the settings file (`SurvivesIff`).

## Model

| member | source | states |
|---|---|---|
| `SuperTable.BlocksForCompare` | aera_image_flash_layout.hpp:106 | comparing a byte size with a partition's size is comparing rounded block counts, so the planners' "equal" and "smaller" tests are right for sizes that are not whole blocks |
| `SuperTable.UsedBlocksSize` | aera_image_flash_layout.hpp:107 | the blocks in use are never more than the partitions' sizes add up to, so the free-space test is safe |
| `SuperTable.FreeBlockExists` | aera_image_flash_layout.hpp:107 | while fewer blocks are taken than there are, one is free |
| `SuperTable.WellFormedGrow` | aera_image_flash_layout.hpp:107 | giving a partition fresh blocks keeps the table free of shared blocks and inside Super |
| `SuperTable.MetadataBuilder.CountBlocks` | aera_image_flash_layout.hpp:107 | the loop over the partitions computes the group's, or the whole, block count |
| `SuperTable.MetadataBuilder.Allocate` | aera_image_flash_layout.hpp:107 | when the count fits, that many distinct unused blocks are found |
| `SuperTable.MetadataBuilder.ResizePartition` | aera_image_flash_layout.hpp:107 | succeeds exactly when it shrinks, or when group limit and free space allow the growth; keeps the surviving blocks, the other partitions and well-formedness |
| `SuperTable.MetadataBuilder.Export` | aera_image_flash_layout.hpp:80 | yields the table exactly when every group is within its limit |
| `SuperLayout.WantedKeys` | aera_image_flash_layout.hpp:87-93 | a size is wanted for exactly the named partitions |
| `SuperLayout.CheckRequest` | aera_image_flash_layout.hpp:86-101 | accepts exactly the requests with positive whole-sector sizes, distinct existing targets, and stale COWs that are COWs and not targets |
| `SuperLayout.ShrinkPass` | aera_image_flash_layout.hpp:103-112 | always succeeds and cuts exactly the partitions that get smaller, to a prefix of their blocks |
| `SuperLayout.GrowthMustFit` | aera_image_flash_layout.hpp:80-82 | once the final sizes fit, no growth on the way there is refused |
| `SuperLayout.GrowPass` | aera_image_flash_layout.hpp:103-112 | succeeds exactly when the final sizes fit Super and every group with a growing member, and then every partition has its wanted size |
| `SuperLayout.SameGoal` | aera_image_flash_layout.hpp:102-112 | dropping COWs and shrinking first does not change whether the request fits |
| `SuperLayout.PlanImageFlashLayout` | aera_image_flash_layout.hpp:83-114 | succeeds exactly when the request is valid and the final sizes fit after COW removal; then COWs are gone, targets have their size, and everything else keeps group, attributes and blocks |
| `SuperLayout.PlanStaysWithinLimits` | aera_image_flash_layout.hpp:80-114 | from a table within its limits, every successful plan is within them too |
| `SuperLayout.OrderDoesNotMatter` | aera_image_flash_layout.hpp:103-112 | reordering the images does not change what is wanted |
| `SuperLayout.AcceptanceIgnoresOrder` | aera_image_flash_layout.hpp:83-114 | a request is accepted if and only if any reordering of its images is |
| `RomLayout.CheckRom` | aera_image_flash_layout.hpp:37-51 | accepts exactly a known slot, valid distinct groups, and partitions that are distinct, in a listed group and equal to the selected images |
| `RomLayout.RemoveObsolete` | aera_image_flash_layout.hpp:52-60 | removes exactly the slot partitions the layout does not name |
| `RomLayout.AssignPartitions` | aera_image_flash_layout.hpp:67-72 | every layout partition exists with its group and attributes and keeps the blocks it had |
| `RomLayout.RemoveEmptyGroups` | aera_image_flash_layout.hpp:73-76 | exactly the unlisted empty slot groups go |
| `RomLayout.PlanRomImageLayout` | aera_image_flash_layout.hpp:33-78 | succeeds exactly for valid requests, fixes the whole resulting table, and leaves the table alone when it refuses |
| `RomLayout.RomThenImagesIsExact` | aera_image_flash_layout.hpp:33-114 | after both planners the slot's partitions are exactly the layout's with layout group, attributes and image size; every other non-COW partition is unchanged; no unlisted slot group is left holding a slot partition |
| `FlashTransaction.RollbackRestoresReleased` | partitionmanager.cpp:4166-4223 | from any tracked state, a rollback whose calls succeed gives back every released device that the checkpoint knows, and no device shows blocks other than the checkpoint's or its own from before |
| `FlashTransaction.RollbackLosesIff` | partitionmanager.cpp:4186-4214 | device by device: one with a checkpoint entry is lost if and only if it is listed but was not recorded for remapping; no unlisted device is ever lost |
| `FlashTransaction.TrackedRelease` | partitionmanager.cpp:4380-4396 | releasing a recorded device, and noting it as released, keeps the tracking invariant |
| `FlashTransaction.TrackedRemember` | partitionmanager.cpp:4373-4383 | recording more before the commit keeps the tracking invariant |
| `FlashTransaction.TrackedCommit` | partitionmanager.cpp:4400-4402 | writing any table, even a wrong one, keeps the tracking invariant once the flag is set |
| `FlashTransaction.TrackedMap` | partitionmanager.cpp:4408-4410 | mapping a new device in reach of the rollback keeps the tracking invariant |
| `FlashRequest.ImagesAreCollected` | partitionmanager.cpp:4312-4338 | every target in Super, "/logical/" or fstab, has its image in the request |
| `FlashRequest.CollectedImageHasTarget` | partitionmanager.cpp:4312-4338 | and every image in the request comes from a target |
| `FlashRequest.SuperAcceptsIff` | partitionmanager.cpp:4339-4369 | acceptance does not depend on which order the stale COWs are listed in, and the planned-on table is unique |
| `FlashRequest.CommittedIsExact` | partitionmanager.cpp:4339-4402 | a committed table is within its limits and, without a layout, differs from the old one only in the images' sizes and the stale COWs; with a layout it is exactly the layout's table, everything else unchanged |
| `FlashRequest.NothingToCommit` | partitionmanager.cpp:4370 | when no size changes and there is no COW, skipping the commit leaves the very table a commit would have made |
| `FlashRequest.ListingOfRequest` | partitionmanager.cpp:4347-4365 | the layout mappings planning lists are computable from the request and the table before: with a layout, the slot's partitions and the images; without one, the "/logical/" targets that change size |
| `FlashRequest.RefusalIsNotFitting` | partitionmanager.cpp:4361-4369 | the devices a refusal costs are those of a request with valid targets and layout that Super does not accept |
| `FlashRequest.TooLargeIsRefused` | aera_image_flash_layout.hpp:103-112 | an image larger than all of Super is refused, whatever the layout frees |
| `FlashRequest.PlanningFailureLosesMapping` | partitionmanager.cpp:4347-4369 | a well-formed table, its device and a valid request for a too large image, with a layout and without one, that meet the condition of loss |
| `PartitionManagers.PartitionManager.Rollback` | partitionmanager.cpp:4166-4223 | does nothing without a checkpoint or a record; else, when it reports success, table and devices are exactly the checkpoint's rollback state; it cannot be incomplete when its calls succeed, and its identification error never occurs |
| `PartitionManagers.PartitionManager.CollectImages` | partitionmanager.cpp:4312-4338 | accepts exactly valid targets and collects exactly their images |
| `PartitionManagers.PartitionManager.PlanLayout` | partitionmanager.cpp:4347-4357 | lists exactly the slot's partitions and the images, and only after the layout is planned; outside them the table is unchanged |
| `PartitionManagers.PartitionManager.ListChangedLogicals` | partitionmanager.cpp:4361-4365 | without a layout, lists exactly the "/logical/" targets that change size |
| `PartitionManagers.PartitionManager.PlanImages` | partitionmanager.cpp:4366-4369 | succeeds exactly when the request is valid, fits and exports within limits; then images have their size and unchanged partitions keep their blocks |
| `PartitionManagers.PartitionManager.PlanUpdate` | partitionmanager.cpp:4366-4369 | in terms of the table on disk: succeeds if and only if Super accepts the request, and then the exported table is the one to commit |
| `PartitionManagers.PartitionManager.PlanTables` | partitionmanager.cpp:4339-4369 | plans on a copy: disk and devices untouched; whatever fails, the list is empty or exactly that of the request; with working calls success exactly when Super accepts it |
| `PartitionManagers.PartitionManager.ReleaseDevice` | partitionmanager.cpp:4380-4396 | destroys one device and notes it as released; nothing else adds to what was released |
| `PartitionManagers.PartitionManager.RememberResized` | partitionmanager.cpp:4371-4379 | every fstab partition about to change is recorded before any device is touched |
| `PartitionManagers.PartitionManager.ReleaseLayout` | partitionmanager.cpp:4380-4386 | every layout device is recorded before it is destroyed, whatever fails |
| `PartitionManagers.PartitionManager.ReleaseChanged` | partitionmanager.cpp:4387-4389 | the other changing devices are released under the tracking invariant |
| `PartitionManagers.PartitionManager.ReleaseCows` | partitionmanager.cpp:4390-4396 | stale COW devices are released and recorded |
| `PartitionManagers.PartitionManager.CommitAndRemap` | partitionmanager.cpp:4397-4417 | one table commit, flag set before it; on success disk is the plan and every remapped device shows it |
| `PartitionManagers.PartitionManager.FillBlocks` | partitionmanager.cpp:4421-4434 | every "/logical/" target ends up mapped, and no device that was there goes away |
| `PartitionManagers.PartitionManager.ApplyPlan` | partitionmanager.cpp:4370-4419 | release, commit and remap keep tracking at every failure point, and succeed when their calls do |
| `PartitionManagers.PartitionManager.PrepareImageFlashTargets` | partitionmanager.cpp:4297-4436 | whatever fails, the trackers cover what was done, only names of the request are listed, and there is at most one commit; success implies, and with working calls is implied by, an acceptable request; on success every target in Super, fstab targets included, has its image's size on disk and a device wherever one had to be made, and the table on disk is exactly the plan; with working calls a refusal touches nothing but the list |
| `PartitionManagers.UndoIsAtomic` | partitionmanager.cpp:4166-4223 | from wherever preparation stopped, a reported-good rollback gives the old table, every released device back, no device with other blocks, and no loss outside the listed names |
| `PartitionManagers.UndoIsExact` | partitionmanager.cpp:4186-4214 | with working calls, a device with a checkpoint entry is lost if and only if the request lists it and is then refused |
| `PartitionManagers.PartitionManager.UndoFailed` | aera_image_flash_batch.hpp:21-29 | both facts for the rollback in place |
| `PartitionManagers.PartitionManager.OperateOrRollBack` | aera_image_flash_batch.hpp:21-29 | rollback happens only when the operation failed, there is a writer probe, and no image byte was written; the state then is stated by the table, devices and request before the call alone |
| `PartitionManagers.PartitionManager.RunImageFlashBatch` | partitionmanager.cpp:4133-4262 | a nested call changes nothing; every other call is a good run with the trackers cleared; writing starts only on prepared targets; after a failure before writing the table is the old one, every released device is back and only devices the request lists can be missing, and with working calls exactly those of a listed request that does not fit are; remounting restores the mount table |
| `BatchOrder.PhaseTells` | aera_image_flash_batch.hpp:19-29 | the phase of a run tells whether the operation began, image data was written, or the checkpoint was written back |
| `BatchOrder.PhaseHistory` | aera_image_flash_batch.hpp:19-29 | how often each event has occurred by each phase of a run |
| `BatchOrder.GoodRunOrder` | aera_image_flash_batch.hpp:8-29 | in every good run there is one release and one restore, the restore last, at most one operation, one commit and one write-back of the checkpoint, and a write-back excludes image writes |
| `FlashMounts.BelowIsComponentPrefix` | aera_image_flash_mounts.hpp:96-99 | a path is below a mount exactly when its slash-separated components begin with the mount's, so names that share a prefix are not confused |
| `FlashMounts.BelowIsPartialOrder` | aera_image_flash_mounts.hpp:96-99 | reflexive, antisymmetric, transitive |
| `FlashMounts.PlanFlashMounts` | aera_image_flash_mounts.hpp:101-119 | succeeds exactly when no mount to release is the root, stacked or a shared slave; the plan is the closure, deepest first |
| `FlashMounts.PlanIsClosure` | aera_image_flash_mounts.hpp:105-115 | the plan is exactly the mounts at or below a mount of a selected device, never "/" |
| `FlashMounts.PlanHasDistinctTargets` | aera_image_flash_mounts.hpp:110 | planned targets are distinct |
| `FlashMounts.DescendantsFirst` | aera_image_flash_mounts.hpp:116-118 | every planned mount comes before the mounts it stands on |
| `FlashMounts.SortByDepth` | partitionmanager.cpp:321-323 | the sorted list is a permutation, deepest first |
| `FlashMounts.UnmountNeverBusy` | partitionmanager.cpp:350-358 | when a mount's turn comes nothing else stands on it |
| `FlashMounts.DownKeepsAncestors` | partitionmanager.cpp:350-358 | at every step of the release, a mounted mount below a planned one still has it |
| `FlashMounts.UpKeepsAncestors` | partitionmanager.cpp:4242-4248 | and at every step of the restore, from any point where the release stopped |
| `FlashMounts.RoundTrip` | partitionmanager.cpp:4242-4248 | any prefix of the release followed by the restore loop gives back the same mounts, counted with multiplicity |
| `FlashMounts.MountNamespace.UnmountPlanned` | partitionmanager.cpp:300-359 | stops at the first refusal with the table, and the removed marks, of exactly a prefix of the release |
| `FlashMounts.ReleasedAll` | partitionmanager.cpp:350-358 | after the whole release no mount at or below a selected device is left |
| `FlashMounts.MountNamespace.Quiesce` | partitionmanager.cpp:272-361 | success means no mount at or below a selected device is left; whatever happens, the state left can be restored |
| `FlashMounts.MountNamespace.RestoreFlashMount` | aera_image_flash_mounts.hpp:155-198 | succeeds exactly when the target is free or holds one identical mount; never stacks a second mount |
| `FlashMounts.MountNamespace.RestoreMounts` | partitionmanager.cpp:4242-4248 | puts back exactly the removed mounts, parents first; it cannot fail when mounting works |
| `FlashMounts.MountNamespace.RestoreAll` | partitionmanager.cpp:4238-4249 | from every restorable state, success means the original mount table |
| `AblImage.ElfTable` | aera_abl.cpp:30-36 | an accepted program-header table lies within the capacity and has 1 to 128 entries of legal size |
| `AblImage.ElfExtent` | aera_abl.cpp:22-36 | the same for the table read out of an ELF header |
| `AblImage.ComputeSectionsExtent` | aera_abl.cpp:55-61 | the loop computes the furthest raw section end, or nothing when a section leaves the buffer |
| `AblImage.SectionsExtentMeaning` | aera_abl.cpp:55-61 | a result exists exactly when all sections are inside, and it is the maximum of the start and the section ends |
| `AblImage.PeSizeCovers` | aera_abl.cpp:44-63 | a nonzero size lies within the buffer and covers headers, section table and all raw section data |
| `AblImage.PeSizeByShape` | aera_abl.cpp:44-63 | the size is nonzero exactly for well-shaped headers with declared sizes and sections inside |
| `AblImage.ValidImageByShape` | aera_efisp.hpp:47-72 | the same characterisation of the file validator |
| `AblImage.PeValidatorsAgree` | aera_efisp.hpp:47-72 | a nonzero PE size implies a valid image, and a valid image has a nonzero size exactly when its header size is declared within bounds and its empty sections start inside |
| `AblScan.LeaderIsFirstLargest` | aera_abl.cpp:76-84 | the application that decides is the first one of maximal size |
| `AblScan.WeighAllIsVerdict` | aera_abl.cpp:76-84 | weighing a buffer's applications in order keeps best size and status those of the deciding one |
| `AblScan.UnpackAllIsSound` | aera_abl.cpp:90-126 | following the sections of a buffer keeps limits and verdict |
| `AblScan.VisitIsSound` | aera_abl.cpp:64-131 | a visit at any depth keeps the 64 MiB, depth 4 and eight-section limits, and the status is decided by all buffers scanned |
| `AblScan.VerdictIsFirstLargest` | aera_abl.cpp:76-84 | a sound scan's status is the needle test on the first largest application, or Unknown when there is none |
| `AblInspect.FindSections` | aera_abl.cpp:90-96 | the offset loop finds exactly the sections of the buffer, in order |
| `AblInspect.Scan.WeighBuffer` | aera_abl.cpp:76-84 | the loop in place computes the weighing function |
| `AblInspect.Scan.UnpackSection` | aera_abl.cpp:95-125 | one section in place, including the stop at the attempt limit |
| `AblInspect.Scan.Visit` | aera_abl.cpp:68-130 | the recursive method in place computes the scan function |
| `AblInspect.ScanAllIsSound` | aera_abl.cpp:177-182 | scanning all segments keeps limits and verdict |
| `AblInspect.InspectSegments` | aera_abl.cpp:177-182 | the header loop scans exactly the loadable segments and refuses exactly when a header is out of range |
| `AblInspect.RunInspectAbl` | aera_abl.cpp:169-187 | the inspection in place computes the inspection function |
| `AblCoverage.VisitCovers` | aera_abl.cpp:68-130 | a visit that was not cut short has scanned its buffer and everything packed in it, at every depth |
| `AblCoverage.VisitDerives` | aera_abl.cpp:68-130 | everything a visit adds after its own buffer was decoded from an earlier one |
| `AblCoverage.ScanAllCovers` | aera_abl.cpp:177-182 | both facts for a whole list of segments |
| `AblCoverage.VerdictCoversImage` | aera_abl.cpp:169-187 | a definite verdict is decided by exactly the loadable segments, or the bare image, and what is packed in them |
| `AblExtent.ExtentCovers` | aera_abl.cpp:206-214 | the computed extent covers every non-empty segment and stays within the partition |
| `AblExtent.SameProgram` | aera_abl.cpp:37-43 | a program header means the same in the truncated image, unless an empty segment starts beyond it |
| `AblExtent.SameSegments` | aera_abl.cpp:177-182 | so do all segments |
| `AblExtent.TruncatedReadKeepsVerdict` | aera_abl.cpp:203-218 | inspecting only the extent gives the verdict of the whole partition, except Unknown exactly when an empty segment starts beyond the extent |
| `AblExtent.UnreadableIsUnknown` | aera_abl.cpp:206-214 | where the read gives up, a whole-partition inspection would say Unknown too |
| `AblWitness.UndeclaredHeadersSplitValidators` | aera_efisp.hpp:47-72 | clearing the declared header size of any valid image leaves it valid for the flasher and without a size for the inspector |
| `AblWitness.SmallImageIsValid` | aera_abl.cpp:44-63 | a 240-byte image is valid whatever header size it declares, and has a PE size only when it declares 240 |
| `AblWitness.TruncationLosesVerdict` | aera_abl.cpp:203-218 | a 400-byte partition whose whole inspection is definite and whose truncated read is Unknown |
| `AblGuard.CachedReadIsFresh` | aera_abl.cpp:219-227 | reading through a genuine cache gives the sample of a fresh inspection |
| `AblGuard.CacheStaysGenuine` | aera_abl.cpp:256-286 | in every run of capture, current, exit, acknowledge and clear the cache stays genuine |
| `AblGuard.ReportsAreFresh` | aera_abl.cpp:269-286 | in every run the samples reported are those of a fresh inspection |
| `AblGuard.BaselineNeverChanges` | aera_abl.cpp:229-233 | once taken, the boot baseline is the same after every continuation of the run |
| `AblGuard.SilentExit` | aera_abl.cpp:276-286 | an exit is silent exactly when no loader is lost or the acknowledged token is that of the current state |
| `AblGuard.TokenDescribesState` | aera_abl.cpp:247-248 | equal tokens come from the same slots with the same digests and findings |
| `AblGuard.AcknowledgedBy` | aera_abl.cpp:287-294 | the acknowledged token is that of the last acknowledgement of the run, with no clearing after it |
| `AblGuard.SilenceMeansThisStateWasAcknowledged` | aera_abl.cpp:276-294 | in every run, silence despite a lost loader means the last acknowledgement, not cleared since, was of exactly the current per-slot state |
| `AblGuard.AblSession.Discover` | aera_abl.cpp:140-154 | the slot loop in place computes the discovery function |
| `AblGuard.AblSession.CaptureBaseline` | aera_abl.cpp:256-268 | the capture in place is the guard's step |
| `AblGuard.AblSession.CurrentSamples` | aera_abl.cpp:269-275 | the query in place is the guard's step |
| `AblGuard.AblSession.ExitWarning` | aera_abl.cpp:276-286 | the exit check in place is the guard's step |
| `FlashLog.FeedChunks` | aera_flash_log.cpp:183-195 | how a stream is cut into chunks makes no difference |
| `FlashLog.TailIsSuffix` | aera_flash_log.cpp:176-203 | the two files hold a suffix of the stream: all of it or more than one segment, never more than two; more than one rotation exactly when bytes were lost |
| `FlashLog.TurnsByLength` | aera_flash_log.cpp:183-195 | how often the log has rotated is a function of the stream's length alone |
| `FlashLog.TruncatedIff` | aera_flash_log.cpp:196-202 | the 32-bit counter tells truncation right if and only if the stream's length is one whose rotations are below 2^32 or not 0 or 1 modulo 2^32 |
| `FlashLog.WrappedCounterDenies` | aera_flash_log.cpp:196-202 | every stream of 2^32 segments and one byte has lost bytes and is reported complete |
| `FlashLog.Tail.Turn` | aera_flash_log.cpp:185-190 | a rotation replaces the previous segment, also when reopening fails |
| `FlashLog.Tail.Add` | aera_flash_log.cpp:183-195 | without failures the files are those of feeding byte by byte; a failure only cuts the input short |
| `FlashLog.AddEntry` | aera_flash_log_platform.cpp:71-93 | a successful entry is the sources joined, cut at the maximum, for every length of the reads |
| `FlashLog.ArchiveKeepsWholeTail` | aera_flash_log_platform.cpp:94-97 | with the limits in use, an archived log is the whole kept suffix |
| `ManualRecorder.StepKeepsInv` | aera_flash_log.cpp:513-542 | every step of every thread keeps the protocol invariant |
| `ManualRecorder.RecorderIsSafe` | aera_flash_log.cpp:492-542 | in every interleaving: a caller joining under the mutex never waits for a worker that needs it; busy states hold exactly while a worker has the mutex ahead; a recording is owned only while recording, or saving before it is taken |
| `ManualRecorder.NeverStuck` | aera_flash_log.cpp:504-542 | while any call or worker is under way, some step is possible: no deadlock |
| `ManualRecorder.RunsAreBounded` | aera_flash_log.cpp:504-542 | without new requests no schedule is longer than the work left |
| `ManualRecorder.RequestsCanComplete` | aera_flash_log.cpp:504-542 | from every reachable state all requests made can complete |
| `Pairing.StepKeepsInv` | aera_adbd.cpp:294-318 | every start, stop and timer step of every interleaving keeps the generation invariant |
| `Pairing.AccountedIffVacant` | aera_adbd.cpp:474-480 | in every run: each published session is current or destroyed exactly once in all its states if and only if no publish overwrites a current session |
| `Pairing.TimersOwnIffVacant` | aera_adbd.cpp:474-484 | in every run below the counter wrap: every timer with the current generation, armed or about to be, is always the current session's own if and only if no publish overwrites a current session |
| `Pairing.TimerDestroysOnlyItsSession` | aera_adbd.cpp:305-318 | in every such run an expiring timer destroys its own session or nothing |
| `Pairing.SessionsAreDestroyedOnce` | aera_adbd.cpp:435-503 | without overwriting publishes, wrap or not, each published session is current or destroyed exactly once |
| `Pairing.SerialIsVacant` | aera_adbd.cpp:446-480 | starts that do not overlap never overwrite a session |
| `Pairing.OverlappingStartsBreakIt` | aera_adbd.cpp:446-484 | two overlapping starts: a run in which the first timer destroys the second session and the first leaks |
| `BlockIo.ReadAt` | aera_efisp.hpp:33-42 | for every schedule of short, interrupted and failing reads, success means exactly the requested bytes; an honest schedule succeeds |
| `BlockIo.WriteAll` | aera_efisp.hpp:102-109 | writes nothing outside its range; an honest schedule writes all of it |
| `BlockIo.CompareWritten` | aera_efisp.hpp:82-93 | true means equal bytes, and equal bytes under an honest schedule give true |
| `BlockIo.WriteAndVerify` | aera_efisp.hpp:96-113 | even on a device that stores wrong bytes, true means the device holds the image; no byte past it ever changes; honest schedules succeed |
| `BlockIo.ZeroAndVerify` | aera_frp_wipe.hpp:72-94 | the same for the wipe with zeros |
| `BlockIo.CheckSection` | aera_efisp.hpp:65-70 | one section header read piecewise and judged like the pure check |
| `BlockIo.CheckImage` | aera_efisp.hpp:47-72 | the piecewise check answers exactly like the pure validator unless a read fails |
| `Settings.LeastExists` | infomanager.cpp:163 | the byte-wise string order has a least element in every non-empty set, so the ordered walk exists |
| `Settings.FieldReadsBack` | infomanager.cpp:113-117 | a written field reads back as the same string |
| `Settings.RoundTrip` | infomanager.cpp:80-181 | saving then loading restores every map of NUL-free strings of at most 510 bytes, over whatever was there |
| `Settings.PartialRecordIgnored` | infomanager.cpp:113-123 | a record cut anywhere is not read |
| `Settings.CutSomewhere` | infomanager.cpp:107-134 | every cut leaves a definite number of complete records |
| `Settings.PrefixLaw` | infomanager.cpp:80-142 | loading any prefix that keeps the header overrides the map with exactly the entries whose records are complete |
| `Settings.SurvivesIff` | infomanager.cpp:80-181 | a map comes back into an empty manager if and only if all its strings are NUL-free and at most 510 bytes |
| `Settings.InfoManager.SetValue` | infomanager.cpp:240-253 | refuses empty names and names that begin with a digit; a constant manager adds but never overwrites |
| `Settings.InfoManager.SaveValues` | infomanager.cpp:144-181 | on success the file is the header and one record per value in key order |
| `Settings.InfoManager.LoadValues` | infomanager.cpp:80-142 | the record loop in place computes the loading function; a missing file changes nothing |
| `FindFile.OnwardIsLeads` | find_file.cpp:52-88 | the search goes on to exactly the subdirectories and resolved links of a directory |
| `FindFile.SearchIsSound` | find_file.cpp:36-91 | a returned path names a regular file of that name in a reachable directory |
| `FindFile.EmptySearchIsClear` | find_file.cpp:36-91 | an empty result leaves every newly searched directory without a match and with all its successors searched |
| `FindFile.FindsIff` | find_file.cpp:29-91 | on any finite graph with link cycles, the result is empty if and only if no reachable directory holds the file |
| `FindFile.Finder.FindInternal` | find_file.cpp:36-91 | the recursion in place terminates and computes the search function: matches first, then directories, then links |
| `FindFile.Find` | find_file.cpp:29-31 | a search from scratch is sound and complete |

## Left out

- liblp, libdm and libsnapshot internals: the builder is a contract (sizes in blocks, growth refused by group limit or free space), as are `UpdatePartitionTable`, mapping and destroying; metadata geometry and block devices are one `Geometry`.
- LZMA decoding and SHA-256: a decoder function and a digest function; the guard assumes only that the digest tells apart the images read in the run at hand.
- PartitionManagers.PartitionManager.RunImageFlashBatch: the caller's operation is modelled as one preparation followed by image writes, and targets are values (block, "/logical/", fstab entry) instead of path strings; resolving them is one call that may fail.
- PartitionManagers.PartitionManager.CollectImages: validating a physical fstab target (flags, capacity, read-only state) is one call that may fail.
- PartitionManagers.PartitionManager.FillBlocks: the block path of an fstab target is found by one call that may fail, and `Set_Block_Device` bookkeeping is not modelled; that such a target has its entry, size and device is stated by PrepareImageFlashTargets.
- PartitionManagers.PartitionManager.Rollback: a listed device that has no entry in the checkpoint table is not remapped, as in the code, and the atomicity statement is about devices that have one.
- FlashMounts.MountNamespace.RestoreFlashMount: does not model propagation into aliases, the temporary bind staging of sub-root mounts, or a changed device number between release and restore.
- FlashMounts.MountNamespace.UnmountPlanned: service stopping, process checks, and the mount list used without a physical-mount journal are not modelled; the unmount order among equally long paths is left open.
- AblScan.VisitIsSound: models the build with LZMA scanning enabled.
- AblGuard.AblSession.ExitWarning: the wording of the warning is shortened, and the build switch that disables the guard is left out.
- ManualRecorder.RecorderIsSafe: the destructor's join, elapsed time and error texts are not modelled.
- Pairing.TimersOwnIffVacant: stated for runs of fewer than 2^32 detach operations, below the wrap of the generation counter; the result callback's own teardown is not modelled.
- FlashLog.AddEntry: interrupted reads are collapsed into the next completed one.
- Settings.InfoManager.SaveValues: mounting the settings partition, metadata and permissions are not modelled; nothing is said of the file after a failed save.
- FindFile.FindsIff: the file system is static and finite, given as the listing of every path that opens and the real path of every link.
- Fstab and flag parsing, mount-info parsing, SELinux, properties, init services, `Set_Block_Device` bookkeeping: platform plumbing.
- `Prepare_Image_Flash_Target` and the single-partition resize path: a separate path with its own local restore.
- Backup and restore, OTA survival, OpenRecoveryScript, Wi-Fi, GUI, theme and variable expansion code: not part of this model.
