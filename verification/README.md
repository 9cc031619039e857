# Elemental: what an upgrade, an installation and a disk build guarantee

Elemental installs and upgrades an immutable operating system by a sequence of steps on disk, each of
which can fail. This project models the parts of the toolkit whose job is to leave a bootable system
whatever fails, and proves what they do guarantee, what they do not, and exactly when.

Every system call that can fail is a named step; an operation takes the set of its steps that fail (or a
flag for a single one). A failed step changes nothing, except where a directory may be left half done
(`RecoverySwap`). Errors are modelled as present or absent, not by their text. The functions in the `Spec`
modules give the effect of each operation in closed form; the classes have the fields, loops and branches
of the code and are proved against them; the lemmas are about those functions, for all inputs, all fault
patterns and, for upgrades, all sequences of runs and reboots.

| file | what it holds |
|---|---|
| `SnapshotIds.dfy` | sets of snapshot IDs, listings, the counting behind retention |
| `LoopDeviceSpec.dfy`, `LoopDevice.dfy` | transactions of the loop-device snapshotter |
| `CleanStack.dfy` | the stack of deferred clean-up jobs |
| `Mounts.dfy`, `Chroot.dfy` | read-write mounts with their undo, bind mounts of a chroot |
| `UpgradeSpec.dfy`, `UpgradeAction.dfy` | one upgrade with its stack and state.yaml |
| `UpgradeTheorems.dfy`, `UpgradeSafety.dfy`, `UpgradeOutcomes.dfy` | effect and guarantees of one run, call by call |
| `UpgradeHistories.dfy` | guarantees over all sequences of runs and reboots |
| `RecoverySwap.dfy` | the three-directory swap of a recovery upgrade |
| `PartitionOrder.dfy`, `Disk.dfy`, `Installation.dfy`, `RawImage.dfy` | partition order, allocation, raw disks |
| `BootOrder.dfy`, `Vhd.dfy` | EFI boot order, VHD footers |
| `BtrfsBackend.dfy` | IDs and clean-up of the btrfs backend |
| `Basics.dfy` | shared definitions |

Results that are not what one would hope for, each proved with its exact condition:

- A step that fails after the link switch makes the clean-up remove the snapshot just committed. The active
  link then leads nowhere, and since StartTransaction refuses a link it cannot resolve, no later upgrade ever
  succeeds (`LateFailureBreaksLink`, `DanglingIsForever`, `LateFailureIsFinal`). The link dangles after a history
  of upgrades iff one of them does that, or puts a link to snapshot 0 where there was none (`DanglesExactly`,
  `HistoryDanglesExactly`). Failing to remove the old recovery tree, logged as a warning, is such a step
  (`OldRecoveryBreaksLink`).
- Retention works with the active ID read at the start of the transaction. A committed upgrade leaves no link at
  all exactly when the active snapshot was not booted, had at least `MaxSnaps - 1` newer directories and the calls
  of its deletion work (`RetentionLosesLink`); with the default limit of 2 one directory that an earlier failed
  upgrade could not remove is enough (`StrandedDirectoryCostsLink`).
- The link stays absent or on the newest snapshot throughout a history exactly if every run is orderly
  (`HistoryKeepsNewest`), state.yaml right exactly if every run records (`HistoryStaysRecorded`), and both exactly if
  every run is gentle (`HistoryStaysConsistent`); the conditions are in terms of the calls that fail, the options of
  each run and the state before it, for every limit on snapshots.
- A recovery upgrade nested in an upgrade ends with the power action. With a reboot or power-off configured that
  takes the machine down before the post-upgrade hook and before state.yaml has an entry for the new snapshot,
  exactly if all its calls but those of the salvage work (`NestedPowerAction`); what is then left, and in which other
  case the active snapshot has no entry, is `NestedPowerActionSkipsState`.
- An unmount of the work directory that works after the run's own takes away one that an earlier run left
  (`RollbackIsExact`, `RollbackRestores`).
- A recovery upgrade always has a complete image on disk exactly if boot or boot-old is complete at its start
  (`SafeStart`); three runs can lose every image (`ThreeRunsLoseEverything`). "No error" can mean that the old
  system was put back (`NoErrorMeans`).
- A read-write mount point for which findmnt fails is left read-only by the undo, unless the undo fails too
  (`MountRWRoundTrip`); a run that does not go down leaves the mount points as they were iff every undo restores its
  own (`PartitionsAreRestored`).
- A failed Close of a chroot lists what is left backwards, so a retry unmounts in mounting order (`CloseAgain`),
  which is the wrong one iff at least two mounts were stuck (`RetryOrder`).
- Sanitize dereferences a nil persistent partition iff the spec gets that far and exactly one extra partition has
  size 0 (`Sanitize`).
- Table and images of a raw disk agree exactly if there is no BIOS partition and the OEM partition and, unless the
  disk is expandable, the recovery partition have a size (`CreateRAWDisk`); a BIOS partition shifts every entry by
  its size (`BiosShift`). A raw disk has the size asked for iff its slack is 1 MiB, which without BIOS partition
  and not expandable never happens: 1 MiB is missing if all sizes are configured, and with the default size 0 of
  the persistent partition it comes out at least 191 MiB larger (`RawSize`). Its Azure form loses the last 512 bytes (`AzureCutsTail`).
- Free space underflows on a disk smaller than the first partition's offset (`FreeSpaceIsExact`), and the
  bound for growing the last partition is right iff there is no gap before it (`BoundIsRight`), or for whole MiB
  iff the gap leaves room for the largest one (`GapDefeatsBound`).
- The VHD cookie is never set (`NewVHDFixed`). A boot entry is not found when all numbers are taken, and
  a new one overwrites a variable iff the least number without a readable entry has one (`FindOrCreateEntry`). Without an active snapshot the btrfs backend reuses ID 1 (`ComputeNewID`), and the
  clean-up may delete the snapshot just created (`NewIdSurvives`).

Where code and comments differ the code is followed: Cleanup's comment speaks of the first error, the code
collects all of them; CloseTransaction's remark that nothing errors out after the switch holds for that method
but not for the action calling it.

## Model

| member | source | states |
|---|---|---|
| SnapshotIds.Ascending | pkg/snapshotter/loopdevice.go:466 | sorting lists every ID once, in increasing order |
| SnapshotIds.Listing | pkg/snapshotter/loopdevice.go:329-356 | the directory listing has every ID once, ordered by name as a string |
| SnapshotIds.NameBeforeIsLexical | pkg/snapshotter/loopdevice.go:329-356 | that order compares names character by character, a prefix first |
| SnapshotIds.NameIsDecimal | pkg/snapshotter/loopdevice.go:152 | the name of a directory is the ID in decimal |
| SnapshotIds.TenBeforeNine | pkg/snapshotter/loopdevice.go:329-356 | so 10 is listed before 9 |
| SnapshotIds.NextId | pkg/snapshotter/loopdevice.go:374-396 | the next ID is above every ID on disk and not in use |
| SnapshotIds.PrefixIsVictims | pkg/snapshotter/loopdevice.go:466-474 | deleting from the front of the sorted list until it fits deletes exactly the IDs with at least max-1 newer ones |
| SnapshotIds.KeptCount | pkg/snapshotter/loopdevice.go:466-474 | what retention does not try to delete is the max-1 largest IDs, or all |
| LoopDeviceSpec.DropOneMore | pkg/snapshotter/loopdevice.go:280-326 | the closed form of several deletions is that of one more deletion on top, stale active ID and failures included |
| LoopDeviceSpec.StartExactly | pkg/snapshotter/loopdevice.go:129-190 | which calls StartTransaction needs, and all it changes; when a directory stays after an error |
| LoopDeviceSpec.AbortExactly | pkg/snapshotter/loopdevice.go:194-218 | the directory goes even if the unmount fails; an error iff one of the two did not work |
| LoopDeviceSpec.DeleteExactly | pkg/snapshotter/loopdevice.go:280-326 | an error iff the snapshot is still there, is booted or that could not be found out; nothing else is touched |
| LoopDeviceSpec.RetentionRemoves | pkg/snapshotter/loopdevice.go:456-476 | whatever fails, exactly which snapshots retention removes, and their images with them |
| LoopDeviceSpec.RetentionKeepsLink | pkg/snapshotter/loopdevice.go:280-326 | whatever fails, the new link is removed iff the previously active snapshot gets deleted as a passive one: listed, not booted, at least max-1 newer, and its calls work up to the link |
| LoopDeviceSpec.RetentionIsSafe | pkg/snapshotter/loopdevice.go:456-476 | whatever fails, the new image and the booted ones stay and the link is the new one or none |
| LoopDeviceSpec.RetentionKeepsNewest | pkg/snapshotter/loopdevice.go:456-476 | with max >= 2 and the old active snapshot the newest, the link survives every failure |
| LoopDeviceSpec.RetentionIsExact | pkg/snapshotter/loopdevice.go:427-476 | without failures the survivors are the new ID, the max-1 newest older ones and the booted ones, and their number |
| LoopDeviceSpec.BootloaderListsPassives | pkg/snapshotter/loopdevice.go:479-537 | each passive snapshot once, the last name first, and the fallbacks 0, 1, ... of two more entries; nothing if a call fails |
| LoopDevices.LoopDevice.GetActiveSnapshot | pkg/snapshotter/loopdevice.go:399-424 | 0 without a link, an error if the link leads to no image |
| LoopDevices.LoopDevice.GetNextSnapshotID | pkg/snapshotter/loopdevice.go:374-396 | one above the largest ID; the booted snapshot listed last is remembered |
| LoopDevices.LoopDevice.ScanIds | pkg/snapshotter/loopdevice.go:381-394 | the loop finds the largest ID and the booted one listed last, or stops at a failing check |
| LoopDevices.LastBootedIs | pkg/snapshotter/loopdevice.go:381-394 | which booted snapshot is remembered: the last one listed, or the old one if none is |
| LoopDevices.LoopDevice.StartTransaction | pkg/snapshotter/loopdevice.go:129-190 | store, error and snapshot of a started transaction; the active ID remembered is the link's, whichever branch sets it |
| LoopDevices.LoopDevice.CloseTransactionOnError | pkg/snapshotter/loopdevice.go:194-218 | unmounts if in progress and removes the directory, errors of both |
| LoopDevices.LoopDevice.CloseTransaction | pkg/snapshotter/loopdevice.go:222-277 | the whole effect, including the abort it runs on its own errors and the progress flag |
| LoopDevices.LoopDevice.CommitSnapshot | pkg/snapshotter/loopdevice.go:231-268 | the steps up to the link switch with the attempt to restore the old link |
| LoopDevices.LoopDevice.DeleteSnapshot | pkg/snapshotter/loopdevice.go:280-326 | refuses booted snapshots, ignores unknown ones, removes the link for the remembered active ID |
| LoopDevices.LoopDevice.GetPassiveSnapshots | pkg/snapshotter/loopdevice.go:515-537 | the listing without the active snapshot, or an error |
| LoopDevices.LoopDevice.CleanOldSnapshots | pkg/snapshotter/loopdevice.go:456-476 | the retention loop has the closed-form effect |
| LoopDevices.LoopDevice.DeleteOldest | pkg/snapshotter/loopdevice.go:456-476 | exactly the victims are deleted, as far as deletions work |
| LoopDevices.LoopDevice.DeleteFirst | pkg/snapshotter/loopdevice.go:466-474 | the loop tries to delete the first ones until the rest fits, and no more |
| LoopDevices.LoopDevice.UpdateBootloader | pkg/snapshotter/loopdevice.go:479-512 | passives reversed and fallbacks 0..n+1 are stored, or nothing |
| CleanStacks.CleanStack.Push | pkg/utils/cleanstack.go:61-76 | the job is on top of the live jobs |
| CleanStacks.CleanStack.Pop | pkg/utils/cleanstack.go:79-85 | takes the top live job; none, and no change, on an empty stack |
| CleanStacks.CleanStack.Cleanup | pkg/utils/cleanstack.go:89-110 | runs the live jobs and leaves none, so a second call runs nothing |
| CleanStacks.CleanupIsLifo | pkg/utils/cleanstack.go:89-110 | each job is popped once, last in first out, and judged by the error at that moment |
| CleanStacks.HistoryIsUnique | pkg/utils/cleanstack.go:89-110 | that determines the clean-up completely |
| CleanStacks.CleanupError | pkg/utils/cleanstack.go:89-118 | no error iff there was none before and no job that ran failed |
| CleanStacks.KindOfJob | pkg/utils/cleanstack.go:89-110 | in which case a job of each kind runs, and what becomes of the error |
| CleanStacks.CleanupUndoes | pkg/utils/cleanstack.go:89-118 | jobs that undo their step from where it led take any number of steps back to the start |
| Mounts.MountRW | pkg/elemental/elemental.go:195-216 | exactly when it fails; success leaves what was seen remounted and what was not mounted on top, visible read-write; failure leaves it alone |
| Mounts.MountRWRoundTrip | pkg/elemental/elemental.go:195-251 | the exact cases in which the returned undo restores the mount point, for every failure of either |
| Mounts.UndoError | pkg/elemental/elemental.go:195-251 | exactly when the returned undo reports an error |
| UpgradeActions.UpgradeAction.MountRWPartitions | pkg/action/upgrade.go:227-257 | mounts in order, pushing an undo for each, until one fails; what that comes to is MountedExactly |
| UpgradeActions.UpgradeAction.UpgradeInstallStateYaml | pkg/action/upgrade.go:135-225 | entries of deleted snapshots go, the new one is added active, the old active one is demoted; what that comes to is UpdatedExactly |
| UpgradeActions.ScanEntries | pkg/action/upgrade.go:170-177 | the loop finds the active entry visited last and the entries without snapshot |
| UpgradeActions.UpgradeAction.WithinTransaction | pkg/action/upgrade.go:294-361 | the steps from the deployment on, with the stack left to run, or the machine down in the nested or the final power action |
| UpgradeActions.UpgradeAction.Run | pkg/action/upgrade.go:259-362 | world and error of a run with its deferred clean-up, which does not run once the machine is down |
| UpgradeTheorems.StackAborts | pkg/action/upgrade.go:261-292 | the abort job runs iff a step failed, not when an unmount fails later in the clean-up |
| UpgradeTheorems.UpgradeEffect | pkg/action/upgrade.go:259-362 | what a run does to snapshots and state.yaml with its stack worked out, cut short by the nested power action or not |
| UpgradeSafety.CommitsExactly | pkg/snapshotter/loopdevice.go:222-268 | a run gets past its commit iff it reaches the switch, the link can be created and the old one removed |
| UpgradeSafety.FailedClose | pkg/snapshotter/loopdevice.go:222-268 | a failing CloseTransaction touches only the new snapshot and possibly the link, and which link it leaves |
| UpgradeSafety.RollbackIsExact | pkg/action/upgrade.go:259-315 | failing before the commit leaves images, bootloader list and state.yaml; the directories iff some removal worked, the link iff restoring worked, and how many bind mounts are left |
| UpgradeSafety.PartitionsAreSettled | pkg/action/upgrade.go:227-268 | however a run ends and whatever fails, each partition up to the first that cannot be mounted has been through its mount and undo, or only through its mount if the machine goes down |
| UpgradeSafety.MountJobsUndo | pkg/action/upgrade.go:227-257 | when no undo fails the stack takes all partitions back and adds no error |
| UpgradeSafety.PartitionsAreRestored | pkg/action/upgrade.go:227-268 | however a run ends, mount points are as before iff each undo restores its own; if it goes down, iff all were seen mounted read-write |
| UpgradeSafety.RollbackRestores | pkg/action/upgrade.go:259-315 | failing before the commit restores the whole system iff the undos, one removal and the relinking work and the work directory is unmounted, only once if others are mounted below it |
| UpgradeSafety.CommittedEffect | pkg/action/upgrade.go:311-351 | past the commit: the closed transaction and new entries, the new directory removed again if a later step failed, or old entries if the machine went down |
| UpgradeSafety.LinkOfCommitted | pkg/snapshotter/loopdevice.go:222-326 | after a closed transaction the link is the new one, or none iff retention deletes the previously active snapshot |
| UpgradeSafety.UpdatedMatches | pkg/action/upgrade.go:170-194 | one active entry, the new snapshot, and only entries on disk, for every map order |
| UpgradeSafety.UpdatedExactly | pkg/action/upgrade.go:170-194 | exactly which entries there are afterwards and how each is marked: all on disk and the new one, marks kept but for the active one visited last |
| UpgradeSafety.LastActiveIs | pkg/action/upgrade.go:170-177 | which entry the loop takes for the active one |
| UpgradeSafety.CommitKeepsConsistent | pkg/action/upgrade.go:309-351 | a committed upgrade of a healthy system leaves it healthy iff no later step fails and it does not go down first; the link is the new one |
| UpgradeSafety.BootedIsNeverRemoved | pkg/snapshotter/loopdevice.go:194-326 | no run removes a booted snapshot or its image, whatever fails and whenever |
| UpgradeOutcomes.MountedExactly | pkg/action/upgrade.go:227-257 | boot, recovery or in recovery mode state, and persistent if there is one are mounted in this order up to the first that cannot be, the others not touched; it fails iff one cannot be |
| UpgradeOutcomes.MountedIsWritable | pkg/action/upgrade.go:227-257 | once mounted, exactly those are visible read-write |
| UpgradeOutcomes.EntriesExactly | pkg/action/upgrade.go:135-225 | a run rewrites state.yaml as UpdatedExactly says iff it commits, no later step fails and it does not go down; otherwise it stays |
| UpgradeOutcomes.UpgradeKeeps | pkg/snapshotter/loopdevice.go:194-326 | whatever fails, exactly which snapshots and images there are after a committed run |
| UpgradeOutcomes.StrandedImage | pkg/snapshotter/loopdevice.go:222-252 | a directory left behind has a complete image iff the run got as far as making it |
| UpgradeOutcomes.BootloaderExactly | pkg/snapshotter/loopdevice.go:479-512 | what the bootloader knows after a run, whatever failed in it |
| UpgradeOutcomes.WorkingRunCommits | pkg/action/upgrade.go:259-315 | a run gets past its commit iff each of the named calls works |
| UpgradeOutcomes.NoErrorExactly | pkg/action/upgrade.go:259-362 | a run reports no error iff the calls up to the commit work and the nested recovery upgrade takes the machine down, or the later steps, every undo and the power action work too |
| UpgradeHistories.BootedSurvivesHistory | pkg/snapshotter/loopdevice.go:194-326 | the same over all sequences of reboots and runs with options of their own |
| UpgradeHistories.RecordedExactly | pkg/action/upgrade.go:135-225 | a run keeps state.yaml right (only IDs on disk, one active entry, the link's) iff it commits, gets to write it and keeps the link, or does not commit and leaves the link; for any limit and whichever snapshot is active |
| UpgradeHistories.HistoryStaysRecorded | pkg/action/upgrade.go:135-225 | state.yaml is right throughout a history iff every run is of that kind |
| UpgradeHistories.HistoryKeeps | pkg/action/upgrade.go:259-362 | an invariant that reboots keep and of the runs exactly those of a kind holds throughout a history iff all its runs are of that kind |
| UpgradeHistories.ConsistentExactly | pkg/action/upgrade.go:259-362 | a run keeps a healthy system healthy iff it keeps state.yaml right and, without a commit, leaves no directory |
| UpgradeHistories.HistoryStaysConsistent | pkg/snapshotter/loopdevice.go:129-326 | over all sequences of reboots and runs, each with its own options, the link leads to the newest, complete image and is the one active entry throughout iff every run is of that kind |
| UpgradeHistories.NewestExactly | pkg/action/upgrade.go:259-362 | from a link that is absent or the newest: when a run keeps it so, for any limit; with a limit of two or more a committed run links the new snapshot |
| UpgradeHistories.HistoryKeepsNewest | pkg/snapshotter/loopdevice.go:129-326 | over all histories, those starting without a link included, the link is absent or designates the largest ID on disk throughout iff every run is orderly |
| UpgradeHistories.DanglesExactly | pkg/action/upgrade.go:292-351 | a run makes the link dangle iff it commits, fails later, removes the snapshot and retention kept the link, or a link to snapshot 0 is put where there was none; in terms of failing calls and the state before |
| UpgradeHistories.HistoryDanglesExactly | pkg/action/upgrade.go:292-351 | after any history the link dangles iff one of its runs made it |
| UpgradeHistories.HistoryNeverDangles | pkg/snapshotter/loopdevice.go:255-268 | over all histories without late failures in which the link can be created, whatever else fails, the link is absent or leads to a complete image |
| UpgradeHistories.LateFailureBreaksLink | pkg/action/upgrade.go:317-351 | on a healthy system a run leaves a dangling link iff it commits, a later step that is reached fails and the removal works |
| UpgradeHistories.DanglingIsForever | pkg/snapshotter/loopdevice.go:136-140 | with a dangling link every run of every history fails and changes no snapshot |
| UpgradeHistories.RetentionLosesLink | pkg/snapshotter/loopdevice.go:311-318 | a committed run leaves no link iff before it the active snapshot was not booted, had max-1 newer directories and the calls deleting it work |
| UpgradeHistories.SmoothRunSucceeds | pkg/action/upgrade.go:259-362 | a run in which nothing fails commits without error |
| UpgradeHistories.LateFailureIsFinal | pkg/action/upgrade.go:340-344 | on every healthy system a failing post-upgrade hook ends all upgrades, unless the machine went down before it |
| UpgradeHistories.StrandedDirectoryCostsLink | pkg/snapshotter/loopdevice.go:456-476 | with the default limit, a directory an earlier run could not remove makes the next successful run lose the link |
| UpgradeHistories.UpgradeRetains | pkg/snapshotter/loopdevice.go:427-476 | which snapshots an upgrade keeps, and how many, in terms of those before it |
| UpgradeHistories.OldRecoveryBreaksLink | pkg/action/upgrade.go:334-337 | a recovery upgrade that only fails to remove the old tree makes the upgrade break its own link |
| UpgradeHistories.NestedPowerActionSkipsState | pkg/action/upgrade.go:317-351 | the active snapshot is left without an entry iff the run commits, keeps the link and goes down in the nested power action, or fails later with a failing removal; going down is no error |
| UpgradeHistories.NestedPowerAction | pkg/action/upgrade-recovery.go:148-237 | the machine goes down there iff a power action is configured and every call of the nested upgrade but those of the salvage works |
| UpgradeHistories.DownExactly | pkg/action/common.go:51-71 | with a power action configured the machine is down iff the run reports no error; no error means committed |
| RecoverySwap.UpgradeRecoveryAction.Perform | pkg/action/upgrade-recovery.go:148-237 | every state the directories go through, and the error, those of undoing the mount and of the power action included |
| RecoverySwap.UpgradeRecoveryAction.SwapDirectories | pkg/action/upgrade-recovery.go:187-225 | the renames, the salvage and the error that survives them |
| RecoverySwap.AlwaysComplete | pkg/action/upgrade-recovery.go:160-216 | at every moment some directory holds a complete image if boot or boot-old did at the start |
| RecoverySwap.SafeStart | pkg/action/upgrade-recovery.go:160-216 | that start is necessary too |
| RecoverySwap.BootAtReturn | pkg/action/upgrade-recovery.go:187-210 | boot is complete at the end iff not both switch and salvage failed |
| RecoverySwap.NoErrorMeans | pkg/action/upgrade-recovery.go:148-237 | when the result is nil, whatever the partition held before, and what is then in each directory, the salvaged old system included |
| RecoverySwap.SwitchedInExactly | pkg/action/upgrade-recovery.go:176-216 | when the new tree is switched in, an absent boot included, and what is in the three directories then or after a failed switch |
| RecoverySwap.IncompleteOnTheWay | pkg/action/upgrade-recovery.go:160-185 | a tree being removed or deployed is incomplete for a while |
| RecoverySwap.LeftoverIsAnError | pkg/action/upgrade-recovery.go:212-225 | an old tree that stays is an error only if state.yaml is not written |
| RecoverySwap.ThreeRunsLoseEverything | pkg/action/upgrade-recovery.go:160-216 | one run keeps boot or boot-old complete; three can lose every image |
| Chroots.Chroot.Prepare | pkg/utils/chroot.go:80-128 | all mounted, or what the first failure leaves: exactly the mounts that could not be undone |
| Chroots.Chroot.Close | pkg/utils/chroot.go:131-153 | unmounts in reverse order and lists exactly what is still mounted |
| Chroots.Chroot.CloseAgain | pkg/utils/chroot.go:131-153 | two calls of Close: the second goes through the leftovers in mounting order |
| Chroots.RetryOrder | pkg/utils/chroot.go:148-151 | for distinct mount points that is the reverse order iff at most one was stuck |
| PartitionOrder.PartitionsByInstallOrder | pkg/types/config.go:610-667 | the fixed partitions, the sized flexible ones, then the first that asks for the rest |
| PartitionOrder.PlaceExtras | pkg/types/config.go:646-664 | the loop over the extra partitions |
| PartitionOrder.OrderIsComplete | pkg/types/config.go:610-667 | nothing is lost or duplicated iff at most one flexible partition has size 0 |
| PartitionOrder.GreedyIsLast | pkg/types/config.go:610-667 | with fixed sizes set, only the last place can have size 0 and does iff something asks for the rest |
| PartitionOrder.PlaceOfExtra | pkg/types/config.go:646-658 | the place of each extra partition with a size: after the fixed ones and a persistent one with a size, in the order given |
| PartitionOrder.PlaceOfPersistent | pkg/types/config.go:638-645 | the persistent partition follows the fixed ones, or is last if it has no size |
| PartitionOrder.PlaceOfGreedy | pkg/types/config.go:646-664 | otherwise the first extra partition without a size is last |
| PartitionOrder.Sanitize | pkg/types/config.go:236-272 | when a spec is accepted and when the code panics, both exactly; which boot and BIOS partition an accepted spec has for each firmware and table; at most one flexible partition of size 0 |
| PartitionOrder.MinDiskSize | pkg/types/config.go:811-825 | 2 MiB plus all sizes, 64 for a size of 0 |
| Disks.WholeSectors | pkg/partitioner/disk.go:56-58 | MiB convert to sectors without rounding |
| Disks.LayoutIsDisjoint | pkg/partitioner/disk.go:241-303 | partitions of a layout are disjoint, in order, after 1 MiB and within the usable sectors |
| Disks.FreeSpaceIsExact | pkg/partitioner/disk.go:201-208 | the unsigned subtraction is exact iff there is a partition or the disk reaches the first offset |
| Disks.FreeWithoutLastIsExact | pkg/partitioner/disk.go:210-217 | on a contiguous table the bound for the last partition is the rest of the disk from its start |
| Disks.BoundIsRight | pkg/partitioner/disk.go:210-217 | on any table whose last partition is last, every accepted number of sectors ends on the disk iff there is no gap before it |
| Disks.GapDefeatsBound | pkg/partitioner/disk.go:210-217 | of the sizes in MiB all accepted ones end on the disk iff the largest that fits without the gap fits with it |
| Disks.GapWitness | pkg/partitioner/disk.go:210-217 | a table with a gap on which a size beyond the disk is accepted |
| Disks.Disk.AddPartition | pkg/partitioner/disk.go:241-303 | error cases and new table; numbering, contiguity, alignment and bounds are kept |
| Disks.Disk.ExpandLastPartition | pkg/partitioner/disk.go:343-392 | success and error cases exactly; start and number stay, the size never shrinks, the table stays valid |
| Disks.Disk.CheckExpansion | pkg/partitioner/disk.go:364-375 | which sizes are refused as shrinking or too large |
| Installation.CreatePartitions | pkg/elemental/elemental.go:71-109 | all partitions are created iff no call fails, only the last asks for the rest and all fit; on error too what was created is aligned, in order and of its size |
| Installation.PartitionDevice | pkg/elemental/elemental.go:46-69 | the same for a spec in install order on a new table |
| Installation.InstallPartitions | pkg/elemental/elemental.go:46-109 | an accepted spec has every partition created once and placed iff they fit and no call fails; with EFI its boot partition is among them, with BIOS that partition is the first |
| RawImage.CreateDiskPartitionTable | pkg/action/build-disk.go:686-733 | every entry is requested where the sizes before it add up |
| RawImage.SizesMatch | pkg/action/build-disk.go:356-421 | image sizes and requested sizes agree up to the last iff OEM, and unless expandable recovery, has a size; when only the last request is for the rest |
| RawImage.CreateDiskImage | pkg/action/build-disk.go:524-574 | the pieces of the file; at least 1 MiB at the end; refused iff the size is not above the minimum |
| RawImage.CreateRAWDisk | pkg/action/build-disk.go:322-353 | table starts equal image offsets iff there is no BIOS partition and OEM, and unless expandable recovery, has a size; when the table can be granted as well; the size of the file; no table without a file |
| RawImage.BiosShiftsTable | pkg/action/build-disk.go:686-733 | with a BIOS partition, how far every image is from its entry |
| RawImage.BiosShift | pkg/action/build-disk.go:686-733 | if the sizes agree, exactly by the BIOS partition |
| RawImage.ImagesAndNeeded | pkg/types/config.go:811-825 | images against the minimum size: the difference in terms of the configured sizes |
| RawImage.RawSize | pkg/action/build-disk.go:543-560 | the configured size is met iff the slack is 1 MiB; without BIOS partition, not expandable: 1 MiB less if all sizes are configured, otherwise at least 191 MiB more, and by how much with the default sizes |
| BootOrder.BootManager.constructor | pkg/efi/manager.go:27-72 | the order is the decoded variable and the entries are the readable variables |
| BootOrder.ReadEntries | pkg/efi/manager.go:54-69 | the loop keeps exactly the variables whose load option can be read |
| BootOrder.DecodeOrder | pkg/efi/manager.go:41-46 | the decoding loop reads little-endian pairs |
| BootOrder.DecodeEncode | pkg/efi/manager.go:160-166 | written orders read back |
| BootOrder.DecodeAt | pkg/efi/manager.go:43-46 | number i is read from bytes 2i and 2i + 1, the low one first |
| BootOrder.EncodeAt | pkg/efi/manager.go:160-166 | and written there |
| BootOrder.BootManager.PrependAndSetBootOrder | pkg/efi/manager.go:144-176 | the new order is head and old order, known entries only, first occurrences in order, and the variable decodes to it |
| BootOrder.BootManager.Merge | pkg/efi/manager.go:147-158 | the nested loops compute that order |
| BootOrder.MergedIsUnique | pkg/efi/manager.go:147-158 | that description fits one order only |
| BootOrder.PrependIsIdempotent | pkg/efi/manager.go:144-176 | the same head again changes nothing |
| BootOrder.BootManager.NextFreeEntry | pkg/efi/manager.go:130-138 | the least free number below 65535, or none |
| BootOrder.BootManager.FindOrCreateEntry | pkg/efi/manager.go:80-127 | an entry with the content, created under the least number without an entry only if there was none; exactly when it fails, and when it overwrites a variable |
| BootOrder.BootManager.SetFirst | pkg/bootloader/grub.go:340-365 | the entry boots first and the known rest of the order follows in order; exactly when it fails, and the order then stays |
| Vhd.ChsCalculation | pkg/utils/vhd.go:105-146 | the geometry the specification chooses, which sectors per track and heads in each range and all cylinders that fit |
| Vhd.ChooseTracks | pkg/utils/vhd.go:117-138 | the branches choose these sectors per track and heads |
| Vhd.ChosenIsUnique | pkg/utils/vhd.go:105-146 | that description fits one geometry only |
| Vhd.LargestGeometry | pkg/utils/vhd.go:113-115 | larger disks are capped |
| Vhd.TenGiB | pkg/utils/vhd.go:105-146 | the geometry of a 10 GiB disk |
| Vhd.BigEndianAt | pkg/utils/vhd.go:59-70 | numbers are written byte by byte, the most significant one first |
| Vhd.FooterLayout | pkg/utils/vhd.go:33-50 | at which offset each field is |
| Vhd.GenerateChecksum | pkg/utils/vhd.go:79-88 | the footer checks iff the checksum field summed to 0 before |
| Vhd.NewVHDFixed | pkg/utils/vhd.go:52-75 | every field of a footer that checks: sizes, time and geometry read back, constants; the cookie stays empty |
| Vhd.AzureCutsTail | pkg/action/build-disk.go:650-684 | with the footer the least whole number of MiB that holds the disk; which images lose data |
| BtrfsBackends.BtrfsBackend.ComputeNewID | pkg/snapshotter/btrfs-backend.go:509-523 | exactly one above the largest ID, or 1 without an active snapshot; new iff there is an active one or no snapshot 1 |
| BtrfsBackends.BtrfsBackend.DeleteSnapshot | pkg/snapshotter/btrfs-backend.go:300-318 | never the booted one; a folder that stays is an error although the subvolume is gone |
| BtrfsBackends.BtrfsBackend.SnapshotsCleanup | pkg/snapshotter/btrfs-backend.go:323-345 | an error iff the listing or the deletion of a non-survivor fails; what is left in each case: the survivors, or all from the oldest failing one on |
| BtrfsBackends.BtrfsBackend.DeletePrefix | pkg/snapshotter/btrfs-backend.go:329-343 | the loop stops before the booted snapshot or with an error at the first failure |
| BtrfsBackends.CleanupCount | pkg/snapshotter/btrfs-backend.go:323-345 | leaves the maximum, or all from the booted snapshot on if more |
| BtrfsBackends.NewIdSurvives | pkg/snapshotter/btrfs-backend.go:509-523 | a newly created snapshot survives the next clean-up iff there was an active one, ID 1 is among the newest, or it is booted |
| BtrfsBackends.NewIdLost | pkg/snapshotter/btrfs-backend.go:509-523 | one that does not |

## Left out

- Legacy deployments: `legacyClean` is false throughout, so the migration and the removal of the whole snapshot tree are not modelled.
- The text of bootloader variables, labels written while refining a deployment and the default boot entry: they are not rolled back by the code and not part of the state.
- Fields of state.yaml other than snapshot IDs and their active mark, a write that reaches only one of its two copies, and the check for undefined partitions before it.
- SnapshotIds.Listing: directory names with leading zeros, which the listing would report twice, do not occur.
- Mounts.MountRW: finding the device of a partition and creating its directory are part of the one step Mount.
- UpgradeActions.UpgradeAction.Run: the recovery upgrade is one step that may fail; RecoverySwap models it, and OldRecoveryBreaksLink connects the two. What it does to the recovery partition is not part of the world of an upgrade.
- UpgradeHistories.Next: power failures in the middle of an upgrade; the machine goes down only in a power action, and between runs.
- RecoverySwap.UpgradeRecoveryAction.Perform: mounting the recovery partition and undoing it are one step each; Mounts and CleanStacks model them.
- RawImage.CreateRAWDisk: that making a file system of size 0 for the boot or state image fails, and the other calls that can fail on the way.
- Chroots.Chroot.Prepare: the list of mount points is given; sorting the extra ones by source path and running the callback are not modelled.
- Disks.Disk.AddPartition: the table has been read before, the sector size divides 1 MiB and sizes do not overflow a word; partition labels, flags and file systems are not modelled.
- Disks.Disk.ExpandLastPartition: growing the file system afterwards.
- Vhd.NewVHDFixed: time and identifier are parameters; converting sector counts to floating point loses nothing below the cap.
- BootOrder.BootManager.constructor: parsing the names of Boot#### variables, and the error when one cannot be got at all; an odd BootOrder length, on which the code panics, is excluded.
- External tools (parted, sgdisk, btrfs, mkfs, rsync, grub-editenv, losetup) and the parsing of their output: each is a step with a stated effect.
- The snapper backend, the mount closures of the btrfs snapshotter, and its StartTransaction and CloseTransaction: their behaviour lies in tools that are not visible.
- PartitionsByMountPoint, MountPartitions and UnmountPartitions: loops over the order modelled here that would add only easy members.
- Install, reset, ISO and mount actions, commands, configuration files, hooks, image download and extraction, SELinux: plumbing around the operations above or foreign calls.
