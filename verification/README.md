# Verified model of infinization's stateful core

infinization drives QEMU virtual machines. This project models the parts of it whose state,
recursion or arithmetic is hard to get right, and proves properties of them for all inputs and runs.

**Backups** (`ImageStore`, `BackupPaths`, `BackupChains`, `BackupInvariant`, `BackupCreates`, `BackupNames`,
`BackupService`, `BackupFlights`, `Restore`, `BackupRestore`, `BackupScenarios`, `RestoreService`, `Retention`, `LiveRead`). Disk images are maps of clusters with a
backing pointer. A vault of manifests and files is changed by creates, deletes and foreign writes whose
I/O may fail anywhere. What each create stores is told by its configuration and the vault before it. The invariant says that every completed incremental backup has its whole chain
down to a FULL base. On top of it stand deletes by any name and creates still in flight, the pre-flight walk of a chain, the restore that rebuilds a
relocated chain from temporary copies, retention with its rescue walk and leaf-first sweep, and the
freeze/snapshot protocol for reading live disks.

**Firewall** (`SubnetMask`, `FirewallRules`, `Nft`, `RuleTranslator`, `RuleCompiler`, `FirewallMeaning`,
`FirewallPolicy`, `FirewallLaws`, `FirewallOverrides`, `RuleCache`, `RuleInstances`, `JumpRules`). Rules have a meaning on packets. The compiler turns rule
lists into text for `nft -f -`; a small nft reads that text back and evaluates the chain. The compiled
chain gives every packet the verdict of the first applicable rule. Around it are the rule-hash cache, of
one service and of several on one host, and the shared forward chain that several VMs edit at once.

**CPU placement** (`CpuPinning`, `HybridPinning`, `CpuLists`) and **QMP** (`QmpFraming`, `QmpCommands`).

`Wrappers`, `JsText` and `StableSort` hold the vocabulary: options, the JavaScript string functions the
code calls, and a stable sort.

## What the code does that its comments or names do not say

Each item is proved, together with the exact condition under which the intended property holds.

- An INCREMENTAL backup copies no data of the disk: it is a new empty overlay on the parent
  (`src/backup/BackupService.ts:865-903`, described as storing "only changed clusters" at 812-815).
  Restoring it gives the disk as it was at the FULL base of its chain (`IncrementalRestoresBase`,
  `IncrementalIgnoresChanges`).
- Skipping a rule that cannot be translated "denies rather than exposes" (`src/network/NftablesService.ts:344-346`)
  holds exactly when no installable ACCEPT rule comes after a skipped DROP or REJECT rule
  (`SkippingFailClosedIff`, `SkippedBlockExposes`).
- A chain recorded partly under a root that is gone can pass the pre-flight and still not be rebuilt: parents
  are looked for under the current root, but each overlay is copied from the path its own manifest recorded
  (`src/backup/BackupService.ts:1025`, `src/backup/BackupService.ts:1305`). Copying the tree, taking one
  INCREMENTAL in the copy and deleting the first tree leads there (`MovedAncestorPassesPreflight`; exact
  conditions in `PreflightOkIff` and `RebuildableIff`).
- Creating an INCREMENTAL never checks the depth that restoring does: whether it completes depends on the parent
  and the sources alone (`BackupCreates.IncrementalCompletesIff`), and of a FULL backup with INCREMENTALs stacked on it
  exactly the first 256 can be restored (`CreateCrossesLimit`, `StackRestorableIff`, `TooDeep`).
- A removal that fails half way can leave the manifest of a backup that lost files; the vault is then unsound
  exactly if one of them was a disk of a completed backup; other backups are unharmed and deleting again
  repairs it (`PartialDeleteRecovers`, `HalfRemovedIsUnsound`).
- The dependency guard of a delete compares the id as given, while the path is normalized
  (`src/backup/BackupService.ts:489`, `src/backup/BackupService.ts:509`): by `b/` or `./b` backup b goes whoever
  depends on it, and by an empty id or `.` every backup of the VM goes (`TrailingSlashRemovesParent`,
  `EmptyIdRemovesAll`; exact conditions in `NamedDeleteKeepsInvIff` and `AliasKeepsInvIff`).
- A create writes its manifest last (`src/backup/BackupService.ts:292-294`), so the guard does not see an
  INCREMENTAL in flight: when its parent is deleted meanwhile it completes without one (`ParentGoesMidway`;
  exact condition in `RemoveKeepsInvIff`).
- A restore whose targets repeat reports success, and such a target holds the last of its disks
  (`RestoreBackup`).
- The cached apply can skip when it should not: after an apply in which some rule was not translated the
  older hash stays (`StaleChainAccepts`); after a chain was recreated by an apply whose transaction failed, the
  old hash stays beside an empty chain (`EmptyAfterFailedTransaction`); and the hash does not cover the TAP name
  (`TapChangeIsSkipped`, `HitIsRightIff`; for whole steps `ApplyKeepsCoherentIff`). TAP names are derived from
  the VM id (`src/network/TapDeviceManager.ts:530-537`), so within the library the name changes only when a
  start finds the stored device gone and stores the derived name in place of another one
  (`src/core/VMLifecycle.ts:1066-1096`); callers of the exported service may pass any name.
- Each firewall service remembers hashes of its own while the chains are shared, and `applyRules` and
  `flushVMRules` touch no hash: one service can skip over what another applied (`OverlookedChainAccepts`). All
  hashes stay in step exactly when each step harms no other service (`SharedKeepsCoherentIff`), which holds when
  every VM is left to one service (`DividedIsHarmless`).
- An override removes a department rule although masks and connection states may differ
  (`src/network/NftablesService.ts:1349-1361`): "accept established" removes "drop everything" and new traffic is
  left to the default (`OverrideLeavesStatesOpen`; exact condition in `OverrideCoversIff`).
- Basic pinning loses vCPUs exactly when the highest-numbered node has no CPU and some share before it is not
  whole (`ConservedIff`, `EmptyLastNodeLosesVcpus`).
- A forward-chain listing that fails reads as an empty chain: an attach then duplicates the jumps that were
  there, and a detach returns normally and leaves them (`FailedListingIff`, `FailedDetachIff`).
- Two equal disk paths in one live backup leave the first transient snapshot behind (`NoneForgottenIff`).
- `formatCpuRanges` prints negative ids in a form neither parser reads back (`RoundTripIff`).
- A socket error runs `cleanup()`, which removes the close listener: pending commands are left to their timers
  and no retry is armed although `reconnect` is on (`OutlivesCleanup`, `LostConnectionRetries`). A later
  `disconnect()` finds no socket and leaves them too (`DisconnectSettlesIff`, `CommandOutlivesDisconnect`).

## Model

| member | source | states |
|---|---|---|
| BackupInvariant.CreateKeepsInv | src/backup/BackupService.ts:203-300 | a create with any kind, compression and fault pattern keeps every completed backup sound, its own result included |
| BackupInvariant.DeleteKeepsInv | src/backup/BackupService.ts:488-540 | for a backup named by its plain directory name the dependency guard suffices: no such delete takes away a member of another backup's chain |
| BackupInvariant.LossKeepsInvIff | src/backup/BackupService.ts:865-903 | whatever manifests and files disappear, the vault stays sound iff no remaining completed backup loses a disk's file or the manifest of its parent |
| BackupInvariant.WriteKeepsInv | src/backup/BackupService.ts:1267-1348 | writes outside the backup directories never disturb a backup |
| BackupInvariant.RunKeepsInv | src/backup/BackupService.ts:816-903 | over every run of creates, deletes and foreign writes each completed INCREMENTAL has a completed non-gzip parent, older than itself, with matching disks |
| BackupInvariant.ReachableInv | src/backup/BackupService.ts:816-903 | every state reached from a host without backups is sound |
| BackupInvariant.PartialDeleteRecovers | src/backup/BackupService.ts:538-540 | a removal that failed half way harms no other backup, leaves the vault sound iff the manifest went too, or the backup was not completed, or no file of its disks went, and deleting again gives the result of a first full delete |
| BackupInvariant.ChainMembers | src/backup/BackupService.ts:834-861 | the chain of a completed backup consists of completed backups, strictly older at each step, and ends in a FULL one |
| BackupInvariant.BackupReadsAsBase | src/backup/BackupService.ts:865-903 | a completed backup read through its backing chain shows the source as it was at its FULL base, converted overlays included |
| BackupServices.BackupService.ExecuteFull | src/backup/BackupService.ts:763-810 | the disk loop writes the standalone images the specification lists, up to the first failure |
| BackupServices.BackupService.ExecuteIncremental | src/backup/BackupService.ts:816-903 | the disk loop creates an overlay per disk on the parent's file, converted in place for QCOW2, up to the first failure |
| BackupCreates.FullStoresDisks | src/backup/BackupService.ts:770-810 | every disk of a completed FULL backup restores to what its source held before the create, or to what the copy of its snapshot held if there was one; the file is a standalone image of that under the disk's name, gzipped on request |
| BackupCreates.FullCompletesIff | src/backup/BackupService.ts:203-300 | a FULL backup completes iff no I/O error hits it and every disk, or the copy of its snapshot, can be read |
| BackupCreates.FullRestoresForEver | src/backup/BackupService.ts:763-810 | as long as a FULL backup is not deleted, whatever else is created, deleted and written, its disks restore to what they showed before the create |
| BackupCreates.ChainRestoresFull | src/backup/BackupService.ts:865-903 | and so does every disk of every INCREMENTAL whose chain ends in it |
| BackupCreates.IncrementalCompletesIff | src/backup/BackupService.ts:816-903 | an INCREMENTAL of any number of disks completes iff no I/O error hits it, its parent is a completed backup of as many disks, no snapshot and not gzipped, and every disk or copy is there, whatever the depth |
| BackupCreates.IncrementalStoresOverlays | src/backup/BackupService.ts:865-903 | its disks stand on the parent's and read as those did: an empty overlay, or for QCOW2 compression a standalone image of what the parent shows |
| BackupCreates.SnapshotRecordsName | src/backup/BackupService.ts:906-945 | a SNAPSHOT records a name and writes no file; it completes iff no error hits it and the first disk is there |
| BackupCreates.CreateRecords | src/backup/BackupService.ts:219-237 | the manifest carries the id, kind, date of the start, compression, parent and tags asked for; other manifests stay |
| BackupCreates.CreateLeavesFiles | src/backup/BackupService.ts:265-294 | a failed create leaves the files as they were unless removing its directory failed; a completed one has added exactly the files of its disks |
| BackupNames.NamedDeleteKeepsInvIff | src/backup/BackupService.ts:488-540 | a delete by any string, complete or failed half way, keeps the vault sound iff nothing a remaining completed backup needs went from where the normalized path leads |
| BackupNames.NamedDeleteIsDelete | src/backup/BackupService.ts:489-517 | for a plain name it is the delete of that backup, guard included |
| BackupNames.FailedDeleteIsPartial | src/backup/BackupService.ts:538-540 | for a plain name a removal that fails half way is the partial delete, so that deleting again repairs it |
| BackupNames.AliasKeepsInvIff | src/backup/BackupService.ts:503-517 | by another name of its directory a backup goes past the guard, and the vault stays sound iff no other completed INCREMENTAL stands on it |
| BackupNames.TrailingSlashRemovesParent | src/backup/BackupService.ts:489-517 | FULL and INCREMENTAL on it: the delete is refused by the plain name and goes through with a slash behind it |
| BackupNames.ManifestNameForgets | src/backup/BackupService.ts:489-540 | by the name of its manifest a backup loses its manifest and no file |
| BackupNames.LocatedUp | src/backup/BackupService.ts:489 | ".." leads one directory up |
| BackupNames.WholeDirectoryGoes | src/backup/BackupService.ts:489-540 | by any name that leads to the VM's directory itself every backup of the VM goes |
| BackupNames.EmptyIdRemovesAll | src/backup/BackupService.ts:489-540 | the empty id and "." are such names |
| BackupServices.BackupService.CreateBackup | src/backup/BackupService.ts:203-300 | the whole new state of a create, reading disks or copies of their snapshots, for each way the I/O can fail, the first mkdir included: files, manifest with final status, removal of the directory on failure |
| BackupServices.BackupService.DeleteBackup | src/backup/BackupService.ts:488-540 | for any id: refused when nothing is at the normalized path or some manifest names that id as its parent; otherwise all manifests and files there go, or any part of them when the removal fails |
| BackupServices.BackupService.ListBackups | src/backup/BackupService.ts:451-480 | every manifest exactly once, newest first |
| BackupServices.SortDistinctIds | src/backup/BackupScheduler.ts:361-363 | sorting a listing keeps ids distinct |
| BackupRestore.VerifyDisk | src/backup/BackupService.ts:999-1091 | the level-by-level loop returns exactly what the recursive walk of the chain returns, errors included |
| BackupRestore.WalkFollowsChain | src/backup/BackupService.ts:1020-1091 | on a chain of any length whose manifests were recorded under any roots, the walk succeeds iff every parent is found, at most 256 overlays remain and the base is intact, and then returns the plan as recorded |
| BackupRestore.BrokenIff | src/backup/BackupService.ts:1097-1115 | of the damaged images those are found that are checked, which gzip blobs are not |
| BackupRestore.PreflightOkIff | src/backup/BackupService.ts:997-1094 | the pre-flight of such a chain also needs the top overlay at its recorded path, and nothing else |
| BackupRestore.RebuildableIff | src/backup/BackupService.ts:1298-1313 | a passed pre-flight can be rebuilt iff every overlay of the chain lies at the path its own manifest records and the base is readable |
| BackupScenarios.MovedAncestorPassesPreflight | src/backup/BackupService.ts:1024-1036 | FULL, INCREMENTAL, a copy of the tree, an INCREMENTAL there, the first tree removed: the pre-flight passes and the restore fails though all files are there |
| BackupRestore.PlanEndsOnBase | src/backup/BackupService.ts:1074-1084 | a plan has one level per overlay, each over the next, and exactly its last level stands on the base |
| BackupRestore.CompletedIsLinked | src/backup/BackupService.ts:881-897 | in every reachable state the manifests of a completed backup link down its chain and the recorded plan is the plan of the chain |
| BackupRestore.VerifySucceedsIff | src/backup/BackupService.ts:997-1094 | in every reachable state the pre-flight of a completed INCREMENTAL succeeds iff the chain has at most 256 overlays and its base is intact |
| BackupRestore.ResolvesToCurrentRoot | src/backup/BackupService.ts:1128-1140 | a recorded backing path is found where it was recorded, else under the current root, else not at all |
| BackupRestore.PlanContent | src/backup/BackupService.ts:1267-1348 | the rebuilt chain of a completed INCREMENTAL reads as the content of its FULL base |
| BackupRestore.FullRestoresSource | src/backup/BackupService.ts:763-810 | a FULL backup, gzipped or not, restores to what was read of the source when it was taken, from the disk or from a copy of its snapshot |
| BackupRestore.IncrementalRestoresBase | src/backup/BackupService.ts:865-903 | an INCREMENTAL restores to the source as of its FULL base, and to its own source iff that had not changed since |
| BackupScenarios.IncrementalIgnoresChanges | src/backup/BackupService.ts:865-903 | FULL, change, INCREMENTAL: both complete, the second passes its pre-flight and restores to the disk before the change |
| BackupRestore.CreateCrossesLimit | src/backup/BackupService.ts:816-903 | a completed INCREMENTAL passes its pre-flight iff its parent's chain was below the limit and the base is intact |
| BackupScenarios.StackRestorableIff | src/backup/BackupService.ts:1019-1034 | a FULL backup and n INCREMENTALs, each on the one before, all complete, and the last passes its pre-flight iff n is at most 256 and the base is intact |
| BackupScenarios.TooDeep | src/backup/BackupService.ts:1019-1034 | starting without any backup, more than 256 INCREMENTALs complete and the last is refused by the pre-flight |
| BackupScenarios.HalfRemovedIsUnsound | src/backup/BackupService.ts:538-540 | a FULL backup whose file went while its manifest stayed |
| BackupFlights.BeginThenFinish | src/backup/BackupService.ts:203-300 | files first and manifest last, with nothing in between, are one create |
| BackupFlights.RemoveKeepsInvIff | src/backup/BackupService.ts:503-517 | a delete beside creates in flight leaves each of them safe to finish iff none has its files in the deleted backup's directory or stands on it |
| BackupFlights.FlightRunKeepsInv | src/backup/BackupService.ts:203-300 | over every run of begun and finished creates, foreign writes and such deletes the vault is sound and every create in flight may finish |
| BackupFlights.ParentGoesMidway | src/backup/BackupService.ts:292-294 | the parent of an INCREMENTAL in flight is deleted past the guard, and a completed overlay without a parent results |
| Restore.FirstAllocatingLevel | src/backup/BackupService.ts:1280-1318 | every cluster of the chain content comes from the first level that allocates it, from the base if no overlay does |
| ImageStore.ReadsFirstAllocated | src/backup/BackupService.ts:1280-1318 | along a backing chain a cluster is read from the first image that allocates it |
| Restore.ReadableIff | src/backup/BackupService.ts:1298-1318 | a chain is readable iff its overlays are there as qcow2 files and its base is readable |
| Restore.RebuiltContent | src/backup/BackupService.ts:1288-1318 | temp copies rebased bottom-up read as the resolved chain, whatever stale pointers the overlays embed |
| Restore.UnpackedContent | src/backup/BackupService.ts:1283-1287 | an unpacked gzip blob reads as the image inside it |
| Restore.FileSystem.CopyFile | src/backup/BackupService.ts:1305-1307 | copies unless the source is missing or the operation fails, and then leaves at most a partial file, which is accounted for |
| Restore.FileSystem.DurableRename | src/backup/BackupService.ts:1147-1160 | moves the image onto the target or changes nothing, and does move it when nothing fails |
| Restore.FileSystem.GunzipTo | src/backup/BackupService.ts:1356-1368 | on success the destination holds the unpacked image; the copied blob stays only if an unlink or copy failed |
| Restore.BuildChain | src/backup/BackupService.ts:1288-1318 | every level is copied and rebased onto the copy below it, the last one onto the resolved base; backup files are untouched; it succeeds when nothing fails and every overlay is there |
| Restore.CopyLevel | src/backup/BackupService.ts:1302-1313 | one level's fresh copy holds the overlay's clusters and the new backing pointer, the overlay itself is untouched |
| Restore.PrepareSource | src/backup/BackupService.ts:1279-1318 | what `convert` is given reads as the content to restore |
| Restore.UnlinkAll | src/backup/BackupService.ts:1343-1346 | afterwards a copy remains only where its own unlink failed |
| Restore.RestoreDiskFile | src/backup/BackupService.ts:1267-1348 | success: the target is a standalone image of the restored content; failure: it is as before; no other file changes and no temp file remains unless its own unlink or copy failed; without faults it succeeds iff the content is readable |
| RestoreService.VerifyIncrementalChain | src/backup/BackupService.ts:997-1094 | succeeds iff every disk's chain is short enough with an intact base, and records each disk's plan under its overlay path |
| RestoreService.RestoresBase | src/backup/BackupService.ts:326-440 | restoring other disks does not change what a disk restores to, unless one of its own chain files is overwritten |
| RestoreService.OutsideIsApart | src/backup/BackupService.ts:326-440 | targets outside the backup directories, repeated or not, with temporary names nobody else uses meet what a restore asks of them |
| RestoreService.RestoreOneDisk | src/backup/BackupService.ts:408-420 | an existing target is refused without the overwrite option; otherwise it is restored, or left alone on failure; without faults it fails only by that refusal |
| RestoreService.RestoreBackup | src/backup/BackupService.ts:326-440 | success: every target holds the base content of the last disk restored to it; any error: each target is untouched or holds one of its disks; the error says which check failed, and until the first disk no file changes; without faults it succeeds iff the backup is completed, the disks match, chains are intact and, without the overwrite option, no target exists or repeats |
| Retention.Rescue | src/backup/BackupScheduler.ts:380-395 | one walk up the links takes exactly the kept backup's ancestors out of the aged-out set and ends on cycles |
| Retention.RescueAll | src/backup/BackupScheduler.ts:366-395 | what is left to delete is exactly what no kept backup is built on |
| Retention.TryDelete | src/backup/BackupScheduler.ts:412-425 | one attempt deletes the backup, or throws for a fault or a dependent that stays; without either it deletes |
| Retention.SweepPass | src/backup/BackupScheduler.ts:403-427 | one pass deletes or gives up leaves; without progress everybody pending has a child that is pending or threw |
| Retention.SweepLeaves | src/backup/BackupScheduler.ts:399-427 | the sweep ends; a delete threw only on a fault or for a remaining dependent, and whoever was deleted had neither; every untried backup has a child untried or thrown; every cycle of links stays untried |
| Retention.EnforceRetention | src/backup/BackupScheduler.ts:347-427 | backups that lack the tag "scheduled" or the schedule's id stay as they are; of those with both the newest `retentionCount` stay, and the sweep runs over exactly the rest minus their ancestors; without faults and outside dependents no delete throws, and then in a sound vault exactly those are gone; the vault stays sound |
| Retention.SelectExpired | src/backup/BackupScheduler.ts:349-399 | the list to delete is exactly what neither is among the newest nor an ancestor of one |
| Retention.ExpendableIff | src/backup/BackupScheduler.ts:376-395 | what may go is exactly what lies on no line of parents that starts at a kept backup |
| Retention.OtherSchedulesStay | src/backup/BackupScheduler.ts:352-354 | enforcing one schedule leaves the backups of another as they are |
| Retention.KeptLinesSurvive | src/backup/BackupScheduler.ts:376-395 | whatever the links and failures, no kept backup and no ancestor of one is deleted |
| Retention.TailIsNewest | src/backup/BackupScheduler.ts:360-374 | the tail of the age-sorted list is the newest part and the head is the rest |
| Retention.ClosedHoldsAncestors | src/backup/BackupScheduler.ts:380-395 | a parent-closed set holds every ancestor of its members |
| Retention.SeenIsAncestors | src/backup/BackupScheduler.ts:380-395 | the visited set of a walk holds, within the schedule's backups, exactly the ancestors |
| Retention.NoDependentLeft | src/backup/BackupScheduler.ts:407-411 | while nothing threw, a pending leaf has no dependent left in the store |
| Retention.GuardIsDependedOn | src/backup/BackupService.ts:507-517 | when a leaf's turn comes the delete's guard fires exactly for dependents that are not pending |
| Retention.UntriedLeadsToThrown | src/backup/BackupScheduler.ts:399-427 | on acyclic links below every untried backup there is one whose own delete threw |
| Retention.ExtraSurvivors | src/backup/BackupScheduler.ts:399-427 | an extra survivor threw or is an ancestor of one that did |
| Retention.ExactSurvivors | src/backup/BackupScheduler.ts:347-427 | acyclic links and nothing thrown: survivors are exactly the newest backups and their ancestors |
| Retention.SurvivorsWithCycles | src/backup/BackupScheduler.ts:399-427 | with cycles the extra survivors are exactly the largest set in which everybody has a child |
| Retention.LinksAcyclic | src/backup/BackupService.ts:219-237 | in every reachable state the parent links, those of failed backups included, are acyclic |
| LiveRead.LiveBackup.TryQuiesce | src/backup/BackupService.ts:640-680 | frozen iff the agent exists, connects and freezes; a freeze that throws is thawed at once; a connect that throws issues neither |
| LiveRead.LiveBackup.SnapshotDisk | src/backup/BackupService.ts:686-703 | a snapshot is remembered before its copy is made, and a finished copy redirects the reads of its disk; succeeds iff neither call throws |
| LiveRead.LiveBackup.PrepareLiveRead | src/backup/BackupService.ts:612-719 | succeeds iff the VM is off or taken for off, or can be quiesced, or every disk snapshotted; then every disk is safe to read; on refusal everything begun is undone |
| LiveRead.LiveBackup.CleanupLiveRead | src/backup/BackupService.ts:727-754 | thaws, unlinks every copy and tries to delete every remembered snapshot |
| LiveRead.LiveBackup.CreateBackup | src/backup/BackupService.ts:247-288 | for every pattern of exceptions the log follows the protocol and ends with nothing to undo but overwritten snapshots; succeeds iff a safe way to read exists and no read throws, having read every disk; a stopped VM is never disturbed |
| LiveRead.FreezesAndThaws | src/backup/BackupService.ts:655-680 | as many thaws as freezes whenever the guest is not frozen at the end |
| LiveRead.FreezeMeetsThaw | src/backup/BackupService.ts:727-741 | each freeze is followed by its own thaw before any other freeze or thaw |
| LiveRead.SnapshotMeetsDelete | src/backup/BackupService.ts:741-754 | each snapshot not pending at the end had a delete attempt after it was taken |
| LiveRead.ReadsAreSafe | src/backup/BackupService.ts:722-724 | a disk of a running or unknown VM is read only between a successful freeze and its thaw, or from a copy of that disk not yet removed |
| LiveRead.UndoneMeans | src/backup/BackupService.ts:270-288 | distinct disks: equal counts of freezes and thaws, and a delete attempt after every snapshot |
| LiveRead.NoneForgottenIff | src/backup/BackupService.ts:697-698 | with fresh names, every snapshot is remembered iff no disk path repeats |
| SubnetMask.CountSetBits | src/network/FirewallRuleTranslator.ts:656-664 | the shift loop counts the one bits |
| SubnetMask.IsContiguous | src/network/FirewallRuleTranslator.ts:585-610 | the octet scan accepts exactly ones followed by zeros |
| SubnetMask.IsValidSubnetMask | src/network/FirewallRuleTranslator.ts:569-610 | accepted iff it is the mask of some prefix length 0 to 32 |
| SubnetMask.OnesClosedForm | src/network/FirewallRuleTranslator.ts:569-610 | p leading ones are 2^32 - 2^(32-p) |
| SubnetMask.MaskToCidr | src/network/FirewallRuleTranslator.ts:623-650 | prints the prefix length of a valid mask, and fails exactly on text that is no mask at all |
| SubnetMask.CidrIsPrefixLength | src/network/FirewallRuleTranslator.ts:623-650 | counting bits of a contiguous mask gives its prefix length |
| SubnetMask.MaskedEqualIffPrefixEqual | src/network/FirewallRuleTranslator.ts:623-650 | two addresses agree under a mask of p ones iff their first p bits agree |
| RuleTranslator.TranslateIffWellFormed | src/network/FirewallRuleTranslator.ts:347-525 | a concrete rule is translated exactly when it is well formed |
| RuleTranslator.TranslationMeansRule | src/network/FirewallRuleTranslator.ts:77-140 | read back by nft, the words of a well-formed rule decide exactly the packets the rule speaks about, with its verdict |
| RuleTranslator.TranslationIsWords | src/network/FirewallRuleTranslator.ts:675-690 | no field of a rule, its free-text name included, breaks out of its word |
| RuleTranslator.NetworkOfText | src/network/FirewallRuleTranslator.ts:258-290 | an address with a prefix length is read back as that network |
| RuleTranslator.PortSetOfText | src/network/FirewallRuleTranslator.ts:208-250 | a printed port range is read back as that range |
| RuleTranslator.NameSetOfText | src/network/FirewallRuleTranslator.ts:296-330 | a printed state set is read back as those states |
| Nft.LexJoin | src/network/NftablesService.ts:493-507 | words joined by blanks are read back as the same words |
| RuleCompiler.AllLinesOrNone | src/network/NftablesService.ts:459-486 | a rule contributes all its lines (two adjacent ones for INOUT) or none |
| RuleCompiler.PushRule | src/network/NftablesService.ts:466-480 | one rule's lines, or no line and the error of the first direction that fails |
| RuleCompiler.BuildRuleLines | src/network/NftablesService.ts:459-486 | the loop emits the lines of every translatable rule in order and counts and names exactly the others |
| FirewallMeaning.EffectiveIsOneSort | src/network/NftablesService.ts:408-434 | sorting the merge and then the automatic rule into it is one stable sort of all rules |
| FirewallMeaning.BodiesDecide | src/network/NftablesService.ts:459-507 | the lines of a rule list decide a packet as its first applicable rule does |
| FirewallMeaning.CompilePreservesMeaning | src/network/NftablesService.ts:369-455 | for every packet the chain gives the verdict of the earliest applicable rule by priority and position, else the default |
| FirewallLaws.PolicyDecides | src/network/NftablesService.ts:369-455 | in terms of the department and VM rules alone: the rule of smallest priority, then position, decides; with conntrack open connections of the VM are accepted ahead of rules above 9999; without any rule they are accepted then, and all else gets the default |
| FirewallLaws.ConntrackYieldsToRules | src/network/NftablesService.ts:984-1000 | conntrack changes nothing for a packet that a rule of priority 9999 or less applies to, or that belongs to no open connection |
| FirewallLaws.OverrideRemovesIff | src/network/NftablesService.ts:1308-1361 | a department rule is left out iff a VM rule marked as an override has its ports and addresses, the same protocol up to case and absence, and its direction or INOUT on either side |
| FirewallLaws.InstallableIff | src/network/FirewallRuleTranslator.ts:347-525 | the conditions under which a rule can be installed, each written out |
| FirewallLaws.SkippedForDefect | src/network/FirewallRuleTranslator.ts:347-525 | a rule that is left out is reported with a defect it has |
| FirewallLaws.OneStateEnabled | src/network/FirewallRuleTranslator.ts:296-330 | a rule that enables one state speaks about the packets in that state |
| FirewallLaws.AddressText | src/network/FirewallRuleTranslator.ts:258-290 | a dotted address stands for the number with its first field in the highest octet |
| FirewallLaws.OctetTextIff | src/network/FirewallRuleTranslator.ts:258-290 | a field of an address is one to three digits that stand for at most 255 |
| FirewallLaws.AddressIsDotted | src/network/FirewallRuleTranslator.ts:258-290 | text is an address iff it has four such fields between dots |
| FirewallLaws.MaskText | src/network/FirewallRuleTranslator.ts:569-650 | so does a dotted mask, and a mask written as a number is a prefix length up to 32 |
| FirewallLaws.CleanTextAt | src/network/FirewallRuleTranslator.ts:675-690 | characters a comment may not hold are replaced one by one, the others stay |
| FirewallLaws.CommentShowsName | src/network/FirewallRuleTranslator.ts:675-690 | the comment of a plain name is the name, cut at 64 characters |
| FirewallMeaning.CommandTextIs | src/network/NftablesService.ts:493-507 | the commands are about the table the service owns |
| FirewallMeaning.ScriptInstallsChain | src/network/NftablesService.ts:493-507 | the script replaces the chain by its rules and the terminal rule, whatever it held |
| FirewallMeaning.ApplyInstallsCompiledChain | src/network/NftablesService.ts:369-455 | the text handed to nft installs exactly the compiled chain and touches no other |
| FirewallPolicy.MergeIsExact | src/network/NftablesService.ts:1308-1347 | the merge is the stable priority sort of the VM rules and exactly the department rules nobody overrides |
| FirewallPolicy.OverridesAreLocal | src/network/NftablesService.ts:1308-1361 | overriding changes verdicts only for packets some removed department rule applies to |
| FirewallOverrides.OverrideCoversIff | src/network/NftablesService.ts:1349-1361 | an override speaks for all traffic of the rule it removes iff it is INOUT or the rule was not, its masks are not longer, and it enables no state or all those of a rule that enables some |
| FirewallOverrides.OverrideLeavesStatesOpen | src/network/NftablesService.ts:1349-1361 | an override limited to established traffic removes a rule that drops everything, and new traffic is accepted by default |
| FirewallOverrides.AddressMatchesPrefix | src/network/FirewallRuleTranslator.ts:623-650 | an address matches iff its first bits, as many as the mask has, are the rule's |
| FirewallPolicy.SkippingFailClosedIff | src/network/NftablesService.ts:344-346 | for arbitrary match predicates, skipping is fail-closed iff no installable ACCEPT follows a skipped block |
| FirewallPolicy.InstalledChainFailClosed | src/network/NftablesService.ts:459-507 | under default drop the installed chain is the policy without the skipped rules, and fail-closed when skipping is safe |
| FirewallPolicy.SkippedBlockExposes | src/network/NftablesService.ts:344-346 | one skipped DROP rule and the automatic established rule: blocked traffic is accepted |
| RuleCache.ApplyKeepsCoherentIff | src/network/NftablesService.ts:912-967 | one cached apply for any TAP keeps hash and kernel in step iff it is a hit, or is fully translated for the VM's TAP, or leaves nothing stale behind |
| RuleCache.HitIsRightIff | src/network/NftablesService.ts:935-952 | a skipped apply leaves the chain it was asked for iff it names the VM's TAP or installs no rule |
| RuleCache.ChainsEqualIff | src/network/NftablesService.ts:459-507 | the chains of one rule list for two TAPs are equal iff the TAPs are or no rule can be installed |
| RuleCache.RunKeepsCoherent | src/network/NftablesService.ts:802-840 | over every run of such applies, ensures, removals and lost chains hash and kernel stay in step |
| RuleCache.CachedApplyRefinesApply | src/network/NftablesService.ts:912-967 | after such a run a cached apply leaves the kernel as an unconditional apply would iff it is not skipped for a TAP that is not the VM's |
| RuleCache.CleanRunIsGood | src/network/NftablesService.ts:912-967 | without faults, with translatable rules and one TAP per VM, every run is such a run |
| RuleCache.StaleAfterPartialTranslation | src/network/NftablesService.ts:945-960 | good, partly untranslatable, good again: the last apply is skipped over the second chain |
| RuleCache.StaleChainAccepts | src/network/NftablesService.ts:945-960 | such a run with a rule that drops everything ends with a chain that accepts new traffic the rule drops |
| RuleCache.EmptyAfterFailedTransaction | src/network/NftablesService.ts:369-400 | a failed transaction after the chain was recreated leaves an empty chain that the next apply skips |
| RuleCache.TapChangeIsSkipped | src/network/NftablesService.ts:1006-1011 | the same rules for another TAP are skipped, and the chain is wrong for it unless there are no rules |
| RuleCache.FirewallService.ApplyRules | src/network/NftablesService.ts:369-455 | the kernel afterwards is the specified one for each way the commands can fail, and no rule is reported as failed iff all are well formed |
| RuleCache.FirewallService.ApplyRulesIfChanged | src/network/NftablesService.ts:912-967 | reports a change iff it did not skip, and remembers the hash only after a full apply |
| RuleCache.FirewallService.EnsureVMChain | src/network/NftablesService.ts:802-840 | the chain is there afterwards iff it was or creating it worked; a new one is empty and no next apply of the VM is skipped; coherence and every other VM are untouched |
| RuleCache.EnsuredChainIsFilled | src/network/NftablesService.ts:815-824 | an apply after a chain had to be created installs the rules, whatever hash was remembered |
| RuleCache.FirewallService.RemoveVMChain | src/network/NftablesService.ts:559-680 | whatever the removal achieves, no next apply of the VM is skipped; coherence and every other VM are untouched |
| RuleInstances.SharedKeepsCoherentIff | src/network/NftablesService.ts:77 | with several services on one host a step keeps every service's hashes in step with the chains iff it is good for its own service and no other remembers rules that render another chain than the one it leaves |
| RuleInstances.SharedRunKeepsCoherent | src/network/NftablesService.ts:912-967 | so they stay over every run of such steps of any services, direct applies and flushes included |
| RuleInstances.AnyServiceRefinesApply | src/network/NftablesService.ts:912-967 | after such a run a cached apply of any service leaves the kernel as an unconditional apply would iff it is not skipped for a TAP that is not the VM's |
| RuleInstances.DividedIsHarmless | src/network/NftablesService.ts:77 | when every VM is left to one service no step of a service harms another, and that stays so |
| RuleInstances.OverlookedChainAccepts | src/network/NftablesService.ts:935-952 | one service drops everything, another clears the rules, the first is asked again and skips: new traffic is accepted |
| JumpRules.RunKeepsInv | src/network/NftablesService.ts:1149-1186 | over every interleaving, aborts included, never two equal jumps to a chain whose own listings were read |
| JumpRules.FinishedOperations | src/network/NftablesService.ts:1222-1253 | a finished attach leaves both jumps, a finished detach none, whatever listings of other chains failed |
| JumpRules.VmChainNames | src/types/firewall.types.ts:149-151 | `vm_` and 24 digits name a VM chain |
| JumpRules.AttachCompletes | src/network/NftablesService.ts:1149-1186 | an attach whose listing was read runs through whatever other VMs do in between: each add is enabled in its turn iff that jump was missing, and it finishes with each of the two jumps exactly once |
| JumpRules.DetachCompletes | src/network/NftablesService.ts:1222-1253 | a detach whose listing was read runs through too: one delete per jump is enabled in its turn, and it finishes with no jump to the chain left |
| JumpRules.OneTurnAtATime | src/network/NftablesService.ts:128-131 | while an operation holds the chain's lock exactly one of its own commands is enabled, in the order of the code, and no other operation on the chain starts |
| JumpRules.AbortFrees | src/network/NftablesService.ts:1149-1186 | a command that fails ends its operation, and the chain is free for the next one |
| JumpRules.OnlyOwnJumpsRemoved | src/network/NftablesService.ts:1222-1253 | no command removes an entry that is not a jump to its own chain |
| JumpRules.FailedListingIff | src/network/NftablesService.ts:1192-1200 | with any commands of other VMs in between, an attach whose listing failed keeps its jumps unique iff neither was there |
| JumpRules.FailedDetachIff | src/network/NftablesService.ts:1222-1265 | a detach whose listing failed finishes and leaves exactly the jumps that were there |
| JumpRules.OthersRun | src/network/NftablesService.ts:128-131 | commands of other VMs leave the jumps to a chain and the operation on it alone |
| CpuLists.FormatCpuRanges | src/cpu/SharedAlgorithms.ts:396-417 | the one-pass loop prints the runs of the sorted list |
| CpuLists.ParseCpuList | src/cpu/CpuListUtils.ts:28-44 | returns the set of the listed ids on every string |
| CpuLists.ExpandCpuList | src/cpu/CpuPinningAdapter.ts:361-387 | returns the listed ids in order on every string, hence the same set as the other parser |
| CpuLists.RunsCover | src/cpu/SharedAlgorithms.ts:402-414 | the runs of any list cover exactly that list in order |
| CpuLists.PrintedField | src/cpu/CpuPinningAdapter.ts:369-376 | a printed range is read back as itself iff it does not start below zero |
| CpuLists.RangeText | src/cpu/SharedAlgorithms.ts:405-416 | one id is printed as a number, more as first and last with a hyphen |
| CpuLists.RoundTripIff | src/cpu/SharedAlgorithms.ts:396-417 | parsing what was printed gives the sorted list, repeats included, iff no id is negative |
| CpuLists.RoundTripSet | src/cpu/CpuListUtils.ts:28-44 | as a set the printed list is the original one |
| CpuLists.PrintedRangesMaximal | src/cpu/SharedAlgorithms.ts:402-414 | without repeats the printed ranges are in order with a gap between neighbours |
| CpuLists.MaximalUnique | src/cpu/SharedAlgorithms.ts:402-414 | there is only one way to write ids as such ranges |
| CpuPinning.CalculateBasicPinning | src/cpu/SharedAlgorithms.ts:181-267 | the allocation is the specified one: contiguous vCPU intervals per node, cores in turn, sorted distinct cores and nodes; empty without CPUs or vCPUs |
| CpuPinning.SharePerNode | src/cpu/SharedAlgorithms.ts:205-228 | the loop with its running remainder gives each node its rounded share and the last the rest |
| CpuPinning.AssignNode | src/cpu/SharedAlgorithms.ts:239-256 | one node's vCPUs get its cores in turn and stay distinct in the core list |
| CpuPinning.GivenWithin | src/cpu/SharedAlgorithms.ts:223-226 | the rounded shares never exceed the vCPUs: the `min` with the remainder never bites |
| CpuPinning.ConservedIff | src/cpu/SharedAlgorithms.ts:205-228 | all vCPUs are placed iff the last node has a CPU or every share before it is whole |
| CpuPinning.GivenExactIff | src/cpu/SharedAlgorithms.ts:223-226 | rounding loses nothing iff every share is whole |
| CpuPinning.EmptyLastNodeLosesVcpus | src/cpu/SharedAlgorithms.ts:213-220 | three vCPUs on nodes of 1, 1 and 0 CPUs place two |
| CpuPinning.NearProportional | src/cpu/SharedAlgorithms.ts:209-228 | other nodes get the floor of their share; the last at least its share and less than one vCPU more per other node |
| CpuPinning.IntervalsPartition | src/cpu/SharedAlgorithms.ts:230-258 | every placed vCPU lies in the interval of exactly one node |
| CpuPinning.PlacedSoFar | src/cpu/SharedAlgorithms.ts:230-258 | the mapping's domain is exactly the vCPUs below the number placed |
| CpuPinning.PlacedOnOwnNode | src/cpu/SharedAlgorithms.ts:230-258 | every placed vCPU is listed under exactly one node and runs on a core of that node |
| CpuPinning.BalancedWithinNode | src/cpu/SharedAlgorithms.ts:241-256 | loads of two cores of a node differ by at most one |
| CpuPinning.CoreLoad | src/cpu/SharedAlgorithms.ts:241-256 | the load of a core is the number of turns that fall on it |
| HybridPinning.Shuffle | src/cpu/SharedAlgorithms.ts:333-338 | the in-place loop computes the Fisher-Yates rearrangement given by the generator's draws |
| HybridPinning.FisherYatesPermutes | src/cpu/SharedAlgorithms.ts:333-338 | whatever is drawn, the result is a permutation |
| HybridPinning.EveryOrderReachable | src/cpu/SharedAlgorithms.ts:333-338 | every permutation comes out for some draws |
| HybridPinning.DrawsDetermined | src/cpu/SharedAlgorithms.ts:333-338 | different draws give different orders, so none is favoured |
| HybridPinning.SeededRandom.NextInt | src/cpu/SharedAlgorithms.ts:98-100 | the next fraction scaled to the range and rounded down |
| HybridPinning.ScaledReaches | src/cpu/SharedAlgorithms.ts:98-100 | every number of the range is drawn for some fraction |
| HybridPinning.CalculateHybridPinning | src/cpu/SharedAlgorithms.ts:300-383 | the allocation follows the shuffled order of all (core, node) pairs of the host; empty without CPUs or vCPUs; where each core belongs to one node every core of every node carries the average load, rounded down or up, every vCPU runs on a core of a node that lists it, and with a vCPU for every core exactly the cores of all nodes are selected |
| HybridPinning.PartitionedByNode | src/cpu/SharedAlgorithms.ts:340-373 | exactly the vCPUs below the count are placed, each once, under one node and on a core of it |
| HybridPinning.SlotsApart | src/cpu/SharedAlgorithms.ts:322-328 | where each core belongs to one node no two pairs share a core |
| HybridPinning.CoreIsSlot | src/cpu/SharedAlgorithms.ts:322-328 | every core of every node is among the pairs, with its node |
| HybridPinning.InjectiveWithoutOvercommit | src/cpu/SharedAlgorithms.ts:340-352 | up to one vCPU a core no two share one |
| HybridPinning.LoadsAreEven | src/cpu/SharedAlgorithms.ts:354-363 | the load of every core of every node is the average rounded down or up |
| HybridPinning.AllCoresSelected | src/cpu/SharedAlgorithms.ts:354-372 | with a vCPU for every core the selected cores are exactly the cores of all nodes |
| QmpFraming.LineReader.HandleData | src/core/QMPClient.ts:563-583 | the buffer loop delivers exactly the non-empty trimmed lines the chunk completes and keeps the rest |
| QmpFraming.ReceiveTwice | src/core/QMPClient.ts:563-583 | two chunks are received like their concatenation |
| QmpFraming.ChunkingDoesNotMatter | src/core/QMPClient.ts:563-583 | for every split of a stream the messages are its complete lines in order and the buffer the text after the last newline |
| QmpFraming.LinesArrive | src/core/QMPClient.ts:563-583 | visible lines sent with line feeds between them and cut in any way arrive as these lines in order |
| JsText.ParseIntReads | src/cpu/CpuListUtils.ts:34-40 | `parseInt` skips white space, takes a sign and the digits that follow and ignores the rest |
| JsText.ToLowerAt | src/network/FirewallRuleTranslator.ts:380-388 | lower-casing maps each of the 26 letters to its partner and leaves all else alone |
| JsText.DigitsLead | src/core/QMPClient.ts:253 | numbers are printed without leading zeros |
| JsText.SpacesAre | src/core/QMPClient.ts:570-573 | blanks, tabs and line ends are white space, printable characters are not |
| JsText.TrimTakesSpaces | src/core/QMPClient.ts:570-573 | trimming takes white space off both ends and nothing else |
| QmpCommands.RetryConnects | src/core/QMPClient.ts:752-772 | a wanted retry whose timer fires opens a socket, and its handshake connects with all retries left |
| QmpCommands.RetriesExactly | src/core/QMPClient.ts:752-772 | exactly the retries left are made, the last failed one arms none |
| QmpCommands.StepKeepsInv | src/core/QMPClient.ts:248-291 | every event keeps pending commands, timers and settlements in step |
| QmpCommands.RunKeepsInv | src/core/QMPClient.ts:248-291 | over every order of events each promise is settled at most once, by a reply only with its own id |
| QmpCommands.UnsettledIffPending | src/core/QMPClient.ts:265-291 | an issued id is unsettled iff it is pending iff its timer runs |
| QmpCommands.SettlementIsFinal | src/core/QMPClient.ts:685-716 | late replies, timers and closes never settle a command again |
| QmpCommands.CloseLeavesNonePending | src/core/QMPClient.ts:727-747 | a processed close settles every issued command |
| QmpCommands.DisconnectSettlesIff | src/core/QMPClient.ts:175-195 | `disconnect` settles a pending command iff there is a socket; what it leaves ends with its own timer and nothing else |
| QmpCommands.CommandOutlivesDisconnect | src/core/QMPClient.ts:175-188 | a socket error while a command waits, then `disconnect`: the command is still pending |
| QmpCommands.OutlivesCleanup | src/core/QMPClient.ts:780-795 | a command pending when the connection is lost by an error outlives every run up to its own timer |
| QmpCommands.PendingAfterRunIff | src/core/QMPClient.ts:248-291 | over any run a command is still pending iff no event settled it where it happened |
| QmpCommands.LostConnectionRetries | src/core/QMPClient.ts:727-772 | a connection lost by a close is retried iff retries are on, left and wanted; one lost by an error never, until the next `connect` |
| QmpCommands.ReplyReachesItsCommand | src/core/QMPClient.ts:685-716 | a reply settles the command of its id and touches no other |
| QmpCommands.ClosedForGood | src/core/QMPClient.ts:752-775 | once disconnected without a socket the client never connects or issues a command again |
| QmpCommands.QMPClient.ExecuteCommand | src/core/QMPClient.ts:248-291 | the id is new, pending with its timer iff the write worked and else settled; every other command is as it was; the invariant holds |
| QmpCommands.QMPClient.HandleResponse | src/core/QMPClient.ts:685-716 | the pending command the reply names is settled by it and no longer pending; every other command is as it was; the invariant holds |
| QmpCommands.QMPClient.RejectPending | src/core/QMPClient.ts:732-737 | the loop settles every pending command once and clears its timer |
| QmpCommands.QMPClient.HandleDisconnect | src/core/QMPClient.ts:727-747 | nothing is pending, all that was is settled as closed, a retry is armed iff one is on, left and wanted; the invariant holds |
| QmpCommands.QMPClient.Disconnect | src/core/QMPClient.ts:175-207 | no retry is left; with a socket nothing is pending and all that was is settled, without one nothing is settled; the invariant holds |
| QmpCommands.QMPClient.CommandTimeout | src/core/QMPClient.ts:265-271 | the command is settled as timed out and forgotten, every other is as it was; the invariant holds |
| QmpCommands.QMPClient.Cleanup | src/core/QMPClient.ts:780-795 | no socket and no retry timer remain, and no command is settled; the invariant holds |
| QmpCommands.QMPClient.Connect | src/core/QMPClient.ts:95-138 | opens a socket unless connected or closed for good, commands untouched; the invariant holds |
| QmpCommands.QMPClient.OnGreeting | src/core/QMPClient.ts:112-120 | connected with all retries left again if the socket is still there; the invariant holds |

## Left out

- JSON, SHA-256, UUIDs and wall-clock dates: messages are lines, rule hashes are the hashed value itself, ids are fresh and timestamps ordered; two backups created in the same millisecond are ordered by the listing.
- Chain names: generation of `vm_` names is not modelled; names are assumed distinct for distinct VMs and of equal length.
- Process and socket I/O: `qemu-img`, `nft`, fsync and sockets are abstract steps that may fail; creating, deleting and renaming are atomic between the failures named in the contracts.
- A crash of the host process between steps.
- The concurrency limit on backups: check and registration are separated by an await, so it is no invariant.
- BackupServices.BackupService.CreateBackup: assumes the destination is the VM's own backup directory; other destinations are found by a scan over all VMs that is not modelled. What the copy of a transient snapshot holds is an input of the create.
- BackupServices.BackupService.DeleteBackup: directories without any file and the best-effort removal of internal snapshots are not modelled.
- BackupInvariant.DeleteKeepsInv: is about the plain name of a backup's directory and a removal that goes through or fails before anything is gone, as are the deletes of runs and of retention; for every other string and failure `NamedDeleteKeepsInvIff` gives the exact condition.
- BackupFlights.FlightRunKeepsInv: a create in flight has written all its files; disks written one by one beside a delete are not modelled.
- RestoreService.RestoreBackup: SNAPSHOT backups (revert in place or materialize) and the creation of the target's directory are not modelled. Different targets must not share temporary names, no target may be a file that a later disk is restored from, and no other file may use the temporary names; a backup directory that moved is covered by the pre-flight results, not by this method.
- Restore.RestoreDiskFile: a failed `copyFile` may leave a partial copy that the code does not clean up; it is accounted for in `leaked`.
- Retention.EnforceRetention: every backup's id is the plain name of its directory; a removal that fails removes nothing; `createdAt` values that are not dates are not modelled, nor is an empty parent id, which the code treats as absent.
- LiveRead.LiveBackup.CreateBackup: SNAPSHOT backups need no live read and are not modelled there; disconnecting the guest agent, and a socket leaked by a connect that throws, are not observed; a snapshot call that throws after taking effect is not recorded by the code and not counted here; a copy that throws half way stays in the backup's directory, which the failure path removes.
- Matching of packets is modelled for the expressions the translator emits; IPv6, fragments and the base chains' own rules are not.
- ToLower covers ASCII only; protocol names in other scripts are rejected either way.
- The rule cache does not cover `createVMChain`, which may create a chain without updating the hash; files written by nft persistence and the conntrack probe are not modelled.
- The reply text of nft to a listing is modelled as a list of entries; a command that fails otherwise ends its operation.
- CpuPinning.SharePerNode: shares are exact integer floors; the code divides in floating point, which can round an exact share differently. Counts that are not whole numbers are not modelled.
- HybridPinning.SeededRandom.NextInt: the mulberry32 bit mixing is abstract; any sequence of fractions from 0 below 1 may come, as real numbers.
- CpuLists.ParseCpuList and the array parser use unbounded integers; ids beyond 2^53 are not modelled.
- QmpFraming.LineReader.HandleData: works on characters; a UTF-8 sequence cut between chunks and a `cleanup` while a chunk is processed are not modelled.
- QmpCommands.RunKeepsInv: replies and closes are heard only while a socket has its listeners; the greeting, the handshake messages and their timers are reduced to the event that completes them; numeric ids in replies count as unknown.
- Guest agent client, VM lifecycle, QEMU arguments, display, bridges, TAP devices and NAT: orchestration or one-branch validation that would add easy members only.
