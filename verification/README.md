# Progressive volume encryption, verified

A Dafny model of a driver and boot loader that encrypt or decrypt a live volume in place, batch by batch, while
reads and writes go on. The boundary between ciphertext and plaintext is kept in replicated metadata blocks, and
the boot loader serves the same half-encrypted disk between boots. The main theorem says that all of this together
is a plain disk: `Transparency.RunRefines`, over every run, including boots and power losses at exactly the points
where nothing is harmed. `Transparency.RunRefinesHarmed` covers power loss at every point of every batch, with the
exact harm at each, and `Harm.CrashTransparentExactly` says when that harm is none.

## How it is built

- `Volume` holds the state machine and the plain disk it refines. Sector `rel` of the plain view is the
  decrypted raw sector below the boundary and the raw sector above it. `Invariant` says what holds between steps
  and what a boot makes of a disk, `Harm` what power loss at any point does to the plain contents and exactly
  when it does nothing, `Transparency` proves every step and every run, `Progress` that the sweep ends.
- `Sweep` is the engine as a function with every I/O outcome explicit; `Crash` takes a batch or a direction
  change apart at each sector write, and `Resumption` follows a sweep through interruptions and boots. `Engine`,
  `AttachedVolume`, `VolumeThread` and `MetadataStore` are the objects that update state in place; each method's
  contract equates its effect with a step of those models. `IrpQueue` is the queue protocol with one shared
  access per step, and `ThreadSystem` joins it with the volume.
- `Store`, `Durability` and `Recovery` are replica writing, recovery and reopening; `Layout` the regions;
  `Metadata` and `GoSdk` the two encoders of the metadata block; `DataPath` the driver's prefix arithmetic and
  the loader's per-sector branch; `Gf128`, `Xts` and `Sectors` the cipher. `Standards` says octet by octet what
  cipher, key derivation and block format write and accept.
- `Base64`, `ConfigJson` and `TailClusters` are the loader's configuration and the relocation of clusters out of
  the volume's tail.

## What the results rest on

- AES is a permutation under each key; SHA-256, HMAC and CRC-32 are arbitrary functions of the right shape.
- A sector write is atomic; writes of one request reach the medium in order and may stop after any sector. How far
  each gets is the device's choice, fixed for its first request, its second and so on but otherwise arbitrary. A set
  of unreadable sectors stays the same.
- Requests stay inside the reported size; the driver checks only a request's first sector.
- The boundary loaded at attach is at most the data size. Nothing in the code clamps it; every state reached from
  a created volume satisfies it (`Invariant.FreshVolume`, `Transparency.RunRefines`).
- Both replica counts fit in one byte; `Durability.CreateAgrees` shows this is exactly what creation needs.
- At a boot the replicas' sectors can be read, and on a layout without footers the last data sector does not pass
  for a metadata block. The opening probes only the last sector and sector 0.
- Whole runs range over batches that complete, stop in their data write, or meet a power loss. A batch whose store
  fails while the driver runs on is described by `Crash.EncryptStaleCache`, `Crash.DecryptStaleCache`,
  `Crash.StaleWrite` and the resynchronisation and final-store results.

Where code and comments disagree the model follows the code: the vendor area of the block starts at byte 304 (a
comment says 316); without a thread, requests stay queued until the object is dropped (a comment says they are
completed directly); the known limitation noted for encryption also exists for decryption, with a wider window.

## Model

| member | source | states |
|---|---|---|
| Transparency.RunRefines | lib/windrv/src/filter/volume_thread.rs:268-332 | for every run mixing reads, writes, sweep batches of any size, direction changes, pauses, boots through the loader and power losses at recoverable points, every output and the final contents are those of a plain disk that saw the same writes |
| Transparency.RunRefinesHarmed | lib/windrv/src/offset/engine.rs:151-252 | for every run in which power is lost at any point of any batch and data writes stop anywhere, every output is that of a plain disk that suffers, at each such step, exactly the stated harm to one stretch of sectors |
| Harm.CrashTransparentExactly | lib/windrv/src/offset/engine.rs:151-252 | power loss leaves the plain contents as they were if and only if it strikes at a recoverable point, for every cipher that changes the batch's first sector |
| Harm.RecoverableIsNoHarm | lib/windrv/src/offset/engine.rs:151-252 | the condition, read off the disk and the stopping point, holds exactly when the harm is empty |
| Harm.CrashHarms | lib/windrv/src/offset/engine.rs:151-252 | after power loss at any point loader and driver come up on the old contents with exactly that harm, and the volume is in its invariant |
| Harm.StopHarms | lib/windrv/src/offset/engine.rs:200-203 | a data write that stopped while the driver runs on does exactly that harm and keeps the invariant |
| Harm.DamagedVolume | lib/windrv/src/offset/engine.rs:151-160 | a concrete created volume on which power loss before the first replica write turns its data sector from zeros to ones |
| Transparency.RunOnDisk | lib/windrv/src/offset/engine.rs:175-252 | after any run each data sector below the boundary is its plaintext enciphered exactly once under its own relative number, every other one is the plaintext |
| Transparency.StepRefines | lib/windrv/src/filter/volume_thread.rs:268-344 | each kind of step keeps the invariant and does to the plain view what the plain disk does |
| Transparency.ReadRefines | lib/windrv/src/filter/volume_thread.rs:413-466 | a read returns the plain view, also across the boundary, and an unreadable sector fails it as on the plain disk |
| Transparency.WriteRefines | lib/windrv/src/filter/volume_thread.rs:472-522 | a write that reached k sectors splices exactly the first k plaintext sectors into the view and touches no Metadata sector |
| Transparency.SweepRefines | lib/windrv/src/registry.rs:304-329 | a batch that completes or writes nothing leaves the view as it was, in either direction and with any batch size |
| Transparency.EncryptRefines | lib/windrv/src/offset/engine.rs:175-219 | an encrypting batch moves ciphertext, boundary, store, replicas and cache together |
| Transparency.DecryptRefines | lib/windrv/src/offset/engine.rs:221-252 | so does a decrypting batch |
| Transparency.StartRefines | lib/windrv/src/offset/engine.rs:92-110 | starting in either direction keeps the view and the boundary even when its replica writes stop early or the salt fails |
| Transparency.PauseRefines | lib/windrv/src/offset/engine.rs:134-141 | pausing changes nothing the user can see |
| Transparency.BootRefines | lib/windrv/src/filter/handover_mount.rs:152-263 | a clean reboot, with any loader reads and writes in between, is transparent |
| Transparency.CrashRefines | lib/windrv/src/offset/engine.rs:151-219 | power loss is transparent at every recoverable point, which is every point at which nothing is harmed: the batch does no work or wrote no data, an encrypting one got a replica written, a decrypting one did and no later replica carries more |
| Transparency.SweepFootprint | lib/windrv/src/offset/engine.rs:186-245 | a batch, however it ends, changes only sectors of its own stretch of the data region and Metadata sectors of replicas |
| Transparency.EncryptResyncs | lib/windrv/src/registry.rs:295-329 | the next completed encrypting batch restores agreement of engine, cache, store and replicas from any state, under the engine's boundary |
| Transparency.DecryptResyncs | lib/windrv/src/registry.rs:295-329 | the same while decrypting |
| Transparency.FinalStoreNotRetried | lib/windrv/src/offset/engine.rs:182-185 | with the boundary already at its end the sweep goes Idle without storing again, so a failed last store stays failed |
| Transparency.FinalStoreLost | lib/windrv/src/offset/engine.rs:205-218 | if no replica of the last encrypting batch got written, any amount of further sweeping leaves the next boot with the old boundary and exactly that batch reading as ciphertext |
| Transparency.FinalDecryptStoreLost | lib/windrv/src/offset/engine.rs:242-248 | the same for the last decrypting batch: the next boot recovers the old boundary and decrypts that batch a second time |
| Invariant.FreshVolume | lib/common/src/jvck/store.rs:201-245 | a freshly created volume is in the invariant and its view is what the disk held before |
| Invariant.BootsTo | lib/windrv/src/filter/handover_mount.rs:152-263 | booting any disk whose replicas validate serves and updates the view under the largest boundary they carry and re-establishes the invariant; with resume the sweep goes on in the first replica's direction if that end is not reached yet, otherwise it is Idle |
| Invariant.ReopenHeld | lib/common/src/jvck/store.rs:673-752 | reopening recovers geometry, header, keys, the largest boundary, and the direction of the first replica |
| Invariant.ReplicasHold | lib/common/src/jvck/store.rs:308-335 | rewriting a first few replicas with a boundary that does not go down, or all of them, makes it the recoverable one |
| Invariant.LoaderRunRefines | lib/loader/src/hook/mod.rs:160-227 | any sequence of loader reads and writes returns and updates the view of the half-encrypted disk and leaves the Metadata sectors alone |
| Volume.DriverReadsView | lib/windrv/src/crypto/pipeline.rs:29-48 | prefix decryption of raw sectors is the view, for every boundary inside the region |
| Volume.DriverWritesView | lib/windrv/src/crypto/pipeline.rs:50-67 | prefix encryption of a write splices the plaintext into the view, also when the write stops early |
| Volume.LoaderMatchesView | lib/loader/src/hook/mod.rs:160-227 | the loader's per-sector decisions give the driver's result on every request inside the region |
| Volume.EncryptKeepsView | lib/windrv/src/offset/engine.rs:186-205 | encrypting the next sectors and moving the boundary past them leaves the view unchanged |
| Volume.DecryptKeepsView | lib/windrv/src/offset/engine.rs:232-242 | decrypting the last sectors and moving the boundary before them leaves the view unchanged |
| Crash.EncryptCrash | lib/windrv/src/offset/engine.rs:151-219 | power loss in an encrypting batch: one replica written restores the whole view under the new boundary; otherwise the old boundary is recovered and exactly the written sectors of that batch read back as ciphertext |
| Crash.DecryptCrash | lib/windrv/src/offset/engine.rs:221-252 | power loss in a decrypting batch: the recovered boundary lies in the batch, exactly the written sectors below it are decrypted twice, all others are intact; none is damaged when all replicas were written |
| Crash.DecryptCrashBoundary | lib/common/src/jvck/store.rs:253-295 | the recovered boundary is the new one exactly when a replica was written and no later one carries more, the old one with none written, and the old one from agreeing replicas unless all were written |
| Crash.RecoveryAfterPrefix | lib/common/src/jvck/store.rs:253-295 | with replicas possibly unreadable or invalid, recovery after a prefix of replica writes returns the larger of old and new boundary as long as a written and an untouched replica validate |
| Crash.DecryptRecovery | lib/common/src/jvck/store.rs:253-295 | while decrypting, recovery returns the new boundary exactly when some replica validates and every one that does carries it, otherwise the old one |
| Crash.EncryptDamage | lib/windrv/src/offset/engine.rs:151-160 | ciphertext above an unmoved boundary: those sectors read as ciphertext, no others change |
| Crash.DecryptDamage | lib/windrv/src/offset/engine.rs:232-245 | plaintext below a boundary that came down too little: those sectors are decrypted twice, no others change |
| Crash.EncryptDisk | lib/windrv/src/offset/engine.rs:186-211 | the disk an encrypting batch leaves at each stopping point: data prefix, then replica prefix |
| Crash.DecryptDisk | lib/windrv/src/offset/engine.rs:232-244 | the same for a decrypting batch |
| Crash.BatchDiskHolds | lib/common/src/jvck/store.rs:308-335 | on such a disk the old boundary is recoverable with no replica written, the new one with all, or with some when it did not go down |
| Crash.SomeRecoverable | lib/common/src/jvck/store.rs:253-295 | when all replicas validate, recovery returns a boundary one of them carries and none exceeds |
| Crash.DirectionChangeAtomic | lib/common/src/jvck/store.rs:506-511 | power loss between any two replica writes of a direction change: the boundary is what it was, the direction the new one exactly if the first replica was written |
| Crash.EncryptStaleCache | lib/windrv/src/offset/engine.rs:205-211 | after a failed store the view is intact under the engine's boundary and shows exactly the batch as ciphertext under the cached one |
| Crash.EncryptPartialWrite | lib/windrv/src/offset/engine.rs:200-203 | a data write failing after n sectors moves nothing, leaves exactly those sectors reading back as ciphertext and keeps the invariant |
| Crash.DecryptPartialWrite | lib/windrv/src/offset/engine.rs:238-240 | the same while decrypting: those sectors read back decrypted twice |
| Crash.StaleWrite | lib/windrv/src/registry.rs:322-328 | a user write while cache and engine disagree comes out wrong, once they agree again, on exactly the written sectors between the two boundaries |
| Crash.DecryptStaleCache | lib/windrv/src/offset/engine.rs:242-244 | the same window while decrypting |
| Progress.EncryptTerminates | lib/windrv/src/offset/engine.rs:175-219 | the encrypt sweep is Idle at the end of the region after exactly ceil((total - boundary) / max(batch, 1)) successful batches and not one earlier |
| Progress.DecryptTerminates | lib/windrv/src/offset/engine.rs:221-252 | the decrypt sweep reaches 0 and Idle after exactly ceil(boundary / max(batch, 1)) successful batches |
| Progress.FullCycleRestores | lib/windrv/src/offset/engine.rs:92-252 | encrypting everything and decrypting it again with any two batch sizes restores the data region byte for byte, with every sector enciphered once in between |
| Progress.SweepsKeepView | lib/windrv/src/offset/engine.rs:161-173 | no number of successful batches changes the view |
| Resumption.InterruptedSweepEnds | lib/windrv/src/offset/engine.rs:92-252 | a sweep started in either direction, with any requests and any number of resuming boots between its batches, is Idle at that direction's end once as many batches ran as its distance calls for, and still running short of it before |
| Resumption.PausedStandsStill | lib/windrv/src/offset/engine.rs:134-173 | after a pause no number of batches changes anything but the mode |
| Resumption.StartsInAnyCase | lib/windrv/src/offset/engine.rs:92-110 | a start sets direction and mode even when its replica writes or the salt fail |
| Engine.EncryptionEngine.EncryptStep | lib/windrv/src/offset/engine.rs:175-219 | engine, store and disk end as the sweep model says for the outcome that happened, and for a batch with work to do that outcome is what the device and the random source decide; with neither failing it completes |
| Engine.EncryptionEngine.DecryptStep | lib/windrv/src/offset/engine.rs:221-252 | the same for decrypting |
| Engine.EncryptionEngine.ProgressStep | lib/windrv/src/offset/engine.rs:161-173 | dispatches on the mode, nothing happens when Idle or Paused; a readable batch completes unless the device or the random source fails it |
| Engine.EncryptionEngine.StartEncrypt | lib/windrv/src/offset/engine.rs:92-99 | direction persisted (errors ignored), then Encrypting unless nothing is left; a replica is missed only where the device failed its write |
| Engine.EncryptionEngine.StartDecrypt | lib/windrv/src/offset/engine.rs:103-110 | direction persisted (errors ignored), then Decrypting unless nothing is encrypted; a replica is missed only where the device failed its write |
| Engine.EncryptionEngine.Resume | lib/windrv/src/offset/engine.rs:115-132 | continues in the stored direction without rewriting it |
| Engine.EncryptionEngine.Pause | lib/windrv/src/offset/engine.rs:134-141 | only a running sweep is paused |
| Engine.EncryptionEngine.PersistBoundary | lib/windrv/src/offset/engine.rs:205-211 | the moved boundary reaches the store and as many replicas as the device lets through; it fails only without a salt or where the device failed a write |
| Engine.EncryptRange | lib/windrv/src/offset/engine.rs:191-203 | the read run is enciphered in place under its own numbers and written back in one request, which stops only where the device stops it |
| Engine.DecryptRange | lib/windrv/src/offset/engine.rs:236-240 | the same for decrypting |
| AttachedVolumes.AttachedVolume.SweepStep | lib/windrv/src/registry.rs:304-329 | one machine sweep step, the cache following only when the step returned Ok; the batch completes unless the device or the random source fails it; without a cipher nothing happens and the volume counts as idle |
| AttachedVolumes.AttachedVolume.ProcessRead | lib/windrv/src/filter/volume_thread.rs:413-466 | performs exactly the machine's read step; fails without one if the buffer cannot be mapped; hands out raw sectors if there is no cipher |
| AttachedVolumes.AttachedVolume.ProcessWrite | lib/windrv/src/filter/volume_thread.rs:472-522 | performs exactly the machine's write step and succeeds exactly when all sectors were written, which on the disk only the device can prevent; fails untouched if the buffer cannot be mapped; writes plain sectors if there is no cipher |
| AttachedVolumes.AttachedVolume.StartEncrypt | lib/windrv/src/ioctl/dispatch.rs:177-187 | performs exactly the machine's start step, a replica missed only where the device failed its write |
| AttachedVolumes.AttachedVolume.StartDecrypt | lib/windrv/src/ioctl/dispatch.rs:189-199 | performs exactly the machine's start step, a replica missed only where the device failed its write |
| AttachedVolumes.AttachedVolume.Pause | lib/windrv/src/ioctl/dispatch.rs:218 | performs exactly the machine's pause step |
| VolumeThreads.VolumeThread.Burst | lib/windrv/src/filter/volume_thread.rs:276-299 | at most 64 requests leave the queue oldest first; the machine takes exactly their steps in that order and each is answered once; on a device without faults every write on the disk succeeds |
| VolumeThreads.VolumeThread.Turn | lib/windrv/src/filter/volume_thread.rs:270-321 | a burst and then one sweep batch of 2048 sectors, as one run of the machine, and whether there was work; on a device without faults a readable batch completes |
| VolumeThreads.VolumeThread.ProcessIrp | lib/windrv/src/filter/volume_thread.rs:334-344 | one claimed request performs its step and reports what the step returned, or fails without one when its buffer cannot be mapped; a write on the disk fails only where the device does |
| VolumeThreads.VolumeThread.Enqueue | lib/windrv/src/filter/volume_thread.rs:210-232 | appended, or answered as cancelled once shutting down |
| VolumeThreads.VolumeThread.Drain | lib/windrv/src/filter/volume_thread.rs:323-330 | everything left is answered as cancelled in order |
| VolumeThreads.CompletedOnce | lib/windrv/src/filter/volume_thread.rs:282-296 | every request of a burst is answered exactly once, in order, as cancelled exactly if its claim found it cancelled |
| VolumeThreads.ServedTransparently | lib/windrv/src/filter/volume_thread.rs:268-332 | over any number of turns with their sweep batches, the results of all requests inside the reported size are the plain disk's |
| ThreadSystem.ServedInEveryInterleaving | lib/windrv/src/filter/volume_thread.rs:161-332 | in every interleaving of enqueuers, cancellation, stop, direction changes and the thread, the requests completed as processed get exactly the plain disk's answers, in the order they were popped and queued |
| ThreadSystem.InterleavingsRefine | lib/windrv/src/filter/volume_thread.rs:268-332 | volume and plain disk stay in step, queue and answers included, from any state of the protocol |
| ThreadSystem.AnswersInPopOrder | lib/windrv/src/filter/volume_thread.rs:282-296 | the answered requests are popped ones in the order they were popped |
| ThreadSystem.QueueAlone | lib/windrv/src/filter/volume_thread.rs:210-232 | the queue runs as it does alone, so every result about it holds beside the volume |
| ThreadSystem.ProcessedAreAnswered | lib/windrv/src/filter/volume_thread.rs:282-296 | whoever the protocol completes as processed was answered, and nobody else, in the same order |
| ThreadSystem.ThreadWork | lib/windrv/src/filter/volume_thread.rs:276-321 | a claimed request is performed and answered as it was made, a cancelled or unmappable one touches nothing, and between bursts exactly one batch of 2048 sectors runs |
| ThreadSystem.OtherWork | lib/windrv/src/ioctl/dispatch.rs:177-218 | a handler takes its step on the volume between two of the thread's; no other event of the queue touches it |
| IrpQueue.CompletedExactlyOnce | lib/windrv/src/filter/volume_thread.rs:161-232 | in every interleaving of enqueuers, cancellation, stop, the thread and drop no request is completed twice, and once nothing is in flight every presented one was completed exactly once |
| IrpQueue.AlwaysGood | lib/windrv/src/filter/volume_thread.rs:206-332 | every interleaving conserves requests and keeps the protocol invariant |
| IrpQueue.FirstInFirstOut | lib/windrv/src/filter/volume_thread.rs:283-296 | requests leave the queue in the order they entered it |
| IrpQueue.EmptyAfterExit | lib/windrv/src/filter/volume_thread.rs:213-218 | after the thread has exited the queue is empty and stays empty whatever enqueuers still do |
| IrpQueue.ExitIsQuiet | lib/windrv/src/filter/volume_thread.rs:323-331 | once the thread has exited and the enqueuers it raced have left nothing is in flight |
| IrpQueue.StopEndsThread | lib/windrv/src/filter/volume_thread.rs:161-168 | after stop every thread step brings exit nearer, nothing else puts it off, and only an enqueuer inside the lock can hold it up |
| IrpQueue.StopReturns | lib/windrv/src/filter/volume_thread.rs:161-168 | after stop the thread exits within two of its steps for each queued request and the rest of one turn, leaving the queue empty |
| IrpQueue.WithoutThreadRequestsWait | lib/windrv/src/filter/volume_thread.rs:126-129 | if thread creation failed queued requests wait until drop; none is completed directly |
| IrpQueue.EveryCompletionEarned | lib/windrv/src/filter/volume_thread.rs:213-296 | in every interleaving each completion was added by one step that justifies its status: processed only if claimed uncancelled, cancelled only if found cancelled at the claim or, under shutdown, turned away, drained or dropped |
| IrpQueue.ProcessedUnlessCancelled | lib/windrv/src/filter/volume_thread.rs:283-292 | without a stop and without a cancel of its own a request never completes as cancelled |
| IrpQueue.CancelTakesEffect | lib/windrv/src/filter/volume_thread.rs:237-249 | a request cancelled before its claim never completes as processed |
| IrpQueue.HeadIsClaimed | lib/windrv/src/filter/volume_thread.rs:268-332 | until stop, whenever the lock is free, the oldest request is in the thread's hand after at most six of its steps |
| IrpQueue.OthersDoNotOvertake | lib/windrv/src/filter/volume_thread.rs:210-232 | no event but a thread step moves the thread or puts a request before the oldest |
| IrpQueue.AtMost64 | lib/windrv/src/filter/volume_thread.rs:276-299 | between two batches the thread takes at most 64 requests, in every interleaving |
| IrpQueue.Takes64 | lib/windrv/src/filter/volume_thread.rs:276-299 | with as many waiting it takes exactly 64, in order |
| Store.ReplicasWritten | lib/common/src/jvck/store.rs:308-335 | replica writes put the block into the first k Metadata sectors and touch nothing else on the volume |
| Store.ReplicaWritesElsewhere | lib/common/src/jvck/store.rs:308-335 | data and vendor sectors keep their contents under replica writes |
| Store.BestIsMaximum | lib/common/src/jvck/store.rs:253-295 | the recovered boundary is carried by a replica that validates and exceeded by none |
| Store.FirstIsFirst | lib/common/src/jvck/store.rs:673-752 | the adopted replica is the first in order that unseals |
| Store.OpenFinds | lib/common/src/jvck/store.rs:536-568 | probing the last sector and then sector 0 finds the header and geometry of the volume |
| Store.ReopenRestores | lib/common/src/jvck/store.rs:673-752 | agreeing replicas give back exactly the state that was sealed |
| Store.JvckCbcFormatLawful | lib/common/src/jvck/codec.rs:183-212 | the default codec unseals what it sealed, for every header, payload and salt |
| Durability.Durable | lib/common/src/jvck/store.rs:394-512 | after any sequence of offset, direction, reserved-area and vendor writes the medium holds exactly the abstract store and reopening recovers the last of each |
| Durability.ApplyRefines | lib/common/src/jvck/store.rs:394-512 | each operation does to the medium what the abstract store says and keeps the replicas agreeing |
| Durability.ResealRefines | lib/common/src/jvck/store.rs:308-335 | re-sealing makes every replica carry the current state and changes no vendor or data sector |
| Durability.VendorWriteRefines | lib/common/src/jvck/store.rs:433-448 | a vendor write changes its own image only |
| Durability.VendorAllRefines | lib/common/src/jvck/store.rs:451-459 | mirroring changes the first n vendor images and nothing else |
| Durability.VendorLbaOk | lib/common/src/jvck/store.rs:394-419 | the byte-level checks accept exactly whole, non-empty sector ranges inside one vendor region |
| Durability.CreateAgrees | lib/common/src/jvck/store.rs:201-245 | a created store agrees with its medium and starts at 0 encrypting, exactly when both replica counts survive the cast to one byte |
| Durability.TooManyReplicasNeverRecovered | lib/common/src/jvck/store.rs:221-222 | with more than 255 replicas at one end no opening finds the volume's own geometry |
| Recovery.RecoversLast | lib/common/src/jvck/store.rs:485-512 | after any operations reopening finds the last offset, direction and reserved area stored, each the original if none was, and everything else unchanged |
| Recovery.VendorKeepsLast | lib/common/src/jvck/store.rs:394-459 | each vendor sector holds what the last write to cover it put there, or what it held |
| Recovery.DataUntouched | lib/common/src/jvck/store.rs:308-459 | no store operation touches a data sector |
| Recovery.RecoveryIsMaximum | lib/common/src/jvck/store.rs:253-295 | the recovered boundary is carried by a readable replica that verifies and unseals and exceeded by none of these, and recovery fails exactly when there is none |
| Recovery.AdoptsFirst | lib/common/src/jvck/store.rs:673-752 | keys and direction come from the first such replica, the boundary is the largest over all, header and geometry are the probe's |
| Recovery.ProbeOrder | lib/common/src/jvck/store.rs:536-568 | the last sector decides unless it can be read and does not verify, then sector 0; every error case by name |
| Recovery.CreateExactly | lib/common/src/jvck/store.rs:201-245 | creation succeeds exactly under the stated size and replica conditions, with every field of the created header and state |
| MetadataStoreClass.MetadataStore.WriteAllReplicas | lib/common/src/jvck/store.rs:308-335 | one salt, one block, one write per replica in order, stopping at the first one the device fails and only there |
| MetadataStoreClass.MetadataStore.Put | lib/common/src/jvck/store.rs:492-495 | the offset in memory moves first, then the replicas, of which only a failed write of the device keeps any back |
| MetadataStoreClass.MetadataStore.PutState | lib/common/src/jvck/store.rs:506-511 | the direction in memory moves first, then the replicas, likewise |
| MetadataStoreClass.MetadataStore.SetVendorReserved | lib/common/src/jvck/store.rs:472-479 | only the reserved area of the header changes |
| MetadataStoreClass.MetadataStore.LoadOffset | lib/common/src/jvck/store.rs:253-295 | the scan over all replicas returns the recovered maximum |
| MetadataStoreClass.MetadataStore.WriteVendorData | lib/common/src/jvck/store.rs:433-448 | a range outside the region fails and writes nothing, any other one writes a prefix of its sectors that only the device cuts short |
| MetadataStoreClass.MetadataStore.WriteVendorDataAll | lib/common/src/jvck/store.rs:451-459 | on success every replica's region received the sectors; on failure the regions before one replica did and that one a prefix, where the device failed |
| MetadataStoreClass.MetadataStore.ReadVendorData | lib/common/src/jvck/codec.rs:126-148 | returns the vendor image's sectors exactly when the range is inside it and readable |
| MetadataStoreClass.OpenReader | lib/common/src/jvck/store.rs:536-568 | the two-probe opening, error cases included |
| MetadataStoreClass.Open | lib/common/src/jvck/store.rs:187-195 | opens exactly when recovery succeeds and then holds exactly the recovered state |
| DataPath.PathsAgree | lib/loader/src/hook/mod.rs:160-227 | driver and loader give the same bytes, reading and writing, for every request meeting a condition on the request alone |
| DataPath.AgreeFromDataRegionOn | lib/windrv/src/filter/volume_thread.rs:370-378 | every request starting at or after the data region meets it when the boundary is inside the region, also one straddling the boundary or running into the footer |
| DataPath.DecisionsAgree | lib/windrv/src/filter/volume_thread.rs:370-378 | the condition holds if and only if both decide alike on every sector |
| DataPath.PathsDiffer | lib/loader/src/hook/mod.rs:160-227 | the condition is exact: some cipher makes the two paths differ on every request that misses it |
| DataPath.EitherPathRoundTrips | lib/windrv/src/crypto/pipeline.rs:29-67 | encrypting and then decrypting through either path is the identity on every request |
| DataPath.DecryptRead | lib/windrv/src/crypto/pipeline.rs:29-48 | decrypts in place exactly the prefix below the boundary |
| DataPath.EncryptWrite | lib/windrv/src/crypto/pipeline.rs:50-67 | encrypts in place exactly the prefix below the boundary |
| DataPath.DecryptAfterRead | lib/loader/src/hook/mod.rs:160-189 | decrypts in place exactly the sectors inside the encrypted span |
| DataPath.EncryptBeforeWrite | lib/loader/src/hook/mod.rs:197-227 | returns a fresh buffer with exactly those sectors encrypted, the caller's stays |
| DataPath.RequestInsideReportedSize | lib/windrv/src/filter/io.rs:173-245 | a request inside the reported size is never refused and stays inside the data region after the shift |
| DataPath.RouteExactly | lib/windrv/src/filter/io.rs:173-245 | only a user request that starts behind the data region is refused; every other one goes to the data region, shifted past the header |
| Gf128.HalvesEqualBytes | lib/common/src/xts.rs:113-121 | multiplication by alpha on two 64-bit halves is the byte-carry form on all 2^128 inputs |
| Gf128.AlphaIsX | lib/common/src/xts.rs:113-121 | it is multiplication by x modulo x^128 + x^7 + x^2 + x + 1 (IEEE Std 1619-2007, section 5.2) |
| Gf128.XtsGfMul | sdk/jvck.go:273-283 | the Go byte loop computes the same product in place |
| Xts.EncryptSectorInPlace | lib/common/src/xts.rs:160-211 | the 8-block batches and scalar tail equal the sequential definition for every buffer length |
| Xts.DecryptSectorInPlace | lib/common/src/xts.rs:213-260 | the same for decryption |
| Xts.Batch | lib/common/src/xts.rs:167-193 | all tweaks, whitenings and cipher calls of a batch done together equal eight sequential blocks |
| Xts.IndependentBlocks | lib/common/src/xts.rs:167-193 | a stretch whose blocks are each enciphered under their own power of the tweak is the sequential result |
| Xts.SequentialSplits | lib/common/src/xts.rs:160-211 | sequential processing splits at any block, the tweak advanced by as many steps |
| Xts.SectorInverse | lib/common/src/xts.rs:213-260 | decryption inverts encryption and the reverse, for every sector and length |
| Xts.EncryptAreaInPlace | lib/common/src/xts.rs:144-149 | each chunk is enciphered under its own sector number, a short last chunk included |
| Xts.DecryptAreaInPlace | lib/common/src/xts.rs:151-156 | the same for decryption |
| Xts.AreaSplits | lib/common/src/xts.rs:144-156 | processing an area splits at any sector boundary |
| Xts.DecryptAreaInvertsEncryptArea | lib/common/src/xts.rs:144-156 | area decryption inverts area encryption |
| Sectors.AreaOfSectors | lib/common/src/xts.rs:144-156 | the byte-level area is its sectors processed one by one |
| Sectors.XtsVolumeCipherValid | lib/common/src/xts.rs:61-74 | XTS is a length-preserving permutation of sectors for every sector number |
| Sectors.EncryptArea | lib/common/src/types.rs:161 | the first n sectors of a buffer are enciphered in place under consecutive numbers |
| Sectors.DecryptArea | lib/common/src/types.rs:164 | the same for decryption |
| Sweep.StandardConfigLawful | lib/common/src/xts.rs:123-131 | the default metadata format and AES-XTS meet every assumption the results make, given that AES is a permutation |
| Standards.SectorBlocks | lib/common/src/xts.rs:160-260 | block j of sector number rel is whitened on both sides by E2(rel, 128-bit little-endian) times x^j, octet by octet and for every sector number below 2^128, enciphering and deciphering; a short rest stays |
| Standards.StandardSector | lib/common/src/xts.rs:61-74 | the default suite is that, with AES under the first key on the data and under the second on the sector number |
| Bytes.LeBytesAt | lib/common/src/xts.rs:160-164 | octet k of a little-endian number x is x / 256^k mod 256 |
| Metadata.ParseInvertsEncode | lib/common/src/jvck/metadata.rs:168-252 | parsing recovers every header field from an encoded block, whatever was sealed and under whatever salt |
| Metadata.DecryptInvertsEncode | lib/common/src/jvck/metadata.rs:284-334 | decrypting under the same VMK recovers offset, direction and both keys |
| Metadata.HeaderFieldsApart | lib/common/src/jvck/metadata.rs:130-147 | the header fields are pairwise disjoint, apart from the payload and HMAC, and end before the checksum |
| Metadata.PayloadFieldsApart | lib/common/src/jvck/metadata.rs:88-94 | the payload fields are pairwise disjoint and leave the zero field alone |
| Metadata.EncodedCrc | lib/common/src/jvck/metadata.rs:261-278 | every encoded block passes the signature and checksum test |
| Metadata.EncodeInto | lib/common/src/jvck/metadata.rs:189-252 | filling the caller's buffer field by field gives the specified 512 bytes |
| Metadata.CbcInverse | lib/common/src/jvck/metadata.rs:284-334 | CBC decryption inverts encryption over any block permutation (section 6.2 of NIST SP 800-38A) |
| Metadata.ExpandPrefix | lib/common/src/jvck/metadata.rs:66-85 | a shorter HKDF output is a prefix of a longer one (section 2.3 of RFC 5869) |
| Standards.KeysOfBlock | lib/common/src/jvck/metadata.rs:66-85 | MAC key, encryption key and IV are HMACs of their ASCII labels and the octet 1 under HMAC(volume id and salt, VMK) |
| Standards.ExpandAt | lib/common/src/jvck/metadata.rs:66-85 | octets 32i to 32i + 32 of HKDF output are the HMAC of the previous 32, the info and the octet i + 1 |
| Standards.CbcAt | lib/common/src/jvck/metadata.rs:189-252 | ciphertext block i is the cipher of plaintext block i xored with ciphertext block i - 1, or with the IV |
| Standards.CbcPlainAt | lib/common/src/jvck/metadata.rs:284-334 | plaintext block i is the deciphered block i xored with ciphertext block i - 1, or with the IV |
| Standards.BlockLayout | lib/common/src/jvck/metadata.rs:189-252 | every octet of an encoded block: signature, header fields, salt, chained payload, HMAC, zeros, vendor area and checksum, each at its offset |
| Standards.ParseAccepts | lib/common/src/jvck/metadata.rs:168-278 | a header is read from exactly the blocks with the right size, signature and checksum, each field off its own octets; the three errors come in that order |
| Standards.UnsealAccepts | lib/common/src/jvck/metadata.rs:284-334 | a payload is opened from exactly those of them whose HMAC is right and whose plaintext starts with the signature and twelve zeros, and is read off that plaintext |
| Standards.SectorLayout | lib/common/src/jvck/store.rs:168-180 | a replica's sector is the sealed block and then zeros |
| GoSdk.HkdfExpand | sdk/jvck.go:110-124 | the hand-written loop ends and gives the HKDF output for every length, octet group by octet group as RFC 5869 writes it |
| GoSdk.GoDeriveKeys | sdk/jvck.go:126-143 | the three derived keys are those of the Rust side |
| GoSdk.EncodeMetadataBlock | sdk/jvck.go:145-193 | the Go encoder writes the same 512 bytes as the Rust one in the Encrypt state |
| GoSdk.EncryptSector | sdk/jvck.go:235-271 | the Go sector loop is the sequential XTS definition, block by block under the sector number's own tweak |
| Layout.Partition | lib/common/src/jvck/store.rs:76-154 | every sector of the volume is exactly one of data, the Metadata sector of one replica, a vendor sector of one replica |
| Layout.MetaLbas | lib/common/src/jvck/store.rs:81-101 | Metadata sectors lie on the volume, outside data and vendor regions, pairwise distinct |
| Layout.RegionsApart | lib/common/src/jvck/store.rs:103-123 | replica regions follow each other without overlap |
| Layout.RegionFitsMetadataSize | lib/common/src/jvck/store.rs:76-79 | a region is the metadata size in whole sectors, rounded down |
| Layout.RegionEdges | lib/common/src/jvck/store.rs:81-154 | where each Metadata sector and vendor region lies, counted from the front for headers and from the end for footers, and the data region between them |
| Layout.LbaListIsMetaLbas | lib/common/src/jvck/store.rs:81-101 | on an accepted layout the 64-bit LBA arithmetic does not wrap and lists exactly the Metadata sectors in replica order |
| Layout.MetadataSectorLbas | lib/common/src/jvck/store.rs:81-101 | the store's loop computes that list |
| Layout.GoMetadataSectorLbas | sdk/jvck.go:291-302 | the Go copy computes the same list |
| Layout.PrepareLbas | lib/windrv/src/ioctl/dispatch.rs:268-293 | the PREPARE copy computes the same list, and the geometry the store would |
| Base64.DecodeInvertsEncode | sample/common/src/config.rs:265-294 | decoding inverts the encoding of section 4 of RFC 4648 for every byte string, padded or not, whitespace anywhere |
| Base64.DecodeAccepts | sample/common/src/config.rs:265-294 | input is refused exactly when something other than a symbol or whitespace precedes the first pad; otherwise the output has one byte per eight bits |
| Base64.Decode | sample/common/src/config.rs:265-294 | the loop with its wrapping accumulator is the specified decoder |
| Base64.GroupBytes | sample/common/src/config.rs:285-291 | four symbols output their three bytes whatever the accumulator held |
| Base64.SymbolsOfAlphabet | sample/common/src/config.rs:266-283 | the symbols are exactly the 64 of RFC 4648 with their values, the whitespace exactly four bytes |
| Base64.SextetsOfGroup | sample/common/src/config.rs:285-291 | four symbols are the base-64 digits, most significant first, of three bytes |
| ConfigJson.ParseInvertsPrint | sample/common/src/config.rs:158-259 | every list of pairs is recovered from every printing of it, whatever escapes, raw bytes, whitespace, trailing comma or trailing bytes |
| ConfigJson.ParsesExactly | sample/common/src/config.rs:158-259 | the scanner accepts exactly the printings and gives back the list each one prints |
| ConfigJson.ShortEscapes | sample/common/src/config.rs:228-246 | the eight short escapes and their characters, and no other |
| ConfigJson.HexDigits | sample/common/src/config.rs:228-246 | the hexadecimal digits of either case and their values, and no other byte |
| ConfigJson.HexFour | sample/common/src/config.rs:228-246 | four of them are taken most significant first, and anything else is refused |
| ConfigJson.SurrogateRefused | sample/common/src/config.rs:228-246 | an escape of a surrogate is refused wherever it stands |
| ConfigJson.Writable | sample/common/src/config.rs:228-246 | every basic-plane code point but the surrogates has such a printing |
| ConfigJson.RawRecovered | sample/common/src/config.rs:251-255 | a string written raw is recovered if and only if it is all ASCII, for every length and every scalar value |
| ConfigJson.ReadsRaw | sample/common/src/config.rs:251-255 | any run without quote or backslash is read one code point per byte |
| ConfigJson.RawNonAsciiSplits | sample/common/src/config.rs:251-255 | a two-byte character comes back as two code points wherever it stands |
| ConfigJson.Parse | sample/common/src/config.rs:158-194 | the scanner loop is the specified one, error cases included |
| ConfigJson.ParseString | sample/common/src/config.rs:210-259 | the string loop is the specified one, escapes and errors included |
| ConfigJson.SkipWs | sample/common/src/config.rs:197-206 | skips exactly the run of whitespace |
| TailClusters.FreeClusterScanner.Next | sdk/volume_windows.go:386-408 | the chunked scan always returns the head of the naive scan and leaves its tail; it fails only where the volume refuses a bitmap query and ends early only where it cuts a reply short |
| TailClusters.FreeClusterScanner.LoadBitmap | sdk/volume_windows.go:410-445 | the loaded chunk answers for its clusters exactly and covers the one asked for, or is empty after a short reply; it fails exactly when the query is refused and then changes nothing |
| TailClusters.FreeFromExact | sdk/volume_windows.go:386-408 | the naive scan is strictly increasing and exactly the free clusters below the threshold |
| TailClusters.ChunkBits | sdk/volume_windows.go:447-454 | a bit of a chunk is the cluster's state |
| TailClusters.FindTailCluster | sdk/volume_windows.go:275-312 | finds the file's first cluster at or above the threshold or that there is none; it reports failure only if the file system refused a query or the file is empty |
| TailClusters.MoveSingleTailCluster | sdk/volume_windows.go:275-312 | moves that cluster to the first free one below the threshold that the volume does not refuse, or changes nothing and says which query or moves were refused |
| TailClusters.MoveToFree | sdk/volume_windows.go:290-302 | tries the free clusters in scan order: it stops at the first the volume takes, gives up after exactly 1024 refusals, and leaves the scan right behind the last one tried |
| TailClusters.MoveFileTail | sdk/volume_windows.go:257-266 | each success takes one cluster out of the tail, so the loop ends; with nothing refused it moves exactly as many as are in the tail or free below the threshold, whichever is fewer; every other end is traced to refused queries or 1024 refused moves; other clusters and other files stay |
| TailClusters.MoveTailClusters | sdk/volume_windows.go:236-273 | over any list of files, those that cannot be opened passed over, files keep disjoint clusters, one whose loop ended with nothing to move has none left in the tail, and the result says whether any file changed; with nothing refused every file that opens is emptied unless free clusters run out |
| TailClusters.VisitFile | sdk/volume_windows.go:244-270 | one visit of the walk changes only its own file, and says so exactly when it moved something |
| TailClusters.TailCountDrops | sdk/volume_windows.go:298-300 | a successful move lowers the tail count by exactly one |

## Left out

- AES, SHA-256, HMAC and CRC-32 internals; secrecy, authentication strength and key erasure are not claimed.
- Kernel and UEFI plumbing: device stacks, memory descriptors, pool allocation, protocol hooking, chain loading,
  handover tables.
- Authorization, IOCTL codes, message encodings, the client, progress polling and path handling: thin wrappers.
- Provisional volumes without keys and rebinding a filter from a provisional to a complete volume.
- Torn sectors and reordering of writes by the device.
- Sector numbers are unbounded naturals where the code uses 64-bit numbers; volumes are below 2^64 sectors, and
  wrap-around is modelled in the LBA lists.
- Error message texts; errors keep their kind only.
- GUID parsing and the choice of defaults around the configuration scanner.
- TailClusters.FreeClusterScanner.Next: assumes no other program allocates or frees clusters during the scan.
- TailClusters.FindTailCluster: a successful retrieval-pointer query whose reply is shorter than its header.
- TailClusters.MoveTailClusters: the directory walk that lists the files, and the shrink requests around it.
- VolumeThreads.VolumeThread.Burst: a supplier that yields no cipher to a running thread, and enqueuers running during
  the burst; the first is in the contracts of `AttachedVolume`, the second in `ThreadSystem`.
- VolumeThreads.VolumeThread.Turn: the idle wait and its timeout.
- GoSdk.EncodeMetadataBlock: the plaintext header is written by the same member as on the Rust side, since both
  languages write the same fields in the same order; that part of the equality holds by construction.
