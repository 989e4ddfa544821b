# Verified model of the emulator's protocols and data structures

A Dafny model of the parts of an x86 PC emulator whose correctness depends on many operations
together, and proofs about every input, every run or every reachable state of them:

- the in-memory Unix filesystem: the byte-range lock list (`Locks`), the directory graph with link
  counts (`Directory`), paths (`Paths`), file buffers (`Files`), the 9P message codec (`Codec`) and
  the directory stream (`DirStream`);
- the AHCI port: native command queuing (`AhciQueue`), the re-entrant command engine (`AhciPort`)
  and the physical region descriptor table (`Prdt`);
- the lazily loaded disk with its write overlay: blocks (`DiskImage`), the byte arrays that hold
  them (`DiskBuffer`), runs of these in bytes (`DiskRun`), snapshots and export (`DiskSnapshot`);
- cores that take turns on one block of CPU state (`Cores`), and the layout of that block
  (`StateLayout`);
- the ACPI tables and the loader script that links them (`AcpiLoader`, `AcpiEntries`, `AcpiTables`,
  `AcpiBuild`), the reader that finds them (`AcpiLocate`), and both ends together (`AcpiBoot`);
- the PM timer maximum that several threads share (`PmTimer`).

Where the source changes things in place, the model does: a class has the source's fields, each of
its methods is proved equal to a function of the old state, and the laws are proved of those
functions. Partners whose code is elsewhere (the ATA device, the disk, other threads, the firmware's
choice of addresses) may do anything at any time.

The main results:

- **Locks.** No run, whatever the order of the list, lets two owners overlap with one of them
  exclusive. From any list a granted request changes exactly the requester's bytes in its range if
  and only if the scan misses no region of another kind; in sorted lists it never does. With shared
  locks of two owners the list can lose its order, and then an unlock is silently ignored:
  `UnsortedRunFails` is such a run.
- **Disk.** For every sequence of reads, writes and arriving data every callback gets the bytes of the
  base image with all writes done by that moment, and every read is answered once or waits. So it is
  after a snapshot is restored while reads wait. The exported file
  is the overlaid disk if and only if no written block is the cut last one, which a snapshot may name
  (`ExportOfCutBlock`).
- **AHCI.** In every run from power-on each accepted tag has one pending job and completes at most
  once, a read after its data are in guest memory; after a stop, a reset, a removal or a failure no job of an older generation changes anything.
  `check_commands` ends from every state though completions re-enter it.
- **Cores.** Every run of the multiplexed machine is a run of N independent cores. Each span that
  INIT keeps is inside one range if and only if kept fields that touch have the same range name.
- **ACPI.** For every platform, all memory and all addresses that the firmware may choose: built,
  linked as the bytes of the loader file say, and looked for, just the tables that were built are
  found, at their addresses and with valid checksums.
- **Directories.** In every run link counts are the numbers of entries and attached directories are a
  tree. Each operation keeps the filesystem valid if and only if a condition that the source at
  most asserts holds: a new name to create or link, and for `Rename` that no directory is moved inside
  itself and that the old name is not "." or ".." (`CreateTwice`, `RenameIntoItself` and
  `RenameOwnDot` are examples).
- **Codec.** Messages of every kind are read back if and only if all values are in range. Marshall
  throws exactly at the first string that does not fit; Unmarshall leaves the offset inside the
  buffer if and only if that holds the whole message.
- **Timer.** Any number of threads see one maximum, linearizably: every call has an operation of its
  own, and there are no others.

`dafny verify dfyconfig.toml` checks the project with Dafny 4.11.

## Model

| member | source | states |
|---|---|---|
| `Locks.SafeMeaning` | lib/filesystem.js:1722-1730 | the cell-level safety of a list is that no region of it `conflicts_with` another, both directions |
| `Locks.ConflictMeaning` | lib/filesystem.js:1722-1730 | a request conflicts with a list exactly if granting it would put an incompatible pair of cells in force |
| `Locks.CellMeans` | lib/filesystem.js:1722-1730 | a list holds just the bytes from start on, as many as the length, of each of its regions |
| `Locks.CloneMeans` | lib/filesystem.js:1686-1715 | the copy that a call works on asks for the bytes the caller asked for, all of them for length 0 or Infinity, and for an unlock too |
| `Locks.LockStatus` | lib/filesystem.js:1820-1826 | from any list a request is refused exactly if a byte it asks for is locked incompatibly, and then changes nothing |
| `Locks.LockKeepsSafe` | lib/filesystem.js:1810-1941 | from any list, sorted or not, a call leaves well-formed regions, keeps safety, and adds no cell that was not asked for |
| `Locks.RunIsSafe` | lib/filesystem.js:1784-1941 | in every run no two owners overlap with one of them exclusive |
| `Locks.LockExact` | lib/filesystem.js:1828-1941 | from any list of well-formed regions a granted request sets exactly the requester's bytes in range to the requested kind and changes no other byte of any owner, if and only if every region of the requester in range that the scan misses is of that kind already |
| `Locks.DisjointLockExact` | lib/filesystem.js:1828-1941 | where each owner's regions are disjoint: if and only if no region of another kind comes after one that starts past the range |
| `Locks.SortedLock` | lib/filesystem.js:1828-1941 | from a sorted list with disjoint regions per owner every granted request meets that specification, the early return included |
| `Locks.LockKeepsNeat` | lib/filesystem.js:1828-1941 | a sorted, disjoint and maximally merged list stays so unless a shared lock is granted over another owner's region |
| `Locks.DisciplinedStep` | lib/filesystem.js:1810-1941 | one call in a run of one owner, or with exclusive locks only, is a step of the reference, status included |
| `Locks.DisciplinedRun` | lib/filesystem.js:1810-1941 | every such run refines the reference on sets of cells and keeps the list sorted, disjoint and merged |
| `Locks.EmptyList` | lib/filesystem.js:1676-1683 | the list every inode starts with meets the premises of the run theorems |
| `Locks.UnsortedRunFails` | lib/filesystem.js:1873-1878 | a run of shared locks of two owners after which an unlock is reported as done and is not |
| `Locks.LockList.GetLock` | lib/filesystem.js:1784-1802 | the first conflicting region, or none exactly if there is none |
| `Locks.LockList.Cut` | lib/filesystem.js:1854-1894 | one region of the requester is shrunk, split or deleted in place, and the index moves as in the source |
| `Locks.LockList.Subtract` | lib/filesystem.js:1829-1895 | the loop ends, and leaves the list that the scan of the specification leaves |
| `Locks.LockList.Insert` | lib/filesystem.js:1900-1922 | the request goes to its place, merged with a region before it |
| `Locks.LockList.MergeSubsequent` | lib/filesystem.js:1924-1937 | the next alike region is merged if it follows directly |
| `Locks.LockList.Lock` | lib/filesystem.js:1810-1941 | from any list: refused exactly for an incompatible byte, and then nothing changes; granted, it sets exactly the bytes that were asked for, if and only if the scan misses no region of another kind; safety is kept |
| `DiskImage.WriteBlockMeans` | src/buffer.js:318-334 | writing a block changes the image at that block only and keeps written and kept blocks disjoint |
| `DiskImage.SetMeans` | src/buffer.js:294-311 | a write patches the image |
| `DiskImage.FromCacheMeans` | src/buffer.js:161-187 | a read is served at once exactly if all its blocks are written or kept |
| `DiskImage.FromCacheAt` | src/buffer.js:196-205 | it gets what was written, and what was kept where nothing was |
| `DiskImage.FromCacheImage` | src/buffer.js:161-187 | a read served from the structures returns the image |
| `DiskImage.HandleReadMeans` | src/buffer.js:342-363 | loaded base data becomes the image, and the image stays what it was |
| `DiskImage.KeepBlocksMeans` | src/buffer.js:266-283 | keeping the blocks of a read leaves the image unchanged and every kept block equal to the base |
| `DiskImage.KeepBlocksKeep` | src/buffer.js:266-283 | just the blocks that are neither written nor kept are kept, with the data of the read, which is served at once next time |
| `DiskImage.HandleReadKeeps` | src/buffer.js:342-363 | loaded blocks are kept exactly on a disk that loads chunks; written and kept ones go over the loaded data |
| `DiskImage.WidenedWhole` | src/buffer.js:234-241 | on such a disk whole chunks are loaded |
| `DiskImage.StepRefines` | src/buffer.js:161-363 | every event keeps the structures consistent with a flat image and calls back with its contents |
| `DiskImage.EveryRunIsFaithful` | src/buffer.js:161-363 | for every interleaving of reads, writes and arriving data, every callback sees the base overlaid with all writes done by then |
| `DiskImage.EveryReadAnsweredOnce` | src/buffer.js:212-258 | reads answered plus reads waiting are the reads asked |
| `DiskImage.FreshDisk` | src/buffer.js:122-141 | a new disk means its base |
| `DiskBuffer.CallbackBytes` | src/buffer.js:212-258 | a callback that is faithful block by block delivers the bytes of the image |
| `DiskBuffer.BlocksInjective` | src/buffer.js:161-187 | the blocks determine the bytes, so the theorems on blocks are theorems on bytes |
| `DiskBuffer.LazyDisk.GetCachedBlock` | src/buffer.js:196-205 | a written block, else a kept one, else none |
| `DiskBuffer.LazyDisk.PutBlock` | src/buffer.js:318-334 | a block goes to its slot or a new one; slots stay a bijection onto 0..n-1, no other slot changes, and no waiting read is touched |
| `DiskBuffer.LazyDisk.Set` | src/buffer.js:294-311 | the byte arrays, with the waiting reads, take the Write step of the specification |
| `DiskBuffer.LazyDisk.GetFromCache` | src/buffer.js:161-187 | the bytes exactly if every block is present |
| `DiskBuffer.LazyDisk.PutOver` | src/buffer.js:342-363 | a loaded buffer overlaid in place is that of the specification |
| `DiskBuffer.LazyDisk.KeepRead` | src/buffer.js:266-283 | blocks neither written nor kept yet are kept |
| `DiskBuffer.LazyDisk.Get` | src/buffer.js:212-258 | a read is answered at once or waits for its widened range, as in the specification |
| `DiskBuffer.LazyDisk.Arrive` | src/buffer.js:212-258 | the arriving data of any waiting read is delivered as a step of the specification |
| `DiskRun.Handle` | src/buffer.js:212-311 | one call on the real structures: they mean the flat image with this call's write, if it is one, and a callback gets the slice of it in bytes; a read is answered at once exactly if all its blocks are present and else waits for its widened range, arriving data answers the read that waits for it, and nothing else changes which reads wait |
| `DiskRun.Run` | src/buffer.js:161-363 | for every sequence of reads, writes and arrivals on the real structures, on disks of any length, each callback gets exactly the bytes of the base with all writes made by then; for every range the reads answered and those waiting are those asked for and those that waited before |
| `DiskRun.RunFromStart` | src/buffer.js:122-363 | so it is from a new disk on |
| `DiskRun.Restore` | src/buffer.js:428-483 | a snapshot is restored while reads wait: they stay, and the disk means the base with the snapshot's blocks over it, from which any run goes on, if and only if these are whole blocks of the base |
| `DiskSnapshot.OrderDescribes` | src/buffer.js:405-423 | the block numbers in slot order with the slots' data describe the overlay |
| `DiskSnapshot.DistinctMeaning` | src/buffer.js:428-483 | the count of different numbers equals the length exactly if none is repeated |
| `DiskSnapshot.GetState` | src/buffer.js:405-423 | numbers and chunks from which the written blocks can be rebuilt |
| `DiskSnapshot.SetState` | src/buffer.js:428-483 | a snapshot is accepted exactly if its shape is right and no number repeats in a chunk taken over; then the disk is well formed and has the last data of each number; no waiting read is touched |
| `DiskSnapshot.SaveAndRestore` | src/buffer.js:405-483 | restoring a saved disk gives the same written blocks |
| `DiskSnapshot.GetAsFile` | src/buffer.js:806-850 | the parts joined are the overlaid disk at every byte, the bytes after the last whole block included, if and only if every written block is a whole block of the file; else they are too long |
| `DiskSnapshot.ExportOfCutBlock` | src/buffer.js:428-483 | for every disk that ends inside a block, a snapshot that names that block is accepted and its export is longer than the disk |
| `AhciQueue.StepValid` | src/ahci.js:1050-1192 | every event keeps: each active tag has exactly one pending job of the current generation, and no job completed twice |
| `AhciQueue.RunValid` | src/ahci.js:1050-1192 | so it is in every run |
| `AhciQueue.RunServed` | src/ahci.js:1103-1149 | in every run a completion is that of an accepted command, with its tag; a read has its data in guest memory before its completion, once, and no write has any |
| `AhciQueue.StepMeans` | src/ahci.js:1050-1192 | what an arrival, the end of a disk I/O and an abort do to tags, jobs, generation and guest memory |
| `AhciQueue.AbortValid` | src/ahci.js:726-733 | after an abort or a failure no pending job is of the current generation |
| `AhciQueue.StopKills` | src/ahci.js:726-733 | every job accepted before an abort or a failure is dead |
| `AhciQueue.DeadForever` | src/ahci.js:1103-1149 | a dead job puts neither data nor a completion into guest memory in any continuation |
| `AhciQueue.NewGenerationKills` | src/ahci.js:726-733 | whatever changed the generation, every job accepted before is dead |
| `AhciPort.Port.RunEvents` | src/ahci.js:592-1512 | for every sequence of register writes, resets, hot plug, device and disk events: the configuration and the presence of a drive are those the events give; the invariants hold (busy slot and command agree, a command and active tags exclude each other, a stopped list and an empty port have nothing in flight); no job completes twice; every job that is dead stays so and leaves no trace in guest memory, and from any moment on at which the generation has changed that goes for all jobs accepted before |
| `AhciPort.Port.GoOn` | src/ahci.js:592-1512 | an event and any events after it, from every port that a run from power-on can lead to: if the event stops the list, resets the port, is a COMRESET or removes the drive, then from it on nothing in the log is about a job accepted before it |
| `AhciPort.Port.constructor` | src/ahci.js:506-585 | a new port satisfies the premises of the run theorems, with nothing accepted or posted yet |
| `AhciPort.Port.CheckCommands` | src/ahci.js:883-904 | terminates though completions re-enter it; returns only when nothing is issued, a guard is false, or the lowest issued slot was fetched as a non-queued command and tags are active |
| `AhciPort.Port.StartCommand` | src/ahci.js:944-1036 | called on an active link with the lowest slot; by what is fetched: a bus error, an interface error, device control, the arrival of a tag, a command in execution, or, for a non-queued command behind active tags, a slot that waits with nothing changed |
| `AhciPort.Port.StartQueued` | src/ahci.js:1050-1131 | the slot is consumed, and the arrival of its tag is the next thing that happens to the queue, accepted exactly if the device queues, the tag is free, the range is on the disk and the data of a write can be read; else the list halts, with ABRT or IDNF as in the source |
| `AhciPort.Port.FinishJob` | src/ahci.js:1103-1149 | the end of the job is the next thing that happens to the queue; in its own generation a read has its data and then its completion posted, a write its completion, and a read without memory fails and halts the list; a job of an older generation changes no register, no command and no memory |
| `AhciPort.Port.NcqFailed` | src/ahci.js:1158-1172 | all tags are dropped, the generation changes, the list halts, and the first failure is kept for the log |
| `AhciPort.Port.PostSdb` | src/ahci.js:1181-1192 | exactly the completed tags leave PxSACT; PxTFD keeps its busy and DRQ bits |
| `AhciPort.Port.DeviceControl` | src/ahci.js:1263-1283 | the slot is consumed and other commands are looked at; if there are none, SRST makes the device busy and its falling edge resets it; invariants kept |
| `AhciPort.Port.SetDeviceControl` | src/ahci.js:1263-1283 | SRST makes the device busy; when it falls, and only then, the device is reset and posts its signature |
| `AhciPort.Port.Advance` | src/ahci.js:1315-1336 | drives a command through its phases, terminates, and keeps the invariants when completions re-enter it |
| `AhciPort.Port.AdvanceOnce` | src/ahci.js:1337-1398 | nothing while the device is busy; a packet before data, a DMA transfer once, else a block; a ready device ends the command |
| `AhciPort.Port.CompleteCommand` | src/ahci.js:1465-1493 | the slot is done, or stays issued with the list halted after an error; there is strictly less work left |
| `AhciPort.Port.HostBusError` | src/ahci.js:1505-1512 | command and tags are dropped, the list halts and HBFS is set |
| `AhciPort.Port.AbortCommand` | src/ahci.js:726-733 | no command and no tag is left and the generation changes |
| `AhciPort.Port.LinkReset` | src/ahci.js:611-629 | establishes the invariants; the link is up exactly if there is a device, which is reset; its signature is posted exactly with FRE, and waits for it otherwise |
| `AhciPort.Port.Reset` | src/ahci.js:592-608 | nothing is issued, no status is left and no pending job can complete any more |
| `AhciPort.Port.SetCommand` | src/ahci.js:844-880 | clearing ST drops every issued slot, tag and command |
| `AhciPort.Port.WriteCommand` | src/ahci.js:844-880 | invariants kept; after a stop no pending job can complete |
| `AhciPort.Port.WriteCi` | src/ahci.js:768-838 | slots are issued only with ST; invariants kept; what is left waits or a guard is false |
| `AhciPort.Port.WriteSact` | src/ahci.js:768-838 | tags are announced only with ST |
| `AhciPort.Port.ClearBits` | src/ahci.js:768-838 | writing PxIS clears just the bits written |
| `AhciPort.Port.WriteSctl` | src/ahci.js:768-838 | COMRESET leaves no command and no live job; disabling the interface takes the link down |
| `AhciPort.Port.BusMasterChanged` | src/ahci.js:883-904 | invariants kept; what is left waits or a guard is false |
| `AhciPort.Port.Attach` | src/ahci.js:672-699 | invariants kept with the new device; the link is up afterwards unless PxSCTL.DET holds it down |
| `AhciPort.Port.Detach` | src/ahci.js:701-713 | no device: no link, no command, no tag, and no pending job can complete |
| `AhciPort.Port.DeviceReady` | src/ahci.js:1305-1312 | invariants kept when the device's own I/O ends |
| `Prdt.PrdtSegments` | src/ahci.js:1522-1559 | throws exactly if the table in guest memory is shorter, or an entry or memory it uses is not there; else the segments, in order and none empty, all in memory, have for every byte the address the flattened table gives it |
| `Prdt.ServesMeans` | src/ahci.js:1522-1559 | when the table holds a transfer: it is long enough, every entry begun before the end can be read, and the memory of the part of it that is used is there |
| `Prdt.AddEntry` | src/ahci.js:1529-1552 | one entry adds the part of it that the transfer uses |
| `Prdt.EntryDecoded` | src/ahci.js:1531-1539 | for every DBA, DBAU, reserved word, flags and DBC: the address is DBA without bit 0, plus the signed DBAU * 2^32 with 64-bit addressing only, and the count is DBC + 1 |
| `Prdt.TableRead` | src/ahci.js:1529-1541 | entry i is that of the 16 bytes at 0x80 + 16 * i of the command table, and cannot be read exactly if these are not in memory |
| `Prdt.RangeInEntry` | src/ahci.js:1522-1559 | inside one entry addresses are consecutive |
| `Prdt.Transfer.TransferBlock` | src/ahci.js:1404-1444 | successive blocks cover one contiguous range whose length is `command.bytes`; a block that does not fit moves nothing |
| `StateLayout.CoreRanges` | gen/state_layout.js:316-342 | ascending ranges that do not overlap, inside the block |
| `StateLayout.RangesAreTheCoreState` | gen/state_layout.js:316-342 | the ranges hold every byte of core state and no byte of any other field |
| `StateLayout.CoreFieldCovered` | gen/state_layout.js:316-342 | every core field is whole in one range |
| `StateLayout.SameRangeSameName` | gen/state_layout.js:316-342 | fields of different range names are never merged |
| `StateLayout.InitPreserved` | gen/state_layout.js:403-413 | the spans of the specification |
| `StateLayout.KeptMeans` | gen/state_layout.js:403-413 | the spans are exactly the bytes of the fields marked to be kept |
| `StateLayout.InsideOneRange` | gen/state_layout.js:403-413 | every kept span is inside one range if and only if kept fields that touch have the same range name |
| `Cores.SaveCoreState` | src/cpu.js:1799-1805 | new arrays with the bytes of the ranges |
| `Cores.LoadCoreState` | src/cpu.js:1816-1825 | the ranges take the saved bytes, and no byte outside them changes |
| `Cores.InitState` | src/cpu.js:1554-1565 | in new arrays, every byte of a kept field is current and every other byte is the reset value |
| `Cores.StartValues` | src/cpu.js:1578-1587 | the little-endian bytes of vector << 8 and of vector << 12 |
| `Cores.StartedAt` | src/cpu.js:1578-1587 | a started core runs, with the vector times 0x100 in sreg[CS], times 0x1000 in segment_offsets[CS], instruction_pointer and previous_ip, and the rest of its state as before |
| `Cores.EventsMean` | src/cpu.js:1539-1591 | INIT in shutdown does nothing; after INIT the first core runs and another one waits, kept fields are current and all other bytes at reset; a start-up IPI, with INIT or later, starts a core that waits at its vector and does nothing to one that runs |
| `Cores.OthersDoNotMatter` | src/cpu.js:1521-1591 | what becomes of a core depends on its own operations and machine resets only |
| `Cores.Machine.constructor` | src/cpu.js:1490-1501 | all cores have the live state; core 0 runs, the others share the reset state |
| `Cores.Machine.SwitchCore` | src/cpu.js:1521-1533 | no core's state changes, nor a byte outside the ranges; exactly the active core has no saved state |
| `Cores.Machine.Init` | src/cpu.js:1548-1575 | the same effect on the target whether it is live or parked; it runs exactly if it is the first; no other core changes |
| `Cores.Machine.Start` | src/cpu.js:1578-1590 | the target becomes active with the start-up state; no other core changes |
| `Cores.Machine.TakeCoreEvents` | src/cpu.js:1539-1591 | INIT and start-up IPI act on the target alone, as on a core of its own; when it runs afterwards, and when it becomes the active core |
| `Cores.Machine.ResetCores` | src/cpu.js:1504-1518 | core 0 is active, runs and keeps its state, all others wait in the reset state |
| `Cores.Machine.Step` | src/cpu.js:1504-1591 | each operation does to each core what it does to a core of its own |
| `Cores.Machine.Run` | src/cpu.js:1490-1591 | every run is a run of N independent cores; the shared reset state and bytes outside the ranges never change |
| `AcpiLoader.LittleEndian` | src/acpi_tables.js:278-287 | the digits of a number, least significant first |
| `AcpiLoader.LeValue` | src/acpi_tables.js:278-287 | read back, the number modulo 256^size |
| `AcpiLoader.RunAvoids` | src/acpi_tables.js:849-867 | bytes that no command writes stay |
| `AcpiLoader.PointerLinked` | src/acpi_tables.js:849-861 | a pointer that one command writes becomes its value plus the base address |
| `AcpiLoader.ChecksumHolds` | src/acpi_tables.js:862-866 | a range sums to 0 modulo 256 if no later command writes to it |
| `AcpiEntries.EntryRoundTrip` | src/acpi_tables.js:770-790 | an entry is read as the command it was written for if and only if its numbers fit |
| `AcpiEntries.EntryLayout` | src/acpi_tables.js:770-790 | code, names, numbers and zone of every kind of entry are where the firmware looks for them |
| `AcpiEntries.ScriptRoundTrip` | src/acpi_tables.js:785-790 | so is a whole script |
| `AcpiTables.OthersAvoidPointer` | src/acpi_tables.js:849-867 | no other command of the script writes to a pointer |
| `AcpiTables.LaterAvoidTable` | src/acpi_tables.js:849-867 | no byte of a table is written after its checksum |
| `AcpiTables.TablePointerLinked` | src/acpi_tables.js:849-859 | the pointers of FADT, RSDT and XSDT become base plus the offset of their table |
| `AcpiTables.TableSumsToZero` | src/acpi_tables.js:862-864 | every table but the FACS sums to 0 |
| `AcpiTables.HeaderKept` | src/acpi_tables.js:849-867 | signatures and lengths stay |
| `AcpiTables.OthersKept` | src/acpi_tables.js:849-867 | linking changes no byte but pointers and checksum bytes |
| `AcpiTables.RsdpLinked` | src/acpi_tables.js:843-866 | the RSDP points to RSDT and XSDT and both its checksums hold |
| `AcpiTables.Table` | src/acpi_tables.js:591-602 | the signature, the length of the whole table, and the body in their places |
| `AcpiTables.TableHeader` | src/acpi_tables.js:591-602 | revision, empty checksum, OEM id, table id and creator in their places |
| `AcpiTables.RsdpRest` | src/acpi_tables.js:843-847 | the length of the RSDP and its empty checksums |
| `AcpiTables.FacsMeans` | src/acpi_tables.js:608-615 | the FACS is zeros but for its version |
| `AcpiTables.Texts` | src/acpi_tables.js:591-602 | signatures, OEM id and creator are these texts |
| `AcpiBuild.BuildAcpiTables` | src/acpi_tables.js:801-870 | the buffer is the tables one after the other with the FADT's pointers set; RSDP and script go with it |
| `AcpiBuild.FillTables` | src/acpi_tables.js:828-834 | every table at its offset, nothing in between |
| `AcpiBuild.SetFadtPointers` | src/acpi_tables.js:836-841 | only the four pointers of the FADT change |
| `AcpiBuild.WithPointersKeeps` | src/acpi_tables.js:836-841 | all other bytes of the FADT stay |
| `AcpiBuild.PartsWellMade` | src/acpi_tables.js:803-810 | the parts have their lengths in their headers, and one is the FADT |
| `AcpiBuild.FinalLaid` | src/acpi_tables.js:812-841 | what is built, up to 4 GiB of it, is laid out as the linking theorems take it |
| `AcpiBuild.LoaderReadsBack` | src/acpi_tables.js:849-869 | the firmware reads the script as it was meant, for tables of up to 4 GiB |
| `AcpiLocate.LinkingIsCorrect` | src/acpi_tables.js:801-870 | for every load address all pointers are addresses, all covered ranges sum to 0 and all headers are intact |
| `AcpiLocate.FindRsdp` | src/acpi_tables.js:886-894 | the first RSDP of the BIOS area, or none exactly if there is none |
| `AcpiLocate.CandidateMeans` | src/acpi_tables.js:886-894 | every 16 bytes of the last 128 KB below 1 MB |
| `AcpiLocate.LocateAcpiTables` | src/acpi_tables.js:879-925 | what the first RSDP leads to |
| `AcpiLocate.RootChosen` | src/acpi_tables.js:896-925 | the XSDT with 8-byte entries from revision 2 on, if it is there and below 4 GiB, else the RSDT with 4-byte entries |
| `AcpiLocate.EntriesAt` | src/acpi_tables.js:896-925 | every entry that is whole in the table and in memory is listed, in order |
| `AcpiLocate.ListingMeans` | src/acpi_tables.js:896-925 | only a FADT that is long enough leads to FACS and DSDT |
| `AcpiLocate.TableInMemory` | src/acpi_tables.js:879-925 | a table in memory is found with its signature and length, and its checksum is valid exactly if it sums to 0 or is the FACS |
| `AcpiLocate.TableOutside` | src/acpi_tables.js:879-925 | a header that is not all in memory gives "????"; no other table that leads out of memory is valid |
| `AcpiLocate.LinkedTablesFound` | src/acpi_tables.js:879-925 | in memory with linked files the RSDP is recognised, and XSDT, all listed tables, FACS and DSDT are found with valid checksums |
| `AcpiLocate.LocateLinked` | src/acpi_tables.js:879-925 | the reader returns what the first RSDP leads to, and that is just those if and only if no RSDP comes before |
| `AcpiBoot.Link` | src/acpi_tables.js:801-870 | the files that are built, linked by the commands decoded from the bytes of the loader file |
| `AcpiBoot.Boot` | src/acpi_tables.js:801-925 | for every platform, all memory and all addresses the firmware may give: the memory has just the built and linked files put into it, the reader finds in it what its first RSDP leads to, and that is exactly the tables that were built, with valid checksums, if and only if no other RSDP comes before; no signature of one in the memory before is enough |
| `AcpiBoot.BuiltMeans` | src/acpi_tables.js:801-841 | the tables that are built are those of the platform, in order, with RSDT and XSDT at the end |
| `Directory.LinkUnderExcess` | lib/filesystem.js:233-263 | linking keeps every link count equal to the number of entries that name the inode |
| `Directory.UnlinkFromExcess` | lib/filesystem.js:270-299 | so does unlinking |
| `Directory.CreateValid` | lib/filesystem.js:301-318 | a new inode under an attached directory keeps counts and tree if and only if its name is not taken and not "." or ".." |
| `Directory.CreateMeans` | lib/filesystem.js:301-318 | the new inode has the kind asked for, the name, and as a directory its two own entries; no other name, kind or count changes, but that of its directory |
| `Directory.LinkValid` | lib/filesystem.js:972-1000 | an error changes nothing; a hard link that is made keeps counts and tree if and only if its name is not taken and not "." or ".." |
| `Directory.LinkMeans` | lib/filesystem.js:972-1000 | a link is made exactly to what is not a directory; then the name leads to it, it has one link more, and no other name, kind or count changes |
| `Directory.CreateTwice` | lib/filesystem.js:246-250 | creating "a" twice leaves the first file with a link too many |
| `Directory.UnlinkValid` | lib/filesystem.js:1002-1038 | done exactly for a real name that is not a directory with entries; keeps counts and tree; an error changes nothing |
| `Directory.UnlinkOutcome` | lib/filesystem.js:1002-1038 | which error is returned, and exactly when |
| `Directory.UnlinkMeans` | lib/filesystem.js:1002-1038 | the name is gone, and the ".." of a directory; one link less; the inode is marked exactly if it had only this one; no other name changes |
| `Directory.RenameValid` | lib/filesystem.js:706-739 | an error changes nothing; counts and entries stay consistent for every old name but "." and ".."; a rename that is done keeps the filesystem valid if and only if the old name is neither and no directory is moved inside itself |
| `Directory.RenameMeans` | lib/filesystem.js:706-739 | the new name leads where the old one led, which is gone, and no other name changes |
| `Directory.RenameOutcome` | lib/filesystem.js:706-739 | which error is returned, and exactly when |
| `Directory.RenameKinds` | lib/filesystem.js:706-739 | no kind changes; only an inode that loses the new name as its last is marked |
| `Directory.RenameIntoItself` | lib/filesystem.js:731-736 | renaming "a" to "a/b" is done, and the directory leads nowhere |
| `Directory.RenameOwnDot` | lib/filesystem.js:706-739 | renaming the root's "." is done, and the root is an entry of itself |
| `Directory.RenameDots` | lib/filesystem.js:706-739 | a rename of "." or ".." that is done always leaves names or counts wrong |
| `Directory.RootedMoved` | lib/filesystem.js:731-736 | moving a directory keeps every directory reachable by ".." if and only if it does not go inside itself |
| `Directory.RootValid` | lib/filesystem.js:308-314 | the root alone is valid |
| `Directory.StepValid` | lib/filesystem.js:233-318 | every allowed operation keeps counts and tree |
| `Directory.RunValid` | lib/filesystem.js:233-318 | in every state of every run link counts are right and attached directories are a tree with root 0 |
| `Directory.FileSystem.LinkUnderDir` | lib/filesystem.js:233-263 | the state afterwards is that of the specification |
| `Directory.FileSystem.UnlinkFromDir` | lib/filesystem.js:270-299 | the state afterwards is that of the specification; a missing name changes nothing |
| `Directory.FileSystem.CreateNode` | lib/filesystem.js:301-318 | the new inode has the kind and the name, and no other name changes; counts and tree are kept if and only if the name was free and is not "." or ".." |
| `Directory.FileSystem.LinkFile` | lib/filesystem.js:972-1000 | EPERM exactly for a directory, and then nothing changes; else the name leads to the file and no other name changes; counts and tree are kept if and only if the name was free and is not "." or ".." |
| `Directory.FileSystem.IsEmptyDir` | lib/filesystem.js:1370-1382 | whether there is nothing but "." and ".." |
| `Directory.FileSystem.UnlinkName` | lib/filesystem.js:1002-1038 | counts and tree are kept; an error changes nothing; else the name is gone |
| `Directory.FileSystem.RenameNode` | lib/filesystem.js:706-739 | an error changes nothing; the filesystem stays valid if and only if the old name is not "." or ".." and no directory is moved inside itself |
| `Paths.ComponentsOfJoin` | lib/filesystem.js:1156-1162 | a path of names without slashes is taken apart into just these names |
| `Paths.SplitMeans` | lib/filesystem.js:1159-1159 | a string is taken apart at its slashes and nothing else |
| `Paths.ComponentsAround` | lib/filesystem.js:1158-1162 | a slash before and one after the names do not matter |
| `Paths.ComponentsDouble` | lib/filesystem.js:1158-1162 | one double slash is as good as a single one |
| `Paths.GetDirectoryName` | lib/filesystem.js:933-952 | the one name of a directory in its parent, in whatever order entries are visited; "." or ".." for the root |
| `Paths.GetFullPath` | lib/filesystem.js:954-964 | terminates, with the names from the root down |
| `Paths.SearchPath` | lib/filesystem.js:1156-1180 | where the names lead and, for any path but the empty one, where all but the last do; if one is missing, which |
| `Paths.PrintThenSearch` | lib/filesystem.js:954-964 | the printed path of a directory is found as that directory |
| `Paths.SearchThenPrint` | lib/filesystem.js:1156-1180 | the path of a directory that was found is printed as it was given |
| `Paths.FullPathRoundTrip` | lib/filesystem.js:954-964 | for every attached directory of a valid filesystem the path is its names from the root down, and leads back to it by way of its parent |
| `Files.WrittenMeans` | lib/filesystem.js:826-852 | every byte of a written file is from the buffer, from the old file, or zero |
| `Files.ResizedMeans` | lib/filesystem.js:1140-1154 | every byte of a resized file is the old one or zero |
| `Files.WriteThenRead` | lib/filesystem.js:826-852 | what was written is read back, and writing it again changes nothing |
| `Files.File.ChangeSize` | lib/filesystem.js:1140-1154 | the file is cut or filled with zeros; bytes beyond its size are zero |
| `Files.File.Write` | lib/filesystem.js:826-852 | the file is the written one though the buffer is over-allocated; bytes beyond its size are zero; throws exactly for an empty write at the start of a file without data |
| `Files.File.Reserve` | lib/filesystem.js:837-845 | a buffer large enough with the old contents and zeros after them; none exactly for an empty write at the start of a file without data |
| `Files.File.GetData` | lib/filesystem.js:1086-1104 | all bytes of the file in the range, and after its end only zeros; exactly those bytes if the range is in the file |
| `Files.File.Run` | lib/filesystem.js:826-852 | any sequence of writes and size changes acts as on a sequence of bytes, those that throw included |
| `Files.File.ReadRequest` | lib/9p.js:628-654 | the reply is exactly the slice of the file, cut to its size and to the reply buffer |
| `Codec.ItemRoundTrip` | lib/marshall.js:12-128 | one item is read back if and only if it is in range, and no more than it is read |
| `Codec.RoundTrip` | lib/marshall.js:12-128 | for every list of types and values: read back, consuming just what was written, if and only if all types are known and all values in range |
| `Codec.ItemWire` | lib/marshall.js:12-72 | on the wire numbers are of 1, 2, 4 or 8 bytes, low byte first, those of 8 with zeros above 32 bits; a string has its length before it, an id its type, version and path |
| `Codec.DecodeWire` | lib/marshall.js:76-128 | what is read from bytes that are there, as numbers low byte first |
| `Codec.QidIsNested` | lib/marshall.js:61-65 | the nested call writes the 13 bytes of a "Q" item |
| `Codec.Marshall` | lib/marshall.js:12-72 | for every buffer: the encoded values as far as they are in it and no other byte changed, or, exactly at the first string that does not fit, a throw with all items before it written |
| `Codec.Unmarshall` | lib/marshall.js:76-128 | for every buffer and offset the values the bytes give; if the buffer holds the message the decoded ones, and it does if and only if the offset is inside it afterwards |
| `Codec.CutIsSeen` | lib/marshall.js:76-128 | the offset after reading is inside the buffer if and only if every item was |
| `Codec.ReadWire` | lib/marshall.js:81-101 | a number that is cut by the end of the buffer is that of the bytes that are there |
| `Codec.ReadAllWhole` | lib/marshall.js:76-128 | a message that is all there is read as the decoder of the round trip reads it |
| `DirStream.EntryParts` | lib/filesystem.js:1317-1326 | an entry has the size that was computed for it |
| `DirStream.FillDirectory` | lib/filesystem.js:1298-1328 | the precomputed size is that of what is marshalled; the buffer is the entries in order, each with the offset of the next |
| `DirStream.DirectoryEdges` | lib/filesystem.js:1298-1328 | the stored offsets, read back, are exactly the boundaries of entries, if and only if the stream is shorter than 2^32 bytes |
| `DirStream.DirectoryLeads` | lib/filesystem.js:1317-1326 | what is read from an entry is where the next one begins, modulo 2^32 |
| `DirStream.RoundToDirentry` | lib/filesystem.js:1330-1350 | terminates with the greatest boundary that is not above the target, if the entries up to the target lead to one another |
| `DirStream.ReaddirRequest` | lib/9p.js:628-641 | from a boundary, up to the last boundary that was asked for and fits |
| `DirStream.ReadWholeEntries` | lib/9p.js:628-641 | the reply is a whole number of entries, the most that was asked for and fits, for every request that ends at the end of the stream or among entries below 2^32 |
| `PmTimer.StepValid` | src/acpi.js:787-798 | every step of any thread keeps: the cell is the maximum of the operations that took effect, each returned what the maximum was raised to; it never decreases |
| `PmTimer.Linearizable` | src/acpi.js:787-798 | in every run of any number of threads each call takes effect at one moment between its start and its return, as an operation that is no other call's; every operation is a call's |
| `PmTimer.NeverDecreases` | src/acpi.js:787-798 | the shared value never decreases |
| `PmTimer.Monotonic` | src/acpi.js:787-798 | a call returns at least its own ticks and no less than any call that returned before it began |
| `PmTimer.FailedTryDecreases` | src/acpi.js:787-798 | a compare-and-swap that fails strictly decreases what is left to raise |
| `PmTimer.Cell.SharedMax` | src/acpi.js:787-798 | terminates with other threads at work between any two steps; the result is a value that the cell had during the call, and not below the ticks |
| `PmTimer.Acpi.TimerTicks` | src/acpi.js:739-754 | never less than before, nor than the time; exactly the larger one if the timer is not shared, and a value of the shared cell if it is |
| `PmTimer.Acpi.ShareTimer` | src/acpi.js:765-772 | the shared maximum goes on from exactly what was read |

## Left out

- Mounts and forwarder inodes, renaming across filesystems, and the 9P request dispatcher other than read and readdir.
- Inodes and lock regions are values in a sequence, not shared objects; inode timestamps, modes, notifications, and the text encoding of names (strings are taken as their encoded bytes).
- Asynchronous filesystem operations run one at a time; that the storage backend may hand out its cached array is not modelled.
- Directory operations are given attached directories; runs are of operations that keep the filesystem valid.
- DirStream.ReadWholeEntries: a request that ends inside a stream and after an entry that crosses 2^32 bytes is excluded, because the offset in that entry does not lead to the next.
- Cores.Machine.TakeCoreEvents: the x87 shadow cache is taken as written back, and the cached state flags, which are recomputed, are not modelled.
- AhciPort.Port.TransferBlock: whether the PRDT holds a block is nondeterministic here; `Prdt` says when it does.
- The part-file disk, and the shape of the server's responses: loaded data has full length, with arbitrary bytes past the end of the image.
- Snapshots of older formats, and snapshot numbers that are not integers.
- AHCI: interrupt lines, the contents of FISes and logs, PRD byte counts in memory, BIST and port multipliers; the registers PxCI and PxSACT are sets of slots. The device's phases are nondeterministic, but it gives finitely many data blocks in a row.
- Cores: TLB, TSC, local APIC and x87 cache contents, derived state that is recomputed (the cached state flags), parallel workers and snapshots of cores. The field table is taken sorted by offset.
- ACPI: the bodies of the tables are arbitrary bytes; the firmware's allocator is a pair of addresses in the zones and with the alignment that the script asks for; AML is not modelled.
- The conversion of time to ticks in floating point; ticks are integers.
- All else the emulator does: CPU, graphics, network, floppy and other devices.
