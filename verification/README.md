# A verified model of the kernel's stateful core

This project models, in Dafny, the parts of the kernel whose correctness depends on state that
outlives a call, and proves what those parts are for:

- the FAT32 read and write path, from the bytes of disk sectors up to whole sessions of creates
  and unlinks, and down paths of any depth with short and long names (`FatChains`, `FatNames`,
  `FatDirectory`, `FatLayout`, `FatVolume`, `FatFiles`, `FatTheorems`, `FatUnique`, `FatDisk`,
  `FatDriver`, `FatListing`, `FatReader`, `FatTree`, `FatPaths`, `FatWriter`, `FatSession`,
  `FatImage`, `FatCases`);
- copy-on-write memory: fork by sharing, saturating reference counts, fault resolution, teardown,
  and the ELF loader as its client (`Memory`, `CopyOnWrite`, `AddressSpaces`, `Elf`, `ElfImage`,
  `FrameAllocator`);
- the process table, scheduler and signals (`Scheduler`), and the async executor with its timer
  list (`Executor`, `Timers`, with `Fifo` shared by executor and scheduler);
- two fast incremental forms of something simple: the double-buffered framebuffer
  (`Framebuffer`) and streaming SHA-256 (`Sha256`, `Sha256Vectors`);
- shared memory: the handles of the ipc module (`Shm`), and its frames on one machine with the
  copy-on-write memory of the processes (`ShmPool`, `ShmSharing`, `ShmView`);
- the account file over whole runs, and who can log in with it (`Accounts`, `Logins`).

`Options` and `Arithmetic` hold what the others share.

`dafny verify dfyconfig.toml` checks everything. Nothing here executes the kernel.

## How the model is built

Each component has functions on values that say what one operation does, lemmas about every
operation and every run, and, where the kernel updates state in place, a class or a method with
the same loops whose postcondition is that function. Devices are plain state: a disk is a
sequence of 512-byte sectors, physical memory is a map from frames to 4096 bytes, and a page
table is a map from pages to a frame and flags.

The assumptions that the code itself does not discharge:

- Every address space has page tables of its own, as the header of
  kernel/src/memory/address_space.rs says. The code of `clone_cow` copies upper table entries
  shallowly and drops the result of `map_to`, so it does not establish this by itself.
- FAT32 volumes are mounted well formed: the root and every live slot of the root own chains that
  stop and share no cluster, the table is no larger than the data area, live slots are short
  entries with padded upper-case names, and nothing but end marks lies behind the first end mark
  (`FatVolume.WF`, `FatDisk.Geometry.Fits`). All copies of the table agree (`FatDisk.Mirrored`).
- Reading or writing an existing sector succeeds, and each lock section is one atomic step.
- The copy-on-write results are about processes without shared regions. Beside shared regions the
  invariant holds for private pages as long as every process unmaps its regions before it forks or
  exits (`ShmSharing.CarefulRunSafe`), which `cleanup_pid` in kernel/src/ipc/mod.rs does not do.

Where a property turned out to be false of the code, the code was kept and the exact condition is
proved:

- a file is found again under the name it was created with if and only if the name does not end
  in a dot, and comes back whole if and only if it is not empty, below 4 GiB and at most
  1,000,001 clusters long (`FatTheorems.ReadsBackExactly`, with a run on every disk in
  `FatCases.DotNameLost` and a length in `FatCases.BigFileCut`);
- a create leaves one slot per name if and only if no root cluster in front of the one that holds
  the name has a deleted slot, because such a slot is taken first (`FatUnique.CreateUnique`, with
  a run on a disk of every geometry in `FatCases.DuplicateName`);
- after an unlink a short-named entry behind the removed one keeps its name in the listing if and
  only if the removed entry had no long name, or the same one, because `unlink_root` marks only the
  short slot (`FatListing.NextInheritsName`);
- no frame of a live shared region is ever free, and no two regions ever share one, if and only if
  no process is torn down while its address space still records a kernel-held frame whose count is
  used up (`ShmPool.RunBalancedExactly`, with a run in `ShmPool.SharedFrameLost`); it suffices
  that every process unmaps its regions before it forks or exits (`ShmSharing.CarefulRunSafe`);
- no wake is lost as long as at most 256 ids are marked at a time (`Executor.NoLostWakeUp`), and
  one is when 257 tasks are spawned at once (`Executor.SpawnStorm`);
- a wake of a live task is answered by a new poll if and only if it does not come during a poll
  that ends its task (`Executor.EveryWakeAnswered`, with a run in `Executor.WakeOfEndedTask`);
- a spawned task is polled within a fixed number of loop actions from the first drain of the spawn
  queue that finds its lock free (`Executor.SpawnPolled`), and not without one
  (`Executor.PolledNeedsDrain`); while a task wakes itself in each of its polls there is none
  (`Executor.SpawnStarves`);
- the processor halts beside a waiting spawned task only if the lock of the spawn queue was held at
  the check (`Executor.HaltsExactly`);
- a page of a loaded program is writable if and only if the first segment on it is, so data on a
  page of code cannot be written (`ElfImage.RightsOfFile`, with a file in
  `ElfImage.DataOnCodePage`);
- a sleep is at least as long as asked if and only if it was asked for at most one tick or for a
  whole number of ticks (`Timers.DeadlineExactly`, with 15 ms in `Timers.ShortSleep`);
- a fork leaves exact reference counts if and only if no count would pass 255
  (`Memory.ForkExact`, with a run of 254 forks in `CopyOnWrite.CountsSaturate`), and `map_alloc`
  does if and only if the page was not already mapped (`Memory.AllocatedExact`, with a run in
  `CopyOnWrite.FrameLeaks`);
- giving a frame back keeps the allocator's books if and only if the memory map offers the frame
  (`FrameAllocator.BitmapFrameAllocator.Deallocate`, with a run in `FrameAllocator.StrayFrame`);
- a scheduler step keeps the invariant if and only if it does not deliver a signal to a dead
  `current` from kernel mode (`Scheduler.HarmlessExactly`, with a run in
  `Scheduler.DeadProcessDiesAgain`);
- `commit` followed by `present` brings the screen up to date if and only if no pixel of an
  earlier, unpresented frame is missed (`Framebuffer.Fb.Flush`, with a run in
  `Framebuffer.TwoCommitsOnePresent`);
- the account file parses back to the list that was written if and only if every record is free
  of separators (`Accounts.RoundTrip`, with a record in `Accounts.ColonLost`).

The header comment of kernel/src/drivers/fat32.rs calls the driver read-only; the model follows
the code, which writes. An empty file gets first cluster 0, and reading it computes a sector
number from cluster 0 minus 2; the model calls that outcome `Fault`.

## Model

| member | source | states |
|---|---|---|
| `FatSession.Run` | kernel/src/drivers/fat32.rs:429-583 | each operation of any run of creates and unlinks succeeds exactly when its name has the 8.3 form and the volume at that moment has room, or the name; after the run the volume is well formed, every file created and not touched since reads back as its first bytes up to the 32-bit size, or faults if empty and errs beyond the read bound, reserved sectors and top bits are untouched, and a run without failures leaks no cluster |
| `FatSession.Execute` | kernel/src/drivers/fat32.rs:429-583 | one create or unlink succeeds exactly when the name has the 8.3 form and there is room for the file, or the name to remove; names it does not touch read as before either way |
| `FatWriter.CreateRootFile` | kernel/src/drivers/fat32.rs:429-459 | full if and only if the free clusters are fewer than the file needs, or as many and the root must grow too; success: the first bytes up to the length modulo 2^32 read back under every spelling of the name, or an error for an empty file and beyond the read bound, and all other names read as before; a full disk leaves all reads alone; the name is bad, and nothing changes, if and only if it is not one to eight letters, digits or permitted signs, then nothing, a dot, or a dot and up to three more |
| `FatTheorems.CreateReadsBack` | kernel/src/drivers/fat32.rs:341-349 | a created file reads back as its first bytes up to the length modulo 2^32, also when it replaced a file or the root grew; an empty one faults, and one beyond the read bound is an error |
| `FatTheorems.ReadBackWhole` | kernel/src/drivers/fat32.rs:455-458 | that is the whole file if and only if it is not empty, below 4 GiB and within the read bound |
| `FatTheorems.OthersReadTheSame` | kernel/src/drivers/fat32.rs:429-540 | every name not shown like the new one reads as before a create |
| `FatTheorems.ReadsBackExactly` | kernel/src/drivers/fat32.rs:625-644 | under its own name a file reads back like that if and only if the name does not end in a dot, and is not found otherwise |
| `FatTheorems.CreateSound` | kernel/src/drivers/fat32.rs:429-540 | a create keeps all chains stopping and disjoint, and the set of allocated but unowned clusters is unchanged: nothing leaks |
| `FatTheorems.CreateFreeCount` | kernel/src/drivers/fat32.rs:432-442 | the number of free clusters changes by the old chain minus the length divided by the cluster size rounded up, minus one if the root grew |
| `FatTheorems.CreateFrame` | kernel/src/drivers/fat32.rs:429-540 | no allocated cluster outside the root and the replaced file changes, in the table or on disk, so subdirectories and their files are left alone |
| `FatTheorems.FormattedSound` | kernel/src/drivers/fat32.rs:292-329 | a freshly formatted volume is well formed and no name is found on it |
| `FatUnique.CreateUnique` | kernel/src/drivers/fat32.rs:477-502 | one slot per name survives a create if and only if, on the volume before it, no root cluster in front of the one that holds the name has a deleted slot |
| `FatUnique.OneClusterUnique` | kernel/src/drivers/fat32.rs:477-502 | with a root of one cluster the taken slot always is the match, if there is one |
| `FatCases.DuplicateName` | kernel/src/drivers/fat32.rs:490-496 | on a valid disk of any geometry, with deleted slots in the first root cluster and the name in the second, a create succeeds and leaves the name twice |
| `FatCases.DotNameLost` | kernel/src/drivers/fat32.rs:625-644 | on a freshly formatted disk of any geometry, creating "A." succeeds and reading "A." finds nothing |
| `FatCases.BigFileCut` | kernel/src/drivers/fat32.rs:457-457 | a file of 4 GiB and a byte reads back as one byte |
| `FatImage.ImageIs` | kernel/src/drivers/fat32.rs:120-149 | every volume with the sizes of a geometry stands on a valid disk, in all copies of the table and sector by sector |
| `FatTheorems.UnlinkSound` | kernel/src/drivers/fat32.rs:557-583 | an unlink keeps the volume well formed, frees exactly the chain of the file, and leaks nothing |
| `FatTheorems.UnlinkOthers` | kernel/src/drivers/fat32.rs:557-583 | every other name reads as before an unlink |
| `FatTheorems.UnlinkFrame` | kernel/src/drivers/fat32.rs:557-583 | no cluster outside the root and the removed file changes |
| `FatTheorems.UnlinkGone` | kernel/src/drivers/fat32.rs:557-583 | the name is gone after an unlink if and only if no second slot showed it |
| `FatWriter.UnlinkRoot` | kernel/src/drivers/fat32.rs:557-583 | removes the first match in front of the end mark and its chain, or changes nothing and no slot has the name, or the name has not the 8.3 form |
| `FatWriter.UpsertRootDirEntry` | kernel/src/drivers/fat32.rs:464-540 | the chosen slot becomes the new entry and its old chain is freed; if no cluster offers a slot the root grows by a zeroed cluster; it fails only when no cluster is free |
| `FatWriter.ScanRoot` | kernel/src/drivers/fat32.rs:470-502 | the slot is the choice in the first root cluster that offers one |
| `FatDirectory.Choose` | kernel/src/drivers/fat32.rs:478-502 | in one cluster the first end mark or match wins, and failing both the first deleted short slot |
| `FatWriter.GrowRoot` | kernel/src/drivers/fat32.rs:528-537 | the lowest free cluster is linked behind the root chain and filled with zeros |
| `FatWriter.PutSlot` | kernel/src/drivers/fat32.rs:504-524 | exactly 32 bytes of one root cluster change, after the chain of a replaced slot is freed |
| `FatWriter.StoreFile` | kernel/src/drivers/fat32.rs:432-453 | the lowest free clusters are linked into one chain holding the bytes, zero-padded; it fails only when there are too few |
| `FatWriter.AllocChain` | kernel/src/drivers/fat32.rs:439-442 | first fit: distinct free clusters, each lower than every free cluster passed over |
| `FatWriter.LinkChain` | kernel/src/drivers/fat32.rs:443-446 | every cluster points to its successor and the last keeps its end mark |
| `FatWriter.FillChain` | kernel/src/drivers/fat32.rs:448-453 | cluster i holds the i-th piece of the data, no other cluster changes |
| `FatTheorems.ChunksCount` | kernel/src/drivers/fat32.rs:434-438 | the pieces are as many as the length divided by the cluster size, rounded up |
| `FatFiles.FlatChunks` | kernel/src/drivers/fat32.rs:449-453 | pieces read one after the other begin with the data |
| `FatWriter.PackShortName` | kernel/src/drivers/fat32.rs:625-644 | upper case, split at the first dot, 1 to 8 and up to 3 valid bytes, padded with spaces; an error if and only if the name has not the 8.3 form |
| `FatNames.PacksExactly` | kernel/src/drivers/fat32.rs:625-651 | a name packs if and only if it has the 8.3 form: one to eight letters, digits or permitted signs, alone or before a dot and up to three more |
| `FatNames.PacksInto` | kernel/src/drivers/fat32.rs:625-644 | base and extension stand in upper case in columns 0 and 8 of the packed name, with blanks behind each |
| `FatNames.ShownExactly` | kernel/src/drivers/fat32.rs:247-260 | the name shown for a packed name equals the original, ignoring case, if and only if it does not end in a dot |
| `FatNames.ShownOnce` | kernel/src/drivers/fat32.rs:310-312 | among canonical stored names only the packed name itself is shown like the name |
| `FatNames.PackShown` | kernel/src/drivers/fat32.rs:625-644 | every spelling of a shown name packs to the stored name |
| `FatDirectory.EntryFields` | kernel/src/drivers/fat32.rs:513-521 | name, cluster and size written into a slot are the ones read from it |
| `FatDirectory.LookupIs` | kernel/src/drivers/fat32.rs:195-200 | the lookup finds the first slot in front of the end mark that shows the name |
| `FatReader.ReadFile` | kernel/src/drivers/fat32.rs:292-349 | for any path that leads to no chain outside the table: the file at its end cut to its recorded size, or the error of the first step that fails |
| `FatTree.PathReadsFile` | kernel/src/drivers/fat32.rs:292-349 | down any number of directories laid out entry by entry, each component naming the first entry with that name in any case, a path reads as the bytes of the file's chain up to its size |
| `FatTree.WrongTurn` | kernel/src/drivers/fat32.rs:306-328 | behind an entry that such a path leads to, a further component is not found if the entry is a directory without that name, and an error of its own if it is a file |
| `FatReader.ReadsName` | kernel/src/drivers/fat32.rs:292-304 | a name that can be created is a path of one component, with or without a slash in front, and reads as the lookup in the root says |
| `FatReader.PathSplits` | kernel/src/drivers/fat32.rs:293-303 | splitting a path gives back the components it was put together from |
| `FatReader.OneComponent` | kernel/src/drivers/fat32.rs:306-328 | in the root of a well-formed volume a one-component path reads the slot that the lookup finds |
| `FatPaths.CreateKeepsPaths` | kernel/src/drivers/fat32.rs:429-540 | a create leaves every longer path through another name alone, if no chain on the way uses a cluster of the root or of the replaced file |
| `FatPaths.UnlinkKeepsPaths` | kernel/src/drivers/fat32.rs:557-583 | and so does an unlink |
| `FatPaths.KeptReads` | kernel/src/drivers/fat32.rs:292-349 | a path reads the same on two volumes that agree on all that is reachable along it |
| `FatListing.ParseDirEntries` | kernel/src/drivers/fat32.rs:190-278 | the listing of any directory bytes: end mark, deleted slots, labels and dot entries, long names gathered over slots, short names trimmed and checked for UTF-8 |
| `FatListing.DirectoryListed` | kernel/src/drivers/fat32.rs:190-278 | a directory of any entries, each a short slot with or without a long name laid out in front of it, between skipped slots, is listed as those entries in order, each under its own name with the directory flag, size and first cluster of its own bytes; what follows is listed as if it stood alone |
| `FatListing.DeletedIgnored` | kernel/src/drivers/fat32.rs:200-200 | a deleted slot can be left out wherever it lies, inside a long name too |
| `FatListing.NextInheritsName` | kernel/src/drivers/fat32.rs:557-583 | the short-named entry behind an unlinked one keeps its name if and only if the unlinked one had no long name or the same one; otherwise it is listed under that name |
| `FatListing.LongNameListed` | kernel/src/drivers/fat32.rs:202-247 | a name of up to 819 units, cut into slots as VFAT lays it out, is listed as its own text, whatever its short name |
| `FatListing.SortedStable` | kernel/src/drivers/fat32.rs:241-241 | the parts come out in order, and those with the same number in the order they came in |
| `FatListing.CanonicalShown` | kernel/src/drivers/fat32.rs:248-260 | the names of a well-formed root are shown byte by byte |
| `FatReader.ListingFinds` | kernel/src/drivers/fat32.rs:310-312 | searching the listing of a directory of short names finds the slot that the lookup finds |
| `FatDriver.ReadChain` | kernel/src/drivers/fat32.rs:152-187 | on any contained table, cyclic ones too, the exact bytes of a chain of at most 1,000,001 clusters, and an error in all other cases |
| `FatDriver.FreeChain` | kernel/src/drivers/fat32.rs:543-554 | it stops on every contained table, cyclic ones too, and zeroes exactly the clusters reachable from its start |
| `FatDriver.InRangeContained` | kernel/src/drivers/fat32.rs:142-148 | a table whose entries are in range and never lead to a bad cluster keeps every walk inside |
| `FatDisk.Fat32.NextCluster` | kernel/src/drivers/fat32.rs:125-149 | the low 28 bits of the entry in the first copy, unless they are an end mark, 0 or 1; past the table, the same of the word that stands there, or nothing past the disk |
| `FatDisk.NextInCopies` | kernel/src/drivers/fat32.rs:125-149 | a number past the table but inside its copies reads as the number modulo the length of the table |
| `FatDisk.Fat32.SetFatEntry` | kernel/src/drivers/fat32.rs:358-383 | one entry changes in every copy, all copies agree, the top four bits of all entries and all data stay; past the table the words at that distance from each copy are written, until one is past the disk |
| `FatDisk.Fat32.AllocCluster` | kernel/src/drivers/fat32.rs:386-409 | the lowest free cluster gets an end mark, or none is free and nothing changes |
| `FatDisk.Fat32.WriteCluster` | kernel/src/drivers/fat32.rs:412-421 | one cluster holds the data padded with zeros and nothing else changes; too much data is refused |
| `FatDisk.Fat32.ReadCluster` | kernel/src/drivers/fat32.rs:159-171 | the bytes of the sectors of the cluster, in order |
| `FatDisk.EntryWritten` | kernel/src/drivers/fat32.rs:369-378 | writing an entry of a sector keeps its top four bits and every other entry |
| `FatChains.PathPrefix` | kernel/src/drivers/fat32.rs:158-184 | from a cluster there is one way to go: every walk is a prefix of the chain that stops |
| `FatChains.EndsDistinct` | kernel/src/drivers/fat32.rs:158-184 | a chain that stops never meets a cluster twice |
| `FatLayout.AllocSound` | kernel/src/drivers/fat32.rs:439-446 | linking fresh clusters disturbs no chain and makes exactly them allocated and unowned |
| `FatLayout.GrowSound` | kernel/src/drivers/fat32.rs:528-537 | growing the root keeps all chains disjoint and the end marks behind everything |
| `FatLayout.PutSound` | kernel/src/drivers/fat32.rs:504-524 | replacing a slot and freeing its chain keeps all chains disjoint |
| `FatLayout.PutLost` | kernel/src/drivers/fat32.rs:504-524 | the old chain is free, the new one is owned, and no other cluster changes hands |
| `CopyOnWrite.RunRefinesEagerCopy` | kernel/src/memory/address_space.rs:231-323 | after any run of maps, forks, stores with faults and exits, every process sees byte for byte what it would see if every fork copied all pages |
| `CopyOnWrite.StepSimulates` | kernel/src/memory/cow.rs:29-100 | a step succeeds if and only if the copying machine allows it and memory does not run out, and then changes the views in the same way |
| `CopyOnWrite.Isolation` | kernel/src/memory/cow.rs:29-100 | nothing a process does changes what another process sees |
| `CopyOnWrite.ResolveInvisible` | kernel/src/memory/cow.rs:29-100 | resolving a fault changes no view |
| `CopyOnWrite.StoreSeen` | kernel/src/arch/x86_64/idt.rs:105-119 | a store through a writable page changes one byte of one view |
| `CopyOnWrite.StepKeeps` | kernel/src/memory/frame_refcount.rs:33-57 | every step keeps: counts equal the number of owners, a writable user page has one owner, every frame is free, kernel-owned or mapped and only one of these |
| `CopyOnWrite.CountsSaturate` | kernel/src/memory/frame_refcount.rs:40-47 | a run of forks from boot to 255 owners of a frame, after which every further fork of the process leaves a wrong count |
| `CopyOnWrite.FrameLeaks` | kernel/src/memory/address_space.rs:115-149 | a run after which mapping a mapped page takes a frame that nobody owns |
| `Memory.ForkExact` | kernel/src/memory/frame_refcount.rs:40-47 | counts are exact after a fork if and only if none would pass 255 |
| `Memory.ForkAlone` | kernel/src/memory/address_space.rs:264-286 | after a fork no page of parent or child is writable, and other writable pages still have one owner |
| `Memory.DestroyFrees` | kernel/src/memory/address_space.rs:326-339 | teardown releases exactly the frames whose last owner goes |
| `Memory.AllocatedExact` | kernel/src/memory/address_space.rs:115-149 | counts are exact after `map_alloc` if and only if it did not take a frame for a page already mapped |
| `Memory.MapKeeps` | kernel/src/memory/address_space.rs:115-149 | mapping a fresh zeroed frame keeps the invariant |
| `Memory.ResolveKeeps` | kernel/src/memory/cow.rs:53-97 | both ways of resolving a fault keep the invariant and leave the page writable |
| `Memory.ForkKeeps` | kernel/src/memory/address_space.rs:231-323 | a fork within the 255 bound keeps the invariant |
| `Memory.DestroyKeeps` | kernel/src/memory/address_space.rs:326-339 | teardown keeps the invariant |
| `AddressSpaces.FrameRefcount.Inc` | kernel/src/memory/frame_refcount.rs:40-47 | one count goes up by one, or stays at 255; the table grows on demand |
| `AddressSpaces.FrameRefcount.Dec` | kernel/src/memory/frame_refcount.rs:50-57 | one count goes down by one, or stays at 0; a frame beyond the table counts 0 |
| `AddressSpaces.FrameRefcount.Set` | kernel/src/memory/frame_refcount.rs:33-37 | one count takes the value, all others stay |
| `AddressSpaces.Kernel.MapAlloc` | kernel/src/memory/address_space.rs:115-149 | takes and counts a frame before the page table accepts or refuses the page |
| `AddressSpaces.Kernel.CloneCow` | kernel/src/memory/address_space.rs:231-323 | page by page: writable user pages of the parent become read-only and copy-on-write, the child maps the same frames, each counted once more |
| `AddressSpaces.Kernel.Destroy` | kernel/src/memory/address_space.rs:326-339 | frame by frame: each count goes down and a frame at zero is released |
| `AddressSpaces.Kernel.TryResolveCow` | kernel/src/memory/cow.rs:29-100 | a lone owner gets the page back writable, a shared one a private copy, anything else is refused |
| `AddressSpaces.Kernel.EnsureMapped` | kernel/src/memory/address_space.rs:192-206 | exactly the unmapped pages of the range read as zeros afterwards, with the rights asked for, all other bytes and rights stay; other processes keep their page tables and the frames they do not share with this one |
| `AddressSpaces.Kernel.WriteData` | kernel/src/memory/address_space.rs:153-188 | the bytes stand at their addresses across page borders, missing pages are zeroed around them and get the rights asked for, all other bytes and rights stay; other processes keep their page tables and the frames they do not share with this one |
| `AddressSpaces.SharersSee` | kernel/src/memory/address_space.rs:153-188 | after that, a process sees at a frame it shares with the writer what the writer sees there, also copy-on-write, and everywhere else what it saw before |
| `AddressSpaces.PrivateUnseen` | kernel/src/memory/address_space.rs:153-188 | if the writer shares no frame, no other process sees a change |
| `Elf.Load` | kernel/src/fs/elf.rs:76-166 | the verdict of the header and segment checks, or out of memory; on success every address of the space holds the byte of the segments laid in order over what was there, and every page the rights of the first segment on it unless it had some; other processes keep their page tables and the frames they do not share with this one |
| `Elf.Faithful` | kernel/src/fs/elf.rs:113-155 | in a fresh space with disjoint segments every address of a segment holds its file byte or zero, also on shared and crossed pages |
| `Elf.MappedExactly` | kernel/src/fs/elf.rs:136-141 | the mapped addresses are those mapped before and those on pages of segments, and no others |
| `ElfImage.VerdictOfFile` | kernel/src/fs/elf.rs:76-166 | an ELF-64 file written field by field from an entry point and program headers is accepted if and only if the entry is not 0 and every segment fits the file and the address range; then the answer is that entry and the largest end of a loaded segment |
| `ElfImage.FileRead` | kernel/src/fs/elf.rs:37-67 | from such a file the loader reads back exactly the headers that were written |
| `ElfImage.AcceptedIsFile` | kernel/src/fs/elf.rs:77-111 | every file whose header passes the checks, with its program headers behind the file header, is such a file |
| `ElfImage.LoadFile` | kernel/src/fs/elf.rs:76-166 | loading such a file succeeds exactly when it is accepted and memory does not run out; in a fresh space with disjoint segments every address of a segment holds its file byte or zero, and every page has the rights of the first segment on it |
| `ElfImage.RightsOfFile` | kernel/src/fs/elf.rs:127-141 | in a fresh space the pages with bytes of segments are user pages, writable if and only if the first segment on them is, and no other page is mapped |
| `ElfImage.DataOnCodePage` | kernel/src/fs/elf.rs:127-141 | code and data on one page: the writable segment cannot be written |
| `Elf.LoadSegment` | kernel/src/fs/elf.rs:121-154 | one program header is skipped, refused, or laid over the memory |
| `Elf.MapUserStack` | kernel/src/fs/elf.rs:170-184 | it succeeds if and only if the pages below the top were unmapped and there are frames for all of them; then they read as zeros and the stack pointer is 16 below the top; a failure keeps the pages made before it and loses at most one frame |
| `FrameAllocator.BitmapFrameAllocator.Serve` | kernel/src/memory/frame_allocator.rs:113-153 | any run of allocations and lawful frees moves the bitmap as a set allocator that hands out the smallest free frame |
| `FrameAllocator.RunConserves` | kernel/src/memory/frame_allocator.rs:113-153 | over any run free and held frames stay disjoint and their total is constant |
| `FrameAllocator.BitmapFrameAllocator.Allocate` | kernel/src/memory/frame_allocator.rs:113-142 | the smallest free frame, or none exactly when none is free |
| `FrameAllocator.BitmapFrameAllocator.Deallocate` | kernel/src/memory/frame_allocator.rs:144-153 | the frame is free afterwards, freeing a free frame changes nothing, and the invariant holds if and only if the frame is usable |
| `FrameAllocator.StrayFrame` | kernel/src/memory/frame_allocator.rs:144-153 | a run in which a frame is given back that the memory map does not offer, and the books are out of order |
| `FrameAllocator.BitmapFrameAllocator.MarkRangeUsed` | kernel/src/memory/frame_allocator.rs:101-110 | exactly the frames that touch the range leave the free set |
| `FrameAllocator.BitmapFrameAllocator.constructor` | kernel/src/memory/frame_allocator.rs:44-99 | free are the frames that lie inside a usable area and touch no reserved range |
| `FrameAllocator.SetLaw` | kernel/src/memory/frame_allocator.rs:174-175 | setting a bit of a byte leaves the other bits alone |
| `FrameAllocator.ClearLaw` | kernel/src/memory/frame_allocator.rs:174-176 | clearing a bit of a byte leaves the other bits alone |
| `Scheduler.RunKeeps` | kernel/src/task/process.rs:147-173 | in every harmless run a runnable process is current or queued, a sleeper has no unreported child, no process exits twice, and exit lists are in order |
| `Scheduler.HarmlessExactly` | kernel/src/task/preempt.rs:65-77 | a step keeps the invariant if and only if it does not deliver a signal to a dead current process |
| `Scheduler.DeadProcessDiesAgain` | kernel/src/task/signal.rs:69-85 | a run in which a kernel-mode tick changes the exit code of a zombie |
| `Scheduler.Elected` | kernel/src/task/process.rs:164-173 | an election yields a runnable process from the queue, or the queue held none |
| `Scheduler.BoundedWaiting` | kernel/src/task/process.rs:631-705 | a process that waits at queue position k and is not running now is elected within k + 1 elections, whatever happens meanwhile |
| `Scheduler.ElectionMoves` | kernel/src/task/process.rs:164-173 | an election picks the waiting process or moves it forward |
| `Scheduler.OtherStepsKeepPlace` | kernel/src/task/process.rs:147-153 | steps without an election keep its place |
| `Scheduler.ZombieStays` | kernel/src/task/process.rs:471-530 | a zombie keeps its code until its parent's wait returns exactly that child |
| `Scheduler.ReapedInOrder` | kernel/src/task/process.rs:514-530 | a parent reaps children in exit order with their codes, and no exit is repeated |
| `Scheduler.ForkReaped` | kernel/src/task/process.rs:425-530 | in every run, if a process forks or spawns a child and the child later ends by exit or signal while its parent is in the table, the parent's wait after those for the children it was told of before answers this child and its code, and no other wait of any process ever names it |
| `Scheduler.KilledDies` | kernel/src/task/signal.rs:41-85 | a signal to a live process makes it runnable, and the first tick that finds it running ends it with 128 plus the number of its oldest pending signal |
| `Scheduler.ProcessTable.PickNext` | kernel/src/task/process.rs:164-173 | drops queue entries up to the first runnable one |
| `Scheduler.ProcessTable.Insert` | kernel/src/task/process.rs:147-153 | a new pid, queued when runnable |
| `Scheduler.ProcessTable.Fork` | kernel/src/task/process.rs:425-465 | a runnable child of the current process with empty signal and exit lists |
| `Scheduler.ProcessTable.ExitCurrent` | kernel/src/task/process.rs:471-506 | the process is a zombie with its code, its parent is told and woken |
| `Scheduler.ProcessTable.WaitAny` | kernel/src/task/process.rs:514-530 | the oldest exited child leaves the table, or the caller goes to sleep |
| `Scheduler.ProcessTable.KillPid` | kernel/src/task/process.rs:532-546 | the signal is queued and a sleeper becomes runnable |
| `Scheduler.ProcessTable.ScheduleNext` | kernel/src/task/process.rs:631-678 | the elected process runs, or control returns to the kernel |
| `Scheduler.ProcessTable.Reschedule` | kernel/src/task/process.rs:682-740 | a current process that is still runnable goes to the back of the queue and the elected one runs |
| `Scheduler.ProcessTable.OnTimer` | kernel/src/task/preempt.rs:65-77 | a pending signal of the current process ends it, otherwise the processes switch |
| `Executor.ExactlyOneToken` | kernel/src/task/executor.rs:102-136 | in every interleaving, queue entries plus popped plus marked-not-pushed is 1 for a marked id and 0 otherwise |
| `Executor.QueueOf` | kernel/src/task/executor.rs:168-186 | the queue holds only marked ids, each once |
| `Executor.PushFits` | kernel/src/task/executor.rs:168-186 | with at most 256 marked ids a push finds room |
| `Executor.RunRoomy` | kernel/src/task/executor.rs:168-186 | with at most 256 ids marked at a time no push of a run ever overflows |
| `Executor.SpawnStorm` | kernel/src/task/executor.rs:88-99 | a run in which 257 tasks are spawned before a drain: the last one is live and woken, but neither queued nor held by a call |
| `Executor.NoLostWakeUp` | kernel/src/task/executor.rs:153-186 | with at most 256 ids marked at a time, a wake of a live task that no poll has answered yet is queued, about to be pushed, or popped for its poll |
| `Executor.RankDrops` | kernel/src/task/executor.rs:102-136 | every action of the loop that does not start the poll of a woken live task brings it closer, and no other step puts it off |
| `Executor.PolledInTime` | kernel/src/task/executor.rs:102-136 | as many loop actions as its rank start the poll, if and only if it is not being polled to its end at the time |
| `Executor.EveryWakeAnswered` | kernel/src/task/executor.rs:102-186 | in every run with at most 256 ids marked at a time, a wake of a live task is followed by a poll that starts after it, within a fixed number of loop actions once the waker has pushed, if and only if it is not ended by the poll under way |
| `Executor.SpawnPolled` | kernel/src/task/executor.rs:88-136 | in every run with at most 256 ids marked at a time, a spawned task is polled within a fixed number of loop actions after the first drain that finds the lock free, once the call of that drain has marked and pushed |
| `Executor.PolledNeedsDrain` | kernel/src/task/executor.rs:88-99 | before such a drain it is not polled |
| `Executor.SpawnStarves` | kernel/src/task/executor.rs:80-136 | runs of any length without such a drain, although the lock is always free: a task that wakes itself in each poll keeps the loop popping |
| `Executor.HaltsExactly` | kernel/src/task/executor.rs:126-139 | the processor halts exactly at an idle check with an empty queue and no spawned task seen; with one waiting, only if the lock was held |
| `Executor.WakeOfEndedTask` | kernel/src/task/executor.rs:104-123 | a run in which a task wakes itself during the poll that ends it, and is not polled again |
| `Timers.WokenOnceAtFirstDueTick` | kernel/src/time/sleep.rs:30-82 | an entry is woken once, at the first scanned tick after registration and not before its deadline |
| `Timers.NeverEarly` | kernel/src/time/sleep.rs:61-81 | a sleep is ready only at or after its deadline |
| `Timers.WokenThenReady` | kernel/src/time/sleep.rs:61-81 | after its wake the next poll is ready |
| `Timers.ScanPartitions` | kernel/src/time/sleep.rs:30-45 | the scan splits the list into due entries, fired and woken, and the others, kept |
| `Timers.RetainDue` | kernel/src/time/sleep.rs:30-45 | the loop over the list computes the scan |
| `Timers.DeadlineExactly` | kernel/src/time/sleep.rs:47-51 | the deadline is later than now, less than a tick short of the time asked for and never later than it, except that it is one tick away at least; and, short of saturation, not short of it if and only if that is at most one tick or a whole number of ticks |
| `Timers.ShortSleep` | kernel/src/time/sleep.rs:47-51 | 15 ms give a deadline one tick of 10 ms away |
| `Timers.WakesLatestPoll` | kernel/src/time/sleep.rs:61-81 | the wake goes to the waker of the latest poll of the sleep |
| `Framebuffer.Session` | kernel/src/drivers/fb.rs:261-332 | with every commit followed by its present the scanout shows what a single buffer held at the last frame |
| `Framebuffer.Fb.Flush` | kernel/src/drivers/fb.rs:261-332 | commit and present update the screen if and only if no pixel of an unpresented frame is missed |
| `Framebuffer.TwoCommitsOnePresent` | kernel/src/drivers/fb.rs:261-332 | draw, commit, draw, commit, present: the scanout of the framebuffer does not show the picture, the first pixel is missing |
| `Framebuffer.Fb.Commit` | kernel/src/drivers/fb.rs:261-299 | the buffers trade places, both hold the whole picture, and nothing is dirty |
| `Framebuffer.Fb.Present` | kernel/src/drivers/fb.rs:303-332 | exactly the pixels of the ready rectangle are copied to the scanout |
| `Framebuffer.Fb.MarkDirty` | kernel/src/drivers/fb.rs:136-153 | the dirty rectangle grows to cover the clamped one and keeps what it covered |
| `Framebuffer.Fb.PutPixel` | kernel/src/drivers/fb.rs:156-161 | one pixel of the picture changes, and buffers differ only inside the dirty rectangle |
| `Framebuffer.Fb.FillRect` | kernel/src/drivers/fb.rs:163-175 | the picture is filled inside the clamped rectangle, and buffers differ only inside the dirty rectangle |
| `Framebuffer.Fb.BlitChar` | kernel/src/drivers/fb.rs:185-231 | the picture shows the glyph at the text scale, in the fast and the scaled path alike |
| `Framebuffer.LitOrder` | kernel/src/drivers/fb.rs:200-205 | the highest bit of a row is its leftmost dot, and a shift to the left by one bit moves all dots one column to the left |
| `Framebuffer.Fb.ScrollUp` | kernel/src/drivers/fb.rs:235-247 | the picture moves up inside the bound and the freed lines are cleared |
| `Framebuffer.Start` | kernel/src/drivers/fb.rs:447-504 | after the first clear and frame the scanout is blank and all buffers agree |
| `Sha256.HashChunks` | kernel/src/crypto/sha256.rs:56-176 | any split of a message into updates gives the hash of sections 5.1.1 and 6.2.2 of FIPS 180-4, with the bit length modulo 2^64 |
| `Sha256.Hasher.Update` | kernel/src/crypto/sha256.rs:61-91 | the state is that of the message extended by the data |
| `Sha256.Hasher.Finalize` | kernel/src/crypto/sha256.rs:93-119 | the hash of everything fed so far, with one or two padding blocks |
| `Sha256.Compress` | kernel/src/crypto/sha256.rs:121-168 | the 64 rounds on rotating variables compute the compression of the recurrence |
| `Sha256.Expand` | kernel/src/crypto/sha256.rs:121-136 | the array filled in place is the message schedule |
| `Sha256.AbsorbConcat` | kernel/src/crypto/sha256.rs:61-91 | absorbing whole blocks in two parts is absorbing them at once |
| `Sha256.LengthWraps` | kernel/src/crypto/sha256.rs:93-119 | a byte counter that wraps at 2^64 still gives the length field |
| `Sha256.PaddedLength` | kernel/src/crypto/sha256.rs:93-119 | a padded message is a whole number of blocks |
| `Sha256Vectors.Constants` | kernel/src/crypto/sha256.rs:19-34 | each round constant is the first 32 bits of the fractional part of the cube root of its prime, and each initial word that of the square root |
| `Sha256Vectors.DigestOfAbc` | kernel/src/crypto/sha256.rs:203-208 | the digest of "abc" that the tests expect |
| `Shm.RunKeeps` | kernel/src/ipc/mod.rs:67-207 | in every reachable state counts equal live mappings, mappings of a process do not overlap, and released handles are gone |
| `Shm.ReleasedWithLastMapping` | kernel/src/ipc/mod.rs:172-310 | a region leaves the table exactly with its last mapping, and its frames are released then |
| `ShmPool.RunBalancedExactly` | kernel/src/memory/address_space.rs:326-348 | in any run of ipc calls, mappings, forks, faults and teardowns, no frame of a live region is ever free and no two regions share one, if and only if every teardown finds no kernel-held frame recorded whose count is used up |
| `ShmPool.StepExact` | kernel/src/memory/address_space.rs:326-339 | the same for one step |
| `ShmPool.SharedFrameLost` | kernel/src/ipc/mod.rs:279-310 | a run: two processes map a region, one exits without unmapping and is waited for; the frame is free while the region lives, and the next region gets it too |
| `ShmSharing.CarefulRunSafe` | kernel/src/ipc/mod.rs:172-207 | if every process unmaps its regions before it forks or exits, all teardowns are clean, no process ever maps a free frame, and private pages keep the copy-on-write invariant |
| `ShmSharing.StepSafe` | kernel/src/ipc/mod.rs:67-310 | the same for one step |
| `ShmSharing.StartSafe` | kernel/src/ipc/mod.rs:56-60 | the state at boot is one from which this holds |
| `ShmView.MappersShare` | kernel/src/ipc/mod.rs:97-170 | after any careful run in which two processes keep a region mapped, both see the same byte at every offset of it |
| `ShmView.StoreShared` | kernel/src/ipc/mod.rs:97-170 | a store through one mapping is seen at that offset through every other |
| `ShmView.MapAnswers` | kernel/src/ipc/mod.rs:97-170 | a successful call leaves the mapping at the address it answers, on pages with the rights asked for |
| `ShmView.MappingInRun` | kernel/src/ipc/mod.rs:172-207 | a mapping stays over any careful run that does not unmap its address |
| `Shm.Pages` | kernel/src/ipc/mod.rs:67-70 | the least number of pages that hold the size asked for |
| `Shm.TakeFrames` | kernel/src/ipc/mod.rs:71-87 | as many distinct frames as asked for leave the pool, or there are too few and it is left alone |
| `Shm.MapPages` | kernel/src/ipc/mod.rs:136-159 | all pages are mapped to the frames in order, or one was refused and the page table is as before |
| `Shm.ShmTables.CreateRegion` | kernel/src/ipc/mod.rs:67-95 | exactly the pages of the region leave the pool of frames, or a failure puts every frame back |
| `Shm.ShmTables.MapRegion` | kernel/src/ipc/mod.rs:97-170 | the frames of the region stand at fresh addresses of the page table, or nothing is mapped, the reference is given back and only the address counter has moved |
| `Shm.ShmTables.UnmapRegion` | kernel/src/ipc/mod.rs:172-207 | the mapping at the address goes with exactly its pages, and with the region if it was the last |
| `Shm.ShmTables.CleanupPid` | kernel/src/ipc/mod.rs:279-310 | all mappings of the process go, each dropping its reference |
| `Accounts.RoundTrip` | kernel/src/users/mod.rs:41-60 | what was written parses back to the same list if and only if every record is free of separators |
| `Accounts.ColonLost` | kernel/src/users/mod.rs:41-60 | a record with a colon in its comment does not come back |
| `Accounts.RunKeeps` | kernel/src/users/mod.rs:154-201 | every run keeps names and uids distinct and never removes a record of uid 0 |
| `Accounts.StepRefines` | kernel/src/users/mod.rs:105-125 | the stored text always parses back to the list the operation computed |
| `Accounts.NextUid` | kernel/src/users/mod.rs:154-182 | a uid from 1000 up that no record has |
| `Accounts.WithPasswordAt` | kernel/src/users/mod.rs:185-191 | the first record with the uid gets the new hash and no other record changes |
| `Accounts.WithoutUidKeeps` | kernel/src/users/mod.rs:194-201 | exactly the records with the uid go |
| `Accounts.ParseDecimal` | kernel/src/users/mod.rs:41-60 | a printed uid parses back |
| `Accounts.ParsePasswd` | kernel/src/users/mod.rs:41-60 | the loop over lines computes the parse |
| `Accounts.Serialize` | kernel/src/users/mod.rs:105-115 | the loop over records computes the text |
| `Accounts.AccountFile.CreateUser` | kernel/src/users/mod.rs:154-182 | accepted exactly when name, password and uid allow it, with the error of the first check that fails; the file is rewritten even when the disk then fails |
| `Accounts.AccountFile.ChangePassword` | kernel/src/users/mod.rs:185-191 | accepted exactly when the password is long enough and the uid is known |
| `Accounts.AccountFile.DeleteUser` | kernel/src/users/mod.rs:194-201 | accepted exactly for a known uid other than 0 |
| `Logins.CreatedLogsIn` | kernel/src/users/mod.rs:78-182 | a new account opens with exactly the passwords of the same digest, with a fresh uid from 1000 up, the same gid and its own home; all other logins are as before |
| `Logins.ChangedLogsIn` | kernel/src/users/mod.rs:78-191 | after a password change the account opens with exactly the passwords of the new digest; all other logins are as before |
| `Logins.DeletedStaysOut` | kernel/src/users/mod.rs:78-201 | a deleted account opens with no password; all other logins are as before |
| `Logins.HexInjective` | kernel/src/crypto/sha256.rs:179-188 | different digests have different texts |
| `Logins.Authenticate` | kernel/src/users/mod.rs:71-86 | the loop over the records finds the first one with the name and compares the hash |
| `Logins.ConstantTimeEq` | kernel/src/users/mod.rs:90-97 | the comparison that always goes through all bytes is equality |

## Left out

- FAT32 mount: the geometry of the volume is given.
- FatReader.ReadFile: a chain on the way that leads outside the table is excluded by its precondition; what the sectors there hold is not said.
- FatWriter.CreateRootFile: when the disk is full, the clusters taken so far stay marked, as in the code; only reads are shown to be unaffected.
- FatSession.Run: the root of a well-formed volume holds short names only, so directories with long names are read by the model and not written.
- FatDisk.Fat32.NextCluster: cluster numbers from 0x4000_0000 up, for which the product with 4 overflows, are excluded, and so they are for `FatDisk.Fat32.SetFatEntry`.
- FAT32 32-bit wrap-around of sector numbers and failing disk transfers: sectors that exist can be transferred, and numbers are unbounded below the bound of the geometry.
- Real four-level page tables, TLB flushes and page-table frames: page tables are private flat maps, and frames for other purposes may be taken and returned at any time.
- ShmPool.RunBalancedExactly: `map_alloc` for a page that is already mapped is not among its steps; the frame such a call loses is the subject of `Memory.AllocatedExact`.
- Elf.Load: segments that reach past the lower canonical half are refused, where the code goes on or panics; the sums `e_phoff + e_phentsize * e_phnum` (kernel/src/fs/elf.rs:109) and `p_offset + p_filesz` (kernel/src/fs/elf.rs:146) are unbounded here, where 64-bit sums can wrap and pass the check in a build without overflow checks.
- FrameAllocator.BitmapFrameAllocator.Deallocate: frames beyond the bitmap, and a counter of used frames that is already 0, are excluded; the code panics there.
- Register contents in trap frames, kernel stacks, and wrap-around of process ids.
- Virtio scanout, cursor overlay and fonts of the framebuffer: a glyph is a parameter; 32-bit wrap-around of pitch times height is not modelled.
- Framebuffer.Fb.ScrollUp: requires the scrolled amount not to exceed the height, below which the code's slice arithmetic would panic.
- Wrap-around of the 64-bit tick counter, of shared-memory reference counts and of virtual addresses.
- Accounts.AccountFile.CreateUser: a uid past the 32-bit range is an error of its own, where the code's addition would overflow.
- Waking wakers and polling futures are steps without content; lock sections are atomic and spin-lock deadlocks are not modelled.
- The rest of the kernel: the ext2 driver and partition tables, ATA, NVMe, e1000, ACPI, PCI, virtio, keyboard, mouse, console and serial drivers, the network stack, the shell and the login prompt, the in-memory file system, mailboxes, kernel threads, the system-call table and the user programs.
