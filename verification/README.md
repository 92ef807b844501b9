# Knail in Dafny

A Dafny model of the parts of the Knail x86-64 kernel whose correctness is a property of whole runs
or of a pointer structure as a whole, with proofs of those properties. Source paths below are relative
to the root of the Knail repository.

| component | modules | what is proved |
|---|---|---|
| FAT32 volume | `Bytes`, `FatLayout`, `FatChains`, `FatView`, `FatVolume`, `FatFile`, `FatMark`, `FatNames`, `FatSlots`, `FatDirectory`, `FatStray`, `FatSession`, `FatClash` | reading and writing a cluster chain is reading and overlaying a byte sequence, other files stay as they are, all table copies stay equal; over every sequence of creations, removals and writes in a directory how many entries each name has, and exactly when names stay unique |
| frames and paging | `Pmm`, `PageTables`, `Vmm`, `UserSpaces`, `UserLife`, `UserClone`, `EntryWords` | mapping a page changes the translation of that page only, even across the split of a 2 MiB page, and exactly which pages user code can reach after it; clone and life cycle of address spaces; exact frame accounting |
| kernel heap | `HeapBlocks`, `HeapLists`, `Heap`, `HeapClients` | blocks tile the heap, allocations are disjoint, counts are right, free neighbours are merged; clients find in their allocations what they stored there, over every sequence of requests and stores |
| mutex | `Mutex` | mutual exclusion and no lost wakeup in every interleaving; exactly when a sleeper is woken |
| scheduler | `RunQueue`, `RoundRobin`, `Scheduler` | one ring of live tasks, each exited task freed once, a bound on how long a ready task waits |
| program start | `StackImage`, `StackBuilder` | a reader of the initial stack recovers argc, argv, envp and auxv |
| VFS | `VfsPaths`, `VfsTree`, `VfsChanges`, `VfsSplit`, `VfsRefs`, `Vfs`, `FdTables`, `FdSession`, `Ramfs` | the node tree, path resolution against path printing, reference counts and descriptor tables, over every sequence of calls by any number of processes; in-memory files |

State that the kernel updates in place is a class here (`FatVolume.Mount`, `Pmm.Allocator`,
`Vmm.Machine`, `Heap.Allocator`, `Mutex.Lock`, `Scheduler.Queue`, `Vfs.Files`, `FdTables.Table`,
`Ramfs.RamFile`). Its methods follow the kernel's code statement by statement and are proved against
functions on values: a volume as a table and clusters (`FatView.View`), an address space as a map from
places in the tree to tables (`PageTables.Tables`), a heap as a row of blocks (`HeapBlocks.State`), a
scheduler as a ring (`RunQueue.Sched`). The laws about whole runs are lemmas about those functions.
Pointers are numbers; linked lists are maps from an address to a node, with a ghost sequence that says
which nodes form the list.

Where the code and its comments differ the model follows the code. The heap's file comment speaks of
a singly linked list of free blocks; the code keeps one doubly linked list of all blocks
(kernel/heap.cpp:8-10, 22-29). The table header promises an overflow error for a full descriptor
table; the code returns OutOfFileDescriptors (proc/fdtable.cpp:37).

Some properties one would expect turn out to be false in general. The model keeps the code as it is,
shows an input at which the property fails, and proves exactly when it holds:

- `krealloc` frees the old block without merging it, so free neighbours can arise. They do on a fresh
  heap after four calls (`HeapBlocks.ReallocLeavesFreeNeighbours`); a move keeps free blocks apart if
  and only if the block it leaves has no free neighbour (`HeapBlocks.MovedCoalescedIff`), and so does
  every run of such moves (`HeapBlocks.RunCoalesced`).
- The empty path makes a node without a name, by `mkdir` and by a creating `open`, whose printed path
  does not lead back to it (`Vfs.EmptyPathLost`). Over every sequence of calls all nodes are named, and
  all full paths lead back, if and only if no node was made so (`FdSession.Session`, `VfsTree.RoundTripIff`).
- `fat_create` looks a name up whole and stores it cut to eight and three characters. Two longer names that
  are cut alike are stored alike, so two entries of one name can arise that neither name finds
  (`FatClash.LongNamesClash`, `FatClash.StoredAlike`, `FatClash.LongNeverFound`). A creation keeps names unique if and only if the name
  as stored was not there (`FatDirectory.CreateLaw`); a directory's names are unique throughout a sequence
  of operations if and only if they were at first and no creation met its stored name
  (`FatSession.UniqueThroughoutIff`), which a name that fits never does (`FatSession.FittingNeverClashes`).
- `dup2` takes an open target number's descriptor out of the table and closes a null pointer in its place.
  The descriptor stays, in no table, and keeps its node busy (`FdSession.Dup2Loses`, `FdSession.LostIsBusy`).
  Over every sequence of calls the descriptors in no table are exactly those lost so (`FdSession.Session`),
  so there are none if and only if no `dup2` met an open target (`FdSession.NoneDroppedIff`).
- `fat_unlink` ends by clearing the table entry numbered by the end mark. On a device that reaches that
  far this overwrites a sector of the data area or of a table copy, on a smaller one it reports an I/O
  error although the file is gone. The final disk is stated exactly (`FatDirectory.FatUnlink`); another
  file keeps its bytes if and only if none of its sectors is changed (`FatMark.UnharmedIff`,
  `FatDirectory.BystanderIff`), the directory loses just the name if and only if none of its own is
  (`FatDirectory.DirectoryIff`), the table copies stay equal if and only if `FatMark.MirroredIff` says so,
  and on a volume of 1.5 GiB another file is damaged (`FatStray.RemovalDamagesAnotherFile`).
- An expansion of the heap that runs out of frames midway does not give back those it took:
  `Heap.FramesLost`, and exactly when in `Heap.FramesLostIff`.
- A wake while the idle task runs lets the woken task overtake those that wait: `RoundRobin.WokenOvertakes`,
  and by exactly how much in `RoundRobin.JumpMoves`. The bound of `RoundRobin.TurnComes` counts it.
- Sleepers on the mutex are served last come, first served, so one can be passed over any number of
  times (`Mutex.SleeperCanBePassed`). A sleeper sleeps through a run if and only if the unlocks never
  exceed its place in the queue plus the attempts that queued in front of it (`Mutex.SleepsThroughIff`).
- A user space for which only one or two frames were free has no private identity map; loading it makes it
  share the kernel's tables, and its end frees them. `UserLife.SpaceLife` says for which calls, in terms of
  the frames free at first and the calls alone, and `UserLife.LoadUser` for one activation.

## Model

| member | source | states |
|---|---|---|
| `FatVolume.ReadFat` | fs/fat32.cpp:106-114 | the 28-bit table entry of a cluster, as the volume's table has it; beyond the table the word there, past the device an end mark |
| `FatVolume.WriteFat` | fs/fat32.cpp:116-130 | the disk afterwards is exactly `WithEntry`, for any entry number; for an entry of the table it alone changes, in every copy, and no cluster changes; success exactly if the sector in the last copy is on the device |
| `FatVolume.WriteCopies` | fs/fat32.cpp:116-130 | the disk afterwards is exactly `WithCopies`: the sector is replaced at its place in each copy the device still reaches |
| `FatVolume.EntrySet` | fs/fat32.cpp:116-130 | setting an entry of the table is an update of the table at that entry, keeps the copies equal and all clusters |
| `FatMark.PastTable` | fs/fat32.cpp:116-130 | an entry number beyond the table changes no entry that the driver reads and nothing before the table |
| `FatMark.UnharmedIff` | fs/fat32.cpp:116-130 | such a write keeps a chain's bytes if and only if it changes none of the chain's sectors |
| `FatMark.MirroredIff` | fs/fat32.cpp:116-130 | it keeps the table copies equal if and only if it stays within each copy, starts behind them all, or changes nothing |
| `FatVolume.EntryWritten` | fs/fat32.cpp:116-130 | replacing one entry's word in every copy is an update of the table at that entry, and keeps the copies equal |
| `FatVolume.AllocCluster` | fs/fat32.cpp:132-140 | the lowest free cluster, now the end of a chain; none exactly on a full volume |
| `FatVolume.ZeroCluster` | fs/fat32.cpp:142-150 | the cluster's bytes become zero; table and other clusters are as before |
| `FatChains.ChainAcyclic` | fs/fat32.cpp:229-267 | a chain visits no cluster twice |
| `FatChains.ChainUnique` | fs/fat32.cpp:229-267 | the first cluster determines the chain |
| `FatChains.FreeNotInChain` | fs/fat32.cpp:132-140 | a free cluster lies on no chain |
| `FatChains.LinkExtends` | fs/fat32.cpp:284-296 | linking a new end behind a chain's last cluster gives the longer chain |
| `FatFile.AppendCluster` | fs/fat32.cpp:284-296 | the chain grows by a zeroed cluster that was free; its content is padded with zeros; fails only on a full volume |
| `FatFile.NextOrAppend` | fs/fat32.cpp:317-329 | the next cluster of the chain, or a new one at its end |
| `FatFile.ChainWrite` | fs/fat32.cpp:270-332 | the file's bytes become the old ones, zero-extended, with what was written laid over them at the offset; it stops short only on a full volume, takes no cluster it does not need, and every disjoint chain keeps its clusters and bytes |
| `FatFile.ChainRead` | fs/fat32.cpp:229-267 | exactly the bytes the chain holds from the offset on, as far as they exist |
| `FatFile.FreeChain` | fs/fat32.cpp:466-471 | the loop ends, zeroes the entries of the file's chain and no others, and stops at its end mark; the disk afterwards is given exactly |
| `FatView.AllOthersIntact` | fs/fat32.cpp:270-332 | when a chain grows, every chain disjoint from it stays a chain with the same bytes, still disjoint |
| `FatView.GrowthWellFormed` | fs/fat32.cpp:270-332 | pairwise disjoint acyclic files stay so when one grows |
| `FatView.BirthWellFormed` | fs/fat32.cpp:270-296 | and when a file gets its first cluster |
| `FatView.ClearedWellFormed` | fs/fat32.cpp:466-471 | and when one is removed |
| `FatView.ClearedIntact` | fs/fat32.cpp:466-471 | freeing a chain leaves every chain disjoint from it as it was |
| `FatView.RunWellFormed` | fs/fat32.cpp:229-332 | over every run of births, growths and removals the files are pairwise disjoint, acyclic chains ended by an end mark |
| `FatNames.Encode83` | fs/fat32.cpp:179-205 | base and extension at the first dot, upper case, padded with spaces, with the flags for all-lower-case parts |
| `FatNames.Decode83` | fs/fat32.cpp:155-177 | the parts without trailing spaces, lower case where flagged, joined by a dot if there is an extension |
| `FatNames.NameMatches` | fs/fat32.cpp:207-220 | equality with the decoded name up to ASCII case |
| `FatNames.RoundTripFolded` | fs/fat32.cpp:155-205 | decoding the encoded name gives the name up to case, if and only if it fits the 8.3 form |
| `FatNames.RoundTripExact` | fs/fat32.cpp:155-205 | and exactly the name if and only if moreover neither part mixes cases |
| `FatNames.MatchesOwnName` | fs/fat32.cpp:207-220 | a fitting name's entry matches that name in any case and no other name |
| `FatSlots.TallyLookup` | fs/fat32.cpp:522-548 | a name is found if and only if some entry has it, and what is found is the first of them |
| `FatSlots.UniqueIff` | fs/fat32.cpp:522-548 | names are unique if and only if no name is counted twice |
| `FatSlots.InsertLookup` | fs/fat32.cpp:341-369 | an entry put in the first free slot adds one to the count of its own name and nothing to any other; a lookup of its name finds the earlier of it and what was found before, all other lookups are as before |
| `FatSlots.InsertUniqueIff` | fs/fat32.cpp:401-448 | names stay unique if and only if the new entry's name was not there |
| `FatSlots.RemoveLookup` | fs/fat32.cpp:450-463 | marking the first entry of a name deleted takes one from the count of that name, whose next entry is then found; all other lookups and counts are as before |
| `FatDirectory.DirFind` | fs/fat32.cpp:522-548 | the first live entry of that name up to case, and the sector and offset where it lies |
| `FatDirectory.FindFreeDirent` | fs/fat32.cpp:341-369 | the first free slot, in a new zeroed cluster at the end if need be; fails only on a full volume and then changes nothing |
| `FatDirectory.NewSlotNamed` | fs/fat32.cpp:401-448 | a new entry is live if and only if its name does not start with the deletion mark; a fitting name can be read back from it |
| `FatDirectory.CreateLaw` | fs/fat32.cpp:401-448 | for every name, and whether a deleted slot, the end slot or a new cluster is used: the count of the stored name goes up by one and no other changes, lookups of it find the earlier of the new entry and the old one, every other lookup is as before, the directory stays clean, and names stay unique if and only if the stored name was not there |
| `FatDirectory.FittingCreated` | fs/fat32.cpp:401-448 | a name that fits the 8.3 form is found where its entry was put, and names stay unique |
| `FatDirectory.MakeDirCluster` | fs/fat32.cpp:401-448 | a free cluster becomes a directory holding only "." and ".." |
| `FatDirectory.FatCreate` | fs/fat32.cpp:401-448 | for every name: none is made exactly if the name is found or there are fewer free clusters than needed, one for a directory without a free entry and one for a new directory; a created entry is on the device where it says, with the stored name, the right attribute and first cluster, and changes lookups as `CreateLaw` says; other chains are untouched |
| `FatDirectory.GrowthUses` | fs/fat32.cpp:341-369 | a chain that grows by one cluster uses up one free cluster |
| `FatDirectory.UnlinkLaw` | fs/fat32.cpp:450-463 | after removal one entry of the name less, and lookups of it find the next, if any; all other names as before; unique names stay unique, and then the name is gone |
| `FatDirectory.FatUnlink` | fs/fat32.cpp:450-476 | NotFound and IsDirectory exactly when; otherwise the first entry of the name is deleted, the file's clusters are free, other chains are as before; then the exact disk the last step leaves, what it reports, and what it spares |
| `FatDirectory.MarkStep` | fs/fat32.cpp:472-474 | what the last step spares: all links, everything before the table, each chain exactly if none of its sectors is changed, the equality of the copies exactly if it misses them |
| `FatDirectory.BystanderIff` | fs/fat32.cpp:450-476 | another file stays a chain through the whole removal, and keeps its bytes if and only if the last step changes none of its sectors |
| `FatDirectory.DirectoryIff` | fs/fat32.cpp:450-476 | the directory stays a chain, and the whole removal takes just that entry out of it if and only if the last step changes none of its sectors |
| `FatStray.RemovalDamagesAnotherFile` | fs/fat32.cpp:466-476 | a volume on which removing one file changes the bytes of another |
| `FatSession.FatWrite` | fs/fat32.cpp:380-400 | what was written is laid over the file at the offset, the size grows as far as needed, and the directory's entry is given the file's first cluster and size; all other entries and files are as before; short only on a full volume |
| `FatSession.ActCreate` | fs/fat32.cpp:401-448 | a creation keeps the directory and the files its entries name in order, and changes the counts of names as its outcome says |
| `FatSession.ActWrite` | fs/fat32.cpp:380-400 | so does a write to the file of a name |
| `FatSession.ActUnlink` | fs/fat32.cpp:450-476 | so does a removal |
| `FatSession.MarkHarmless` | fs/fat32.cpp:472-474 | where the data area ends before the sector the end mark indexes, the last step of a removal changes nothing that the driver reads |
| `FatSession.Session` | fs/fat32.cpp:380-476 | every sequence of creations, removals and writes of any names in a directory, failed ones included: the directory and the files its entries name stay disjoint chains; each operation is carried out exactly when its conditions hold; every name has as many entries as it had plus those created less those removed; files that no entry of the directory names are untouched |
| `FatSession.FoundAfterIff` | fs/fat32.cpp:380-548 | after such a sequence a name is found if and only if that number is positive, and names are unique if and only if none exceeds one |
| `FatSession.UniqueThroughoutIff` | fs/fat32.cpp:401-448 | names are unique after every operation if and only if they were at first and no creation was of a name whose stored form was there |
| `FatSession.FittingNeverClashes` | fs/fat32.cpp:401-448 | a creation of a name that fits the 8.3 form is never such |
| `FatClash.StoredAlike` | fs/fat32.cpp:179-205 | names that agree in the first eight characters of the base and three of the extension are stored alike |
| `FatClash.LongNeverFound` | fs/fat32.cpp:522-548 | a name of more than twelve characters is found in no directory |
| `FatClash.LongNamesClash` | fs/fat32.cpp:401-448 | a volume on which two files with long names are created, both are reported made, neither is found, and two entries have one name |
| `Pmm.Allocator.Init` | arch/x86_64/pmm.cpp:21-85 | a frame is free if and only if it lies beyond the kernel image and wholly in a usable region; all is used when the map is malformed |
| `Pmm.Allocator.AllocFrame` | arch/x86_64/pmm.cpp:87-96 | the lowest free frame, never frame 0; none exactly when all below the total are used; the count of used frames stays right |
| `Pmm.Allocator.FreeFrame` | arch/x86_64/pmm.cpp:98-103 | a frame in use becomes free, anything else changes nothing; the count stays right |
| `Pmm.SetLaw` | arch/x86_64/pmm.cpp:17-18 | setting a bit of a byte sets that bit only |
| `Pmm.ClearLaw` | arch/x86_64/pmm.cpp:17-19 | clearing a bit clears that bit only |
| `Vmm.Machine.GetOrCreate` | arch/x86_64/vmm.cpp:32-63 | the next table, created or split off if need be; no translation changes; the tables afterwards are given exactly, permissions included; memory in use elsewhere is as it was |
| `Vmm.Machine.MapPage` | arch/x86_64/vmm.cpp:66-84 | success: the page translates to the new frame and every page with other indices as before; failure: no translation changes and no frame is left; in both cases the tables afterwards are given exactly |
| `Vmm.MappedAccess` | arch/x86_64/vmm.cpp:32-84 | after a mapping user code reaches the new page exactly if it is mapped for the user, and any other page exactly as the entries it shares with it and a split large page say |
| `PageTables.UserReachIff` | arch/x86_64/vmm.cpp:32-84 | a user mapping opens the shared entries on the way; a large page that is split is opened to user code by a user mapping and closed by any other |
| `Vmm.Machine.VirtToPhys` | arch/x86_64/vmm.cpp:108-144 | the translation of the address by the four-level walk, 2 MiB pages included; 0 when unmapped |
| `PageTables.RetagKeeps` | arch/x86_64/vmm.cpp:32-40 | changing an entry's permissions changes no translation |
| `PageTables.AttachKeeps` | arch/x86_64/vmm.cpp:41-63 | a new table behind an absent entry or in place of a large page changes no translation |
| `PageTables.LeafSet` | arch/x86_64/vmm.cpp:81-83 | writing a last-level entry changes the translation of that page only |
| `PageTables.CombineTranslate` | arch/x86_64/vmm.cpp:304-323 | taking top-level entries from the kernel's table makes those addresses translate as the kernel's, and no others |
| `UserSpaces.CreateUserSpace` | arch/x86_64/vmm.cpp:183-216 | with three free frames or more the identity map of the first GiB, the kernel's half, nothing else; with one or two an empty space; the frames taken were free; the kernel's space is as it was |
| `UserSpaces.DestroyUserSpace` | arch/x86_64/vmm.cpp:275-297 | the used frames lose exactly the space's own tables, each freed once |
| `UserSpaces.Activate` | arch/x86_64/vmm.cpp:304-323 | the addresses brought up to date translate as in the kernel's space, all others as before |
| `UserLife.TakeLeaf` | arch/x86_64/pmm.cpp:87-96 | the frame handed to the owner is the one added to its frames and was none of them; none exactly when none is free |
| `UserLife.SpaceLife` | arch/x86_64/vmm.cpp:183-323 | create, any sequence of takes, mappings (failed ones too) and activations, destroy: the used frames are the initial ones and those handed to the owner, one result per take and no frame twice, less the kernel's tables below entry 0 if the space came to share them; that happens if and only if one or two frames were free at first, the kernel has an entry 0, some call loads the space, and not with two frames and a first call that maps below entry 0 |
| `UserLife.LoadUser` | arch/x86_64/vmm.cpp:304-323 | an activation makes the space share the kernel's entry 0 exactly if it has none and the kernel has one |
| `UserLife.MapUser` | arch/x86_64/vmm.cpp:66-84 | a mapping keeps the accounts, also in a space that shares the kernel's entry 0 |
| `UserLife.BorrowedSpace` | arch/x86_64/vmm.cpp:66-84 | a mapping below a shared entry 0 leaves the kernel's space a proper tree with the same tables there |
| `UserClone.CloneUserSpace` | arch/x86_64/vmm.cpp:219-269 | exactly the source's user pages get copies, in distinct frames that were free, with the same permissions and, where the source frame was in use, the same contents; everything else translates as in a new space; memory that was in use is as it was; a failure keeps only frames taken for copies of some of the source's user pages, and none if the source is null |
| `EntryWords.DecodeEncode` | arch/x86_64/vmm.cpp:13-20 | an entry's fields can be read back from its 64-bit word |
| `EntryWords.EncodeDecode` | arch/x86_64/vmm.cpp:13-20 | every 64-bit word is the word of its fields |
| `EntryWords.Addresses` | arch/x86_64/vmm.cpp:18-20 | masking and shifting a word give the frame number |
| `EntryWords.SamePageIff` | arch/x86_64/vmm.cpp:13-16 | two addresses have the same four indices if and only if they lie in the same page |
| `HeapBlocks.RunSound` | kernel/heap.cpp:93-218 | over every run the blocks with their headers fill whole pages, and allocations minus frees is the number of blocks in use |
| `HeapBlocks.RunCoalesced` | kernel/heap.cpp:93-218 | over every run of kmalloc, kfree and moves that free no block beside a free one no two neighbours are free; when all is freed the heap is one block, across expansions |
| `HeapBlocks.WithoutMoves` | kernel/heap.cpp:93-141 | every run of kmalloc and kfree alone is such a run |
| `HeapBlocks.ApplyCoalescedIff` | kernel/heap.cpp:103-218 | kmalloc and kfree keep free blocks apart, krealloc if and only if it frees no block beside a free one |
| `HeapBlocks.PagesFewest` | kernel/heap.cpp:43-46 | an expansion takes the fewest pages that hold the request and a header |
| `HeapBlocks.ReleaseCoalesced` | kernel/heap.cpp:202-218 | freeing with merging on both sides leaves no free neighbours |
| `HeapBlocks.CarveCoalesced` | kernel/heap.cpp:124-138 | taking from a free block leaves none, whatever stood before it |
| `HeapBlocks.MovedCoalescedIff` | kernel/heap.cpp:156-199 | a move keeps free neighbours apart if and only if the block before the one it frees is in use or wholly taken by the move, and the block after it is in use or the one taken |
| `HeapBlocks.ReallocLeavesFreeNeighbours` | kernel/heap.cpp:156-199 | from a fresh heap three allocations, a free and a krealloc leave free neighbours |
| `HeapBlocks.AllFreeIsOneBlock` | kernel/heap.cpp:212-217 | without free neighbours an all-free heap is one block over the whole extent |
| `HeapLists.LiveDisjoint` | kernel/heap.cpp:22-29 | allocations lie in the heap, and no two share a byte, headers included |
| `HeapLists.SplitIsList` | kernel/heap.cpp:124-136 | a split keeps the doubly linked, address-ordered, gapless list and cuts the block in two |
| `HeapLists.AbsorbIsList` | kernel/heap.cpp:82-90 | a merge keeps the list and joins the two blocks |
| `HeapLists.AppendIsList` | kernel/heap.cpp:59-76 | an expansion keeps the list and adds a free block at its end |
| `Heap.Allocator.Expand` | kernel/heap.cpp:42-79 | grows exactly if the range and the frames allow it; otherwise the heap is as it was, and if frames ran out midway all of them are gone |
| `Heap.Allocator.Init` | kernel/heap.cpp:93-100 | an empty heap, or one free block of a page |
| `Heap.Allocator.Kmalloc` | kernel/heap.cpp:103-141 | fails exactly when nothing fits and the heap cannot grow; otherwise a new allocation of the size asked or less than 88 bytes more, first fit, the others unchanged with their bytes |
| `Heap.Allocator.Coalesce` | kernel/heap.cpp:82-90 | merges with a free successor; no allocation changes |
| `Heap.Allocator.Kfree` | kernel/heap.cpp:202-218 | removes that allocation, merged on both sides; null, and a pointer whose header is marked free and has not been written over, change nothing |
| `Heap.Allocator.Krealloc` | kernel/heap.cpp:156-199 | nothing for null or size 0; else keeps the block exactly if it is large enough, else moves its bytes to a first-fit block; the other allocations keep their bytes; fails exactly when nothing fits |
| `Heap.Allocator.Store` | kernel/heap.cpp:22-29 | a client's store into its allocation changes that byte and no allocation, and may wipe out a stale header left inside the block |
| `HeapClients.Act` | kernel/heap.cpp:103-218 | an allocation, free, resize or store keeps every client's record of its allocation true, as to size and bytes, no two clients share one and every allocation has an owner; an allocation or resize fails exactly when the heap cannot serve it |
| `HeapClients.ActResize` | kernel/heap.cpp:156-199 | a resize keeps the bytes up to the new size, whether the block stays or moves, and fails exactly when neither the block nor a free one is large enough |
| `HeapClients.Session` | kernel/heap.cpp:93-218 | every sequence of requests and stores on a new heap keeps that, each record being what the client's own requests and stores make it |
| `Heap.SizesExactIff` | kernel/heap.cpp:44-46 | 64-bit arithmetic gives the intended sizes if and only if the rounded request leaves a header and a page below 2^64 |
| `Heap.FramesLostIff` | kernel/heap.cpp:52-58 | a failed request loses frames if and only if nothing fits, the range has room, and there are frames but not enough |
| `Heap.FramesLost` | kernel/heap.cpp:42-79 | with one frame left a request of two pages fails and takes it |
| `Mutex.RunSafe` | kernel/mutex.cpp:9-71 | in every interleaving at most one task holds the mutex, locked and owner name it, the queue lists exactly the sleeping tasks, and a free mutex with sleepers has a woken task on its way |
| `Mutex.StepKeeps` | kernel/mutex.cpp:9-71 | every critical section keeps that invariant |
| `Mutex.NoDeadlock` | kernel/mutex.cpp:9-58 | while anyone wants the mutex some step is possible, and if it is free that step takes it |
| `Mutex.SleeperCanBePassed` | kernel/mutex.cpp:24-27 | for every n there is a run in which others take the mutex n more times over the first sleeper |
| `Mutex.SleepsThroughIff` | kernel/mutex.cpp:9-58 | a sleeper sleeps through a run if and only if in no prefix the unlocks exceed its place plus the attempts that queued; its place is then that difference |
| `Mutex.SleeperStep` | kernel/mutex.cpp:9-58 | each step moves a sleeper by that much, and the unlock that finds it first wakes it |
| `Mutex.Lock.TryOnce` | kernel/mutex.cpp:9-40 | one turn of the loop: takes a free mutex, else queues and blocks |
| `Mutex.Lock.Unlock` | kernel/mutex.cpp:43-58 | releases and wakes the first of the queue, if any |
| `Mutex.Lock.TryLock` | kernel/mutex.cpp:61-71 | takes the mutex exactly if it is free, and never queues |
| `RunQueue.RunKeeps` | kernel/scheduler.cpp:62-312 | over every run: one ring of the live tasks, each once, headed by the current one, the only one running; every task ever created is in exactly one of ring, zombie list and freed, once |
| `RunQueue.StepKeeps` | kernel/scheduler.cpp:181-312 | every step keeps that invariant and moves no task except by creation, exit and reaping |
| `RunQueue.PickIsRunnable` | kernel/scheduler.cpp:181-190 | the task picked is in the ring and can run |
| `RunQueue.ExitKeeps` | kernel/scheduler.cpp:244-293 | an exit moves the task from the ring to the zombie list and dispatches another |
| `RoundRobin.TurnComes` | kernel/scheduler.cpp:72-95 | a ready task d places behind the current one runs within d dispatches plus one for each task created meanwhile and the displacement of each jump over it, through any mix of ticks, yields, blocks, wakes and exits |
| `RoundRobin.StepNearer` | kernel/scheduler.cpp:193-312 | each dispatch of another task brings a waiting one nearer, each creation puts it back by at most one, each jump from idle by what it displaces |
| `RoundRobin.ExitNearer` | kernel/scheduler.cpp:244-293 | also an exit, although the scan after it leaves one task out |
| `RoundRobin.JumpMoves` | kernel/scheduler.cpp:306-312 | where a waiting task stands after a wake from idle, exactly: farther back if and only if the woken one stood behind it |
| `RoundRobin.WokenOvertakes` | kernel/scheduler.cpp:306-312 | a run from the start in which a wake takes the next task from distance 1 to 2 |
| `RoundRobin.SliceLasts` | kernel/scheduler.cpp:225-232 | no preemption before the slice is used up |
| `RoundRobin.SliceEnds` | kernel/scheduler.cpp:225-232 | and at the tick that uses it up the next runnable task gets the processor |
| `Scheduler.Queue.Enqueue` | kernel/scheduler.cpp:72-80 | the task is linked in right behind the run-queue pointer |
| `Scheduler.Queue.UnlinkTask` | kernel/scheduler.cpp:82-95 | the ring without the task, the pointer stepping back if it stood on it; a task outside the ring changes nothing |
| `Scheduler.Queue.PickNext` | kernel/scheduler.cpp:181-190 | the first runnable task behind the pointer, which is left out unless it stands alone; else idle |
| `Scheduler.Queue.DoSwitch` | kernel/scheduler.cpp:193-217 | states, slice and pointer after a dispatch; nothing for the current task |
| `Scheduler.Queue.ReapZombies` | kernel/scheduler.cpp:62-70 | the zombies are freed once each, in order |
| `Scheduler.Queue.Spawn` | kernel/scheduler.cpp:133-178 | a new ready task with a full slice |
| `Scheduler.Queue.Tick` | kernel/scheduler.cpp:225-232 | reaps, counts the slice down, dispatches when it is used up and preemption is enabled; keeps the invariant |
| `Scheduler.Queue.Yield` | kernel/scheduler.cpp:235-241 | reaps and dispatches; keeps the invariant |
| `Scheduler.Queue.Exit` | kernel/scheduler.cpp:244-293 | children go to task 1, a sleeping parent wakes, the task becomes a zombie, another is dispatched; keeps the invariant |
| `Scheduler.Queue.BlockCurrent` | kernel/scheduler.cpp:299-304 | the current task sleeps and another is dispatched; keeps the invariant |
| `Scheduler.Queue.Wake` | kernel/scheduler.cpp:306-312 | a sleeping task becomes ready, and runs at once if idle ran; anything else changes nothing |
| `Scheduler.Queue.PreemptDisable` | kernel/scheduler.cpp:220 | one more reason not to preempt; keeps the invariant |
| `Scheduler.Queue.PreemptEnable` | kernel/scheduler.cpp:221 | one fewer, never below none; keeps the invariant |
| `StackBuilder.BuildStack` | kernel/scheduler.cpp:527-593 | a reader walking up from the stack pointer recovers argc, every argument and environment string, both nulls and the auxiliary pairs up to AT_NULL; a list whose strings do not fit is read as empty |
| `StackBuilder.PushStrings` | kernel/scheduler.cpp:548-565 | all strings stand where their user addresses say if they all fit, none otherwise; what was above is unchanged |
| `StackBuilder.CountStrings` | kernel/scheduler.cpp:540-552 | the explicit count or the strings before the first null, at most 32 |
| `StackBuilder.AllFitIff` | kernel/scheduler.cpp:553-563 | the strings fit if and only if the sum of their rounded lengths does |
| `StackBuilder.PushStart` | kernel/scheduler.cpp:574-585 | the words read upwards: count, arguments, 0, environment, 0, auxiliary words |
| `StackImage.ReadBack` | kernel/scheduler.cpp:574-587 | such an image, with its strings in place, reads back as what was stored |
| `StackImage.DecodeEncode` | kernel/scheduler.cpp:574-585 | little-endian words read back as stored |
| `VfsPaths.ComponentsAppend` | fs/vfs.cpp:180-188 | the components of two paths joined by a slash are those of the one followed by those of the other |
| `VfsPaths.JoinedComponents` | fs/vfs.cpp:180-188 | the components of names joined by slashes are the names that are not empty |
| `Vfs.PathNext` | fs/vfs.cpp:180-188 | the next component, at most 127 characters of it, and where the rest starts |
| `Vfs.Files.ResolveInternal` | fs/vfs.cpp:191-214 | the node reached by walking the path's components from the root or the current directory |
| `Vfs.Files.ResolveParent` | fs/vfs.cpp:246-264 | the directory of the path's leaf, and the leaf cut to a name |
| `VfsSplit.ResolvesByParent` | fs/vfs.cpp:246-264 | resolving a path is walking its leaf from its parent |
| `VfsSplit.UnresolvedLeaf` | fs/vfs.cpp:525-530 | if the parent resolves and the path does not, the new name is no dot name, and empty only for the empty path |
| `Vfs.Files.CreateInternal` | fs/vfs.cpp:267-289 | a node is made exactly if the parent is a directory without that name and memory is there; it becomes the parent's first child |
| `Vfs.Files.Mkdir` | fs/vfs.cpp:525-530 | the exact status; the path then leads to the new directory, every path that led somewhere still does, and a nameless node arises only from the empty path |
| `Vfs.Files.BuildPath` | fs/vfs.cpp:224-244 | the full path of every node at depth up to 32 whose path fits the buffer; never more than the buffer |
| `VfsTree.WalkNames` | fs/vfs.cpp:191-214 | walking a node's names from the root leads to it |
| `VfsTree.WalkNameable` | fs/vfs.cpp:191-214 | a file that a path leads to has a name |
| `VfsTree.RoundTripIff` | fs/vfs.cpp:191-244 | resolving a node's full path gives the node if and only if no name on it is empty |
| `Vfs.PrintedPathResolves` | fs/vfs.cpp:191-244 | the same for every valid file system, from any current directory |
| `VfsChanges.AddedFits` | fs/vfs.cpp:41-45 | adding a child with a new name keeps an acyclic tree with unique sibling names and right parent links |
| `VfsChanges.RemovedFits` | fs/vfs.cpp:547-556 | so does removing a file |
| `VfsChanges.AddedWalk` | fs/vfs.cpp:267-289 | what resolved before an addition resolves to the same node after it |
| `VfsChanges.RemovedWalk` | fs/vfs.cpp:533-558 | after a removal a path leads where it led or nowhere, never to the node removed |
| `VfsChanges.NamesKept` | fs/vfs.cpp:224-244 | the path of a node does not depend on what else is added or removed |
| `Vfs.Files.Unlink` | fs/vfs.cpp:533-558 | the exact status; a removed node is one no descriptor names, other nodes keep name and parent, the path leads nowhere, and all nodes are named exactly if they were |
| `Vfs.Files.Open` | fs/vfs.cpp:409-443 | the exact status; a new descriptor for the node found or created, whose count goes up by one; a created node is at the path under its name, every path that led somewhere still does, and a nameless node arises only from the empty path |
| `Vfs.Files.ChangeDir` | kernel/syscall.cpp:387-397 | the directory the path leads to becomes the current one, with the exact error otherwise |
| `Vfs.EmptyPathLost` | fs/vfs.cpp:525-530 | on a new file system mkdir of the empty path makes a node whose full path leads to the root |
| `Vfs.Files.Close` | fs/vfs.cpp:446-452 | the descriptor is gone and its node's count one less |
| `Vfs.Files.Dup` | fs/vfs.cpp:511-522 | a new descriptor for the same node, counted |
| `Vfs.Files.Pipe` | fs/vfs.cpp:356-389 | two descriptors for a new node with count two, or no change |
| `VfsRefs.HeldMore` | fs/vfs.cpp:436-440 | one more descriptor and one more in its node's count keep counts equal to the numbers of descriptors |
| `VfsRefs.HeldLess` | fs/vfs.cpp:446-452 | so do one fewer of each |
| `VfsRefs.GoneNode` | fs/vfs.cpp:533-558 | a node with count zero is named by no descriptor and can go |
| `FdTables.Table.Install` | proc/fdtable.cpp:27-38 | the lowest free number from 3 on; fails exactly when all are taken |
| `FdTables.Table.InstallAt` | proc/fdtable.cpp:40-49 | that number if it is in range and free, with the exact error otherwise |
| `FdTables.Table.LookUp` | proc/fdtable.cpp:51-57 | the descriptor of that number, if any |
| `FdTables.Table.Remove` | proc/fdtable.cpp:59-67 | takes the descriptor out without closing it; it is in no slot any more |
| `FdTables.Free` | proc/fdtable.cpp:16-25 | closes each descriptor of the table once and no other |
| `FdTables.Clone` | proc/fdtable.cpp:69-84 | slot by slot a new descriptor for the same node; a failure leaves all descriptors and counts as they were |
| `FdSession.SysOpen` | kernel/syscall.cpp:196-210 | succeeds exactly if the node is there or can be made, and a descriptor and a number are free; the lowest number from 3 on then names the node; on failure table and descriptors are as they were |
| `FdSession.SysClose` | kernel/syscall.cpp:212-221 | an open number is freed and its descriptor closed; any other changes nothing |
| `FdSession.SysDup` | kernel/syscall.cpp:305-318 | succeeds exactly if the number is open and a descriptor and a number are free; the lowest one from 3 on then names the same node |
| `FdSession.SysDup2` | kernel/syscall.cpp:320-342 | when it succeeds, with the cut of the target to 32 bits, and the slots and descriptors afterwards; an open target's descriptor is taken out whether or not it succeeds, and is not closed |
| `FdSession.SysPipe` | kernel/syscall.cpp:344-370 | succeeds exactly if there is memory and two numbers are free; the two lowest then name the new node; otherwise nothing changes |
| `FdSession.ActTable` | kernel/syscall.cpp:196-370 | a call changes its own process's table as stated and no other; every table's descriptors exist and none is in two tables; the descriptors in no table grow by the one a dup2 replaced |
| `FdSession.ActProcess` | kernel/scheduler.cpp:250-453 | so do the start of a process, a fork with its copy of the table, and an exit, which lose none |
| `FdSession.Act` | kernel/syscall.cpp:196-397 | so does every call, and all nodes stay named unless it made one with the empty path |
| `FdSession.Session` | kernel/syscall.cpp:196-397 | every sequence of calls by any number of processes on a new file system: tree, counts and tables stay right; the descriptors in no table are exactly those that a dup2 replaced, and when no process is left no others exist; all nodes are named exactly if none was made with the empty path, and then every node's full path leads to it |
| `FdSession.NoneDroppedIff` | kernel/syscall.cpp:320-342 | none is lost if and only if no dup2 met an open target; each loses one at most |
| `FdSession.LostIsBusy` | kernel/syscall.cpp:331-334 | the node of a lost descriptor stays counted |
| `FdSession.Dup2Loses` | kernel/syscall.cpp:320-342 | a process that makes a pipe, duplicates one end over the other and ends leaves a descriptor behind |
| `Ramfs.RamFile.Read` | fs/vfs.cpp:49-57 | the bytes of the content from the offset on, as far as they exist |
| `Ramfs.RamFile.Write` | fs/vfs.cpp:59-79 | the content padded with zeros to the offset, with the buffer laid over it, also for an empty buffer; unchanged when memory is short |
| `Ramfs.RamFile.Truncate` | fs/vfs.cpp:419-423 | the content is empty |
| `Ramfs.OverlayReads` | fs/vfs.cpp:49-79 | what was written is read back, what lies elsewhere stays, gaps read as zeros |
| `Ramfs.OverlayJoins` | fs/vfs.cpp:59-79 | two adjacent writes are one |

## Left out

- Hardware: drivers, boot code, descriptor tables, port input and output, TLB flushes and `switch_context`; a dispatch is a change of the current task.
- The block device is an array of sectors; a sector within it can always be read and written, so I/O errors arise only beyond its end.
- FatFile.ChainRead: for a file without clusters and an offset past the first cluster it assumes that table entry 0 or 1 ends the walk, as it does on a formatted volume; `fat_read` never asks for that, since such a file has size 0.
- FatVolume.WriteFat: entry and sector numbers are unbounded integers, where the driver computes in 32 bits.
- FatDirectory.FatUnlink: assumes, for a file, a chain that is disjoint from the directory's own.
- FatDirectory.FatCreate: the node that is built in memory for the entry is left out.
- FatSession.Session: removals are included on volumes whose data area ends before the sector that the end mark indexes; on larger ones `FatDirectory.DirectoryIff` and `FatDirectory.BystanderIff` say what a removal does.
- FatSession.ActWrite: the node is made from the entry at each write; nodes that live on while others write the same file are not modelled.
- FatSession.ActUnlink: the same condition on the volume.
- Building VFS nodes for FAT files, mounting, FAT truncation (only the node is reset, no cluster is freed) and FAT directory listing.
- Pmm.Allocator.Init: takes the Multiboot2 tags as parsed values, not as raw bytes.
- `unmap_page`, and reclaiming a user space's leaf frames, which the kernel leaves to its owner.
- UserClone.CloneUserSpace: assumes that the address in every user entry of the source names memory that exists; the kernel copies from the entry without masking its NX bit.
- Heap.Allocator.Kmalloc: sizes are unbounded integers; `Heap.SizesExactIff` says for which requests this is what the 64-bit code computes. The header-corruption branch of the search is not modelled because it cannot be reached from a valid heap.
- Heap.Allocator.Kfree: a pointer in front of which a client's bytes stand is excluded, among them a header left inside a block by a merge whose bytes the block's owner has overwritten; if those bytes pass for a header in use, the kernel takes it for one.
- Heap.Allocator.Krealloc: the same, and a pointer to a freed block is not modelled.
- Heap.Allocator.Expand: frames that mapping a page takes for page tables are not counted, nor is a failure of the mapping.
- `kcalloc`, which takes the heap lock twice, and the heap's spinlock.
- Mutex.Lock.Unlock: unlocking by others than the holder is outside the protocol, and so are waking by anything but `unlock` and locking twice by one task; critical sections under the guard are single steps.
- Scheduler.Queue.Exit: exit codes and the closing of the descriptor table are not modelled, nor are `wait` and forking.
- Scheduler.Queue.Spawn: lack of memory, the kernel stack and the initial context are not modelled; tasks are named by ids that are never reused.
- Scheduler.Queue.BlockCurrent: the idle task never blocks, and never exits.
- StackBuilder.BuildStack: an image that does not fit below the strings, for which the kernel writes below its buffer, is excluded by a precondition, and so are lists of string pointers that end before a null. Stack alignment is not claimed.
- Vfs.Files.CreateInternal: paths of 256 characters or more overrun a buffer in the kernel and are excluded, here and in the calls that use it; so are paths that lead somewhere, which `open` and `mkdir` exclude beforehand and the unused `create` does not; directories with their own create operation (FAT mounts) are not modelled.
- Vfs.Files.ResolveParent: the same bound on paths.
- Vfs.Files.Mkdir: the same bound on paths.
- Vfs.Files.Open: truncation is `Ramfs.RamFile.Truncate`; flags and offsets are left out.
- Vfs.Files.Dup: offset, flags and directory index are left out.
- Vfs.Files.Pipe: the pipe's buffer is left out.
- Seeking, stat, directory listing, the terminal and pipe buffers, including when a pipe's buffer is freed.
- Vfs.Files.Close: the close operation of pipe nodes is not modelled.
- FdSession.ActProcess: the three terminal descriptors that a new user process gets are not opened.
- FdSession.Act: tasks without a table and null pointers in arguments, which the calls reject at once, are not modelled; processes share one current directory, as in the kernel.
