# A verified model of the Novaris kernel's data paths

Novaris is a from-scratch x86 kernel. This project models five of its components in Dafny and proves what
they keep over whole operations and whole runs:

- **the FAT32 driver** (`kernel/fat32.c`): the one-sector write-back cache over the mirrored allocation table, the
  allocator and the remembered chain position, all-or-nothing growth of chains, reading and writing file bytes,
  8.3 and long names, the directory scan, and `fat_create`, `fat_unlink`, `fat_rename`, `fat_write`, `fat_truncate`
  on a device, with what a machine that stops at any sector write leaves behind;
- **the kernel heap** (`kernel/kheap.c`): first fit, splitting, growth and coalescing over linked headers;
- **the ELF loaders** (`kernel/elf64.c`, `kernel/elf.c`): the image two loaders build from program headers;
- **the software renderer** (`kernel/gfx.c`): the integer square root, blending, rounded rectangles and the box blur;
- **the boot sector** (`kernel/fat32.c`): which sectors `read_bpb` accepts, and which of those describe a sound volume.

`dafny verify dfyconfig.toml` checks everything.

## How the FAT32 part is put together

The device is a sequence of 512-byte sectors, and `FatCache.FatCache.log` records the whole device after every single
sector write. A statement about all of `log` is a statement about every moment at which the machine could stop.

| files | what they hold |
|---|---|
| `Geometry`, `BootSector` | the regions of a volume and the boot sector that describes them |
| `Chains`, `FatCache`, `Allocation` | chains in a table, the cached table, `alloc_cluster`, `free_chain`, `chain_nth` |
| `ClusterData`, `Evolution`, `Growth`, `FileIo`, `FileBytes`, `Resizing` | file bytes over a chain, and what work on one chain may do to the rest of the volume, at its end and at every moment on the way |
| `Names`, `LongNames`, `ShortNames`, `Layout`, `Edits`, `Spelling` | the name codecs, the scan of `populate`, and directories as sequences of 32-byte entries |
| `DirectoryIo`, `Directory`, `Entering`, `NodeList` | the same directories on the device: entry `i` is bytes `32i` to `32i + 31` of the directory's own chain; every scan and every entry write goes through the chain |
| `Ownership`, `World`, `Paths`, `Keeping`, `CrashSafety`, `Steps` | the tree of all directories and files, who owns which chain, what can be reached from the root, and the steps operations are made of |
| `FileOps`, `DirOps`, `FileSystem` | the operations, and the class that holds the lists of nodes |

`FileSystem.FileSystem.Valid` is the invariant of a mounted volume. Every directory and every file owns a well-formed
chain, no two chains share a cluster, every cluster is free, owned or was lost before the mount (`Ownership.Accounts`),
every directory's entries on the device hold exactly the nodes its list has and say of each what its record says, and
the table on the device, which may lag behind the cached one, is safe as it stands. A fresh volume satisfies it
(`FileSystem.BlankStands`), and every operation keeps it. `OnDevice` says that nothing is left in the cache to be written:
it holds after every operation that succeeds, and then a new mount of the device alone gives the same volume
(`FileSystem.FileSystem.Remount`, `FileSystem.FileSystem.Reopen`).

`CrashSafety.CrashSafe` is about the device alone: the directories there, read through the table there, form a forest.
Every live entry that points at a cluster, a file's or a directory's, points at the head of a chain that ends properly,
and no two entries share a cluster. Its `skip` argument names entries left out of account.

Many predicates are written `forall n :: Token(n) ==> ...`. They stay folded in a proof until it mentions the token; the
meaning is that of the body.

## Model

| member | source | states |
|---|---|---|
| `FatCache.PatchEntry` | kernel/fat32.c:175-194 | storing 28 bits keeps the four reserved bits of that entry and all of the other 127 |
| `FatCache.FatCache.Flush` | kernel/fat32.c:146-154 | afterwards every copy holds the cached sector and the device shows the table readers see; every moment of the flush shows that table; nothing outside the table region changes |
| `FatCache.FatCache.Load` | kernel/fat32.c:157-164 | replacing the cached sector never changes the table readers see, a clean cache writes nothing, and afterwards something is unwritten only if it was before and the sector was the cached one |
| `FatCache.FatCache.Get` | kernel/fat32.c:166-171 | the entry of the table as it is seen through the cache, an end marker for a cluster the volume does not have |
| `FatCache.FatCache.Set` | kernel/fat32.c:175-194 | the seen table changes in one entry; with `Valid` (prefix consistency): at every moment the device shows the table after some prefix of the calls, later moments longer prefixes, and mirrors that agreed at mount agree again after each flush |
| `Chains.ChainUnique` | kernel/fat32.c:256-299 | a chain is determined by its head |
| `Chains.ChainAcyclic` | kernel/fat32.c:303-312 | a chain that reaches an end marker visits no cluster twice |
| `Chains.WalkCompose` | kernel/fat32.c:279-299 | walking m then n links is walking m + n links, which is why resuming from a remembered position is right |
| `Allocation.Fat.AllocCluster` | kernel/fat32.c:214-231 | answers 0 exactly if no cluster is free, wherever the search hint stands; otherwise takes the free cluster a search from the hint meets first, links it and keeps the free count exact; from a clean cache the device still shows the old table |
| `Allocation.Fat.FreeChain` | kernel/fat32.c:245-253 | halts on every table, loops included; every table shown on the way is the table after some number of its iterations |
| `Allocation.FreedAll` | kernel/fat32.c:245-253 | started at the head of a chain it frees exactly the chain |
| `Allocation.Fat.ChainNth` | kernel/fat32.c:256-299 | the plain walk's answer whatever was remembered; with a usable memo only the links from there are followed; an unwritten table sector stays unwritten exactly if all the links read lie in it |
| `Allocation.Fat.ChainLength` | kernel/fat32.c:303-312 | the number of clusters the walk visits, bounded so that a cyclic table cannot hold it |
| `Growth.EnsureChain` | kernel/fat32.c:324-366 | succeeds exactly if the volume has the space; then the old chain is a prefix, its bytes are kept and added clusters are zero; otherwise chain, every other entry and the set of free clusters are as before; no other file is touched at any moment, and a growth by one cluster is never shown before it is done |
| `FileIo.ReadRaw` | kernel/fat32.c:748-781 | exactly what the chain holds in the range, with no more link steps than the index of the last cluster asked for |
| `FileIo.WriteLoop` | kernel/fat32.c:800-834 | exactly `data` lands at `offset`; every other byte of the file and every other cluster is as it was |
| `FileBytes.NeedLeast` | kernel/fat32.c:800-801 | the rounded-up division is the least number of clusters that hold the bytes |
| `FileBytes.WriteRaw` | kernel/fat32.c:794-835 | the whole range is stored, over zeros where the chain grew, or nothing changes at all |
| `Resizing.GrowTo` | kernel/fat32.c:880-904 | the file's bytes followed by zeros, whatever the old last cluster still held |
| `Resizing.CutTo` | kernel/fat32.c:905-924 | the chain ends after the clusters kept, and exactly the others are free |
| `Names.MakeShort` | kernel/fat32.c:421-465 | computes the short form of exactly the names that have one |
| `Names.ShortToName` | kernel/fat32.c:468-484 | computes the name an 8.3 entry stands for |
| `Names.ShortRoundTrip` | kernel/fat32.c:421-484 | a name with a short form comes back as itself if and only if it does not end in a dot |
| `LongNames.MakeFragment` | kernel/fat32.c:1024-1040 | every byte of a long-name entry |
| `LongNames.TakeEntry` | kernel/fat32.c:621-717 | one turn of the scan does to an entry what the scan's definition says: fragments gathered, labels and dot entries passed over, a node made under its long name or the name `ShortToName` computes |
| `LongNames.LongReadsBack` | kernel/fat32.c:603-722 | the scan of the fragments and short entry of a name makes one node of that name, up to bytes outside ASCII; "." and ".." make none |
| `LongNames.ShortReadsBack` | kernel/fat32.c:603-722 | the scan of a single short entry makes one node of the name it stands for |
| `ShortNames.CandidateInjective` | kernel/fat32.c:1121-1139 | different numbers give different generated names |
| `ShortNames.Pigeonhole` | kernel/fat32.c:1121-1143 | if all candidates up to n are in use, n short entries are in use |
| `Layout.RemountReads` | kernel/fat32.c:603-722 | a scan reads exactly what the groups of a laid-out directory read as |
| `Edits.RemountAgrees` | kernel/fat32.c:603-722 | the nodes of a directory are those a scan finds if and only if each of them reads back as itself |
| `Spelling.Added` | kernel/fat32.c:1015-1075 | writing a name over free entries adds one node and changes no other; it reads back if and only if the name is one of those kept |
| `Spelling.AddedUnique` | kernel/fat32.c:1078-1144 | short names stay unique |
| `DirectoryIo.EntryAt` | kernel/fat32.c:516-533 | the 32 bytes of the entry and where they lie, or nothing past the last cluster |
| `DirectoryIo.EntryPut` | kernel/fat32.c:535-540 | exactly that entry changes, in the directory and on the device, in one sector write |
| `DirectoryIo.EntriesGrown` | kernel/fat32.c:998-1010 | a directory that grows gains free entries and keeps the others |
| `Entering.PositionInjective` | kernel/fat32.c:1290-1293 | sector and offset of an entry determine its index |
| `Directory.ShortNameTaken` | kernel/fat32.c:1078-1088 | whether an entry in use has those eleven bytes, read from the device |
| `Directory.GenerateShort` | kernel/fat32.c:1093-1144 | the generated name is an unused candidate that cannot look free or final; fails only in a directory with 999,999 short entries in use |
| `Directory.Populate` | kernel/fat32.c:603-722 | the list of nodes is the one the scan of the entries on the device defines |
| `Entering.FindSlots` | kernel/fat32.c:974-1011 | the first run of free entries; the directory grows, by one zeroed cluster, only if it has none, and the search fails only if the volume is then full |
| `Entering.Reserve` | kernel/fat32.c:1169-1182 | an unused short name and room for the entries, or the reason there is none |
| `Entering.Store` | kernel/fat32.c:1015-1075 | the entries on the device then hold the node, which reads back if and only if its name is kept; no moment shows a pointing entry but the last, and that only for a node with clusters |
| `Entering.FreeEntries` | kernel/fat32.c:1283-1307 | exactly the node's entries are freed; every other node keeps its entries and its reading |
| `Entering.UpdateEntry` | kernel/fat32.c:543-573 | the entry says the node's new cluster and size under its old name, in one sector write |
| `Entering.Reparent` | kernel/fat32.c:1396-1406 | the ".." of a moved directory names the new parent; no node changes |
| `Ownership.NoLeak` | kernel/fat32.c:314-366 | replacing one chain by another without losing count frees exactly the clusters given up |
| `Ownership.AccountsStep` | kernel/fat32.c:324-366 | work on one chain keeps every cluster free, owned or lost, and only one of these |
| `Ownership.TotalIs` | kernel/fat32.c:303-312 | chains that do not meet own as many clusters as they are long together |
| `FileSystem.Conservation` | kernel/fat32.c:210-253 | free clusters, lost ones and the lengths of all chains add up to the volume |
| `FileSystem.SyncedShows` | kernel/fat32.c:603-722 | once everything is on the device, a volume is in step if and only if the device alone, read through its own table, shows the tree there is in memory |
| `Paths.MovedConnected` | kernel/fat32.c:1336-1410 | when the entry of a directory moves, every directory can still be reached from the root if and only if the new place does not lie under the directory itself |
| `CrashSafety.MildSafe` | kernel/fat32.c:860-872 | a moment that shows no new pointing entry, and a table that is old or gives every node its head, is safe |
| `CrashSafety.FreeHeadUnsafe` | kernel/fat32.c:860-872 | a live entry whose first cluster is free on the device is not safe |
| `CrashSafety.SharedUnsafe` | kernel/fat32.c:860-872 | two live entries that point at one cluster are not safe |
| `Steps.DirStored` | kernel/fat32.c:1015-1075 | writing a node's entries keeps the volume's invariant and every other node, and every moment is safe apart from the new entry |
| `Steps.FileStep` | kernel/fat32.c:794-934 | work on a file up to its entry update keeps the invariant, and every moment is safe |
| `FileOps.Conclude` | kernel/fat32.c:858-873 | flush, then entry: one write after the flush the entry names the chain, the cache is clean, and every moment is safe |
| `FileOps.GapReadsZero` | kernel/fat32.c:837-873 | the gap of a write past the end reads as zero if and only if the slack it covers was zero |
| `FileOps.WriteFile` | kernel/fat32.c:837-873 | the contract of `FileSystem.FileSystem.Write` below, on the device |
| `FileOps.ReadFile` | kernel/fat32.c:783-792 | the contract of `FileSystem.FileSystem.Read` below, on the device |
| `FileOps.ClearFile` | kernel/fat32.c:910-934 | a truncation to nothing frees the chain, and some moment of it is not safe |
| `FileOps.TruncateFile` | kernel/fat32.c:875-934 | the contract of `FileSystem.FileSystem.Truncate` below, on the device |
| `DirOps.CreateFile` | kernel/fat32.c:1162-1279 | an empty file in the tree and on the device, all moments safe, the table flushed; a failure leaves the tree as it was and has a reason |
| `DirOps.MakeDir` | kernel/fat32.c:1187-1268 | a directory with "." naming itself, ".." naming its parent and nothing else, the table flushed. Apart from its own entry every moment is safe. From a clean cache and in a directory with room its entry goes to the first free run and its cluster is the next free one, and every moment is safe if and only if some cluster before the one the entry lies in has its table entry in another sector than the new cluster; in general all moments are safe if the table on the device is up to date when the entry lands, and that moment is not if it is still the old one |
| `DirOps.WalkFlushes` | kernel/fat32.c:256-299 | the walk to an entry of a directory brings an unwritten table sector to the device if and only if one of the links it reads lies in another sector |
| `DirOps.UnlinkFile` | kernel/fat32.c:1309-1334 | the entries go first, then the chain, then the flush: exactly its clusters become free, exactly its entries are freed, and every moment is safe |
| `DirOps.RemoveDir` | kernel/fat32.c:1309-1334 | the same for an empty directory, for the directories that remain |
| `DirOps.MoveNode` | kernel/fat32.c:1354-1410 | the node keeps kind, clusters, length and bytes, a moved directory's ".." names the new parent, and the table is flushed. A node without clusters moves with every moment safe; from a clean cache and with room in the new directory that is so if and only if it has none; apart from the new entry every moment is safe always |
| `FileSystem.BlankStands` | kernel/fat32.c:998-1010 | a volume with a zeroed root directory and nothing else satisfies the invariant |
| `FileSystem.FileSystem.FindName` | kernel/fat32.c:731-737 | the first node of that name |
| `FileSystem.FileSystem.Reread` | kernel/fat32.c:603-722 | the nodes the scan of the device makes, and exactly those in memory if the volume is in step |
| `FileSystem.FileSystem.Sync` | kernel/fat32.c:1600-1603 | afterwards the table is on the device; nothing else changes, every moment is safe, and on a clean cache nothing is written |
| `FileSystem.FileSystem.Remount` | kernel/fat32.c:1507-1545 | a new cache over a device that holds everything sees the same volume, and the lists read from it are those of memory if and only if the volume is in step |
| `FileSystem.Discover` | kernel/fat32.c:603-737 | a mount that knows nothing but the root finds exactly the directories that can be reached from it, each with its nodes |
| `FileSystem.FileSystem.Reopen` | kernel/fat32.c:1635-1642 | unmounted in step and mounted again, a volume whose directories can all be reached is the one it was |
| `FileSystem.FileSystem.Read` | kernel/fat32.c:783-792 | the file's bytes in the range, cut at the end of file; nothing changes and no more links are followed than there are clusters up to the last one asked for |
| `FileSystem.FileSystem.Write` | kernel/fat32.c:837-873 | succeeds exactly if the space is there, and then everything is on the device; exact inside the file and at its end; a gap reads as zero if and only if the slack was zero; every other node keeps record, clusters, bytes and reading; the volume stays in step and every moment is safe |
| `FileSystem.FileSystem.Truncate` | kernel/fat32.c:875-934 | the file cut or padded with zeros, and on success everything on the device; every moment is safe if and only if the file does not go from some bytes to none |
| `FileSystem.FileSystem.ShrinkThenGrow` | kernel/fat32.c:875-934 | two truncations in a row: what was cut off does not come back |
| `FileSystem.FileSystem.StaleGap` | kernel/fat32.c:837-934 | a run of write, truncate and write past the end after which stale bytes show in the gap |
| `FileSystem.FileSystem.Create` | kernel/fat32.c:1162-1279 | the list gains the node and everything is on the device; in step afterwards if and only if the name is kept; no other node changes; fails only for a long name or for want of a place; every moment is safe |
| `FileSystem.FileSystem.Mkdir` | kernel/fat32.c:1162-1279 | the same for a directory, with its own empty list, its dot entries and the crash condition of `MakeDir`; clusters taken are counted |
| `FileSystem.FileSystem.Unlink` | kernel/fat32.c:1309-1334 | the error codes in order; otherwise the node goes from list, tree and device, exactly its clusters become free, everything is on the device, no other node changes, the volume stays in step and every moment is safe |
| `FileSystem.FileSystem.Rename` | kernel/fat32.c:1336-1410 | the answers in order, and the reason when there is no room; the file in the way is unlinked first, even then; the node moves with its bytes, a directory takes the new parent; in step afterwards if and only if the new name is kept; everything is on the device; the crash condition of `MoveNode`; every directory stays in reach if and only if none moves under itself |
| `FileSystem.FirstDir` | kernel/fat32.c:1162-1279 | a run: the first directory of a fresh volume, whatever its name, shows an entry that names a cluster the device calls free |
| `FileSystem.LostDir` | kernel/fat32.c:1336-1410 | a run: a directory renamed into itself can no longer be reached, and on the way two entries shared its chain |
| `NodeList.ListedAppend` | kernel/ramfs.c:155-165 | a node is appended and the list stays the directory's index |
| `NodeList.ListedDrop` | kernel/ramfs.c:167-176 | a node is taken out and the others keep their order |
| `BootSector.SoundExactly` | kernel/fat32.c:1431-1484 | an accepted boot sector gives a sound volume if and only if tables and clusters, counted from its fields, end inside the device and the table has an entry per cluster, in plain arithmetic |
| `BootSector.SoundPlain` | kernel/fat32.c:1431-1484 | when no sum of the fields wraps: accepted if and only if it looks right and has room for a cluster; sound if and only if it ends inside the device and no cluster number looks like an end marker |
| `BootSector.CappedBound` | kernel/fat32.c:1476-1482 | without wrap-around, the cluster count is the lesser of what there is and what the table describes |
| `BootSector.WrapAccepted` | kernel/fat32.c:1431-1484 | a sector whose table size wraps is accepted and describes an unsound volume |
| `Blocks.MallocSound` | kernel/kheap.c:64-162 | for requests up to 2^32 - 16: the pointer is fresh, aligned, large enough and disjoint from all live ones, the heap stays tiled, and failure has exactly one cause |
| `Blocks.MallocExact` | kernel/kheap.c:64-162 | `kmalloc` is sound on every heap if and only if the request is at most 2^32 - 16 |
| `Blocks.FreeSound` | kernel/kheap.c:176-194 | freeing takes exactly that pointer from what is live and leaves no two free neighbours |
| `Blocks.RunDisjoint` | kernel/kheap.c:64-194 | in every reachable heap the live payloads are aligned, mapped and do not meet |
| `Blocks.RunAllFreed` | kernel/kheap.c:176-194 | a run that frees the last live pointer leaves one block spanning the heap |
| `Heap.Heap.Expand` | kernel/kheap.c:32-40 | maps pages up to the end asked for, or as many as there are frames |
| `Heap.Heap.Init` | kernel/kheap.c:42-48 | the heap is tiled if and only if sixteen frames were there |
| `Heap.Heap.Kmalloc` | kernel/kheap.c:64-162 | the linked headers after the call are the model's heap, and so is the pointer |
| `Heap.Heap.Kfree` | kernel/kheap.c:176-194 | exactly the freed pointer leaves the live ones; no two free neighbours are left |
| `Heap.Heap.Stats` | kernel/kheap.c:166-174 | the total is exactly what is mapped |
| `ProcessImage.OrderFree` | kernel/elf64.c:86-187 | for headers that claim no byte twice, the image does not depend on their order |
| `ProcessImage.ImageUnique` | kernel/elf64.c:86-187 | two spaces that match the headers are equal |
| `ProcessImage.FileByte` | kernel/elf64.c:147-186 | a byte of a header's file range is that byte of the file |
| `ProcessImage.AcceptedSound` | kernel/elf64.c:119-146 | an accepted header keeps to the file and to its own pages if and only if none of its sums wraps |
| `ProcessImage.WrapAccepted` | kernel/elf64.c:119-126 | a header that starts eight bytes below 2^64 is accepted and reads outside the image |
| `Elf64.Load` | kernel/elf64.c:86-187 | on success the space is exactly the image of the headers, with the permissions of all that touch a page; each failure code has its cause; frames are conserved |
| `Elf64.HeadersReadable` | kernel/elf64.c:128-135 | the program headers a process is told about are the file's |
| `Elf32.Load` | kernel/elf.c:59-118 | on success every mapped byte is that of the last header that claims it; each failure code has its cause |
| `Elf32.CopyExact` | kernel/elf.c:67-103 | where no sum wraps, the copy of a header keeps to the pages mapped for it if and only if its file part ends before they do |
| `Elf32.LongFileAccepted` | kernel/elf.c:67-103 | a header whose file part is longer than its memory part is accepted and copied past its page |
| `Elf32.LoadersAgree` | kernel/elf.c:59-118 | where no byte is claimed twice the two loaders build the same pages, up to pages of headers without memory |
| `Root.Isqrt` | kernel/gfx.c:49-63 | the floor of the root, for every 32-bit input, with nothing leaving 32 bits |
| `RoundRect.ScaleRounds` | kernel/gfx.c:67-80 | the shifts divide by 255 and round to the nearest |
| `RoundRect.BlendAverages` | kernel/gfx.c:67-80 | every channel is the rounded average of the two colours, at both ends too |
| `RoundRect.ComputeDistance` | kernel/gfx.c:264-278 | the signed distance with its guard |
| `RoundRect.PaintExact` | kernel/gfx.c:264-336 | painting is what the signed distance asks for, on every pixel of every shape of a radius, if and only if the radius is at most 40 |
| `RoundRect.GuardWrong` | kernel/gfx.c:264-278 | a corner pixel of a circle of radius above 40 is painted although it lies outside |
| `RoundRect.RoundRectRows` | kernel/gfx.c:282-336 | every pixel inside clip and shape is painted so, and every other pixel is left alone |
| `Blur.PassH` | kernel/gfx.c:472-494 | every pixel of the area becomes what the sliding sums give for its row; every other pixel is left alone |
| `Blur.PassV` | kernel/gfx.c:496-519 | the same for columns |
| `Blur.BlurExact` | kernel/gfx.c:472-519 | that is the average of the pixels within the radius, on every line, if and only if the largest sum fits in 32 bits |

## Findings

Properties the code does not meet, each with its exact condition:

- **Truncation to nothing is not crash safe** (`FileOps.ClearFile`, `FileSystem.FileSystem.Truncate`). The head is freed
  and the table flushed before the entry is rewritten, so for one moment a live entry names a free cluster. Every moment
  of a truncation is safe if and only if it does not take a file from some bytes to none. The comment at
  kernel/fat32.c:927-930 considers only a chain that is cut.
- **A gap can show old bytes** (`FileOps.GapReadsZero`, `FileSystem.FileSystem.StaleGap`). `fat_write` past the end of a
  file does not clear the slack of the last cluster; the gap reads as zero if and only if that slack was zero.
- **mkdir writes its entry before the table** (`DirOps.MakeDir`, `FileSystem.FileSystem.Mkdir`), so an entry can name a
  cluster the device still calls free. From a clean cache, in a directory with room for the entries, every moment is safe
  if and only if some cluster of the parent before the one the entry lies in has its table entry in another sector than
  the new cluster: only then does the walk to the entry flush the table first (`DirOps.OneSector`). `FileSystem.FirstDir`
  is a run in which it is not safe.
- **rename has two entries on one chain** between its two halves (`DirOps.MoveNode`, `FileSystem.FileSystem.Rename`). From a
  clean cache, or when a file in the way is unlinked first, and with room in the new directory, every moment is safe if
  and only if the node has no clusters. `FileSystem.LostDir` is a run in which it is not.
- **rename can put a directory under itself** (`Paths.MovedConnected`, `FileSystem.FileSystem.Rename`), and neither
  `fat_rename` nor `vfs_rename` (kernel/ramfs.c:737-759) looks for that. Every directory can still be reached from the root
  if and only if the moved one does not come to lie under itself; `FileSystem.LostDir` is the run.
- **"foo." loses its dot** (`Names.ShortRoundTrip`): it is stored in short form and comes back as "foo".
- **Names with bytes from 0x80 on do not come back** (`Spelling.Added`, with `Spelling.Kept`): a remount shows question
  marks. In long form exactly the ASCII names other than "." and ".." come back.
- **Requests above 2^32 - 16 break the heap** (`Blocks.MallocExact`): the rounding wraps.
- **`kheap_init` ignores the answer of `heap_expand`** (`Heap.Heap.Init`): with fewer than sixteen frames the first header
  claims memory that is not mapped.
- **Boot sectors whose sums wrap are accepted** (`BootSector.WrapAccepted`), and nothing compares the volume with the
  device (`BootSector.SoundExactly`, `BootSector.SoundPlain`).
- **ELF headers whose sums wrap are accepted** (`ProcessImage.WrapAccepted`, `ProcessImage.AcceptedSound`).
- **The 32-bit loader does not compare the two sizes of a header** (`Elf32.LongFileAccepted`). Where no sum wraps, the copy
  keeps to the pages mapped for the header if and only if the file part ends before they do (`Elf32.CopyExact`).
- **Circles of a radius above 40 paint their corners** (`RoundRect.GuardWrong`, `RoundRect.PaintExact`).
- **Blur sums wrap for radii above 8421503** (`Blur.BlurExact`).

Where comment and code differ, the model follows the code. The comment at kernel/fat32.c:177-182 says that growing a chain
keeps the remembered position; every allocation marks its cluster through `fat_set` with an end marker, which forgets it.

## Left out

- Failing block I/O: every sector read and write succeeds, so the `-EIO` paths are not modelled.
- Symbolic links, the volume label, the read-only attribute, materialised copies of files, and node reference counts.
- The node pool: `vfs_node_alloc` always succeeds.
- `FatCache.FatCache.constructor`: the FSInfo sector, where free count and hint could be read from, is not modelled; both are parameters of `Allocation.Fat`.
- The clock: time stamps are parameters.
- A node remembers the index of its short entry instead of its sector and offset, and `dirent_update` looks the entry up through the chain; `Entering.PositionInjective` says that one determines the other.
- `populate` is not lazy: every directory of the tree has its list.
- `FileSystem.FileSystem.constructor`: a volume that other systems wrote is taken to be laid out as this driver lays it out (each long name directly before its short entry, nothing after the end marker, no entry but "." and ".." that starts with a dot).
- `FileSystem.FileSystem.Write`: the end of the range rounded up to a cluster stays below 2^32, and there is at least one byte to write, as `vfs_write` sees to (kernel/ramfs.c:642).
- `FileSystem.FileSystem.Truncate`: the new length rounded up to a cluster stays below 2^32.
- `FileSystem.FileSystem.Create`: that the name is not empty and holds no zero byte is demanded; `vfs_create` sees to the first (kernel/ramfs.c:228).
- `DirOps.MakeDir`: the exact crash condition is for a clean cache and a parent that need not grow. A parent that grows leaves its own link unwritten; then the contract says what the moments show only in terms of the table on the device when the entry lands.
- `DirOps.MoveNode`: the same for a new directory that grows.
- `FileSystem.FileSystem.Sync`: the write of the FSInfo sector is not modelled.
- `FileSystem.FileSystem.Remount`: reading the partition table and the boot sector again; the geometry is kept.
- `Elf64.Load`: a header whose sums wrap is accepted by the source, which then reads outside the image; the model stops there with `Astray`.
- `Elf32.Load`: the same, and for a header whose file part is longer than its memory part.
- The parsing of ELF headers before the loop over program headers, relocation, and failures of page-table allocation.
- `RoundRect.RoundRectRows`: coordinates are bounded so that the 32-bit fixed-point sums do not overflow.
- The other renderers, the scheduler, drivers, the network stack, the POSIX layer and the Wine loader.
