# A verified model of the Phinix kernel's stateful core

Phinix is a small 32-bit kernel. Its hard parts are pieces of state that many calls share and
change in place: page tables that processes share after a fork, index trees of files, directory
slots that are used again, buffers, heap pages, a disk queue, the task table, locks, timers,
pipes, descriptors, and video memory. This project models each piece in Dafny and proves what the
kernel relies on: invariants over every run, refinements of a simple machine, conservation of
counts, and, where the code meets a promise only under a condition, that condition exactly.

Most pieces come as two modules. One holds the state as a value, a function for what each call
does to it, the invariant, and the theorems. The other holds a class whose methods have the
source's own form, loops and assignments, and are proved to do what those functions say. The
source's assertions appear as `assert` statements in these methods.

An invariant alone would also hold of calls that do nothing. So most pieces have, besides, a simple
machine written without the functions of their calls, and a theorem that over every run the two
agree:
private flat memories (`FlatMemory.RunRefinesFlat`), flat byte sequences (`FileWrites.RunIsFlat`),
a map from directory and name to inode (`Namespace.RunIsNamed`), a cache of blocks that lets the
one released longest ago go (`LruCache.RunShows`), waits and alarms that end at the first tick
that is late enough (`Deadlines.RunIsTimely`), open files that dup and fork name again
(`OpenFiles.RunShows`), lines of ancestors (`Ancestors.NearestAncestor`), a queue at a lock
(`Locks.FirstCome`), and the bytes given to a pipe (`Pipes.RunLosesNothing`).

| part | value and theorems | code in its own form |
|---|---|---|
| copy-on-write memory | `PageTables`, `ReferenceCounts`, `CopyOnWrite`, `AddressSpaces`, `FlatMemory` | `Memory` |
| file storage | `ZoneTree`, `ZoneGrowth`, `FileWrites` | `Bitmap`, `FileStore` |
| directories, current directory | `Directories`, `Namespace`, `WorkingDirectory` | `Volume`, `Paths`, `WorkingDirectory.TaskDirectory` |
| buffer cache | `Buffers`, `LruCache` | `BufferCache` |
| kernel heap | `Arenas`, `HeapPages` | `KernelHeap` |
| lists, disk elevator | `Lists`, `Elevator` | `LinkedList`, `Elevator.Device` |
| tasks, locks, timers, pipes, descriptors | `Processes`, `Ancestors`, `Locks`, `Timers`, `Deadlines`, `Pipes`, `Descriptors`, `OpenFiles` | a class in `Processes`, `Locks`, `Timers`, `Pipes` and `Descriptors` |
| console | `Terminal`, `Cursor` | `Console` |
| Internet checksum | `Checksum` | `Checksum` |

What stands for the hardware and for the rest of the kernel: a device is a total map from block
to contents that never fails; processes and tasks are numbers; a call's permission check, and
whether another task has a directory open, are parameters (a task's current directory counts as
open); the number `ialloc` or the pipe inode that `get_pipe_inode` finds is any number not in use. Where the source panics for want of a frame,
page, task slot, record or descriptor, the model requires that there is one. Step relations end
their atomic steps where the source blocks, yields, or, for the lock, may be preempted.

Some results say where the code falls short of what one would expect, with the exact condition
under which it does not, and an input that shows it:

| promise | kept exactly when | an input that breaks it |
|---|---|---|
| `link_page` and `unlink_page` keep the counts exact | `AddressSpaces.LinkExactIff`, `AddressSpaces.UnlinkExactIff`: the covering table has count 1 | right after a fork: `AddressSpaces.LinkAfterFork`, `AddressSpaces.UnlinkAfterFork` |
| `sys_mmap` sets the write bit for its own process only | `AddressSpaces.GuardApartIff`: the table has count 1, or the bit was as asked for | a page mapped again right after a fork |
| `sys_mmap` leaves a page to its own process | `AddressSpaces.GuardKeepsIff`: it is not to be written, or neither its table nor the page is shared | a page mapped again for writing right after a fork: `AddressSpaces.GuardAfterFork`; a store then shows in the child: `AddressSpaces.GuardLeaks` |
| a new index block has no entries | `ZoneTree.AttachOnlyIff`: the zone read as zeros | a file is truncated, and the zone is the next one taken, for another file's index block: `FileWrites.StaleIndex` |
| `inode_write` writes all its bytes | `FileWrites.WrittenKeeps`: the device has a free zone for each missing slot; else it stops in `balloc`'s assertion, with the bytes before that in place and all files sound | a device without a free zone: `FileWrites.FullDevice` |
| names in a directory stay unique | `Directories.StepKeepsIff`: the name, cut to 13 characters, is not there already | a longer name, twice: `Directories.LongNameTwice` |
| a block has one buffer | `Buffers.TakenKeepsIff`: when a task that waited in `get_free_buffer` goes on, no other buffer is its block's by now | two tasks wait for the same block: `Buffers.WokenTwice` |
| the floppy drive's timer is pending | `Timers.ExitKeepsIff`: the task that exits did not start it | the task that used the drive exits before the motor stops: `Timers.MotorDangles` |
| a timer is released once | `Timers.ForkKeepsIff`: no alarm is pending at a fork | an alarm of the child and one of the parent: `Timers.ForkedAlarm` |
| a byte stream gets the console back to its normal state | `Terminal.StuckIff`: sixteen arguments were not taken | ESC [ and sixteen semicolons: `Terminal.SixteenStop` |
| ESC and a letter end a sequence | `Terminal.EscapeStays`: only '[' leads on | `Terminal.EscapeSwallows` |
| a cursor sequence goes where it asks for, or nowhere | `Cursor.MovesIff`: no 32-bit sum wraps around onto the screen | CSI B with 4294967295 goes up one row: `Cursor.FarDown` |
| CSI M deletes rows | `Terminal.DeletedLinesIff`: what is left in the place of each row was like the n-th row below; for one row (`Terminal.DeletedLineIff`), the cursor's and every second one below it were like the next | `Terminal.DeletedLineSeen` |

Four more give the exact condition of an internal function, which its callers always meet:

- `Buffers.LoadedKeepsIff`: `bread` would read over a buffer that is dirty and not valid; every run
  of calls keeps dirty buffers valid (`Buffers.RunShowsLastStored`).
- `Checksum.WrapsIff`: `chksum` of a single byte on a large start value; `ip_chksum` starts from 0
  (`Checksum.IpChksumOf`).
- `Paths.EmptyStoredIff`: `abspath` by itself stores an empty component that nothing behind it goes
  up over; `sys_chdir` resolves the path first, no name in use is empty, and so a path that
  resolves has no empty component (`WorkingDirectory.ResolvedFull`). Over every run the stored text
  is normal and leads to the current directory (`WorkingDirectory.RunLeadsBack`).
- `Arenas.LargePagesEnough`: `kmalloc` of a size whose 32-bit sums wrap; every caller passes the
  size of one of the kernel's structures.

Check the project with `dafny verify dfyconfig.toml`.

## Model

| member | source | states |
|---|---|---|
| `Memory.Memory.GetPage` | src/kernel/memory.c:169-184 | takes the first frame with count 0, which becomes 1; free_pages drops by one and stays exact, its assertion holds |
| `Memory.Memory.PutPage` | src/kernel/memory.c:187-209 | drops one reference; free_pages grows just when the frame becomes free, and both range assertions hold |
| `Memory.Memory.CopyOnWrite` | src/kernel/memory.c:609-654 | the recursion over levels unshares the table, then the page, and is exactly the two value steps; the count assertions hold; it needs a frame only for what is really copied |
| `Memory.Memory.UserStore` | src/kernel/memory.c:735-750 | a user store that faults and is tried again has exactly the effect of a store to unshared memory |
| `Memory.Memory.CopyPde` | src/kernel/memory.c:510-566 | the two loops count every table and page once more and write-protect them; the assertions on the counts hold |
| `Memory.Memory.FreePde` | src/kernel/memory.c:569-602 | the two loops drop exactly the exiting process's references, never below zero |
| `Memory.Memory.LinkPage` | src/kernel/memory.c:403-422 | takes a table if there is none, then a page if there is none, and changes nothing when the page is there; a page it links may be stored to at once |
| `Memory.Memory.MapPage` | src/kernel/memory.c:783-805 | a round of sys_mmap: the page is linked, and its entry writable or read-only as asked |
| `Memory.Memory.UnlinkPage` | src/kernel/memory.c:425-452 | removes the page and its reference, or changes nothing when the table or the page is absent |
| `FlatMemory.RunRefinesFlat` | src/kernel/memory.c:403-813 | over every run of fork, store, link, mmap, unlink and exit each process reads what it would read with a flat memory of its own, may store where that memory says it may and nowhere else, and the invariant (exact counts, free_pages, no writable sharing) holds |
| `FlatMemory.StepRefines` | src/kernel/memory.c:403-813 | one operation of any kind keeps the invariant and does to the flat memories what the flat machine does |
| `FlatMemory.StoreEnabledIff` | src/kernel/memory.c:735-750 | a user store gets through, the fault handler's assertion on readonly included, if and only if the flat memory has the page as one that may be written and there are frames for what must be copied |
| `FlatMemory.BootInv` | src/kernel/memory.c:141-161 | the state after memory_map_init satisfies the invariant and shows no process |
| `CopyOnWrite.CowKeeps` | src/kernel/memory.c:609-654 | unsharing table and page keeps the invariant and what every process reads, leaves the page writable at both levels, and takes one frame for a table and one for a page that is shared, no more |
| `CopyOnWrite.StoreIsPrivate` | src/kernel/memory.c:735-750 | a store shows at its own byte in its own process and nowhere in any other process |
| `CopyOnWrite.PokeIsPrivate` | src/kernel/memory.c:609-654 | a store through a writable entry needs no copy: no other process can reach that page |
| `AddressSpaces.ForkKeeps` | src/kernel/memory.c:510-566 | fork keeps exact counts and no writable sharing; the child reads what its parent reads, the others what they did |
| `AddressSpaces.ExitKeeps` | src/kernel/memory.c:569-602 | exit keeps exact counts and the views of all other processes |
| `AddressSpaces.LinkKeeps` | src/kernel/memory.c:403-422 | a new page in an unshared table appears at its own place in its own process only |
| `AddressSpaces.LinkTableKeeps` | src/kernel/memory.c:304-324 | taking a page table for an empty directory slot keeps the invariant and every view |
| `AddressSpaces.UnlinkKeeps` | src/kernel/memory.c:425-452 | unlinking in an unshared table removes one page from one process and keeps the counts exact |
| `AddressSpaces.LinkExactIff` | src/kernel/memory.c:403-422 | link_page keeps the counts exact if and only if the covering table has count 1 |
| `AddressSpaces.UnlinkExactIff` | src/kernel/memory.c:425-452 | unlink_page keeps the counts exact if and only if the covering table has count 1 |
| `AddressSpaces.LinkAfterFork` | src/kernel/memory.c:403-422 | linking a page into a table right after a fork leaves counts that are not exact |
| `AddressSpaces.UnlinkAfterFork` | src/kernel/memory.c:425-452 | unlinking a page right after a fork leaves counts that are not exact |
| `AddressSpaces.LinkReady` | src/kernel/memory.c:304-324 | with a free frame for a missing table and one for a missing page get_page finds both |
| `AddressSpaces.GuardKeepsIff` | src/kernel/memory.c:783-805 | setting the write bit of a page in place, as sys_mmap does, keeps the invariant if and only if the page is not to be written, or its table and the page both have count 1 |
| `AddressSpaces.GuardShape` | src/kernel/memory.c:783-805 | in any case counts and places stay as they were |
| `AddressSpaces.GuardShows` | src/kernel/memory.c:783-805 | what every process reads stays as it was; who may store changes exactly for those whose table is the same one, at that place |
| `AddressSpaces.GuardApartIff` | src/kernel/memory.c:783-805 | no other process sees a change if and only if the table has count 1 or the permission was as asked for already |
| `AddressSpaces.GuardAfterFork` | src/kernel/memory.c:783-805 | right after a fork, mapping a page again for writing breaks the invariant |
| `AddressSpaces.GuardLeaks` | src/kernel/memory.c:783-805 | the page fault then copies the table only, and what the parent stores is in the child's page |
| `ReferenceCounts.CountsStaySmall` | src/kernel/memory.c:526-552 | no frame's count can reach 255: the overflow assertions of copy_pde never fail |
| `ReferenceCounts.TableAlone` | src/kernel/memory.c:609-654 | a table with count 1 is in one process only |
| `ReferenceCounts.PageAlone` | src/kernel/memory.c:609-654 | a page with count 1 is in one process only |
| `ReferenceCounts.TableCountIsTabs` | src/kernel/memory.c:510-566 | a table's count is the number of directory slots, over all processes, that name it |
| `ReferenceCounts.TableShared` | src/kernel/memory.c:510-566 | a table with a count above 1 is in a second process too |
| `Bitmap.Bitmap.Test` | src/lib/bitmap.c:22-37 | reads bit index - offset of the byte array |
| `Bitmap.Bitmap.Set` | src/lib/bitmap.c:40-64 | changes that bit and no other |
| `Bitmap.ByteIsItsBits` | src/lib/bitmap.c:22-37 | a byte of the bitmap is the number its eight bits write, the lowest first |
| `Bitmap.Bitmap.FindRun` | src/lib/bitmap.c:67-95 | finds the leftmost run of count clear bits, or reports that there is none |
| `Bitmap.Bitmap.Scan` | src/lib/bitmap.c:67-111 | marks exactly the leftmost run of count clear bits, or leaves the bitmap alone when there is none |
| `FileStore.FileStore.Balloc` | src/fs/bmap.c:11-40 | marks the lowest free zone of the data area as used, within the device; when there is none nothing changes, and the loop's next round stops in the assertion on the missing bitmap block |
| `FileStore.FileStore.Bfree` | src/fs/bmap.c:43-73 | the zone was marked used, and becomes free; no other bit changes |
| `FileStore.FileStore.Reckon` | src/fs/bmap.c:162-206 | the loop with the shrinking divider reaches the block's own slot, fills empty slots on the way when asked to, and releases every buffer it reads; it ends early only where `balloc` stops, with that round's buffer still held |
| `FileStore.FileStore.Bmap` | src/fs/bmap.c:139-207 | the zone of the block's slot; without create nothing changes; with create the zone is found if and only if there is a free one for each missing slot, and in any case only slots on the way to it were filled, with zones that were free; when it returns no reference count has changed |
| `FileStore.FileStore.InodeRead` | src/fs/inode.c:223-274 | end of file, or exactly the slice of the file's bytes, cut at its size; nothing changes |
| `FileStore.FileStore.InodeWrite` | src/fs/inode.c:277-337 | is the value step; it puts all bytes in place if and only if there is a free zone for each missing slot, and the first n otherwise: the file has these n bytes spliced in at begin, every other file is as it was, all zones stay owned by one slot |
| `FileStore.FileStore.InodeBfree` | src/fs/inode.c:352-379 | exactly the zones of the subtree below one array entry go from used to free, each once; the recursion ends |
| `FileStore.FileStore.FreeEntries` | src/fs/inode.c:368-375 | the 512 entries of an index block: exactly their subtrees are freed |
| `FileStore.FileStore.InodeTruncate` | src/fs/inode.c:382-408 | the file is empty, exactly the zones of its tree are free; inodes of other kinds are left alone |
| `FileWrites.RunIsFlat` | src/fs/inode.c:277-408 | over any run of writes and truncations, each a step from the disk that the ones before it left, the files are what the same run makes of flat byte sequences, and the ownership invariant holds |
| `FileWrites.StepIsFlat` | src/fs/inode.c:277-408 | the block-by-block write is a splice and the truncation an erasure of one flat sequence; every other file keeps its bytes, and the invariant holds |
| `FileWrites.WrittenKeeps` | src/fs/inode.c:277-337 | the loop of bmap and memcpy keeps the invariant and is a splice of the bytes it puts in place; these are all of them if and only if there is a free zone for each missing slot |
| `FileWrites.WalkedToKeeps` | src/fs/bmap.c:162-206 | bmap with create fills the way to its block, zone by zone, as far as there are free zones: ownership, all contents and what is missing beyond what is free stay the same |
| `FileWrites.WalkedToIff` | src/fs/bmap.c:162-206 | bmap with create gets to its block if and only if there is a free zone for each slot missing on the way |
| `FileWrites.StaleIndex` | src/fs/bmap.c:11-40 | when a zone that held bytes of a truncated file is the one balloc takes next, as another file's index block, it brings slots with it that nobody filled |
| `FileWrites.FullDevice` | src/fs/bmap.c:11-40 | without a free zone a write to a block the file does not have changes nothing |
| `ZoneTree.SlotOfInjective` | src/fs/bmap.c:139-207 | different block numbers have different slots, across direct, single and double indirect blocks |
| `ZoneTree.SlotsInOrder` | src/fs/bmap.c:139-207 | the slots come in file order: a later block has a later slot, across all three levels |
| `ZoneTree.SlotsOnto` | src/fs/bmap.c:139-207 | every slot for data is some block's; with the order there is one such map |
| `ZoneTree.ContentOfBlock` | src/fs/inode.c:223-274 | a file's bytes from b * 1024 on are those of the zone in the slot of block b |
| `ZoneTree.AttachKeeps` | src/fs/bmap.c:190-194 | filling an empty slot with a free zone keeps all trees disjoint, in the data area, and marked used |
| `ZoneTree.AttachContent` | src/fs/bmap.c:190-194 | filling a slot changes no byte of any file |
| `ZoneTree.AttachOnlyIff` | src/fs/bmap.c:11-40 | attaching an index block adds that slot and no other if and only if the block read as zeros |
| `ZoneTree.PutContent` | src/fs/inode.c:293-325 | storing within one block is a splice on its own file and nothing on the others |
| `ZoneTree.PutKeeps` | src/fs/inode.c:293-325 | storing bytes disturbs no index block of any file and keeps every file mapped up to its size |
| `ZoneTree.SpliceTwice` | src/fs/inode.c:285-327 | two splices in a row, the second where the first ended, are one splice |
| `ZoneGrowth.GrownAttach` | src/fs/bmap.c:190-194 | each zone bmap takes is one that was free and sits on the way to the wanted block |
| `ZoneGrowth.LackAttach` | src/fs/bmap.c:190-194 | each zone taken fills one missing slot: what is missing beyond what is free stays the same |
| `ZoneGrowth.TruncatedKeeps` | src/fs/inode.c:382-408 | truncation keeps every other file zone for zone and byte for byte, and the ownership invariant |
| `ZoneGrowth.DisjointBelow` | src/fs/inode.c:352-379 | subtrees of different entries share no zone, and none contains the index block itself: nothing is freed twice |
| `Directories.RunKeeps` | src/fs/namei.c:280-714 | after any run of mkdir, rmdir, link, unlink and create on a new device names are unique, the directories form a tree below the root, every link count is the number of entries naming the inode, and a directory's is 2 plus its subdirectories |
| `Directories.StepKeeps` | src/fs/namei.c:280-714 | each of the five calls, successful or not, keeps that invariant, unless it adds a name that the cut makes one already there |
| `Directories.StepKeepsIff` | src/fs/namei.c:122-173 | a call keeps the invariant if and only if it does not add a name whose first 13 characters are in the directory already |
| `Directories.LongNameTwice` | src/fs/namei.c:280-357 | making a directory with a name of 14 characters or more twice leaves two entries of one name |
| `Directories.AddedNamesIff` | src/fs/namei.c:122-173 | adding a name keeps the names unique if and only if what is stored of it is new |
| `Directories.MkdirKeeps` | src/fs/namei.c:280-357 | a new directory keeps the tree, unique names and exact link counts |
| `Directories.RmdirKeeps` | src/fs/namei.c:407-502 | removing an empty directory keeps the tree, unique names and exact link counts |
| `Directories.RmdirAsserts` | src/fs/namei.c:446-485 | when rmdir gets to its assertions the entry is neither "." nor "..", the directory's link count is 2 and its parent's above 2 |
| `Directories.LinkKeeps` | src/fs/namei.c:505-567 | a new name for a file keeps the tree, unique names and exact link counts |
| `Directories.UnlinkKeeps` | src/fs/namei.c:570-636 | removing a file's name, and the file with its last name, keeps the tree, unique names and exact link counts |
| `Directories.CreateKeeps` | src/fs/namei.c:639-690 | creating a file keeps the tree, unique names and exact link counts |
| `Directories.GrownGood` | src/fs/namei.c:315-346 | adding a directory's three entries keeps the graph a tree with exact counts |
| `Directories.ShrunkGood` | src/fs/namei.c:463-494 | an empty directory has link count 2, and taking it away keeps the graph a tree with exact counts |
| `Directories.LeftGood` | src/fs/namei.c:612-628 | a file's inode is freed exactly when its last entry goes |
| `Directories.DirLinksAreEntries` | src/fs/namei.c:315-346 | a directory's link count is the number of entries naming it: ".", its own entry, and the ".." of each subdirectory |
| `Directories.EmptyDir` | src/fs/namei.c:360-404 | counting two slots in use means that only "." and ".." are |
| `Directories.NewDeviceGood` | src/fs/super.c:387-404 | the root directory mkfs writes satisfies the invariant |
| `Directories.FindFromSound` | src/fs/namei.c:71-119 | the first slot in use with the name, or none of that name is in use |
| `Namespace.RunIsNamed` | src/fs/namei.c:280-714 | over every run of mkdir, rmdir, link, unlink and create each directory and name find the inode that the same run on a map from (directory, name) to inode binds them to, and the inodes in use are exactly the ones the map has |
| `Namespace.StepIsNamed` | src/fs/namei.c:280-714 | one call adds or takes that one name and no other, or changes nothing just when it is refused |
| `Namespace.MkdirNames` | src/fs/namei.c:280-357 | mkdir binds the name, and "." and ".." in the new directory |
| `Namespace.RmdirNames` | src/fs/namei.c:407-502 | rmdir takes the name, the two dot names and the inode, just when the directory has no other names |
| `Namespace.LinkNames` | src/fs/namei.c:505-567 | link binds one more name to the same file |
| `Namespace.UnlinkNames` | src/fs/namei.c:570-636 | unlink takes that name, and the inode exactly when no name for it is left |
| `Namespace.CreateNames` | src/fs/namei.c:639-690 | create binds the name to a new file |
| `Namespace.LeftByName` | src/fs/namei.c:612-628 | a file is in use if and only if some name is bound to it |
| `Namespace.BareIsEmpty` | src/fs/namei.c:360-404 | is_empty's count is 2 if and only if no name but "." and ".." can be looked up |
| `Namespace.ValuesAreEntries` | src/fs/namei.c:71-119 | no entry in use is hidden: an inode can be found by some name if and only if some entry has it |
| `Volume.MatchName` | src/fs/namei.c:45-68 | an entry matches just when it is the path's first component, and next is behind the separator |
| `Volume.Volume.FindEntry` | src/fs/namei.c:71-119 | the slot of the path's first component, slots out of use skipped |
| `Volume.Volume.AddEntry` | src/fs/namei.c:122-173 | the name, cut to 13 characters, goes into the first slot out of use, else into a new one at the end |
| `Volume.Volume.IsEmpty` | src/fs/namei.c:360-404 | whether exactly two slots are in use |
| `Volume.Volume.Mkdir` | src/fs/namei.c:280-357 | a directory with "." and ".." and its entry in the parent, and it succeeds if and only if the name is not empty, not in use and writing is allowed; else nothing changes |
| `Volume.Volume.Rmdir` | src/fs/namei.c:407-502 | the directory and its entry gone, just when it is allowed, is a directory's name, and that directory is bare and not busy; else nothing changes; both assertions hold |
| `Volume.Volume.Link` | src/fs/namei.c:505-567 | one more entry and link, just when the name is new, writing is allowed and it is no directory; else nothing changes |
| `Volume.Volume.Unlink` | src/fs/namei.c:570-636 | one entry and link less, the file gone with the last; just when the name is a file's and it is allowed; else nothing changes |
| `Volume.Volume.Create` | src/fs/namei.c:639-690 | a new file with one link just when the name is not empty, not in use and writing is allowed; else nothing changes |
| `Volume.StepPlain` | src/fs/namei.c:122-173 | no call puts a separator into a stored name |
| `Paths.AbsPath` | src/fs/namei.c:724-791 | the pwd buffer ends up holding the text of the directory that folding the path's components over the old one gives, for every path; the path's own separators become '/' |
| `Paths.Round` | src/fs/namei.c:742-769 | one component: skipped, popped or pushed in the buffer, and the pointer stands behind the text |
| `Paths.Pop` | src/fs/namei.c:753-758 | ".." cuts the last component off the text, and does nothing at the root |
| `Paths.Last` | src/fs/namei.c:771-791 | the component behind the last separator is handled like the others, with a separator put behind it |
| `Paths.ResolveInTwo` | src/fs/namei.c:724-791 | resolving p/q is resolving p and then q from the result |
| `Paths.ResolveNormal` | src/fs/namei.c:724-791 | "." and ".." are never stored |
| `Paths.GoAllHas` | src/fs/namei.c:742-769 | what is stored in the end: exactly the components that the ones behind them do not go up over |
| `Paths.EmptyStoredIff` | src/fs/namei.c:742-769 | an empty component is stored if and only if the path has one that nothing behind it goes up over |
| `Paths.EmptyStoredWithoutUp` | src/fs/namei.c:742-769 | for paths without "..", if and only if the path has an empty component |
| `Paths.EmptyIsPushed` | src/fs/namei.c:742-769 | abspath alone, from the root: the path "//" would be stored as "//" |
| `Paths.TextInjective` | src/fs/namei.c:724-791 | two directories stored as the same text have the same components |
| `WorkingDirectory.RunLeadsBack` | src/fs/namei.c:716-815 | over every run of directory calls, chdir, fork and exit by any tasks the text in each task's pwd has no ".", ".." or empty component, and given back to namei it leads to the inode the task is in |
| `WorkingDirectory.NameiIff` | src/fs/namei.c:176-278 | the loop over the path finds an inode if and only if its components lead there from directory to directory, and every directory gone through, or with a separator behind it, may be passed |
| `WorkingDirectory.ThereAndBack` | src/fs/namei.c:794-815 | wherever a chdir goes, a chdir to the text from before leads back to the same text and inode |
| `WorkingDirectory.MovedByText` | src/fs/namei.c:794-815 | chdir to the text of any directory leads there and leaves that text |
| `WorkingDirectory.NextKeeps` | src/fs/namei.c:716-815 | each of these events keeps text and inode of every task together |
| `WorkingDirectory.WalkNames` | src/fs/namei.c:794-815 | the text abspath makes of a path that namei resolved names the inode namei found, through ".." too |
| `WorkingDirectory.ResolvedFull` | src/fs/namei.c:176-278 | a path that resolves has no empty component |
| `WorkingDirectory.StepFull` | src/fs/namei.c:122-173 | no call stores an empty name |
| `WorkingDirectory.NamesStay` | src/fs/namei.c:280-636 | no call takes a directory on the way to a task's current one, whatever it adds and removes, as long as rmdir leaves the current one alone |
| `WorkingDirectory.UpNames` | src/fs/namei.c:753-758 | ".." of the directory that a text names is the directory that the text without its last component names |
| `WorkingDirectory.TextLeadsBack` | src/fs/namei.c:176-278 | a stored text, resolved from any directory, leads to the directory it names |
| `WorkingDirectory.TextParts` | src/fs/namei.c:724-791 | taking the text of a directory apart gives its components back |
| `WorkingDirectory.TaskDirectory.Named` | src/fs/namei.c:176-244 | the loop reaches the directory that the last component is to be looked up in, or fails just when the path cannot be resolved |
| `WorkingDirectory.TaskDirectory.Namei` | src/fs/namei.c:247-278 | is the lookup component by component |
| `WorkingDirectory.TaskDirectory.Chdir` | src/fs/namei.c:794-815 | it succeeds if and only if the path leads to a directory other than the current one; text and inode then move together, and nothing changes when the path does not resolve, names no directory or names the current one |
| `WorkingDirectory.TaskDirectory.constructor` | src/kernel/task.c:307-311 | the first task is at the root, with the text "/" |
| `Paths.StrSep` | src/lib/string.c:162-176 | the first separator, or none before the end of the string |
| `Paths.StrRSep` | src/lib/string.c:179-194 | the last separator of the string, or none |
| `Buffers.BreadReturnsLastStored` | src/kernel/buffer.c:157-176 | after any run bread returns what was last stored for its block |
| `Buffers.RunShowsLastStored` | src/kernel/buffer.c:34-220 | over any run the cache and the disk together show of each block what was last stored for it, and the invariant holds: one buffer a block, on its own chain, free just when its count is 0, free buffers clean |
| `Buffers.FreeByRelease` | src/kernel/buffer.c:108-133 | the free list is in order of release: the evicted buffer is the one released longest ago |
| `LruCache.RunShows` | src/kernel/buffer.c:34-220 | over every run buffers, hash chains and free list hold the blocks, show them and let them go as a simple cache does: a block comes in on first use, one that nobody holds leaves only when there is no room, the one released longest ago first, and the device has every block as it was seen when last written or released |
| `LruCache.StepShows` | src/kernel/buffer.c:34-220 | one call does to them what it does to the simple cache |
| `LruCache.EvictedShowsToo` | src/kernel/buffer.c:108-154 | the block that leaves is the last of the queue, and no other |
| `LruCache.WrittenDisk` | src/kernel/buffer.c:179-190 | after bwrite the device holds of that block what readers see, and of every other block what it held |
| `LruCache.NewShows` | src/kernel/buffer.c:222-234 | after buffer_init nothing is cached and readers see the device |
| `Buffers.TakenKeepsIff` | src/kernel/buffer.c:108-154 | a buffer taken after a wait, without another look at the hash table, keeps one buffer a block if and only if no other buffer is the block's |
| `Buffers.WokenTwice` | src/kernel/buffer.c:129-154 | two tasks that wait for one block each get a buffer for it |
| `Buffers.GetblkKeeps` | src/kernel/buffer.c:136-154 | whether it hits, makes or evicts, getblk keeps one buffer a block, on the chain of its hash, and returns it held |
| `Buffers.GetblkShows` | src/kernel/buffer.c:136-154 | getblk, even when it evicts, changes no reader's view of any block |
| `Buffers.EvictedKeeps` | src/kernel/buffer.c:116-127 | the evicted buffer has count 0 and is not dirty, as getblk asserts |
| `Buffers.BreadReturns` | src/kernel/buffer.c:157-176 | a held, valid buffer of the block with its current contents; no view changes |
| `Buffers.LoadedKeepsIff` | src/kernel/buffer.c:166-173 | bread leaves every view alone if and only if it does not read over a dirty buffer that is not valid with other contents than the disk's |
| `Buffers.BwriteKeeps` | src/kernel/buffer.c:179-190 | writing back keeps every view and leaves the buffer clean |
| `Buffers.BrelseKeeps` | src/kernel/buffer.c:193-220 | releasing keeps the invariant and every view |
| `Buffers.StoredShows` | src/kernel/buffer.c:179-190 | a holder's change shows at its own block only |
| `Buffers.LookupIff` | src/kernel/buffer.c:34-62 | the hash chain finds a block's buffer if and only if there is one |
| `BufferCache.BufferCache.GetFromHashTable` | src/kernel/buffer.c:34-62 | the block's buffer, taken off the free list, or none |
| `BufferCache.BufferCache.GetFreeBuffer` | src/kernel/buffer.c:83-133 | a new buffer while there is memory, else the one at the back of the free list, taken off its chain |
| `BufferCache.BufferCache.Getblk` | src/kernel/buffer.c:136-154 | is the value step, with the assertions on count, dirty and list membership |
| `BufferCache.BufferCache.Bread` | src/kernel/buffer.c:157-176 | returns the block's current contents and changes no view |
| `BufferCache.BufferCache.Bwrite` | src/kernel/buffer.c:179-190 | is the value step: the disk gets the data of a dirty buffer |
| `BufferCache.BufferCache.Brelse` | src/kernel/buffer.c:193-220 | is the value step, keeping the invariant and every view |
| `Arenas.LiveApart` | src/kernel/arena.c:44-149 | no byte belongs to two live pointers |
| `Arenas.LiveInExtent` | src/kernel/arena.c:44-149 | a live pointer's bytes lie in its arena's pages, behind the header |
| `Arenas.TakeBlockKeeps` | src/kernel/arena.c:99-109 | handing out the first free block keeps lists, counts and ownership exact |
| `Arenas.CarveKeeps` | src/kernel/arena.c:74-96 | cutting a new page puts exactly its blocks on the free list |
| `Arenas.GiveBlockKeeps` | src/kernel/arena.c:131-132 | a block that comes back was not on the free list; counts and lists stay exact |
| `Arenas.WithdrawKeeps` | src/kernel/arena.c:135-147 | a page goes back to the page bitmap only when none of its blocks is live |
| `Arenas.FullIsFree` | src/kernel/arena.c:135-143 | a full count means every block of the page is on the free list |
| `Arenas.TakePagesKeeps` | src/kernel/arena.c:53-66 | a large allocation takes pages of its own |
| `Arenas.GivePagesKeeps` | src/kernel/arena.c:123-127 | a large block gives exactly its pages back |
| `Arenas.TakePagesIff` | src/kernel/arena.c:53-67 | handing out a run of pages keeps the heap sound if and only if they hold the size and the header |
| `Arenas.LargePagesEnough` | src/kernel/arena.c:55-56 | the pages taken hold the size asked for and the header if and only if the 32-bit sums do not wrap, and one page fewer would not do |
| `Arenas.BlockInPage` | src/kernel/arena.c:29-41 | a block lies within its page behind the header, and masking its address gives the page |
| `Arenas.ClassTight` | src/kernel/arena.c:13-27 | classes double from 16 bytes, and the class chosen for a larger size is less than twice that size |
| `Arenas.PageFull` | src/kernel/arena.c:22 | a page has no room for one more block behind those it is cut into |
| `KernelHeap.RunSound` | src/kernel/arena.c:44-149 | after any sequence of kmalloc and kfree of live pointers the heap is sound and live blocks are disjoint |
| `HeapPages.RunGivesBack` | src/kernel/arena.c:44-149 | over every run of kmalloc and kfree no class with more than four pages has a page all of whose blocks are free, and no page is lost; when everything has come back each class has at most four pages and all other pages are as before there was a heap |
| `HeapPages.FreePages` | src/kernel/arena.c:113-149 | kfree keeps that, and leaves a class that has four pages at least four |
| `HeapPages.MallocPages` | src/kernel/arena.c:44-110 | kmalloc keeps that, because it cuts a page only when the class has no free block and hands the first one out at once |
| `HeapPages.FreedThrifty` | src/kernel/arena.c:131-147 | the page of the block that comes back goes when it is all free and the class has more than four |
| `HeapPages.NothingLive` | src/kernel/arena.c:44-149 | without a live pointer no page is held whole |
| `HeapPages.NoHeapYet` | src/kernel/arena.c:13-27 | the heap that arena_init leaves is a start for such runs |
| `KernelHeap.KernelHeap.AllocKpage` | src/kernel/memory.c:356-391 | a run of count free pages, now marked used |
| `KernelHeap.KernelHeap.FreeKpage` | src/kernel/memory.c:372-400 | exactly these pages become free; each was marked used |
| `KernelHeap.KernelHeap.Kmalloc` | src/kernel/arena.c:44-110 | whole pages for more than 1024 bytes, else a block of the smallest class that fits; the pointer was not live, and the heap stays sound if and only if the 32-bit sums do not wrap |
| `KernelHeap.KernelHeap.KmallocBlock` | src/kernel/arena.c:68-110 | the size's class, a page cut up if need be, and its first free block |
| `KernelHeap.KernelHeap.CarvePage` | src/kernel/arena.c:74-96 | every block is pushed once onto the free list, as its assertions say |
| `KernelHeap.KernelHeap.Kfree` | src/kernel/arena.c:113-149 | the pointer is no longer live; the page goes back when it is free and the class has more than four |
| `KernelHeap.KernelHeap.WithdrawPage` | src/kernel/arena.c:135-147 | all blocks leave the free list, as the assertions say, and page_count stays at four or more |
| `Lists.InsertedSorted` | src/lib/list.c:166-185 | list_insert_sort keeps a sorted list sorted |
| `Lists.WithoutMembers` | src/lib/list.c:84-93 | removing a node takes that node and no other |
| `LinkedList.List.InsertBefore` | src/lib/list.c:14-21 | relinking four pointers puts the node before the anchor in a well-formed list |
| `LinkedList.List.InsertAfter` | src/lib/list.c:24-31 | the same behind the anchor |
| `LinkedList.List.Remove` | src/lib/list.c:84-93 | the node is out of the list and loose, the others keep their order |
| `LinkedList.List.Push` | src/lib/list.c:34-38 | the node is first, and was not in the list |
| `LinkedList.List.PushBack` | src/lib/list.c:52-56 | the node is last, and was not in the list |
| `LinkedList.List.Pop` | src/lib/list.c:41-49 | the first node, taken off |
| `LinkedList.List.PopBack` | src/lib/list.c:59-66 | the last node, taken off |
| `LinkedList.List.Search` | src/lib/list.c:69-81 | whether the node is in the list |
| `LinkedList.List.Size` | src/lib/list.c:102-112 | the number of nodes between the sentinels |
| `LinkedList.List.InsertSort` | src/lib/list.c:166-185 | the node goes behind all nodes with keys not greater than its own |
| `Elevator.OneReversal` | src/kernel/device.c:93-175 | however many requests arrive, the direction turns at most once before a waiting request is given the disk, the turn that may lead straight to it included |
| `Elevator.NoneLost` | src/kernel/device.c:125-175 | over every run each request that came has been served once or still waits |
| `Elevator.TurnsIff` | src/kernel/device.c:93-122 | the direction turns if and only if no request waits ahead |
| `Elevator.SweepMonotone` | src/kernel/device.c:93-122 | between two reversals, while the queue is not empty, the sectors served are monotone in the direction of travel |
| `Elevator.RunKeeps` | src/kernel/device.c:125-175 | in every run the queue is sorted and, when not empty, has exactly one active request |
| `Elevator.WaiterStep` | src/kernel/device.c:93-175 | each step serves the waiter or leaves it waiting with one turn fewer for each turn made |
| `Elevator.NextUnlessLast` | src/kernel/device.c:93-122 | a served request hands over to another one unless it was the only one |
| `Elevator.ServedMonotone` | src/kernel/device.c:93-122 | the next request lies on in the direction of travel |
| `Elevator.Device.DeviceRequest` | src/kernel/device.c:145-160 | a request is inserted in order, and blocks just when another one is active |
| `Elevator.Device.NextReq` | src/kernel/device.c:93-122 | the neighbour in the direction of travel, turned around at the end of the queue |
| `Elevator.Device.Done` | src/kernel/device.c:162-173 | the served request leaves and the neighbour, which is another request of the queue, becomes active |
| `Processes.RunKeeps` | src/kernel/task.c:425-662 | in every run of fork, exit, waitpid, blocking and waking no task's parent is dead, parents form a tree below idle, and no task waits for a child it could collect |
| `Ancestors.NearestAncestor` | src/kernel/task.c:547-604 | over every run each task but idle has its nearest living ancestor by birth as its parent |
| `Ancestors.ExitFollows` | src/kernel/task.c:592-604 | exit takes the task out of all lines of ancestors and leaves every parent the head of its child's line |
| `Ancestors.BootFollows` | src/kernel/task.c:679-686 | at boot init is below idle |
| `Processes.StepKeeps` | src/kernel/task.c:425-662 | each of these events keeps that invariant |
| `Processes.ExitKeeps` | src/kernel/task.c:547-614 | exit reparents the children and wakes a waiting parent, so that nobody is left with a dead parent or a missed child |
| `Processes.ExitSlots` | src/kernel/task.c:547-614 | exit changes no task's state but its own and its parent's, that one just when it waits for this child or any, and no parent but that of its children |
| `Processes.ExitThenWait` | src/kernel/task.c:606-646 | a parent that waits for the exiting child, or for any, is woken by the exit and then gets a child, this very one with its status if it asked for it |
| `Processes.WaitDoes` | src/kernel/task.c:617-662 | a round of waitpid takes the first dead child that matches away, else waits if one matches, else does nothing |
| `Processes.NoneMissedExit` | src/kernel/task.c:592-612 | after an exit no task blocked in waitpid has a dead child that matches, not even one it inherited |
| `Processes.ParentedExit` | src/kernel/task.c:592-604 | after the reparenting loop nobody's parent is dead |
| `Processes.CollectKeeps` | src/kernel/task.c:617-662 | collecting a dead child leaves nobody without a parent and no waiter behind |
| `Processes.CollectedOnce` | src/kernel/task.c:640-645 | over a run the deaths and collections of a slot alternate: each death is collected at most once |
| `Processes.SlotKept` | src/kernel/task.c:38-53 | a dead task's slot is not given away before it is collected |
| `Processes.StatusKept` | src/kernel/task.c:640-645 | a dead task keeps its status through any run until it is collected |
| `Processes.ExitEnabled` | src/kernel/task.c:523-544 | the search for the parent never falls through to the panic |
| `Processes.TaskTable.TaskFork` | src/kernel/task.c:425-487 | a new task in a free slot, child of the caller |
| `Processes.TaskTable.TaskExit` | src/kernel/task.c:547-614 | dead, children reparented, a matching waiting parent made ready |
| `Processes.TaskTable.WaitRound` | src/kernel/task.c:617-662 | the first dead child that matches with its status, or blocked because a live one matches, or neither |
| `Pipes.ReadsPrefix` | src/fs/pipe.c:17-61 | over every interleaving of one reader and one writer what was read is a prefix of what was written, less than a ring's length is in flight, and they are never both blocked |
| `Pipes.RunLosesNothing` | src/fs/pipe.c:17-61 | over every run the bytes written, and then those still in the writer's hands, are the bytes given to pipe_write in order, and a read ends only with all the bytes it was asked for |
| `Pipes.StepKeeps` | src/fs/pipe.c:17-61 | each step keeps that a recorded reader means an empty ring and a recorded writer a full one; testing only once is safe, and fifo_put drops nothing |
| `Pipes.NoDeadlock` | src/fs/pipe.c:17-61 | when one side is blocked the other can run, and its next step wakes it |
| `Pipes.InFlight` | src/fs/pipe.c:17-61 | at most length - 1 bytes are in flight; a recorded reader has read everything |
| `Pipes.PutContents` | src/lib/fifo.c:41-48 | a put appends the byte, after dropping the oldest one of a full ring |
| `Pipes.GetContents` | src/lib/fifo.c:32-38 | a get takes the oldest byte |
| `Pipes.ContentsSize` | src/lib/fifo.c:20-29 | the tests for empty and full are exact, and one cell always stays free |
| `Pipes.Fifo.PutByte` | src/lib/fifo.c:41-48 | the loop that makes room runs at most once; the byte is last |
| `Pipes.Fifo.GetByte` | src/lib/fifo.c:32-38 | returns and removes the oldest byte |
| `Pipes.PipeInode.PipeRead` | src/fs/pipe.c:17-38 | takes as many of the oldest bytes as there are, up to count, and blocks for the rest; a waiting writer is woken by the first |
| `Pipes.PipeInode.PipeWrite` | src/fs/pipe.c:41-61 | appends as many bytes as fit and blocks for the rest; a waiting reader is woken by the first |
| `Locks.MutualExclusion` | src/kernel/mutex.c:15-107 | in every interleaving at most one task is in the lock, the next step's assertions hold, and when the mutex is free with tasks queued one already woken is still to try it |
| `Locks.FirstCome` | src/kernel/mutex.c:15-64 | over every run tasks leave the queue of a lock in the order in which they came to it |
| `Locks.QueueOrder` | src/kernel/mutex.c:39-64 | an unlock wakes the task that came first and no other |
| `Locks.StepKeeps` | src/kernel/mutex.c:15-107 | each step keeps that, whatever the preemption between holder, repeat and mutex |
| `Locks.Inside` | src/kernel/mutex.c:75-107 | a task inside is alone, is the holder, and repeat is how deep it is |
| `Locks.LockRecord.AcquireTest` | src/kernel/mutex.c:75-90 | the holder goes one deeper; anyone else goes on to the mutex |
| `Locks.LockRecord.MutexLock` | src/kernel/mutex.c:15-36 | a round of the loop: queued when the mutex is taken, else its owner |
| `Locks.LockRecord.ReleaseTest` | src/kernel/mutex.c:93-103 | one level up, or on to give the lock back |
| `Locks.LockRecord.MutexUnlock` | src/kernel/mutex.c:39-64 | free, and the task queued longest is woken |
| `Timers.ForkKeepsIff` | src/kernel/task.c:425-487 | copying a task keeps list and pointers consistent if and only if it has no alarm pending |
| `Timers.ForkedAlarm` | src/kernel/alarm.c:15-22 | with one pending, an alarm of the child and then one of the parent release the same timer twice |
| `Timers.RunReleasesOnce` | src/kernel/timer.c:19-126 | in every run the list is sorted by deadline, each timer is pending or released and never released twice, and no running task has a timeout |
| `Deadlines.RunIsTimely` | src/kernel/timer.c:39-126 | over every run each task is blocked, ready, running or dead as in a machine without timers: a wait or an alarm for ms milliseconds asked for at tick j ends at the first tick n, and not before, for which (n - j + 1) * 10 > ms |
| `Deadlines.WakeupRelated` | src/kernel/timer.c:108-126 | all the rounds of one timer_wakeup end exactly the waits, ring exactly the alarms, and stop the motor exactly when their time is up |
| `Deadlines.StepRelated` | src/kernel/timer.c:39-126 | each event does to list and pointers what it does to the waits and alarms asked for |
| `Timers.StepKeeps` | src/kernel/timer.c:19-126 | blocking, unblocking, alarms, ticks, forks, exits and updates keep the list and the tasks' pointers into it consistent |
| `Timers.WakeupKeeps` | src/kernel/timer.c:108-126 | timer_wakeup ends and leaves no expired timer |
| `Timers.WakeupReleases` | src/kernel/timer.c:108-126 | what timer_wakeup releases is due by its own deadline, or is the timeout of a task whose alarm is due |
| `Timers.FireTimeout` | src/kernel/timer.c:112-124 | firing a timeout releases the same timer as unblocking its task would, once |
| `Timers.FireAlarm` | src/kernel/alarm.c:8-12 | an alarm's signal may end the task's wait and release its timeout; the alarm itself is then released, once |
| `Timers.BlockKeeps` | src/kernel/task.c:161-190 | a running task has no timer, as task_block asserts, and gets one when it blocks with a timeout |
| `Timers.UnblockKeeps` | src/kernel/task.c:192-217 | the pending timeout is in the list and is released |
| `Timers.ExitKeepsIff` | src/kernel/timer.c:92-105 | exactly the exiting task's timers leave the list, and all pointers stay consistent if and only if the drive's timer is not one of them |
| `Timers.MotorDangles` | src/kernel/floppy.c:254-269 | when a task that has just used the drive exits, the drive keeps a pointer to a released timer |
| `Timers.MotorOffKeeps` | src/kernel/floppy.c:254-269 | starting or putting off the motor's timer keeps the list and all pointers consistent |
| `Timers.SetAlarmKeeps` | src/kernel/alarm.c:15-22 | a new alarm replaces and releases the old one |
| `Timers.UpdatedKeeps` | src/kernel/timer.c:54-59 | the drive's timer, put off, keeps its identity, and the list its order |
| `Timers.TimerList.TaskBlock` | src/kernel/task.c:161-190 | is the value step, with its assertion |
| `Timers.TimerList.TaskUnblock` | src/kernel/task.c:192-217 | is the value step: an active timer is left to timer_wakeup |
| `Timers.TimerList.TimerWakeup` | src/kernel/timer.c:108-126 | the loop ends with no expired timer left |
| `Timers.TimerList.TaskFork` | src/kernel/task.c:425-487 | the child's task is a copy; the invariant holds if and only if no alarm was pending |
| `Timers.TimerList.TaskExit` | src/kernel/timer.c:92-105 | the walk removes exactly the task's timers; the invariant holds if and only if the drive's timer is not one of them |
| `Timers.TimerList.SysAlarm` | src/kernel/alarm.c:15-22 | is the value step, keeping the invariant |
| `Timers.TimerList.FdMotorOff` | src/kernel/floppy.c:254-269 | is the value step: the timer is made once, and then put off |
| `Timers.TimerList.TimerUpdate` | src/kernel/timer.c:54-59 | is the value step: out of the list, and in again with the new deadline |
| `Descriptors.RunKeeps` | src/fs/file.c:13-266 | over every run of open, pipe, close, lseek, dup, dup2, fork and exit a record's count is the number of descriptors naming it, and a pipe inode's the number of its open records |
| `OpenFiles.RunShows` | src/fs/file.c:13-266 | over every run, with records given back and taken again, two descriptors share a record, and so an offset, if and only if they come from the same open by dup, dup2 and fork; each has the inode it was opened on and the offset its open file was moved to |
| `OpenFiles.StepShows` | src/fs/file.c:13-266 | one call names, names again, moves or closes exactly the descriptors it is about; each new one is the lowest free |
| `OpenFiles.FreeUnnamed` | src/fs/file.c:13-25 | a record that get_file finds is named by no descriptor |
| `OpenFiles.SameFree` | src/kernel/task.c:86-101 | the descriptor found is the lowest one not in use |
| `OpenFiles.PipeHeld` | src/fs/inode.c:68-88 | a pipe inode is in use if and only if some descriptor names an end of it |
| `OpenFiles.BootShows` | src/fs/file.c:38-49 | the first two tasks have the console's three files in common, and no other |
| `Descriptors.ReleasedOnce` | src/fs/inode.c:68-88 | over a run every pipe made is given back exactly once, or is still open |
| `Descriptors.LastCloseReleases` | src/fs/inode.c:68-88 | a close gives a pipe's ring and page back if and only if it closes the last descriptor on it |
| `Descriptors.PipeInUse` | src/fs/pipe.c:64-85 | a pipe inode is in use if and only if some descriptor is open on it |
| `Descriptors.CloseKeeps` | src/fs/file.c:28-97 | closing keeps both counts exact |
| `Descriptors.ExitKeeps` | src/kernel/task.c:580-588 | exit closes every descriptor of the task and keeps both counts exact |
| `Descriptors.InheritedKeeps` | src/kernel/task.c:473-481 | sharing the parent's descriptors keeps both counts exact, one reference for each |
| `Descriptors.OpenedKeeps` | src/fs/file.c:52-76 | a newly opened record has one descriptor |
| `Descriptors.ClosesAll` | src/fs/file.c:28-36 | the record of an open descriptor has a positive count and, on a pipe, an inode in use |
| `Descriptors.FileTable.SysOpen` | src/fs/file.c:52-76 | the first free record and the first free descriptor from 3 on |
| `Descriptors.FileTable.SysLseek` | src/fs/file.c:195-222 | sets the offset of the record, for every descriptor that names it |
| `Descriptors.FileTable.SysClose` | src/fs/file.c:85-97 | one reference less, the record and then the pipe released at the last one; nothing for a closed descriptor |
| `Descriptors.FileTable.DupFd` | src/fs/file.c:232-255 | the first free descriptor from arg on names the same record, or EOF |
| `Descriptors.FileTable.SysDup2` | src/fs/file.c:263-266 | newfd names the old record, closed before; a descriptor duplicated to itself is only closed and gives EOF |
| `Descriptors.FileTable.SysPipe` | src/fs/pipe.c:64-85 | the two lowest free descriptors, the one for reading first, on a pipe inode whose count is 2 |
| `Descriptors.FileTable.ForkFiles` | src/kernel/task.c:473-481 | the child has the parent's descriptors, each counted |
| `Descriptors.FileTable.ExitFiles` | src/kernel/task.c:580-588 | all descriptors of the task are closed |
| `Terminal.WrittenKeeps` | src/kernel/console.c:686-730 | for every byte stream the cursor is where x and y say, x is at most 80 and y below 25, and the screen starts on a row with its page in memory |
| `Terminal.StepKeeps` | src/kernel/console.c:264-730 | every byte in every state keeps that |
| `Cursor.NormalGoes` | src/kernel/console.c:197-300 | where every byte of plain text leaves the cursor: column and row by the byte alone |
| `Cursor.EscapeGoes` | src/kernel/console.c:303-332 | where every byte behind an ESC leaves the cursor |
| `Cursor.SequenceGoes` | src/kernel/console.c:335-730 | byte by byte: ESC, [, a number, a semicolon, a number and a final byte that moves the cursor lead to the place they ask for, or nowhere, if and only if no sum wraps; the console is in its normal state again and no cell has changed |
| `Cursor.MovesIff` | src/kernel/console.c:578-652 | a cursor sequence leads to the place it asks for, or nowhere when that is off the screen, if and only if no 32-bit sum wraps around onto the screen |
| `Cursor.MoveOnly` | src/kernel/console.c:128-137 | it changes nothing else but the arguments taken |
| `Cursor.FarDown` | src/kernel/console.c:598-604 | CSI B with 4294967295 goes up one row |
| `Cursor.LfShows` | src/kernel/console.c:197-207 | a line feed moves the page up just when the cursor is in its last row |
| `Cursor.EraseShows` | src/kernel/console.c:230-245 | a backspace blanks the cell it goes back to, DEL the cursor's, and no other cell changes |
| `Cursor.SaveThenRestore` | src/kernel/console.c:140-145 | whatever bytes that do not save are written in between, a restored cursor is where it was saved |
| `Cursor.DigitsAreDecimal` | src/kernel/console.c:335-356 | digits of an argument are read as a decimal number, modulo 2^32 |
| `Cursor.StyleBits` | src/kernel/console.c:544-576 | 30 to 37, 40 to 47 and 5 each set their own bits of the style and no other |
| `Cursor.StyleWhole` | src/kernel/console.c:544-576 | 7 exchanges text and background, twice is as before; 0 and 1 set the whole style |
| `Cursor.StyleAppend` | src/kernel/console.c:544-576 | the numbers of one CSI m take effect in order, from no style at all |
| `Terminal.ScrollShows` | src/kernel/console.c:169-183 | scroll_up moves the page up one row and blanks the last, on the rebasing and the other path |
| `Terminal.ChrShows` | src/kernel/console.c:247-261 | a character changes the cursor's cell of the page, after a scroll at the margin if need be, and no other |
| `Terminal.InsertedLinesShow` | src/kernel/console.c:409-443 | on the page the rows from the cursor's on move down n, with blank rows in their place |
| `Terminal.DeletedLinesStay` | src/kernel/console.c:446-480 | n times delete_line leaves the cursor's row: every second row behind it is replaced by the one below, which from the second time on is blank when it is the last of memory |
| `Terminal.DeletedLinesIff` | src/kernel/console.c:446-480 | the page shows n rows deleted if and only if, from the cursor's row on, what is left in the place of a row was like the n-th row below it |
| `Terminal.DeletedLineIff` | src/kernel/console.c:446-461 | for one row: if and only if the cursor's row and every second one below it were like the next |
| `Terminal.DeletedLineSeen` | src/kernel/console.c:446-461 | after "a" and ESC [ M on an empty screen the "a" is still there |
| `Terminal.CharsDeletedShow` | src/kernel/console.c:482-510 | n cells go from the cursor's on and blanks come in at the margin; past the margin the next row's first cell becomes blank |
| `Terminal.CharsInsertedShow` | src/kernel/console.c:513-541 | the cells from the cursor's on move right n, with spaces in the cursor cell's style in their place; past the margin the next row's first character is blanked |
| `Terminal.ClearedShows` | src/kernel/console.c:358-381 | the page is blank from the cursor on, up to it, or all over, by the argument, and the rest is as it was |
| `Terminal.ClearedRowShows` | src/kernel/console.c:383-406 | the same within the cursor's row |
| `Terminal.StuckForever` | src/kernel/console.c:335-356 | once sixteen arguments are taken no byte written does anything any more |
| `Terminal.StuckIff` | src/kernel/console.c:335-356 | some bytes bring the console back to its normal state if and only if it has not taken sixteen arguments |
| `Terminal.SixteenStop` | src/kernel/console.c:335-356 | ESC, [ and sixteen semicolons bring a new console there |
| `Terminal.EscapeStays` | src/kernel/console.c:303-332 | the console stays in its escape state through all the bytes written if and only if none of them is '[' |
| `Terminal.EscapeSwallows` | src/kernel/console.c:303-332 | text without '[' behind an ESC leaves a new console in that state |
| `Console.Console.ScrollUp` | src/kernel/console.c:169-183 | is the value step; every cell written is in memory |
| `Console.Console.Tab` | src/kernel/console.c:216-227 | to the next multiple of eight, over the margin to the next line |
| `Console.Console.Chr` | src/kernel/console.c:247-261 | two bytes at the cursor, in memory, after wrapping at the margin |
| `Console.Console.InsertLine` | src/kernel/console.c:409-425 | all rows of memory from the cursor's on move down one |
| `Console.Console.DeleteLine` | src/kernel/console.c:446-461 | what the loop over cells, not bytes, really moves; all in memory |
| `Console.Console.DeleteChar` | src/kernel/console.c:482-492 | the cells behind move left, the last is blank; past the margin only the cell at pos is written |
| `Console.Console.InsertChar` | src/kernel/console.c:513-523 | the cells behind move right; only the character byte at pos is blanked |
| `Console.Console.StateCsi` | src/kernel/console.c:578-684 | is the value step for every final byte, with 32-bit cursor sums |
| `Console.Console.WriteByte` | src/kernel/console.c:692-724 | the state machine with its fall-throughs is the value step |
| `Console.Console.ConsoleWrite` | src/kernel/console.c:686-730 | writes the bytes in order and returns one more than their count |
| `Checksum.Chksum` | src/net/chksum.c:29-51 | no 32-bit sum wraps, the loops end, and the result is the ones' complement 16-bit value of start plus the sum of the words |
| `Checksum.IpChksumOf` | src/net/chksum.c:54-58 | is the complement of the sum: chksum started from 0 never wraps |
| `Checksum.FilledChecksOut` | src/net/ip.c:95-96 | with the field zeroed and then filled in, the checksum over the same bytes is 0 |
| `Checksum.ChecksOutIff` | src/net/chksum.c:54-57 | the checksum is 0 if and only if the words sum to a positive multiple of 65535 |
| `Checksum.ByteDetected` | src/net/chksum.c:29-58 | a change of any single byte, an odd last one included, changes the checksum |
| `Checksum.WrapsIff` | src/net/chksum.c:42-45 | the one sum that can wrap, a single byte on a large start value, gives the right result if and only if it does not |
| `Checksum.FoldOnes` | src/net/chksum.c:37-49 | adding the upper half to the lower one keeps the ones' complement value and ends below 16 bits |
| `Checksum.Continued` | src/net/chksum.c:29-51 | a sum may be carried on from the result for a first piece of even length (section 2, part A, of RFC 1071) |
| `Checksum.ByteOrder` | src/net/chksum.c:29-51 | in the other byte order the result has its bytes swapped (section 2, part B, of RFC 1071) |

## Left out

- Hardware and assembly: ports, disks, network and sound cards, interrupts, the TLB, the FPU and stack switching. The recursive page-table mapping is a plain lookup.
- Kernel-mode stores to user pages, which bypass write protection, and shared mappings; page tables and pages are private, and stores come from user mode.
- FlatMemory.RunRefinesFlat: link, mmap and unlink are steps only where the exact conditions of LinkExactIff, GuardKeepsIff, GuardApartIff and UnlinkExactIff hold, because the code edits a shared table in place.
- FlatMemory.StepRefines: a store or a link is a step only where there is a free frame for each table and page that it really copies or takes; without one the code panics.
- FileStore.FileStore.InodeWrite: begin is at most the file's size (no holes), and each zone that this write takes as an index block reads as zeros, because balloc does not clear it (AttachOnlyIff, StaleIndex). Where the device runs out the call ends where the source stops for good, in balloc's assertion.
- FileStore.FileStore.Bmap: the same assumption on index blocks, and the same end.
- FileStore.FileStore.Reckon: the same end.
- FileStore.FileStore.Balloc: one zone-bitmap block, so that the next one the loop asks for is always missing; with all eight present the call would return EOF.
- FileStore.FileStore.Bfree: one zone-bitmap block and at most BLOCK_BITS zones, because bfree's skip test ignores the bitmap's offset.
- FileStore.FileStore.Bread: buffers are held as contents and a reference count for each block; what the buffer cache does for them is in BufferCache.
- ialloc and ifree as bit arithmetic, time stamps, device nodes, mounting; the mount point of the root device is its own root.
- Directories.StepKeeps: link counts are below 255 when a call begins, and no call adds a name whose first 13 characters are in the directory already (StepKeepsIff); named and namei have resolved the parent directory, and directory contents are one sequence of slots rather than 64 to a block.
- Directories.UnlinkKeeps: that an unlinked file may still be open is not modelled.
- WorkingDirectory.RunLeadsBack: sys_chroot and mount points are not modelled, so that a task's root is the root of the device; the directories a task may pass through are a parameter of each call.
- WorkingDirectory.TaskDirectory.Namei: the path is read as a value.
- Paths.AbsPath: the buffer has room for the old text, the path and two more characters; the code has no check.
- Buffers.GetblkKeeps: a buffer is available; for the branch that waits for a release there are TakenKeepsIff and WokenTwice.
- LruCache.RunShows: the same.
- Buffers.RunShowsLastStored: a holder marks a buffer dirty only when it is valid, as all callers of bread do.
- KernelHeap.KernelHeap.Kmalloc: alloc_kpage is asked for one page at least, as it asserts, and finds a run of pages; the contents of blocks, and the list nodes kept in free ones, are not modelled.
- Elevator.Device.DeviceRequest: sectors compare as signed numbers in the source and are integers here; the transfer itself is not modelled.
- Processes.StepKeeps: exit is one step, without the disk waits inside it; sessions, terminals, signals and the choice of the next task are not modelled.
- Pipes.ReadsPrefix: one reader and one writer; a wait ends only by the other side.
- Locks.MutualExclusion: only a task that is in the lock releases it, and tasks are not killed while they wait.
- Timers.StepKeeps: deadlines are below 2^31 and the tick count below 2^32 - 1; task_block is called for the running task; a task that forks has no alarm pending (ForkKeepsIff), and one that exits did not start the drive's timer (ExitKeepsIff); timers of other devices are not modelled.
- Deadlines.RunIsTimely: the same.
- Descriptors.RunKeeps: inodes other than pipes are counted elsewhere; modes and flags of records are not modelled, and offsets do not wrap.
- OpenFiles.RunShows: the same; how far a read or write moves the offset, and a file's size, are parameters.
- Terminal.StepKeeps: the beeper and the display's start and cursor registers are not modelled; addresses count from mem_base.
- Checksum.Chksum: a start value over a single byte must not wrap (WrapsIff). The cyclic redundancy check has no caller.
- execve and program loading, the shell, formatted output, the calendar, ARP and ICMP: glue, or only easier members.
