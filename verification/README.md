# CRIU restore engine: a verified model

This project models the parts of CRIU (checkpoint/restore in userspace) that carry algorithms and
protocols rather than system calls, and proves what they promise. The kernel is small abstract state: a
file is its bytes, a socket is a queue, a futex is a number, memory is a page table, kcmp is a total order.
Concurrent protocols are step relations; the theorems about them range over every interleaving. Loops that
change things in place are methods over arrays, classes and cursors, proved against functions on values.

| file | what it models |
|---|---|
| DescriptorHandOut.dfy | tasks handing open files to each other while all of them restore descriptors (criu/files.c) |
| StageBarrier.dfy | the restore stages on `nr_in_progress` and `start` (criu/cr-restore.c) |
| ProcessGroups.dfy | `restore_pgid` with `pgrp_set` and `pgrp_member_cnt` (criu/cr-restore.c) |
| Bitmap.dfy | setting and clearing bit ranges in 64-bit words (criu/bitmap.c) |
| CowLinks.dfy, CowMemory.dfy, CowContent.dfy, CowTree.dfy | copy-on-write memory restore over a whole process tree (criu/mem.c) |
| OrderedTree.dfy, KernelObjectIds.dfy, FileIds.dfy | ids of kernel objects: two-level ordered trees and a hash cache (criu/kcmp-ids.c, criu/file-ids.c) |
| VmaHint.dfy | the search for a place for the restorer blob (criu/cr-restore.c) |
| BufferedFile.dfy, BufferPool.dfy | buffered reading and writing, and the pool of buffers (criu/bfd.c) |
| GhostChunks.dfy, ParentDirs.dfy, FilemapContext.dfy | sparse files as chunks, parent directories, shared descriptors of mappings (criu/files-reg.c) |
| CgroupProps.dfy | the parser and table of cgroup properties (criu/cgroup-props.c) |
| EpollTargets.dfy | numbering and compacting epoll targets (criu/eventpoll.c) |
| InotifyReplay.dfy | giving inotify watches their old numbers (criu/fsnotify.c) |
| FiniteSums.dfy, Wrappers.dfy | counting over finite sets, and small shared types |

What the proofs show about the code beyond its comments:

- `restore_pgid` brings all tasks into their groups exactly when no set of group leaders waits for each
  other in a circle, no group leader lives in the group of its session leader, and no member of the
  group inherited from the shell leads a group. The last two are not circles: a session leader's member
  count stays 0, so it never sets `pgrp_set`, and a task of the inherited group returns before setting it.
- `check_cow_vmas` compares file ids but not file offsets. The copy-on-write restore equals a plain
  restore, for all file contents, exactly on pages that are listed in the image and on areas mapped
  like the first area of their chain.
- The merge of two area lists steps over a compatible pair exactly when no parent area starts between
  the previous child area and this one.
- `restorer_get_vma_hint` does not treat the last area of either list as an obstacle. Its result is always
  one of finitely many candidates, the lowest address and the ends of the areas; whether it meets a last
  area is decided by which candidates are free, and an input is given where it meets one.
- `breadchr` refills once, so a short read in the middle of a file cuts a line short; the exact condition
  for returning the next line is proved for any reads, with a file and a read that cut a line.
- `make_parent_dirs_if_need` leaves the path string cut exactly when the first parent that cannot be made
  is not the last one; it comes back cut at that parent.
- The cgroup property parser accepts a list that breaks off after a comma exactly when the text ends
  there, a newline follows, or a quote is opened and never closed. Without the comma it is refused.
- Ids drawn for special files are not checked for 32-bit wrap-around as the others are. The ids of a run
  are sound exactly when fewer than 2^32 of its requests have to draw a number, which can be told from
  the requests alone; a run of 2^32 + 1 requests shows the collision.
- Two inotify marks on one inode do not fail, but the second takes the watch of the first away. All marks
  come back exactly when numbers and inodes are one to one.

Assumptions taken from the callers: areas of a task are non-empty and do not overlap; a task whose pages
can be read in place (`pieok`) has at least one pagemap entry, because `premap_priv_vmas` looks at the
first one; the end marker in `restorer_get_vma_hint` is never taken for the last list element.

## Model

| member | source | states |
|---|---|---|
| DescriptorHandOut.StepInv | criu/files.c:1264-1321 | every action of every task keeps the invariant: a slave entry is handed its own description at most once, a master is restored only after all its slaves were served, nothing available behind a task's cursor is without a pending pass or wake-up |
| DescriptorHandOut.RunInv | criu/files.c:1264-1321 | the invariant holds in every state of every interleaving |
| DescriptorHandOut.PlantsFresh | criu/files.c:1042-1047 | a step fills only descriptor numbers that were empty, each with the description its master opened, and changes no other |
| DescriptorHandOut.PlantedAtMostOnce | criu/files.c:1049-1090 | over a whole run each entry is planted by at most one step and keeps its description |
| DescriptorHandOut.NoLostWakeup | criu/files.c:187-215 | a task asleep with its event bit clear and no sender between send and set has an empty inbox and no received but unrestored entry |
| DescriptorHandOut.Quiescent | criu/files.c:1181-1233 | a reachable state in which nobody can step has every entry of every task restored with its description |
| DescriptorHandOut.StepDecreases | criu/files.c:1264-1321 | every step lowers a measure, so no schedule runs for ever |
| DescriptorHandOut.EveryRunRestoresAll | criu/files.c:1136-1233 | every run is bounded, and a run that cannot go on has planted everything everywhere |
| DescriptorHandOut.Continue | criu/files.c:1264-1321 | every run can be continued until nobody can step |
| DescriptorHandOut.CanFinish | criu/files.c:1264-1321 | from every valid layout there is a run that plants every entry with its description |
| DescriptorHandOut.SharedCanStart | criu/files.c:1264-1321 | two tasks sharing one description, a valid layout from which runs start |
| DescriptorHandOut.SharedFallsAsleep | criu/files.c:1273-1308 | a run of that layout in which the slave's task sleeps with its event bit clear before the master was opened |
| StageBarrier.StoredCount | criu/cr-restore.c:137-156 | the number stored for a stage is the number of its participants, given that zombies were dropped from the threads before the SIGCHLD stage |
| StageBarrier.DoInv | criu/cr-restore.c:209-238 | storing the count, publishing the stage, forking, reporting and waking each keep the barrier invariant, on both routes |
| StageBarrier.CounterIsExact | criu/cr-restore.c:178-196 | in every state of every run `nr_in_progress` is the number of participants that still owe a report for the counted stage |
| StageBarrier.StageAdvances | criu/cr-restore.c:2869-3001 | `start` moves by one stage, and only after every participant finished the stage it shows |
| StageBarrier.NobodyTooEarly | criu/cr-restore.c:1480-1543 | whoever works on a stage works on the one published, nobody takes a late death for an early one, and only zombies and helpers leave, after RESTORE |
| StageBarrier.AwaitProceeds | criu/cr-restore.c:178-207 | while criu waits for reports, some participant can act |
| StageBarrier.StuckIsDone | criu/cr-restore.c:2869-3001 | a run that cannot go on has reached COMPLETE with everybody resumed or gone |
| StageBarrier.SmallTreeCanStart | criu/cr-restore.c:2869-2900 | a root task with a thread and a zombie child from which runs start |
| StageBarrier.RunsAreBounded | criu/cr-restore.c:2869-3001 | every run is bounded |
| StageBarrier.CanFinish | criu/cr-restore.c:2869-3001 | from every valid tree there is a run that reaches COMPLETE with everybody resumed or gone |
| ProcessGroups.StepInv | criu/cr-restore.c:2088-2126 | every action of `restore_pgid` keeps the invariant: each counter equals the members that have not counted themselves off |
| ProcessGroups.RunInv | criu/cr-restore.c:2088-2126 | the invariant holds in every state of every interleaving |
| ProcessGroups.LeaderIsThere | criu/cr-restore.c:2112-2118 | when a member enters a group led by another task, that leader is in the group, waiting, with a counter above zero |
| ProcessGroups.LeaderStays | criu/cr-restore.c:2100-2107 | in every run a leader that announced its group stays in it, waiting, while its counter is above zero, and the counter is zero exactly when all members have counted themselves off |
| ProcessGroups.StuckMeansCircle | criu/cr-restore.c:2088-2126 | a stuck state that is not finished needs a circle of leaders, a silent leader or a stranded one |
| ProcessGroups.UnsoundNeverFinishes | criu/cr-restore.c:2092-2107 | with a circle, a silent or a stranded leader no run brings all tasks through |
| ProcessGroups.SoundFinishes | criu/cr-restore.c:2088-2126 | otherwise a run that cannot go on has put every task into its group |
| ProcessGroups.FinishesExactlyWhenSound | criu/cr-restore.c:2088-2126 | all tasks can be brought into their groups if and only if the configuration is sound |
| ProcessGroups.StrandedExample | criu/cr-restore.c:2101-2118 | three tasks without a circle that can never finish |
| Bitmap.LastWordMaskBits | criu/bitmap.c:7-11 | the last-word mask has exactly the bits below the end, all of them on a word boundary |
| Bitmap.BitmapSet | criu/bitmap.c:16-34 | exactly the bits of the range become set, for every start and length |
| Bitmap.BitmapClear | criu/bitmap.c:36-54 | exactly the bits of the range become clear |
| CowLinks.PrepareCowVmasFor | criu/mem.c:780-808 | the merge terminates on any lists; every link joins compatible private areas of one range; parents of links are marked; on sorted lists exactly the pairs it stops at are linked |
| CowLinks.FoundExactlyWhen | criu/mem.c:787-807 | a compatible pair is found if and only if it is the first child area or a parent area starts between the previous child area and this one |
| CowLinks.AllFound | criu/mem.c:787-807 | nothing is missed when every child start is a parent start |
| CowLinks.PairSteppedOver | criu/mem.c:795-800 | two lists where a compatible pair is missed |
| CowLinks.LinksAreInjective | criu/mem.c:788-792 | two areas of a task never get the same parent area |
| CowLinks.PrepareCowVmas | criu/mem.c:810-841 | over the whole tree every link names a compatible area of the parent, and that area has a non-null pvma |
| CowMemory.LookAhead | criu/mem.c:1013-1019 | entries passed over end below the area, and VMA_NO_PROT_WRITE is set exactly if the entry stopped at begins beyond it |
| CowMemory.NoPagesInside | criu/mem.c:1013-1019 | with ascending entries an area marked VMA_NO_PROT_WRITE gets no page |
| CowMemory.PlaceNext | criu/mem.c:844-937 | placing one more area keeps all placed areas, the pages still to be taken over and the rest of the reserved range as they were |
| CowMemory.Sources | criu/mem.c:1265-1291 | the pages to be taken over lie outside the reserved range and two areas take over different pages |
| CowMemory.PremapPrivVmas | criu/mem.c:981-1033 | exactly the areas that need it are placed, one after the other inside the reserved range, holding the parent's pages or untouched ones; an unsorted list is refused |
| CowContent.FindVma | criu/mem.c:1084-1101 | the page's private area is found, or no private area holds it |
| CowContent.CompareKeeps | criu/mem.c:1131-1151 | taking a page over or copying it, with the two bitmaps updated, keeps every page of every area right |
| CowContent.ReadKeeps | criu/mem.c:1131-1176 | reading a batch and setting its bits keeps every page of every area right |
| CowContent.EnqueueKeeps | criu/mem.c:1103-1126 | queued ranges are exactly the listed pages of areas restored in place |
| CowContent.RestoreEntry | criu/mem.c:1061-1178 | after an entry all its pages are in, the counters grew by its pages, and it fails exactly on a page outside the private areas |
| CowContent.FillAreas | criu/mem.c:1052-1187 | all listed pages are in; restored, shared and lazy pages add up to the pages listed; BUG is not reached when marked areas get no page |
| CowContent.FindNextBit | criu/mem.c:1199-1203 | the next set bit, or the size |
| CowContent.DropStrays | criu/mem.c:1189-1214 | afterwards every page reads as listed, or as if it was never touched |
| CowTree.PrepareMappings | criu/mem.c:1265-1337 | wherever the kernel puts the reserved range, the restored process holds exactly its own pages, bitmap and counters; with ascending pagemaps it fails exactly when the list is unsorted or a page lies outside the private areas |
| CowTree.RestoreTree | criu/mem.c:1265-1337 | the same for every task of every tree restored parents first |
| CowTree.FastIsPlainExactlyWhen | criu/mem.c:1128-1214 | a page equals that of a plain restore if and only if it is listed, restored in place, or both mappings read the same there |
| CowTree.OriginMatches | criu/mem.c:746-773 | a chain of links keeps range, kind of mapping and file |
| CowTree.ReadTheSameExactlyWhen | criu/mem.c:767-769 | two mappings of a chain read the same for all file contents if and only if they are mapped alike, offsets included |
| CowTree.TreeIsPlain | criu/mem.c:746-773 | when linked areas have equal offsets the whole tree gets the memory of a plain restore |
| CowTree.OffsetsMayDiffer | criu/mem.c:767-769 | a parent and a child whose areas are linked at different offsets: the child sees the wrong page |
| OrderedTree.LinkAndBalance | criu/kcmp-ids.c:122 | linking at the place found gives the in-order sequence with the new node there, whatever rebalancing does |
| KernelObjectIds.SearchSub | criu/kcmp-ids.c:98-116 | the walk finds the equal element, or the place that splits the order, or fails because kcmp did |
| KernelObjectIds.SearchGroup | criu/kcmp-ids.c:136-147 | the walk finds the group of the genid, or the place that splits the genids |
| KernelObjectIds.InsertEntry | criu/kcmp-ids.c:118-124 | inserting at the place keeps the order and adds exactly one element |
| KernelObjectIds.ChangeGroup | criu/kcmp-ids.c:118-124 | changing one group changes what is known of its genid and nothing else |
| KernelObjectIds.KidTree.GenerateSub | criu/kcmp-ids.c:87-125 | the subtree answers as the simple relation does |
| KernelObjectIds.KidTree.GenerateGen | criu/kcmp-ids.c:127-155 | the two-level tree answers exactly as the map from (genid, object) to id, unless kcmp fails on an element of that genid |
| KernelObjectIds.KidTree.LookupEpollTfd | criu/kcmp-ids.c:157-208 | the element found is the slot's target, and none is found only if none is known or kcmp fails |
| FileIds.FileIdTable.CacheLookup | criu/file-ids.c:61-74 | the hash chains answer as the last-write-wins map |
| FileIds.FileIdTable.CacheOne | criu/file-ids.c:43-59 | the new record wins for its key and no other key changes |
| FileIds.FileIdTable.GenerateSpecial | criu/file-ids.c:76-92 | a cached id, or the next number of the common counter |
| FileIds.FileIdTable.Generate | criu/file-ids.c:94-113 | the id of the object, cached when it is new |
| FileIds.SameIdExactlyWhen | criu/kcmp-ids.c:127-155 | over any run of requests two files get one id if and only if genid and kernel object agree |
| FileIds.NewExactlyOnFirstSight | criu/kcmp-ids.c:122-124 | new_id is set exactly on first sight |
| FileIds.DrawnOnce | criu/kcmp-ids.c:72-76 | numbers drawn are positive and never drawn twice |
| FileIds.NeverSpecial | criu/file-ids.c:88-91 | no file has an id that was drawn for a special file |
| FileIds.EnoughNumbersExactlyWhen | criu/file-ids.c:88-91 | fewer than 2^32 requests have to draw, counted from the requests alone, if and only if no request is ended by `BUG_ON` and none draws 0 |
| FileIds.SoundExactlyWhen | criu/file-ids.c:88-91 | every request is answered, with ids that are non-zero and never drawn twice, if and only if fewer than 2^32 requests have to draw |
| FileIds.NoWrapExactlyWhen | criu/file-ids.c:88 | the counter stays within 32 bits if and only if every number drawn is non-zero |
| FileIds.WrapCollides | criu/file-ids.c:88 | on a file, 2^32 - 1 special files and another file, from the start: the last special file gets 0 and the second file the id of the first |
| VmaHint.RestorerGetVmaHint | criu/cr-restore.c:3293-3339 | the lowest free address if in bounds, -1 exactly if no free address is in bounds; the areas before the last of each list are the obstacles |
| VmaHint.LeastIsCandidate | criu/cr-restore.c:3309-3334 | the result is the lowest address allowed or the end of an area before the last |
| VmaHint.SafeExactlyWhenApart | criu/cr-restore.c:3309-3334 | the result is clear of an area if and only if the area is empty, some free candidate fits below it, or every free candidate lies above it |
| VmaHint.MeetsNothingExactlyWhen | criu/cr-restore.c:3309-3320 | the result meets no area at all if and only if the last area of each list is safe in that sense |
| VmaHint.LastAreaHit | criu/cr-restore.c:3309-3313 | the method called on one area returns an address whose range lies across it |
| BufferedFile.Reader.Refill | criu/bfd.c:140-159 | the stream of unread bytes is unchanged, the buffered ones come first |
| BufferedFile.Reader.Bread | criu/bfd.c:302-333 | exactly the next min(size, remaining) bytes, however short the reads; an error only if a read fails |
| BufferedFile.Reader.Breadchr | criu/bfd.c:176-235 | the line cut from the bytes in the buffer after at most one refill; the stream goes on behind it |
| BufferedFile.LineExactlyWhen | criu/bfd.c:176-235 | that is the next line of the stream if and only if its end, or the end of the file with room to spare, is in the buffer |
| BufferedFile.ShortReadCutsLine | criu/bfd.c:195-219 | after a read of one byte the line "ab" comes back as "a" |
| BufferedFile.FullReadsCutLines | criu/bfd.c:195-219 | with full reads, if and only if the line fits |
| BufferedFile.Reader.ReadLines | criu/bfd.c:171-235 | a loop over breadline yields the lines of the file |
| BufferedFile.UnlinesLines | criu/bfd.c:171-235 | the lines joined again are the file |
| BufferedFile.NoDelimiterInside | criu/bfd.c:171-235 | and no line has a delimiter inside |
| BufferedFile.Writer.Flush | criu/bfd.c:237-251 | on success the file is all that was accepted; on failure a prefix of the buffer may be in it |
| BufferedFile.Writer.Bwrite | criu/bfd.c:253-278 | the bytes reported come behind everything before them; fewer than asked only for a piece larger than the buffer |
| BufferedFile.Writer.Bwritev | criu/bfd.c:280-300 | the vectors are written as one piece, up to the count reported |
| BufferedFile.Writer.Close | criu/bfd.c:115-138 | the failure is remembered exactly if something stayed in the buffer; otherwise the file is exactly what was accepted |
| BufferPool.Pool.Get | criu/bfd.c:37-77 | an opened file gets a buffer nobody else has |
| BufferPool.Pool.Put | criu/bfd.c:79-89 | closing gives the buffer back once |
| BufferPool.Conserved | criu/bfd.c:37-89 | free and used buffers add up to those allocated |
| GhostChunks.CopyFileToChunks | criu/files-reg.c:218-256 | the chunks are ascending, apart and inside the file, hold its bytes, and what they leave out reads as zero, also without SEEK_DATA; with it they hold exactly the data extents |
| GhostChunks.CopyChunkFromFile | criu/files-reg.c:201-216 | the chunk's bytes, however the transfers are split |
| GhostChunks.CopyChunkToFile | criu/files-reg.c:258-282 | the file changes exactly in the chunk's range |
| GhostChunks.CopyFileFromChunks | criu/files-reg.c:284-304 | restoring what dumps a content gives that content |
| GhostChunks.DumpAndRestore | criu/files-reg.c:201-304 | dump and restore give identical contents |
| CgroupProps.ParseBack | criu/cgroup-props.c:217-365 | parsing the text of any list of controllers with non-empty quote-free names and properties gives the list back |
| CgroupProps.PropertiesBack | criu/cgroup-props.c:311-338 | a printed list of properties is read back up to its bracket |
| CgroupProps.DocumentedText | criu/cgroup-props.c:260-309 | the same with the words of the documented form |
| CgroupProps.BrokenOffExactlyWhen | criu/cgroup-props.c:311-349 | for any non-empty list that breaks off after a comma and any text behind it: accepted if and only if the text ends, a newline follows, or a quote is never closed; then the properties before the comma are kept |
| CgroupProps.UnendedRefused | criu/cgroup-props.c:328-338 | a list that breaks off after a property, with neither comma nor bracket behind it, is refused |
| CgroupProps.EmptyListExactlyWhen | criu/cgroup-props.c:311-349 | an empty list is accepted if and only if its bracket is there and a newline or the end follows |
| CgroupProps.Stream.SkipSpaces | criu/cgroup-props.c:125-138 | pointer and length move together over the blanks |
| CgroupProps.Stream.EatSymbols | criu/cgroup-props.c:140-171 | the whole word after blanks, or nothing but the blanks |
| CgroupProps.Stream.EatWord | criu/cgroup-props.c:173-186 | the same by one comparison |
| CgroupProps.Stream.GetQuoted | criu/cgroup-props.c:188-215 | the quoted text, and exactly when the length stops matching the pointer |
| CgroupProps.ReadProperties | criu/cgroup-props.c:311-338 | the loop reads what the grammar says |
| CgroupProps.ReadController | criu/cgroup-props.c:236-349 | one controller is read exactly if the text starts with one |
| CgroupProps.Table.HandleProps | criu/cgroup-props.c:64-123 | merging adds, replacing starts over, no other controller changes, no name is listed twice |
| CgroupProps.Table.ParseStream | criu/cgroup-props.c:217-365 | the table ends as the fold of merge and replace over the controllers of the text |
| CgroupProps.Table.ParseDocumented | criu/cgroup-props.c:217-365 | parsing the documented text of a list of controllers leaves the fold of merge and replace over the list |
| CgroupProps.Table.GetProps | criu/cgroup-props.c:553-563 | the properties recorded for the name |
| EpollTargets.NumberTargets | criu/eventpoll.c:394-411 | entry i gets the number of earlier entries with the same target |
| EpollTargets.PosStep | criu/eventpoll.c:406-408 | in the sorted list the number grows by one inside a run and starts at zero |
| EpollTargets.CountPermuted | criu/eventpoll.c:404-410 | counting earlier entries does not depend on the order |
| EpollTargets.Compact | criu/eventpoll.c:250-258 | the in-place loop keeps one entry of each target, although it overwrites the array it compares |
| EpollTargets.FlushTargets | criu/eventpoll.c:244-277 | exactly one entry per distinct target is written, and the array is put back as it was |
| ParentDirs.Tree.RmParentDirs | criu/files-reg.c:2435-2475 | that many deepest parents are removed, the path is left as it was, and it succeeds when nothing else is below them |
| ParentDirs.Tree.MakeParentDirsIfNeed | criu/files-reg.c:2478-2526 | on success the missing parents were created and counted; it fails if and only if the parent cannot be looked at or a missing one cannot be made, and then none is left; the path is as it was, or cut at the first parent that could not be made when that is not the last |
| ParentDirs.CutAtFirst | criu/files-reg.c:2498-2520 | "a/b/f" where `a` cannot be made comes back as "a" |
| ParentDirs.Tree.MakeThenRemove | criu/files-reg.c:2435-2526 | removing as many parents as were made restores tree and path exactly |
| FilemapContext.Context.OpenFilemap | criu/files-reg.c:3025-3057 | a neighbouring area of the same file and flags shares the descriptor; otherwise a new one is opened before the old one is released |
| FilemapContext.Context.PremapFiles | criu/mem.c:989-1030 | in auto-close mode every area is mapped in order from a descriptor open on its own file, and every descriptor is closed once, also when an open fails |
| FilemapContext.Context.OpenVmas | criu/mem.c:1373-1407 | in deferred mode neighbouring areas of a file share a descriptor and exactly the last area using it carries VMA_CLOSE |
| FilemapContext.OpenedThenReleased | criu/files-reg.c:3005-3023 | mapping in order and closing where the bit says so releases every descriptor once, after its last use |
| InotifyReplay.CollectMark | criu/fsnotify.c:796-812 | marks stay in ascending order and none is lost |
| InotifyReplay.RestoreOne | criu/fsnotify.c:595-624 | the retry loop terminates and reaches the number exactly if it was not passed |
| InotifyReplay.Replay | criu/fsnotify.c:595-624 | the "unsorted" error is hit exactly if two marks share a number but not an inode; then all are back, with no stray watch, exactly if no inode has two numbers |
| InotifyReplay.CollectMarks | criu/fsnotify.c:796-812 | marks read in any order end up ascending, each as often as it was read |
| InotifyReplay.CollectAndReplay | criu/fsnotify.c:595-812 | marks collected in any order and then replayed all come back if and only if numbers and inodes are one to one |
| InotifyReplay.SecondWatchTakesFirst | criu/fsnotify.c:595-624 | two marks on one inode, where the first is lost |

## Left out

- Kernel probing, the RPC service, option parsing, namespaces, mounts, netfilter and image encoding: these issue system calls and copy fields between structures, with no state or order of their own to prove anything about.
- Guard pages of grow-down areas, s390x and compat branches of criu/mem.c: the same steps shifted by a page.
- Lazy restore through userfaultfd beyond its page counter.
- Failing page reads, `mmap`, `mremap` and `madvise` in criu/mem.c: each only ends the restore.
- 32-bit `int` page counts in criu/mem.c and byte sizes in criu/bfd.c: lengths are unbounded numbers, Bitmap bounds its range below 2^31.
- CowTree.RestoreTree: the processes of the tree are values copied at fork, not objects; what a process does after its memory is restored is not modelled.
- CowContent.DropStrays: the number of dropped pages, which is only logged, is not counted.
- DescriptorHandOut.Quiescent: files whose `open` has to wait, and epoll targets in other tasks, are not modelled.
- StageBarrier.StageAdvances: aborts through `CR_STATE_FAIL` and failing tasks are not modelled.
- KernelObjectIds.KidTree.GenerateGen: running out of memory is not modelled; a number that wraps to 0 ends the run as `BUG_ON` does.
- BufferedFile.Writer.Bwrite and BufferedFile.Reader.Bread: descriptors without a buffer pass calls straight to `read` and `write` and are not modelled.
- GhostChunks.CopyChunkToFile: a transfer of 0 bytes from a truncated image repeats for ever in the code; the model takes every transfer to move something or fail.
- CgroupProps.ParseBack: the text is the documented form with single blanks; names with NUL bytes are not modelled.
- EpollTargets.FlushTargets: looking targets up by kcmp before sorting, and freeing the entries, are not modelled.
- InotifyReplay.Replay: the route with `INOTIFY_IOC_SETNEXTWD`, skipping updated watches, and failing system calls are not modelled.
- ParentDirs.Tree.MakeParentDirsIfNeed: other processes changing the same directories or the same path string are not modelled.
