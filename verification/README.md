# Verified models of gem5-nvpsim

This project models the parts of the repository that decide something hard and proves what they
promise.  It is written in Dafny; `dafny verify dfyconfig.toml` checks it.

* `TailQueue`, `STailQueue`: the intrusive queues of libelf on the heap, with the pointer to the last
  next-field and the reading of a next-field as a queue head, refined to sequences.
* `EventQueue`: the simulator's two-level event list, with stale bin pointers, refined to one service order.
* `ElfLifetime`, `Sections`, `StrPtr`: the reference counts of ELF descriptors with deferred release of
  archives, the lazily loaded section list, and string offsets through alignment holes.
* `PipeView`: the reordering buffer of the pipeline viewer against one stable sort.
* `BindPorts`, `BindExamples`: the greedy binding of ports against every choice in the same order.
* `Grid`, `ShortestPath`, `GridDistances`: mesh and torus generators, all-pairs distances, and the network of
  a generated grid with its controllers, its distances and the routes between controllers.
* `Fp80`: conversion between 80-bit and 64-bit floating point, bit by bit and in value.
* `GzStream`: the buffered stream over a compressed file against the bytes of the file.
* `SortIncludes`, `IncludeBlocks`: recognising and sorting include lines.
* `IpChecksum`: the Internet checksum (section 1 of RFC 1071).
* `Years`, `Checkpoints`: year ranges as text, merged checkpoint memory.
* `CacheTree`, `CacheWiring`, `CacheShares`: the memory tester's tree, what is connected to what in it, and how
  much each part of it has.
* `Common`, `Numbers`, `Sequences`, `Strings`: shared types, powers of two and 64-bit arithmetic, notions of
  sequences, and strings with their order and numbers.

Code that updates things in place is a class or a method with a loop, proved against a function or a
sequence about which the laws are then proved.

## Where the code and what is said of it differ

* The comment in `read_config.py` (lines 299-301) says one pass over the sorted connections suffices.
  `BindExamples.SortedPassCanFail` is a counterexample, `BindPorts.GreedyOptimal` the exact condition.
* The documented bound of the pipeline viewer suffices but is not necessary; `PipeView.SortedIffInTime` is exact.
* Narrowing to 64 bits does not truncate below the normal range, nor without the integer bit;
  `Fp80.TruncatesIff` is exact, `Fp80.NarrowingCanFail` has two inputs.  Widening halves subnormals;
  `Fp80.WideningExactIff` is exact, `Fp80.WideningCanFail` an input.
* For a computed exponent below -63 narrowing shifts by more than a word, which C leaves undefined:
  `Fp80.DefinedIff` is exact, `Fp80.MaskedCanFail` an input with a masking machine.  In a round trip only
  zero is shifted so (`Fp80.WidenedIsDefined`).
* An overflowing exponent gives infinity also for numbers that are not too large; `Fp80.OverflowsIff` is exact,
  `Fp80.InfiniteTooEarly` an input.
* `fp80_classify` and `fp80_isnormal` differ on one significand; `Fp80.ClassifyAgrees` is exact,
  `Fp80.ClassifiedNormal` the input.
* A stored section count differs from the section list for a file with extended numbering and a count of
  zero, or a section 0 that is not null; the invariant of `Sections.Elf` has the exact condition,
  `Sections.StuckExample` is such a file.
* The checks on section 0 read early and on the section table wrap around 64 bits.  `Sections.EarlyInFileIff`
  and `Sections.TableInFileIff` say when a passed check means that what it guards lies in the file,
  `Sections.ReadInFileIff` when all that is read does; `Sections.WrappedEarlyExample` and
  `Sections.WrappedTableExample` are files where it does not.
* String offsets are computed in a size_t.  For a layout of the library's `StrPtr.AgreesIff` is exact,
  `StrPtr.WrapExample` and `StrPtr.RestartExample` are layouts; for one of the application's the contract of
  `StrPtr.LocateByOff` is, and `StrPtr.WrapByOffExample` is a layout.
* A torus of one row or column links routers to themselves, so the zero diagonal of the weights does not stay;
  `GridDistances.SelfLinkIff` is exact.  The routing results do not need it there.
* Not every two controllers have a route: `GridDistances.RoutedIff` is exact, `GridDistances.TooFarExample` a pair.
* `elf_begin` loses a descriptor on an archive it cannot read; the contract of `ElfLifetime.Library.Begin`
  says when the unreleased descriptors grow without one being returned, `ElfLifetime.LosesDescriptor` is a run.
* A stream that is not open is flushed through a handle that is none; the contracts of
  `GzStream.GzStreamBuf.FlushBuffer` and `GzStream.GzStreamBuf.Flush` say when.
* After a failed flush of a full put area the next byte is written behind the buffer; the contract of
  `GzStream.GzStreamBuf.Overflow` is exact, `GzStream.OverrunsAfterFailure` is a run.
* The checksum loop reads behind a buffer of fewer than two bytes; `IpChecksum.ReadsTheBufferIff` is exact,
  `IpChecksum.ReadsBehindTheBuffer` the case.
* A refill of a compressed stream that gets nothing can spoil putback bytes; `GzStream.MoveKeepsIff` is exact,
  `GzStream.SpoilsPutback` is a run.
* Year ranges beyond four digits are not read back; `Years.RoundTripIff` is exact, `Years.FiveDigitsCanFail` an input.
* Merged checkpoints are shifted wrongly behind an incomplete memory file; `Checkpoints.ImageSize` is exact,
  `Checkpoints.ShiftsWrongly` is a run.

## Model

| member | source | states |
|---|---|---|
| TailQueue.Link.constructor | gem5/ext/libelf/elf_queue.h:413-414 | A new head is an empty queue. |
| TailQueue.Init | gem5/ext/libelf/elf_queue.h:492-496 | Whatever the head held, it heads an empty queue afterwards. |
| TailQueue.InsertHead | gem5/ext/libelf/elf_queue.h:523-534 | The linked chain becomes the old one with the element first; next, previous and last pointers all agree with it. |
| TailQueue.InsertTail | gem5/ext/libelf/elf_queue.h:536-544 | The chain becomes the old one with the element last. |
| TailQueue.InsertAfter | gem5/ext/libelf/elf_queue.h:498-511 | The chain becomes the old one with the element right behind the given one, also when that was the last. |
| TailQueue.InsertBefore | gem5/ext/libelf/elf_queue.h:513-521 | The chain becomes the old one with the element right in front of the given one, without knowing the head. |
| TailQueue.Remove | gem5/ext/libelf/elf_queue.h:554-568 | The chain becomes the old one without that element, the last pointer moving back when it was the last. |
| TailQueue.Concat | gem5/ext/libelf/elf_queue.h:457-466 | The first queue holds both sequences one behind the other, the second is empty; an empty second queue changes nothing. |
| TailQueue.Last | gem5/ext/libelf/elf_queue.h:546-547 | Reading a next-field address as a head gives the last element, NULL exactly for an empty queue. |
| TailQueue.Prev | gem5/ext/libelf/elf_queue.h:551-552 | The same reading gives the element in front, NULL exactly for the first. |
| TailQueue.PrevUndoesNext | gem5/ext/libelf/elf_queue.h:549-552 | In every chain the previous element of the next element is the element itself. |
| TailQueue.ContentsUnique | gem5/ext/libelf/elf_queue.h:406-424 | The pointers determine the sequence: two chains with the same head are equal. |
| TailQueue.Forward | gem5/ext/libelf/elf_queue.h:472-475 | Following next-fields from the head visits exactly the elements, in order. |
| TailQueue.Backward | gem5/ext/libelf/elf_queue.h:482-485 | The reverse traversal visits exactly the elements, in reverse order. |
| STailQueue.Init | gem5/ext/libelf/elf_queue.h:249-252 | The head heads an empty queue afterwards. |
| STailQueue.InsertHead | gem5/ext/libelf/elf_queue.h:260-264 | The chain gains the element in front; the address of the last next-field is kept right. |
| STailQueue.InsertTail | gem5/ext/libelf/elf_queue.h:266-270 | The chain gains the element at its end. |
| STailQueue.InsertAfter | gem5/ext/libelf/elf_queue.h:254-258 | The chain gains the element behind the given one, also at the end. |
| STailQueue.RemoveHead | gem5/ext/libelf/elf_queue.h:295-299 | The chain loses its first element; emptied, the last pointer returns to the head. |
| STailQueue.Remove | gem5/ext/libelf/elf_queue.h:280-293 | The chain loses the given element, found by walking from the head unless it is the first. |
| STailQueue.Concat | gem5/ext/libelf/elf_queue.h:226-232 | The first queue holds both sequences, the second is empty. |
| STailQueue.Last | gem5/ext/libelf/elf_queue.h:272-276 | The element that owns the last next-field is the last one, NULL exactly when the queue is empty. |
| STailQueue.Forward | gem5/ext/libelf/elf_queue.h:238-242 | The traversal visits exactly the elements, in order. |
| STailQueue.ReleaseAll | gem5/ext/libelf/elf_end.c:62-68 | Removing the traversed element while walking with a saved successor releases every element once, in order, and leaves an empty queue. |
| EventQueue.Queue.FindBin | gem5/src/sim/eventq.cc:126-133 | The walk over the tops of the bins stops at the slot of the event: everything before it has a lower (when, priority), nothing behind has. |
| EventQueue.Queue.Insert | gem5/src/sim/eventq.cc:117-138 | The service order gains the event behind just those with an earlier time, or the same time and a smaller priority; the two-level linked structure, in which only bin tops have valid bin pointers, still represents it. |
| EventQueue.Queue.RemoveItem | gem5/src/sim/eventq.cc:140-169 | Within a bin the event is spliced out and the new top carries the bin pointer; it fails exactly when the bin does not hold the event. |
| EventQueue.Queue.Remove | gem5/src/sim/eventq.cc:171-201 | Succeeds exactly when the event is queued, and then the service order loses just that event; otherwise (panic) nothing changes. |
| EventQueue.Queue.Schedule | gem5/src/sim/eventq_impl.hh:42-66 | Puts an unscheduled event in behind just those with an earlier time, or the same time and a smaller priority, flags it, and keeps every queued event flagged and not before the current tick. |
| EventQueue.Queue.Deschedule | gem5/src/sim/eventq_impl.hh:68-85 | Takes exactly the event out of the service order and clears its flags. |
| EventQueue.Queue.Reschedule | gem5/src/sim/eventq_impl.hh:87-105 | A queued event leaves its place and goes in at the slot of its new time, its priority kept; one not queued is put in if always. |
| EventQueue.Queue.Pop | gem5/src/sim/eventq.cc:207-221 | The head leaves with the writes of removing a top: a stale bin pointer of the next event in its bin is repaired, so the structure still represents the rest. |
| EventQueue.Queue.ServiceOne | gem5/src/sim/eventq.cc:203-242 | Hands out the first event; no queued event had an earlier time, or the same time and a smaller priority; time never moves back, and a squashed event is dropped without moving time. |
| EventQueue.Queue.Drain | gem5/src/sim/eventq.cc:203-242 | Servicing until empty hands out the queued events in the queue's order: times never decrease, and at the same time priorities never do. |
| EventQueue.Queue.Step | gem5/src/sim/eventq_impl.hh:42-85 | One operation of a run keeps the queue valid and holding just the scheduled events of the pool. |
| EventQueue.Queue.Run | gem5/src/sim/eventq.cc:117-242 | Over every run of scheduling, descheduling and servicing the times of the events whose handlers are to run never decrease. |
| EventQueue.SlotInFields | gem5/src/sim/eventq.hh:377-395 | The slot of an event parts the queue by time, then priority: the order of ranks is that of operator<. |
| EventQueue.LinkBehind | gem5/src/sim/eventq.cc:128-137 | Redirecting the bin in front to the new top keeps the list of bins right for every later bin. |
| EventQueue.UnlinkBehind | gem5/src/sim/eventq.cc:187-200 | Redirecting the bin in front to the new top after a removal keeps the list of bins right. |
| ElfLifetime.Library.Allocate | gem5/ext/libelf/libelf_allocate.c:40-66 | A fresh descriptor has one activation and no members, and the counting invariant holds with it. |
| ElfLifetime.Library.Memory | gem5/ext/libelf/elf_memory.c:34-89 | Gives a descriptor exactly for a plain image, a good object or a good archive; an archive that cannot be read leaves an unreachable descriptor behind. |
| ElfLifetime.Library.OpenMember | gem5/ext/libelf/libelf_ar.c:279-321 | The next member becomes a child of the archive, whose child count goes up by one exactly when a descriptor is returned; its kind is that of its image. |
| ElfLifetime.Library.OpenObject | gem5/ext/libelf/elf_begin.c:39-80 | An archive opened for reading and writing is ended again; otherwise one descriptor of the image's kind joins the unreleased ones. |
| ElfLifetime.Library.Begin | gem5/ext/libelf/elf_begin.c:82-154 | When a descriptor is returned, which one it is, its kind, and what changes: an activation of an existing one, a member with its parent's count raised, or a new one; the counting invariant holds in every case. |
| ElfLifetime.Library.End | gem5/ext/libelf/elf_end.c:36-85 | Releases exactly the longest stretch of the parent chain whose counters allow it, nothing twice, returns the remaining activations, and keeps: unreleased exactly when active or with open members. |
| ElfLifetime.Library.Unwind | gem5/ext/libelf/elf_end.c:50-84 | The release loop terminates up the parent chain and stops at the first archive still in use. |
| ElfLifetime.Library.Release | gem5/ext/libelf/elf_end.c:78-81 | Releasing a descriptor lowers its parent's child count by one and keeps all counts right. |
| ElfLifetime.Library.CountsChildren | gem5/ext/libelf/elf_end.c:50-82 | Every child count is the number of unreleased descriptors naming that parent. |
| ElfLifetime.Library.OnlyLostLeft | gem5/ext/libelf/elf_end.c:42-84 | When every activation but those of lost descriptors has been given back, exactly the lost descriptors are left unreleased. |
| ElfLifetime.Library.Open | gem5/ext/libelf/elf_begin.c:82-154 | In a program that may use just the descriptors it holds, a descriptor is held once more exactly when one is to be returned, of the image's kind if it is new; every activation stays a hold or that of a lost descriptor; at most one more is lost, and only with a bad archive. |
| ElfLifetime.Library.Close | gem5/ext/libelf/elf_end.c:36-85 | Giving one hold back keeps every descriptor still held unreleased, with as many activations as holds. |
| ElfLifetime.Library.Run | gem5/ext/libelf/elf_end.c:36-85 | Over every run of the two on held descriptors the counting invariant holds, every activation is a hold or that of a lost descriptor, no more are lost than bad archives were opened, and giving everything back leaves exactly the lost ones. |
| ElfLifetime.LosesDescriptor | gem5/ext/libelf/elf_begin.c:82-154 | Opening an unreadable archive leaves an unreleased descriptor that the program does not hold. |
| ElfLifetime.OpensMember | gem5/ext/libelf/elf_begin.c:130-154 | A good archive is opened, and a member of it becomes its one open child. |
| ElfLifetime.EndsArchiveFirst | gem5/ext/libelf/elf_end.c:50-84 | An archive ended before its member is kept, and released with the member. |
| Sections.Elf.constructor | gem5/ext/libelf/libelf_allocate.c:40-83 | A new object has an empty, unloaded section list. |
| Sections.Elf.LoadExtended | gem5/ext/libelf/libelf_ehdr.c:40-82 | Under extended numbering section 0 is read early and the count comes from its size, unless the file is too short or its type is not null; it is read from inside the file if and only if its end does not wrap around 64 bits. |
| Sections.Elf.Ehdr | gem5/ext/libelf/libelf_ehdr.c:98-201 | The header is read once, also when it is then refused; it is accepted if and only if it fits the file, its count is not reserved, nothing in it needs a missing table, and a count kept in section 0 can be read; the number of sections is the one the file declares. |
| Sections.DeclaredBy | gem5/ext/libelf/libelf_ehdr.c:178-201 | The number of sections is the one in the header or, if that is zero and there is a table, the size of section 0, which is then read early. |
| Sections.Elf.LoadScn | gem5/ext/libelf/elf_scn.c:40-119 | Loads exactly when the entry size is right and the end of the table, computed in 64 bits, is within the file size; then section i of the list is entry i, the early section 0 included once, and all are from inside the file if and only if neither checked end wraps around. |
| Sections.TableInFileIff | gem5/ext/libelf/elf_scn.c:56-62 | Of a table that passes the check every entry lies in the file if and only if there is none or the end of the table does not wrap around. |
| Sections.EarlyInFileIff | gem5/ext/libelf/libelf_ehdr.c:54-57 | A section 0 that passes the check on it lies in the file if and only if its end does not wrap around. |
| Sections.ReadInFileIff | gem5/ext/libelf/elf_scn.c:56-111 | Everything a load has read, the early section 0 included, lies in the file if and only if neither checked end wraps around. |
| Sections.WrappedTableExample | gem5/ext/libelf/elf_scn.c:56-62 | A table that passes the check by wrapping around and lies outside the file. |
| Sections.WrappedEarlyExample | gem5/ext/libelf/libelf_ehdr.c:54-65 | A file that declares no section and of which section 0 is read from outside. |
| Sections.Elf.GetScn | gem5/ext/libelf/elf_scn.c:122-149 | Finds the section of that index exactly when the list has it; on the first use the list is loaded, and the section found, if and only if header, entry size and table end are right and the file has that many, and it is that entry of the file. |
| Sections.Elf.NewScn | gem5/ext/libelf/elf_scn.c:161-214 | Appends one section (with section 0 first if there is none), also to the sections a first load has just brought, with its position as its index; refused exactly when the sections cannot be loaded; its assertions fail exactly on a file with an early section 0 and a count of zero. |
| Sections.Elf.NextScn | gem5/ext/libelf/elf_scn.c:216-227 | From NULL the second section, loading on the first use as the search by index does; from a section the one behind it, NULL from the last and from a foreign one. |
| Sections.Elf.Enumerate | gem5/ext/libelf/elf_scn.c:216-227 | Following it from NULL visits sections 1 to n-1, each once, in order; on the first use n is what the file declares, if it can be loaded. |
| Sections.Elf.Run | gem5/ext/libelf/elf_scn.c:122-227 | Over every run of the three operations the sections are loaded at most once, indices count up from zero, the stored count is the length unless the file is stuck, and loaded sections stay. |
| Sections.ThreeSections | gem5/ext/libelf/elf_scn.c:122-227 | A file with three section headers: the second section is found and both behind number 0 are visited. |
| Sections.StuckExample | gem5/ext/libelf/libelf_ehdr.c:69-74 | There is a file whose list and count disagree: extended numbering with a count of zero. |
| StrPtr.PowerOfTwoTest | gem5/ext/libelf/elf_strptr.c:106-110 | The bit test on the alignment is true exactly of powers of two. |
| StrPtr.RoundUpIsLeast | gem5/ext/libelf/elf_strptr.c:111 | Rounding up gives the least multiple of the alignment that is not below. |
| StrPtr.RoomTaken | gem5/ext/libelf/elf_strptr.c:97-112 | A descriptor without a buffer or of size zero takes no room whatever its type and alignment; any other begins at its alignment, takes its size, and is gone past exactly when it holds bytes and its alignment is at most one or a power of two. |
| StrPtr.CoversUnique | gem5/ext/libelf/elf_strptr.c:95-129 | In the aligned layout an offset lies in at most one descriptor. |
| StrPtr.HoleIsEmpty | gem5/ext/libelf/elf_strptr.c:114-118 | An offset in front of an aligned descriptor and behind all before it lies in none. |
| StrPtr.Align | gem5/ext/libelf/elf_strptr.c:98-112 | A descriptor is passed exactly when it holds bytes and its alignment is at most one or a power of two. |
| StrPtr.SearchLoop | gem5/ext/libelf/elf_strptr.c:95-129 | The loop finds the first descriptor that has the offset as the code counts, in a size_t, with all before it proper and passed; nothing if there is none. |
| StrPtr.AgreesIff | gem5/ext/libelf/elf_strptr.c:95-129 | The code finds just the place the layout has if and only if nothing reached runs past the end of a size_t with the offset in it, and where an alignment runs past it no descriptor from there on has the offset in the code's own count. |
| StrPtr.PastTheEnd | gem5/ext/libelf/elf_strptr.c:111 | Rounding that wraps around stands for a start past the end of a size_t. |
| StrPtr.CountsFromZero | gem5/ext/libelf/elf_strptr.c:111 | Where rounding up overflows a size_t the count starts from zero again. |
| StrPtr.WrapExample | gem5/ext/libelf/elf_strptr.c:120 | A layout and an offset in its second descriptor, which is not found. |
| StrPtr.RestartExample | gem5/ext/libelf/elf_strptr.c:111-125 | A layout and an offset that lies in no descriptor, for which one is found. |
| StrPtr.Locate | gem5/ext/libelf/elf_strptr.c:89-130 | A position is returned exactly when the offset lies in a descriptor and every non-empty one up to it is proper, and it is that position, if and only if the layout is sound for the offset; a layout that fits a size_t is; holes give NULL. |
| StrPtr.LocateByOff | gem5/ext/libelf/elf_strptr.c:66-87 | With the application's layout: the answer is the first descriptor with the offset, all non-empty ones up to it holding bytes, or nothing without one, if and only if that descriptor does not run past the end of a size_t. |
| StrPtr.WrapByOffExample | gem5/ext/libelf/elf_strptr.c:83-85 | A descriptor that has the offset and runs past the end of a size_t. |
| StrPtr.StrPtr | gem5/ext/libelf/elf_strptr.c:42-134 | Nothing outside a string table or at an offset beyond it; otherwise the first place in the application's layout, or the place in the library's, each if and only if its condition on a size_t holds. |
| PipeView.TraceIsPermutation | gem5/util/o3-pipeview.py:159-188 | For every arrival order and thresholds the concatenated flushes are a permutation of the arrivals. |
| PipeView.ArriveMeans | gem5/util/o3-pipeview.py:159-170 | An arrival waits below the threshold; above it all are sorted, and the first leave until the lower threshold. |
| PipeView.SortIsStable | gem5/util/o3-pipeview.py:153-154 | Instructions with the same sequence number keep their order. |
| PipeView.PoppedIsFront | gem5/util/o3-pipeview.py:159-188 | While arrivals come in time, what has been flushed is the front of the sorted trace so far. |
| PipeView.TraceIsSort | gem5/util/o3-pipeview.py:159-188 | Arrivals in time leave the buffer exactly as one stable sort of the whole trace. |
| PipeView.BoundedDisorder | gem5/util/o3-pipeview.py:47-52 | If no arrival has more than the lower threshold of larger numbers before it, the output is the sorted trace. |
| PipeView.SortedIffInTime | gem5/util/o3-pipeview.py:159-188 | The output is in order if and only if every arrival comes in time, a condition on arrival counts and thresholds alone. |
| PipeView.LateIsUnsorted | gem5/util/o3-pipeview.py:159-188 | One arrival too late and the output is out of order, whatever follows. |
| PipeView.BoundIsTight | gem5/util/o3-pipeview.py:47-52 | With one place more than the lower threshold there is a trace that comes out of order. |
| PipeView.Range.SelectSorted | gem5/util/o3-pipeview.py:172-188 | Filtering keeps a sorted output sorted. |
| PipeView.Range.SelectMember | gem5/util/o3-pipeview.py:172-188 | An instruction is selected exactly when it is in the output and passes the filter. |
| PipeView.Range.PrintsRange | gem5/util/o3-pipeview.py:166-188 | Of an instruction of the trace all copies are printed if it is within the sequence numbers and ticks that are set, and committed if only those are wanted; none otherwise. |
| PipeView.Viewer.PrintInsts | gem5/util/o3-pipeview.py:167-188 | Sorts the queue and takes its front off down to the lower threshold, printing what passes the filter. |
| PipeView.Viewer.QueueInst | gem5/util/o3-pipeview.py:159-164 | Appends, and flushes down to the lower threshold when the upper one is exceeded. |
| PipeView.Viewer.ProcessTrace | gem5/util/o3-pipeview.py:128-150 | The lines printed for a whole trace are the filtered output of the buffer; under the documented disorder bound, the filtered sorted trace. |
| BindPorts.BoundBelowCount | gem5/configs/example/read_config.py:286-319 | In an order without loops a port is bound exactly when its vector's counter has passed it: indices are bound as 0, 1, 2, and so on. |
| BindPorts.PassedOneEnd | gem5/configs/example/read_config.py:310-319 | The counter has passed one end of a connection exactly when it has passed the other, exactly when one orientation was accepted. |
| BindPorts.NeverTwice | gem5/configs/example/read_config.py:310-319 | No connection is accepted twice, and never in both orientations. |
| BindPorts.HalfIffComplete | gem5/configs/example/read_config.py:321-324 | Half of the list was accepted if and only if exactly one orientation of every pair was. |
| BindPorts.GreedyStaysAhead | gem5/configs/example/read_config.py:310-319 | No choice taken in the order of the list ever has a counter ahead of the pass. |
| BindPorts.GreedyOptimal | gem5/configs/example/read_config.py:299-324 | The pass accepts one orientation of every pair if and only if some choice taken in the order of the list could. |
| BindExamples.SortedPassCanFail | gem5/configs/example/read_config.py:299-324 | A well-formed sorted list with a valid binding order on which the pass raises: the comment's claim fails. |
| BindPorts.SortSorts | gem5/configs/example/read_config.py:310 | The list is ordered by the comparison and is a permutation. |
| BindPorts.SortOrder | gem5/configs/example/read_config.py:140-142 | In the sorted list objects do not decrease, within an object port names, within a port vector indices; connections from the same port are ordered by their other end in the same way. |
| BindPorts.SortUnique | gem5/configs/example/read_config.py:310 | There is one sorted list: the order of the input does not matter. |
| BindPorts.BelowTransitive | gem5/configs/example/read_config.py:140-142 | The comparison of connections is transitive. |
| BindPorts.BelowTotal | gem5/configs/example/read_config.py:140-142 | The comparison of connections is total and asymmetric. |
| Strings.StrBelowIff | gem5/configs/example/read_config.py:140-142 | Strings are ordered by their first difference, a prefix first. |
| BindPorts.ZeroIndices | gem5/configs/example/read_config.py:283-289 | Every port vector on a left side starts at zero. |
| BindPorts.Pass | gem5/configs/example/read_config.py:291-319 | The loop accepts what one greedy pass accepts, every counter being the number of ends made; it fails exactly when a right side has no counter. |
| BindPorts.Bind | gem5/configs/example/read_config.py:278-324 | For a symmetric list without loops and with unique ends: no key error, bound if and only if some choice in list order binds, and then in index order with exactly one orientation of every pair. |
| BindExamples.BindsByObject | gem5/configs/example/read_config.py:278-324 | Three connections whose order by object differs from that by name: however listed, all are made, in the order of objects. |
| Grid.IdInjective | gem5/configs/topologies/Mesh.py:95-101 | Router numbers determine row and column. |
| Grid.MeshLinks | gem5/configs/topologies/Mesh.py:92-117 | Exactly the neighbours in each row and column are linked, each pair once: router x to x + 1 with weight 1, or to the one a row further with weight 2, numbered without a gap. |
| Grid.TorusLinks | gem5/configs/topologies/Torus.py:97-129 | The same with the last of each row and column linked to the first, two links for each router. |
| Grid.LinkWeight | gem5/configs/topologies/Mesh.py:95-115 | Whatever link joins two routers weighs 1 within a row and 2 within a column. |
| Grid.AttachNodes | gem5/configs/topologies/Mesh.py:62-90 | Every router gets its share of nodes in turn, the remainder goes to router 0; fails exactly when the remainder is not all DMA controllers. |
| Grid.MakeTopology | gem5/configs/topologies/Mesh.py:42-117 | Built exactly for a full number of rows and a DMA remainder; then all link ids differ, the links are the grid's, and the nodes hang on the routers in turn, the remainder on the first. |
| Grid.PathAtLeast | gem5/configs/topologies/Torus.py:101-127 | No path weighs less than the (cyclic) column distance plus twice the (cyclic) row distance. |
| Grid.CheapestPath | gem5/configs/topologies/Mesh.py:95-115 | There is a path of exactly that weight, so it is the least weight of any path. |
| ShortestPath.BestDetour | gem5/src/mem/ruby/network/Topology.cc:256-269 | The least of the entry and all detours through one switch. |
| ShortestPath.Sweep | gem5/src/mem/ruby/network/Topology.cc:253-279 | One sweep keeps every entry the length of some walk, and either shortens something or shows that no detour is shorter. |
| ShortestPath.Extend | gem5/src/mem/ruby/network/Topology.cc:243-281 | The loop terminates and every entry is the length of a shortest walk. |
| ShortestPath.ClosedBounds | gem5/src/mem/ruby/network/Topology.cc:252-280 | Without a shorter detour every entry is a lower bound for every walk. |
| ShortestPath.RouteExists | gem5/src/mem/ruby/network/Topology.cc:291-296 | From every switch some step lies on a shortest walk to every other one, and it is a link if that one is within reach. |
| ShortestPath.RouteWeight | gem5/src/mem/ruby/network/Topology.cc:291-296 | However it chooses among links on shortest walks, a route that arrives has the weight of the distance. |
| ShortestPath.RouteArrives | gem5/src/mem/ruby/network/Topology.cc:178-187 | Following such links arrives at every switch within reach, over links only, with the weight of the distance and visiting no switch twice. |
| ShortestPath.NoLinkExample | gem5/src/mem/ruby/network/Topology.cc:178-187 | Two switches whose distance is one step, which lies on the shortest walk and is no link. |
| ShortestPath.RoutesDoNotLoop | gem5/src/mem/ruby/network/Topology.cc:291-296 | A route along links on shortest walks never visits a switch twice. |
| GridDistances.FillWeights | gem5/src/mem/ruby/network/Topology.cc:135-173 | The filling loops give a matrix that holds the weight of the link for every pair that has one, zero to oneself without one, and infinity for every other pair. |
| GridDistances.AddLinks | gem5/src/mem/ruby/network/Topology.cc:82-120 | The link map has an entry exactly for each way in to its router, each router to the ways out of its controllers, and each pair of routers a grid link joins, with the weight of such a link. |
| GridDistances.CountSwitches | gem5/src/mem/ruby/network/Topology.cc:126-138 | One more than the largest switch a link touches. |
| GridDistances.CountIsSwitches | gem5/src/mem/ruby/network/Topology.cc:126-138 | For a generated grid with a controller that is two per controller and one per router: the last router has a link. |
| GridDistances.LinkPlaced | gem5/src/mem/ruby/network/Topology.cc:191-236 | The assertions on links hold of every one: it leads from a way in to a router, from a router to a way out, or between routers, within the switches. |
| GridDistances.WeightsAreNetwork | gem5/src/mem/ruby/network/Topology.cc:142-173 | Going to another switch costs something, and no way in or out has a link to itself: what routing needs. |
| GridDistances.SelfLinkIff | gem5/src/mem/ruby/network/Topology.cc:160-173 | A router keeps the zero weight to itself if and only if the network is not a torus of one row or one column. |
| GridDistances.StepBound | gem5/src/mem/ruby/network/Topology.cc:251-270 | No step of the matrix brings a switch closer, in grid distance and links in and out, by more than its weight. |
| GridDistances.AlongPath | gem5/src/mem/ruby/network/Topology.cc:251-270 | No distance is more than the weight of a path over grid links, and of the link out. |
| GridDistances.DistancesAreTolls | gem5/src/mem/ruby/network/Topology.cc:175-177 | The distance between any two switches is the grid distance of their routers plus one for each link in or out, capped at the infinite latency, which it is where nothing leads. |
| GridDistances.FirstHopIff | gem5/src/mem/ruby/network/Topology.cc:291-296 | Of the links from a controller just the one to its router is on a shortest walk to another controller, if and only if that is no further than the infinite latency. |
| GridDistances.ControllerRoute | gem5/src/mem/ruby/network/Topology.cc:298-333 | Links on shortest walks lead from a controller to every one that near, with the weight of the distance and no switch twice. |
| GridDistances.RoutedIff | gem5/src/mem/ruby/network/Topology.cc:298-333 | There is such a route between two controllers if and only if the distance is at most the infinite latency. |
| GridDistances.TooFarExample | gem5/src/mem/ruby/network/Topology.cc:40 | Two controllers of a mesh of one row that are further apart. |
| GridDistances.Build | gem5/src/mem/ruby/network/Topology.cc:59-188 | Generator, link map, matrix and shortest-path loop together: built exactly when no assertion fails; then all distances are the grid distances with the links in and out, and there are routes to just the controllers within reach. |
| Fp80.ShrIsFloor | gem5/ext/fputils/fp80.c:157 | A right shift is the quotient by a power of two, rounded down. |
| Fp80.ClassifyAgrees | gem5/ext/fputils/fp80.c:53-140 | Each class is the one its own predicate tells, except that a zero exponent under a lone integer bit is classified as normal though the predicate denies it. |
| Fp80.ClassifyByBits | gem5/ext/fputils/fp80.c:107-140 | The classes by exponent, integer bit and fraction of the pattern. |
| Fp80.Layout | gem5/ext/fputils/fpbits.h:61-110 | Where sign, exponent and fraction are in the two patterns. |
| Fp80.ClassifiedNormal | gem5/ext/fputils/fp80.c:112-140 | The input on which the two differ. |
| Fp80.Normalise | gem5/ext/fputils/fp80.c:213-219 | The shifting loop terminates with the integer bit set, having shifted as often as counted. |
| Fp80.Widen | gem5/ext/fputils/fp80.c:193-225 | The conversion to 80 bits with its loop computes the function the laws below are about. |
| Fp80.RoundTripExact | gem5/ext/fputils/fp80.c:148-225 | Every 64-bit pattern that is not a NaN survives the conversion to 80 bits and back, subnormals and infinities included; a zero if and only if the machine's shift of zero by more than a word is zero. |
| Fp80.RoundTripMasked | gem5/ext/fputils/fp80.c:148-225 | So every such pattern, zeros included, on a machine that uses the low six bits of a count. |
| Fp80.WidenedIsDefined | gem5/ext/fputils/fp80.c:193-225 | The way back of a finite pattern shifts within the word if and only if it is not a zero. |
| Fp80.RoundTripNan | gem5/ext/fputils/fp80.c:171-181 | A NaN stays a NaN of the same sign and kind, and becomes the canonical one. |
| Fp80.RoundTripIdempotent | gem5/ext/fputils/fp80.c:148-225 | A second round trip changes nothing more, for all patterns and whatever the machine makes of wide shifts. |
| Fp80.NormalTruncates | gem5/ext/fputils/fp80.c:154-162 | In the normal range the result truncates by less than one unit in the last place if and only if the integer bit is set. |
| Fp80.SubnormalTruncates | gem5/ext/fputils/fp80.c:163-166 | Below it, for shifts within the word, if and only if the shifted fraction is zero, or the exponent is the boundary one and the upper 53 bits are all ones. |
| Fp80.WideTruncates | gem5/ext/fputils/fp80.c:163-166 | Where the shift goes beyond the word, if and only if the machine's result has 52 low zero bits. |
| Fp80.TruncatesIff | gem5/ext/fputils/fp80.c:151-170 | The exact inputs, over all exponents below overflow and all machines, on which narrowing truncates towards zero. |
| Fp80.NarrowingCanFail | gem5/ext/fputils/fp80.c:159-166 | Two inputs on which it does not: the smallest significand of the boundary exponent, and a number without its integer bit. |
| Fp80.DefinedIff | gem5/ext/fputils/fp80.c:163-166 | C determines the result if and only if the computed exponent is at least -63. |
| Fp80.MaskedCanFail | gem5/ext/fputils/fp80.c:164 | An input below that which a machine masking the count does not truncate. |
| Fp80.OverflowsIff | gem5/ext/fputils/fp80.c:167-170 | Exponent overflow gives the signed infinity; the number is beyond every finite 64-bit number if and only if its scaled significand is, as with the integer bit set it always is. |
| Fp80.InfiniteTooEarly | gem5/ext/fputils/fp80.c:167-170 | An input that becomes infinity though a finite number is larger. |
| Fp80.NarrowingMonotone | gem5/ext/fputils/fp80.c:151-170 | Narrowing is monotone on non-negative numbers with the integer bit set and a positive computed exponent, overflow included. |
| Fp80.WideningExactIff | gem5/ext/fputils/fp80.c:193-225 | Widening keeps the value of a finite number if and only if it is not a non-zero subnormal; those come out at half their value. |
| Fp80.WideningCanFail | gem5/ext/fputils/fp80.c:193-225 | The smallest subnormal, whose value changes. |
| Fp80.SpecialNarrowed | gem5/ext/fputils/fp80.c:171-181 | Infinities, and the sign and kind of every 80-bit NaN, survive narrowing: the fraction tells an infinity, its highest bit a quiet NaN. |
| Fp80.KnownPatterns | gem5/ext/fputils/fp80.c:144-225 | One, minus three, an infinity and the three NaNs, bit by bit. |
| GzStream.GzStreamBuf.constructor | gem5/ext/gzstream/gzstream.hh:57-63 | Both areas start empty. |
| GzStream.GzStreamBuf.Open | gem5/ext/gzstream/gzstream.cc:45-66 | Opens exactly a closed stream in a mode without append, at-end or both directions; bytes left in the buffer make the new stream wrong exactly when an area is not empty. |
| GzStream.GzStreamBuf.FlushBuffer | gem5/ext/gzstream/gzstream.cc:103-111 | On success the file has all bytes accepted and the buffer is empty; it fails exactly when the write is short; the accepted bytes are kept exactly when the write succeeds or takes nothing; without an open file the handle written to is none. |
| GzStream.GzStreamBuf.Overflow | gem5/ext/gzstream/gzstream.cc:113-123 | The byte and all buffered ones reach the file, or EOF with the put pointer behind the byte if and only if the write was short; afterwards it is inside the buffer if and only if the flush succeeded or there was room; from the end of the buffer a byte is written behind it. |
| GzStream.GzStreamBuf.Sputc | gem5/ext/gzstream/gzstream.cc:113-123 | A byte put is appended to the bytes accepted and the put pointer stays inside the buffer; at the last place it is accepted if and only if the stream is open for output and the write is not short; it is written behind the buffer if and only if the pointer stood at its end. |
| GzStream.GzStreamBuf.Flush | gem5/ext/gzstream/gzstream.cc:125-134 | On success everything accepted is in the file; it fails exactly when its write is short, and has no handle exactly when bytes are buffered in a stream that is not open. |
| GzStream.GzStreamBuf.Close | gem5/ext/gzstream/gzstream.cc:68-76 | Everything accepted is in the file exactly when the buffer ended up empty, which it does if and only if no write was short, whatever close returns. |
| GzStream.GzStreamBuf.WriteAll | gem5/ext/gzstream/gzstream.cc:103-134 | For every program of puts and syncs, bytes in the file followed by bytes buffered are the bytes put; nothing is written behind the buffer before a flush has failed; and an open output stream runs the program to its end if and only if no write is short. |
| GzStream.OverrunsAfterFailure | gem5/ext/gzstream/gzstream.cc:113-123 | A full put area and two more bytes: the first fails if and only if the write is short, and then the second is written behind the buffer. |
| GzStream.GzStreamBuf.Underflow | gem5/ext/gzstream/gzstream.cc:78-101 | Delivers the byte at the read position without moving it; a refill keeps the last bytes, up to four, in front of the new ones; one that gets nothing has moved bytes but no pointer. |
| GzStream.GzStreamBuf.Fetch | gem5/ext/gzstream/gzstream.cc:88-92 | After the move and the read the buffer continues the file's bytes, or holds them from index 4 on if nothing came. |
| GzStream.MoveKeepsIff | gem5/ext/gzstream/gzstream.cc:85-92 | The putback bytes survive a refill that gets nothing, whatever they are, if and only if the last refill brought at least as many. |
| GzStream.PutBackThree | gem5/ext/gzstream/gzstream.cc:85-92 | After a refill of two bytes and one that gets nothing, the third byte put back is the last one of the file again. |
| GzStream.SpoilsPutback | gem5/ext/gzstream/gzstream.cc:78-101 | A file of 301 bytes on which that is a wrong byte, unless a read fails. |
| GzStream.GzStreamBuf.Sbumpc | gem5/ext/gzstream/gzstream.cc:78-101 | Delivers the next byte of the file and moves on, EOF only at the end or after a read error. |
| GzStream.GzStreamBuf.Sungetc | gem5/ext/gzstream/gzstream.cc:84-98 | Stepping back over a kept byte gives the byte of the file before the read position. |
| GzStream.GzStreamBuf.ReadAll | gem5/ext/gzstream/gzstream.cc:78-101 | The bytes delivered are the file from the read position on, all of it unless a read fails. |
| GzStream.WriteFile | gem5/ext/gzstream/gzstream.cc:45-134 | Opening, any program of puts and syncs, and closing leave exactly the bytes put in the file, unless a write was short. |
| GzStream.ReadFile | gem5/ext/gzstream/gzstream.cc:45-101 | A fresh stream over a file delivers its bytes, all of them unless a read fails. |
| GzStream.RoundTrip | gem5/ext/gzstream/gzstream.cc:45-134 | What one stream writes, another reads back, unless a write was short or a read failed. |
| SortIncludes.ParseWritten | gem5/util/sort_includes.py:53-63 | A written include line is taken apart into the parts it was written from, by exactly the matchers of its keyword and delimiters. |
| SortIncludes.AngleLine | gem5/util/sort_includes.py:117-125 | The type of every line with angle brackets: Python's header, a C header or its C++ name, a library's word, a C++ header by its ending, or none. |
| SortIncludes.QuotedLine | gem5/util/sort_includes.py:117-125 | The type of every line with quotes: the file's own header, a header of the simulator by its ending, or none. |
| SortIncludes.HeadersKeepStem | gem5/util/sort_includes.py:9-27 | A C header is renamed to c and its stem. |
| SortIncludes.WrittenIsStable | gem5/util/sort_includes.py:186-204 | A line the sorter writes is recognised again as the same line of the same type, renamed C headers included, and is not blank. |
| IncludeBlocks.DumpAllHas | gem5/util/sort_includes.py:150-176 | A dump holds the collected includes, each of them, and otherwise only empty lines. |
| IncludeBlocks.DumpInOrder | gem5/util/sort_includes.py:165-176 | Its includes stand in block order, each block strictly increasing. |
| IncludeBlocks.DumpOfSame | gem5/util/sort_includes.py:150-163 | A dump depends only on the set of includes collected. |
| IncludeBlocks.Collected | gem5/util/sort_includes.py:206-218 | Reading a dump collects its includes and skips the empty lines between blocks. |
| IncludeBlocks.Idempotent | gem5/util/sort_includes.py:178-234 | Sorting a sorted file changes nothing, for every list of lines and any recogniser that knows its own output. |
| IncludeBlocks.PartsKept | gem5/util/sort_includes.py:178-234 | Every line that is neither include nor blank stays, in order, and between two of them the set of normalised includes stays. |
| IncludeBlocks.SortIsIdempotent | gem5/util/sort_includes.py:178-234 | Both hold of the recogniser in use, for every file name, language and list of lines. |
| IncludeBlocks.SortFile | gem5/util/sort_includes.py:178-234 | The program with that recogniser returns a file it would not change again, with the parts of the one given. |
| IncludeBlocks.Sorter.DumpBlocks | gem5/util/sort_includes.py:150-163 | The sorted set of the collected includes of the given types. |
| IncludeBlocks.Sorter.DumpIncludes | gem5/util/sort_includes.py:165-176 | All blocks in order, and the dictionary is cleared. |
| IncludeBlocks.Sorter.Collect | gem5/util/sort_includes.py:209-213 | The dictionary holds one more line, under its type. |
| IncludeBlocks.Sorter.Sort | gem5/util/sort_includes.py:178-234 | The loop yields exactly the rewriting the laws are about. |
| Strings.SortedSetIncreasing | gem5/util/sort_includes.py:163 | The sorted set of strings is strictly increasing. |
| Strings.IncreasingUnique | gem5/util/sort_includes.py:163 | A strictly increasing list is determined by its elements. |
| IpChecksum.ReadsTheBufferIff | gem5/ext/dnet/ip.h:433-470 | The halfwords the unrolled loop reads are those of the buffer if and only if there is one. |
| IpChecksum.ReadsBehindTheBuffer | gem5/ext/dnet/ip.h:433-470 | Without a halfword sixteen are read. |
| IpChecksum.CountReads | gem5/ext/dnet/ip.h:433-470 | The loop, counting its reads for every number of halfwords, reads that many. |
| IpChecksum.AddHalfwords | gem5/ext/dnet/ip.h:433-470 | The unrolled loop adds the halfwords up to the last one, each once. |
| IpChecksum.Pass | gem5/ext/dnet/ip.h:438-470 | One pass from a case label adds that many halfwords, each once, without overflow. |
| IpChecksum.CksumAdd | gem5/ext/dnet/ip.h:427-476 | Adds every halfword exactly once plus the zero-padded odd byte, and no step exceeds an int if the total does not; it reads behind the buffer exactly if that has fewer than two bytes. |
| IpChecksum.SumBound | gem5/ext/dnet/ip.h:427-476 | The sum is at most 65535 for each halfword and 65280 for an odd byte. |
| IpChecksum.SumBoundReached | gem5/ext/dnet/ip.h:427-476 | A buffer of ones reaches that bound. |
| IpChecksum.PacketFits | gem5/ext/dnet/ip.h:427-476 | For up to 65535 bytes and an incoming sum up to 32767 the int never overflows. |
| IpChecksum.SumConcat | gem5/ext/dnet/ip.h:427-476 | Behind a piece of odd length bytes are summed as the other byte order would. |
| IpChecksum.PiecesIff | gem5/ext/dnet/ip.h:427-476 | Summing two pieces in turn is summing their concatenation if and only if the first has even length or the second sums alike in both byte orders. |
| IpChecksum.CarryIsComplement | gem5/ext/dnet/ip.h:478-483 | The checksum is the complement of the sum reduced modulo 65535, for every non-negative int. |
| IpChecksum.CheckedSum | gem5/ext/dnet/ip.h:478-483 | Adding the checksum back into the sum makes it check. |
| IpChecksum.ChecksIff | gem5/ext/dnet/ip.h:478-483 | A sum checks if and only if it is a positive multiple of 65535. |
| IpChecksum.PacketChecks | gem5/ext/dnet/ip.h:427-483 | A packet with the checksum filled in at an even offset checks. |
| IpChecksum.ByteOrderIndependent | gem5/ext/dnet/ip.h:427-483 | In the other byte order the checksum is the same with its bytes swapped. |
| Years.SplitOfJoin | gem5/util/find_copyrights.py:100 | Splitting a joined list gives the list back. |
| Years.ValueOfDecimal | gem5/util/find_copyrights.py:106-111 | Reading a printed number gives it back. |
| Years.MatchOfHyphen | gem5/util/find_copyrights.py:98-104 | The range pattern matches printed numbers with a hyphen exactly when the first has four digits and the second at least four, and takes four of them. |
| Years.SpacesIgnored | gem5/util/find_copyrights.py:98-115 | Years and ranges separated by commas are read, whatever the spaces around them and around the hyphens. |
| Years.NoDigits | gem5/util/find_copyrights.py:110-115 | A text without a digit adds no year. |
| Years.PieceRead | gem5/util/find_copyrights.py:98-114 | A printed run is read as itself if it is one year or both ends have four digits, else as some of its years without the last. |
| Years.RunsAreMaximal | gem5/util/find_copyrights.py:175-199 | The printed ranges are the years given, increasing, non-adjacent and maximal. |
| Years.RoundTripIff | gem5/util/find_copyrights.py:98-199 | Printing and reading back gives the same years if and only if every run of more than one year lies between 1000 and 9999. |
| Years.FiveDigitsCanFail | gem5/util/find_copyrights.py:98-199 | 9999 and 10000 are not read back. |
| Years.FourDigitYears | gem5/util/find_copyrights.py:98-199 | So for every non-empty set of four-digit years. |
| Years.ProcessDates | gem5/util/find_copyrights.py:99-116 | The loops compute the years the laws are about. |
| Years.DateStr | gem5/util/find_copyrights.py:175-199 | The loop prints the runs of the sorted years; an empty set is an error. |
| Checkpoints.ImageSize | gem5/util/checkpoint_aggregator.py:98-115 | The bytes of a checkpoint start where its addresses are moved to if and only if all memory files before it are complete. |
| Checkpoints.WindowsDisjoint | gem5/util/checkpoint_aggregator.py:98-115 | The windows of two checkpoints do not meet. |
| Checkpoints.RelocatedByte | gem5/util/checkpoint_aggregator.py:75-115 | A moved address finds in the merged image the byte it had in its own. |
| Checkpoints.MovedFinds | gem5/util/checkpoint_aggregator.py:75-115 | So does every address the merged configuration holds for that checkpoint. |
| Checkpoints.MaxTickIsLatest | gem5/util/checkpoint_aggregator.py:85-87 | The tick kept is the latest of the checkpoints. |
| Checkpoints.CopyPages | gem5/util/checkpoint_aggregator.py:105-112 | The page loop appends the pages, or what the file has of them. |
| Checkpoints.Merge | gem5/util/checkpoint_aggregator.py:61-115 | After the loop the image, the moved addresses, the page count and the latest tick are those of all checkpoints. |
| Checkpoints.Pad | gem5/util/checkpoint_aggregator.py:121-129 | Padding goes on by whole pages just until the requested size is reached. |
| Checkpoints.Aggregate | gem5/util/checkpoint_aggregator.py:44-139 | Gives nothing exactly without a checkpoint; otherwise every returned address finds in the returned image the byte it had, if the memory files up to its checkpoint are complete; the tick is the latest; the range size is at least the requested size, whole pages, and equals the bytes written if and only if all memory files are complete. |
| Checkpoints.ShiftsWrongly | gem5/util/checkpoint_aggregator.py:44-139 | Two checkpoints, the first with an empty memory file: the second one's address finds padding. |
| CacheTree.NumTesters | gem5/configs/example/memtest.py:114-125 | The multipliers level by level give the number of testers of the tree. |
| CacheWiring.TextInjective | gem5/configs/example/memtest.py:232 | Different levels or indices print different names. |
| CacheTree.Builder.MakeCacheLevel | gem5/configs/example/memtest.py:223-284 | A subtree adds its testers, caches and subsystems, each with its share; every tester port and both sides of every cache in it get connected once and rightly, and no list is indexed out of range. |
| CacheTree.Builder.FanOut | gem5/configs/example/memtest.py:260-266 | The loop over the caches that fan out builds one subtree for each, with that cache's memory side on the crossbar below. |
| CacheTree.Builder.ConnectWithCaches | gem5/configs/example/memtest.py:267-269 | Tester i of a lower level is on cache i of its own, whose memory side is on the crossbar of the level. |
| CacheTree.Builder.ConnectTop | gem5/configs/example/memtest.py:271-284 | The testers of a top level are on a crossbar on the cache given, or the one tester is on that cache itself. |
| CacheTree.Builder.Build | gem5/configs/example/memtest.py:223-287 | The tree has exactly the testers counted beforehand, per level the product of the fan-outs below it many subsystems, no name printed twice; a tester is on a cache exactly when it is its user; every subsystem above the root hangs on one cache, whose memory side is on a crossbar one level below; every crossbar has the caches and every subsystem the testers of its level; caches lead down to the root from everywhere. |
| CacheWiring.HangsOnce | gem5/configs/example/memtest.py:246-284 | A subsystem that hangs on a cache hangs on that one only. |
| CacheWiring.TestersAreRight | gem5/configs/example/memtest.py:267-284 | Testers and caches agree on who is connected to whom, and a crossbar testers are on is the user of a cache. |
| CacheWiring.CachesAreRight | gem5/configs/example/memtest.py:246-284 | Every subsystem above the root hangs on exactly one cache, and the memory side of a cache is one level below what hangs on it, or on the crossbar of its tester's subsystem. |
| CacheWiring.DownToRoot | gem5/configs/example/memtest.py:223-291 | From every subsystem caches lead down, level by level, to the root. |

## Left out

- The machine simulator itself beyond its event queue and the routing distances: processors, caches, coherence protocols, energy models.
- EventQueue: handlers, the asynchronous insertion queue, serialisation and the debugging check are not modelled; a panic is a failure result.
- ElfLifetime: reading of archives and files is the parameter telling what an image turns out to be; allocation always succeeds.
- Sections: allocation always succeeds; what is read from outside the file is left open.
- Sections: section contents, elf_getdata's loading from the file, elf_newdata, elf_rawdata and the translation of byte orders are left out.
- TailQueue, STailQueue: the debugging macros and the singly and doubly linked list macros without tails would only repeat the same shapes.
- PipeView.Viewer.ProcessTrace: parsing of trace lines and drawing are left out, and so is the early stop, whose call has one argument too few.
- BindPorts: parsing of configurations and the creation of objects.
- Grid, ShortestPath: link latencies and the counts of intermediate switches, which the same loops also fill.
- GridDistances.Build: controllers are numbered in the order of the list the generator gets; the source numbers them by type and version.
- Fp80: the conversion from and to the C type double is left out; what a shift by 64 places or more gives, undefined in C, is a parameter.
- GzStream: zlib is a sequence of bytes; a failing gzread is taken to leave the buffer alone, and overlapping memcpy to copy as memmove does.
- SortIncludes: the name of a file's own header is a parameter, and finding and rewriting files is left out.
- IpChecksum.CksumAdd: promises nothing for sums beyond an int; the sixteen unrolled additions are a counted loop.
- Years: the set of years is given as its sorted list; the search for copyright blocks is left out.
- Checkpoints: the configuration sections other than addresses, page counts, sizes and ticks, and file handling.
- CacheTree: cache prototypes and their scaling, the random specification and the simulation run.
- Variable-length integers of util/protolib.py, MeshDirCorners, Pt2Pt and the other topologies, DSENT and the configuration scripts: wiring, or easy members.
