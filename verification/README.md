# Forensic dump tool: a verified model

The repository takes forensic dumps of Windows machines. A client makes a directory with an image of physical memory and
other files, and a server that has asked for it receives the directory over TCP. A kernel driver reads the physical memory.
This project models four parts of it and proves what they promise.

**The directory transfer** (`Bytes`, `Wire`, `FileTree`, `Reception`, `TopEntries`, `Server`, `Client`, `CutStream`, `Transfer`,
`ClientSession`, `StackMachine`, `Session`, `FreshNames`, `ServerThreads`, `AwaitedStream`, `HonestClients`). A tree is
flattened into boxes, raw bytes and loop flags, and rebuilt below a directory of the client. `Client` and `Server` hold the
loops of both sides as methods over sockets that split every transfer as they like and a disk that changes in place; they are
proved equal to `Client.Stream` and to `Reception.RecvTree`. About these: the round trip, self-delimitation, what is left when
the connection breaks after any byte, what a whole session of many rounds comes to at both ends, and what the success that the
client reports is worth. `Session` makes both processes and two bounded channels a state machine whose every transfer may be
partial. `ServerThreads` interleaves any number of server threads over one disk.

**Reading physical memory** (`Division`, `PageTables`, `PageFields`, `PteMmap`, `DeviceRead`, `TlbProtocol`). Four-level page
tables live in a memory of 64-bit words. The driver finds the page table entry of one page of its own, the rogue page, and
points it to any physical page. `PteMmap` and `DeviceRead` hold the driver's objects as classes; `TlbProtocol` is the machine of
many threads and processors whose TLBs may load or lose the translation at any time.

**The raw image** (`MemoryRanges`, `RawImage`): runs, 16 MB chunks and pages, down to the page table entry, against the flat
image of memory.

**Memory holes and BAR sizing** (`MemoryHoles`, `HoledRanges`, `DisjointHoles`, `BarProbe`, `BusScan`): the in-place edit of
the run list, for one hole and for many; and the probing of base address registers against the device of section 6.2.5.1 of
the PCI Local Bus Specification 3.0, up to the scan of all buses.

## Conventions

A break of the client's connection is a number of bytes that `send` still accepts, and the way in which it then shows: as a
transfer of 0 bytes or as SOCKET_ERROR. What was accepted need not arrive: the results about both ends hold for every prefix
that does.

A method that changes an object states its whole new state through a function of the old one; the lemmas are about these
functions. A ghost parameter or result (`ram`, `failures`, `parts`, `calls`, `todo`, `shapes`) is bookkeeping of the proof.

What the operating system may refuse is decided outside the model, but put on record: `DeviceRead.Kernel` keeps what the driver
asked for, how often it was refused, what was refused last and how often the section was not there; `failed` counts the failed
calls of the imager. The methods state when nothing may fail and what a failure comes from.

Formats and bit fields are stated twice: as the functions that the other modules work with, and byte by byte or field by field
with the literal numbers of the source (`Wire.BoxByByte`, `PageFields.WalkByFields`, `BusScan.AddressByFields` and others).

## What the code does where its documentation, or its look, suggests otherwise

- A file with FILE_ATTRIBUTE_NORMAL is announced as a directory and ends the walk (`InfoDumping/InfoDumping.cpp:143`):
  `Client.StreamIsEncode` and `Transfer.DumpArrives` give the exact condition.
- The client does not notice a reset connection: its counters are unsigned, so that SOCKET_ERROR passes for a large count and
  `sendAll` returns 0 (`InfoDumping/InfoDumping.cpp:23-39`); nor does it notice a break inside the content of a file, as
  `sendFile` returns nothing (`InfoDumping/InfoDumping.cpp:190`). `Client.SendAll` and `Client.Walker.SendDir` state what is
  returned; `Transfer.ResetIsTakenForSuccess` is a dump of which nothing goes out and that is reported as sent, and
  `Transfer.ReportIsRightExactlyWhen` says when the report is right.
- A signal that breaks off after the letters of "dump" is taken for a signal, since the result of `receiveAll` is not looked
  at (`InfoDumping/main.cpp:80-82`): `ClientSession.BrokenSignal`.
- A directory name that was used before ends the whole server, as does a file in the place of a client's directory
  (`server_linux/server.cpp:206-211`): `TopEntries.DumpEndsServerExactlyWhen`, with an input in
  `TopEntries.ReusedNameEndsServer`. A file at the top of a dump is written beside the client's directory and not into it
  (`server_linux/server.cpp:167-171`): `TopEntries.TopFileGoesBeside`, with an input in `TopEntries.OneClientOverwritesAnother`.
- The alignment test of `pte_remap_rogue_page` never rejects a target (`kernel/pte_mmap.c:46`):
  `PteMmap.UnalignedTargetIsAccepted`. `PageTables.RemapIsExact` says which targets are mapped as asked, and alignment is
  proved where the driver calls it.
- The TLB is flushed on one processor only, whatever the comment says (`kernel/pte_mmap.c:58`):
  `TlbProtocol.MigrationBreaksReads` is a run in which this matters, `TlbProtocol.ReadsAreRight` holds without migration.
- `PhysicalMemoryPartialRead` reports success without data (`kernel/read.c:66-83`): `misses` counts such pages, which come out as
  zeros or as what was in the buffer.
- `DeviceRead` keeps its mutex if a memory descriptor list cannot be allocated (`kernel/read.c:194`): `held <==> noMdl`.
- `write_raw_image` returns 1 although copies failed (`kernel/executable/winpmem.cpp:351`): the file is then too short, and the
  ranges behind the failure are at the wrong place in it: `RawImage.WinPmem.WriteRawImage` gives its parts.
- A bridge's window registers are shifted by 20 (`kernel/pci.c:296`), which takes their twelve bits for units of 16 MB instead of
  the megabyte of section 3.2.5.8 of the PCI-to-PCI Bridge Architecture Specification: `BusScan.WindowIsMisplaced` says which
  addresses of a window the hole takes out.
- In `InsertMemoryHole` the test for an empty hole never fires (`kernel/pci.c:136`): `MemoryHoles.NoHoleIsEmpty`. A split
  also drops the byte before the hole and the last byte of the range, and a hole that ends on the last byte of the range, or
  covers a range, stays in the list: `HoledRanges.WhatIsLeft`, `HoledRanges.HoleIsGoneExactlyWhen`.
- So a scan of the buses need not remove every block of device memory: of two adjacent blocks that are found in descending
  order the second one stays (`DisjointHoles.DescendingNeighbours`). `DisjointHoles.AllGoneExactlyInGoodOrder` says when all go.
- The list of ranges has room for twenty, and `InsertMemoryHole` does not look (`kernel/pci.c:148-151`): it writes past the end
  exactly if the final list does not fit. `HoledRanges.FullListIsOverrun` is an input.
- `PmemRead` answers a buffer that fails the probe with success and no bytes (`kernel/read.c:443-452`): the result `faulted`.

## Model

| member | source | states |
|---|---|---|
| Wire.HeaderRoundTrip | server_linux/server.cpp:22-27 | the fields of a box survive the 16400-byte layout that both compilers give it |
| Wire.BoxByByte | server_linux/server.cpp:18-27 | what the receiver reads out of any 16400 bytes, by their positions: the type 0, the eight bytes of the size, and the text "success" with its NUL |
| Wire.HeaderByByte | InfoDumping/InfoDumping.cpp:136-231 | what the sender writes: type 0 for a file and 1 for a directory, and zeros behind the name |
| Wire.MessageByByte | InfoDumping/InfoDumping.cpp:136-140 | the letters of the two messages |
| Wire.FlagByByte | server_linux/server.cpp:217-225 | of all flags only the bytes 1, 0, 0, 0 announce an entry |
| FileTree.EncodeIsSelfDelimiting | InfoDumping/InfoDumping.cpp:136-266 | no two streams start alike: equal streams followed by anything come from equal trees and leave equal rests |
| FileTree.InstallIsLocal | server_linux/server.cpp:180-233 | writing a tree touches nothing outside its own place |
| Reception.RoundTrip | server_linux/server.cpp:142-236 | whatever follows the stream, the receiver rebuilds exactly the tree sent and leaves exactly what follows unread |
| Reception.RoundTripTop | server_linux/server.cpp:184-200 | the same for a whole dump below the directory of its client, which may exist already |
| Reception.WholeRounds | server_linux/server.cpp:247-262 | the streams of several dumps in a row are that many rounds of the thread, each rebuilt, and the rest is read as if alone |
| Reception.RoomForNext | server_linux/server.cpp:206-213 | after any rounds a directory with a new name can still be made, so that the server does not exit |
| Reception.OtherBox | server_linux/server.cpp:155-158 | a box without "success" ends a dump and leaves the disk as it is and the connection open |
| Reception.OtherChild | server_linux/server.cpp:225-232 | in place of a child such a box is skipped and the loop goes on; every flag but 1 ends the loop |
| Reception.UnopenableFile | server_linux/server.cpp:103-110 | a file that cannot be opened closes the connection and leaves the disk as it is |
| Reception.OtherTypeIsDirectory | server_linux/server.cpp:167-180 | every type but 0 makes a directory, or ends the server if that fails |
| TopEntries.DumpEndsServerExactlyWhen | server_linux/server.cpp:180-214 | on a disk in which everything is in a directory, a dump ends the server if and only if its directory exists or the directory of its client is a file, and is received otherwise |
| TopEntries.ReusedNameEndsServer | server_linux/server.cpp:206-211 | a second dump with the name of the first ends the server |
| TopEntries.TopFileGoesBeside | server_linux/server.cpp:167-179 | a file at the top of a dump is written into the directory of the server, whichever client sends it |
| TopEntries.OneClientOverwritesAnother | server_linux/server.cpp:103-105 | so one client's file replaces another's |
| Server.ReceiveAll | server_linux/server.cpp:68-96 | however reads are split, the buffer gets exactly the next n bytes of the stream, or the socket is closed and the stream gone |
| Server.SendAll | server_linux/server.cpp:36-66 | however writes are split, the whole buffer goes out once and in order; or what the connection takes, and then the socket is closed and 1 returned |
| Server.WriteFile | server_linux/server.cpp:98-140 | the loop of 16 KB chunks leaves disk, socket and return code as the recursive description of a reception says |
| Server.WriteDir | server_linux/server.cpp:142-236 | the recursion with its ignored child codes and its exits does the same for every stream, well formed or not |
| Server.WriteKids | server_linux/server.cpp:217-233 | the flag loop |
| Server.ClientThread | server_linux/server.cpp:238-265 | the thread sends one signal a round and stops at the first signal or dump that fails; what was written is the signals of its rounds and the part of one that broke off |
| Server.ServiceIsRounds | server_linux/server.cpp:247-262 | with room for its signals the thread goes through the rounds of its stream, and else through exactly as many as it can ask for |
| Client.SendAll | InfoDumping/InfoDumping.cpp:16-43 | with 32-bit counters and SOCKET_ERROR: what goes out is the buffer or the part the connection takes; 1 is returned exactly for a break that shows as a transfer of 0 bytes, 0 for any other |
| Client.SendFile | InfoDumping/InfoDumping.cpp:74-108 | the chunks add up to the content of the file |
| Client.LastComponentOfJoin | InfoDumping/InfoDumping.cpp:181-182 | the name that is cut off the path is the name of the entry that was appended to it |
| Client.SnapshotShowsEntries | InfoDumping/InfoDumping.cpp:233-258 | the snapshot of a directory has exactly the entries that are not called "." or "..", in their order and each once, and that of a file its name and content |
| Client.StreamIsEncode | InfoDumping/InfoDumping.cpp:136-266 | the walk gets through exactly if no file it visits is marked FILE_ATTRIBUTE_NORMAL and every directory lists something, and then writes the encoding of the tree without the dot entries |
| Client.Walker.SendDir | InfoDumping/InfoDumping.cpp:110-269 | over any connection the walk writes a prefix of its script; success is reported exactly if the walk does not give up and no transfer of 0 bytes announces a break inside a box or a flag; the working directory is then restored |
| Client.Walker.SendKids | InfoDumping/InfoDumping.cpp:233-258 | the loop over what FindFirstFile and FindNextFile deliver |
| CutStream.BodyCut | server_linux/server.cpp:121-136 | of a file that is cut off, a prefix of whole 16 KB chunks is kept |
| CutStream.CutTree | server_linux/server.cpp:225-232 | on any proper prefix of a stream the receiver fails and has replayed exactly the entries announced before the cut, although the failure code of a child is ignored |
| CutStream.LayoutIsOrdered | InfoDumping/InfoDumping.cpp:136-266 | the entries of a tree lie in its stream in pre-order, without overlap |
| CutStream.ReplayComplete | server_linux/server.cpp:142-236 | a replay past the end of the stream is the complete tree |
| CutStream.ReplayOnVacantPlace | server_linux/server.cpp:225-232 | entry by entry: the disk holds each announced entry as far as it arrived, and no later one |
| CutStream.CutDump | server_linux/server.cpp:142-236 | a dump cut at any byte leaves a pre-order truncation: all entries before the last announced one are complete, nothing later exists |
| CutStream.CutSession | server_linux/server.cpp:247-262 | the same for a stream of many rounds: complete dumps, then one truncation |
| Transfer.StreamIsAnnounced | InfoDumping/InfoDumping.cpp:143-231 | what a walk that gives up has written is a proper prefix of the stream of the tree it announced |
| Transfer.DumpArrives | server_linux/server.cpp:255-258 | for every prefix of a walk's bytes that arrives: the server accepts exactly the whole stream of a walk that does not give up, and then holds the tree the client saw; otherwise a pre-order truncation of what was announced |
| Transfer.ReportIsRightExactlyWhen | InfoDumping/InfoDumping.cpp:136-266 | an accepted dump is reported as sent; the report and the server agree if and only if everything arrived, or the walk gives up by itself, or the break is announced by a transfer of 0 bytes inside a box or a flag |
| Transfer.ResetIsTakenForSuccess | InfoDumping/InfoDumping.cpp:23-39 | a dump over a reset connection: nothing goes out and success is reported |
| ClientSession.ReceiveAll | InfoDumping/InfoDumping.cpp:45-72 | with 32-bit counters and SOCKET_ERROR: the buffer gets the next bytes and keeps those that came before a failure; only an end that shows as a transfer of 0 bytes is reported |
| ClientSession.SessionLoop | InfoDumping/main.cpp:75-140 | the endless loop sends one directory per accepted signal and stops at the first signal or reported failure, for every way in which the connection may break |
| ClientSession.BrokenSignal | InfoDumping/main.cpp:80-82 | a broken-off signal is accepted exactly if four bytes of it arrived |
| ClientSession.RoundsSend | InfoDumping/main.cpp:75-140 | all that a session sends is a proper prefix of the encodings of the rounds it reports and of one more |
| ClientSession.SessionOutcome | InfoDumping/main.cpp:125-132 | for any signals, walks, breaks and any prefix that arrives: the server completes at most the rounds the client reports, exactly as many if and only if all their bytes arrived, and of the next one it holds a pre-order truncation |
| StackMachine.TreeOnMachine | server_linux/server.cpp:142-236 | on every stream the recursion and a machine that is given one buffer at a time end alike: both go on, or the server is gone, or the thread has given up or waits for ever, with the same disk |
| StackMachine.DumpOnMachine | server_linux/server.cpp:142-236 | the machine comes to rest after a whole dump with the tree on disk and the rest unread |
| Session.StepKeepsInvariant | server_linux/server.cpp:247-262 | every step of either process keeps the invariant: what the server holds, what is in flight and what the client owes are exactly what the server still demands, and will complete the dump |
| Session.SafeOverAllRuns | InfoDumping/main.cpp:75-140 | hence the invariant holds in every reachable state, for every schedule and all partial transfers |
| Session.RoundBoundary | server_linux/server.cpp:247-262 | between two rounds the disk is exactly the trees sent so far, both channels are empty when a signal is about to be sent, and no process has given up |
| Session.NeverStuck | server_linux/server.cpp:247-262 | no reachable state is stuck: a byte can move, or the client has the signal and may start any new dump |
| Session.RoundsEnd | server_linux/server.cpp:247-262 | a run has at most as many steps as the bytes of its rounds allow, so that every round that begins ends |
| FreshNames.SomeRoundCanStart | InfoDumping/main.cpp:88-112 | a client that holds the signal can start a round: some name is new as long as the disk holds fewer paths than there are numbers that fit a name |
| Bytes.DecimalReads | server_linux/server.cpp:186 | the decimal text of a number reads as that number from left to right and has no needless zero in front |
| ServerThreads.HomeNameReads | server_linux/server.cpp:186 | the name of a client's directory is the numerals of the four bytes of its address between periods, an underscore and the numeral of its port |
| ServerThreads.OneHomeName | server_linux/server.cpp:186 | for 10.0.0.12 and port 50000 it is 10.0.0.12_50000 |
| ServerThreads.HomeNameIsInjective | server_linux/server.cpp:186 | clients that differ in address or port have different directories |
| ServerThreads.StepIsLocal | server_linux/server.cpp:142-236 | a step that does not read a header with a name of more than one component, or that of a file at the top, neither sees nor changes anything outside the directory of the client |
| ServerThreads.InterleavingIsAsIfAlone | server_linux/server.cpp:238-265 | under any interleaving of threads that read no such header, every thread, and the disk below its directory, is as if it had run alone, and everything else is unchanged |
| ServerThreads.OrderIsIrrelevant | server_linux/server.cpp:238-265 | schedules with the same number of turns for each thread end in the same state |
| AwaitedStream.HeaderIsHonest | server_linux/server.cpp:160-170 | every header in the stream of a well-formed tree names a single path component |
| AwaitedStream.AwaitingStep | server_linux/server.cpp:142-236 | after each buffer the stack of a thread still waits for exactly what follows in the stream of a tree |
| HonestClients.HonestIsWellBehaved | server_linux/server.cpp:167-213 | threads whose clients send dumps read no header that leads out of their directories, and never end the server |
| HonestClients.AllDumpsArrive | server_linux/server.cpp:238-265 | whatever the interleaving, a thread that has read all of its complete stream has left exactly the dumps of its client |
| PageTables.FieldsRecombine | kernel/pte_mmap.h:48-59 | index fields and offset make up the 48 translated bits of an address |
| PageTables.WithFrameFields | kernel/pte_mmap.c:57 | storing the frame changes its forty bits and no others |
| PageTables.WalkAvoiding | kernel/pte_mmap.c:57 | a store to a word that a walk does not read changes neither its translation nor the words it reads |
| PageTables.RemapMaps | kernel/pte_mmap.c:57-59 | after a remap the rogue page shows the page of the target, cut to 52 bits |
| PageTables.RemapIsExact | kernel/pte_mmap.c:57 | that is the target itself exactly for a page address below 2^52 |
| PageTables.RemapsAreContained | kernel/pte_mmap.c:57 | over any sequence of remaps no other word changes, and of the entry only its frame |
| PageTables.OthersKeepTheirTranslation | kernel/pte_mmap.c:57 | over any sequence of remaps every address whose walk avoids the entry keeps its translation |
| PageTables.CleanupRestores | kernel/pte_mmap.c:228-233 | the address saved at the start, through both conversions, puts every word of memory back |
| PageTables.SeenIsMemory | kernel/read.c:150-155 | a byte read through the rogue page is the byte of memory, outside the entry that the read itself rewrites |
| PageFields.EveryWordIsAnEntry | kernel/pte_mmap.h:63-135 | every 64-bit word is the sum of fields of these widths |
| PageFields.EntryFields | kernel/pte_mmap.h:63-135 | the bits that the walk tests and the frame that it follows are the fields `present`, `page_size` and the page frame number |
| PageFields.FrameIsWritten | kernel/pte_mmap.c:57 | a remap sets the frame field and leaves every other field as it was |
| PageFields.AddressFields | kernel/pte_mmap.h:48-59 | the index into the table of each level is the index field of the address |
| PageFields.RootByFields | kernel/pte_mmap.h:37-46 | the top-level table is at the page number that CR3 holds |
| PageFields.WalkByFields | kernel/pte_mmap.c:107-203 | the walk ends at a 4 KB page exactly if all four entries have `present` set and `page_size` is 0 in the middle two, and then with the PT entry at these indices and the frame in it |
| PageFields.EveryWalkByFields | kernel/pte_mmap.c:107-203 | the same for every memory, every CR3 and every address, as each of these words has such fields |
| PageFields.BytesOfWord | kernel/read.c:150-155 | the eight bytes of a word of memory make it up, the lowest first |
| PteMmap.Mapper.FindPte | kernel/pte_mmap.c:107-203 | succeeds exactly for an address that the processor translates through a present 4 KB page, with the entry that translation uses; `PageFields.EveryWalkByFields` says which addresses these are |
| PteMmap.Mapper.Attach | kernel/pte_mmap_windows.c:147-163 | the object is usable if the rogue page has its own entry, and holds its original address |
| PteMmap.Mapper.RemapPage | kernel/pte_mmap.c:40-62 | memory and TLB after a remap; success depends on the rogue page only |
| PteMmap.Mapper.Cleanup | kernel/pte_mmap.c:228-233 | the entry points to the saved address again |
| PteMmap.Processor.LoadByte | kernel/pte_mmap_windows.c:98-108 | a load through a TLB that may load or lose the translation delivers what the tables say as long as nothing stale is cached |
| PteMmap.UnalignedTargetIsAccepted | kernel/pte_mmap.c:46 | an unaligned target is mapped as the page it lies in |
| DeviceRead.OnePageMore | kernel/read.c:186-240 | a window that ends at a page boundary or at the end of the request adds exactly one page |
| DeviceRead.Extension.constructor | kernel/winpmem.c:464-478 | the initial state of the driver |
| DeviceRead.Extension.SetMode | kernel/winpmem.c:305-338 | the mode stays one of three, and is PTE only with a mapper |
| DeviceRead.Extension.EnsureExtensionHandle | kernel/read.c:25-53 | an open section is kept; it fails only if the section is refused |
| DeviceRead.Extension.PhysicalPartialRead | kernel/read.c:56-84 | reports the whole window, which holds memory; or, for a page that is missed, zeros if it could not be mapped and the old bytes if the section could not be opened |
| DeviceRead.Extension.IoSpacePartialRead | kernel/read.c:88-129 | the window and the bytes of memory, or nothing exactly if the mapping or a copy was refused |
| DeviceRead.Extension.PtePartialRead | kernel/read.c:133-163 | the window and the bytes of the requested page, through an aligned remap and a flush, or nothing exactly if there is no mapper or a copy was refused; the reading of every address stays the same |
| DeviceRead.Extension.LockBuffer | kernel/read.c:188-217 | a list, its lock and its address are asked for in this order; the status tells which one was refused, and nothing is kept then |
| DeviceRead.Extension.ReadWindow | kernel/read.c:188-234 | at most one page per handler call; success exactly if nothing was refused and there is a mapper where one is needed; every list freed and every lock released on every way out |
| DeviceRead.Extension.Read | kernel/read.c:168-245 | success exactly if the kernel refused nothing and there is a mapper where one is needed, and exactly if all bytes were read; otherwise one refusal that determines the status, up to which whole pages were read and behind whose page the buffer is as before; the section handler never ends in an I/O error; every byte read is that of memory; the fewest handler calls that pages allow; no list or lock left; the mutex released unless a list was refused |
| DeviceRead.Extension.PmemRead | kernel/read.c:406-478 | the branch for an unknown mode is never taken; an empty request or a missing buffer is refused before anything is asked for; all bytes are read exactly if nothing is refused; success without bytes means that the probe failed; only the section can miss a page |
| DeviceRead.Extension.Close | kernel/winpmem.c:146-166 | the section is closed |
| DeviceRead.Extension.Unload | kernel/winpmem.c:50-75 | after any reads in any modes, unloading leaves every word of memory as it was at loading |
| DeviceRead.Extension.ModeIsKnown | kernel/userspace_interface/winpmem_shared.h:24-26 | the mode is 0, 1 or 2, for the I/O space, section and page table handlers, and there is a mapper if it is 2 |
| DeviceRead.RemapForRead | kernel/read.c:142-150 | after a remap to an aligned page the rogue page shows every byte of that page, and nothing else becomes visible |
| TlbProtocol.ShownIsSeen | kernel/read.c:142-155 | the page that the tables show after a remap is that of the address, and its byte is the one that is seen there |
| TlbProtocol.RewriteShows | kernel/pte_mmap.c:57 | a remap shows the target page and keeps everything that can be seen through the rogue page |
| TlbProtocol.StepKeepsInvariant | kernel/read.c:184-243 | every step of any thread or TLB keeps the tables usable, and the page of the copying thread mapped, fresh on its processor, and its own |
| TlbProtocol.EveryReadIsRight | kernel/read.c:133-163 | hence over all runs every byte of every buffer comes from the address asked for and is the byte seen there, although only the local TLB is flushed |
| TlbProtocol.ReadsAreRight | kernel/read.c:184-243 | from any initial TLB content: the buffer of a read that ends without a fault has the length asked for and holds, byte for byte, physical memory at the offset as seen through the rogue page; only the holder of the mutex is in the middle of a read |
| TlbProtocol.SomeReadGoesOn | kernel/read.c:182-243 | in every state that can be reached, some read that is under way can go on |
| TlbProtocol.OnwardUsesWork | kernel/read.c:184-243 | every such step uses up some of the work left, of which there are at most three steps a byte and four more |
| TlbProtocol.NoReadHangs | kernel/read.c:184-243 | from any state that any run has led to, all reads under way can be brought to their end, with the right bytes |
| TlbProtocol.MigrationIsHarmlessExactlyWhen | kernel/pte_mmap_windows.c:104-108 | a migration during a copy keeps the invariant if and only if the new processor holds no translation of the rogue page, or the current one |
| TlbProtocol.StaleTranslationIsUsed | kernel/pte_mmap_windows.c:104-108 | otherwise the next byte comes from the wrong address |
| TlbProtocol.MigrationBreaksReads | kernel/pte_mmap_windows.c:104-108 | a whole run over concrete page tables with one migration after the flush that delivers a wrong byte |
| MemoryRanges.AddMemoryRanges | kernel/winpmem.c:92-125 | the ranges before the terminating empty one, unless there are more than twenty or none are given |
| RawImage.ClampCutsNothing | kernel/executable/winpmem.cpp:72-76 | in a sorted list the clamp to the top of memory cuts no byte of any range |
| RawImage.PartOfImage | kernel/executable/winpmem.cpp:335-356 | what is written for a run, zeros up to it and its bytes, is a prefix of what the image has there, however far it came |
| RawImage.ImageGrows | kernel/executable/winpmem.cpp:335-356 | the image so far and the whole part of a run make the image up to the end of the run |
| RawImage.SeenImageIsMemoryImage | kernel/executable/winpmem.cpp:333-356 | an image of what is seen through the rogue page is an image of memory: memory where a range covers the address, zero elsewhere, apart from the entry that the reads rewrite |
| RawImage.WinPmem.Pad | kernel/executable/winpmem.cpp:27-58 | exactly that many zeros unless a write fails, fewer if one does, and it terminates |
| RawImage.WinPmem.CopyMemory | kernel/executable/winpmem.cpp:60-147 | it succeeds exactly if it starts within memory and no call and no read is refused anything; what is written is what the device delivers for the addresses, all of it exactly on success |
| RawImage.WinPmem.PrintMemoryInfo | kernel/executable/winpmem.cpp:197-219 | the top of memory is the end of the last range |
| RawImage.WinPmem.WriteRun | kernel/executable/winpmem.cpp:335-356 | zeros up to the range, then the range, or a prefix of this; all of it exactly if no call and no read was refused anything; it blocks exactly if an earlier read kept the mutex |
| RawImage.WinPmem.WriteRawImage | kernel/executable/winpmem.cpp:286-369 | if the file is open and no call and no read is refused anything, and only then, the status is 1 and every copy succeeds; then, through runs, chunks and pages, the file becomes the flat image of what the device serves, and in PTE mode an image of physical memory without further conditions; its length equals the offset and the end of the last run. Otherwise it holds one prefix of its part of the image for each range, all ranges if the status is 1 |
| MemoryHoles.NoHoleIsEmpty | kernel/pci.c:132-139 | rounding makes every hole at least one page, so that the test for an empty hole never fires |
| MemoryHoles.MemoryInfo.InsertMemoryHole | kernel/pci.c:123-173 | the loop over the array, whose bound grows, terminates with the recursive description of the list; with ends below 2^64 nothing wraps |
| MemoryHoles.MemoryInfo.SplitRun | kernel/pci.c:146-158 | the move makes room without losing a run |
| HoledRanges.RoundingIsTight | kernel/pci.c:132-134 | a hole is rounded to the fewest pages that hold its first and last byte |
| HoledRanges.EachRangeIsCutAlone | kernel/pci.c:141-164 | on a sorted list the loop with its early exit cuts every range as if it were alone |
| HoledRanges.ShapeIsKept | kernel/pci.c:141-164 | sorted, disjoint, page-based and within its old bounds |
| HoledRanges.SplitsOnce | kernel/pci.c:146-158 | the list grows by at most one, exactly if the hole starts inside a range |
| HoledRanges.RoomIsNeededExactlyWhen | kernel/pci.c:148-158 | the array is written past its end exactly if it is full and the hole starts inside a range |
| HoledRanges.ArrayIsOverrunExactlyWhen | kernel/pci.c:141-164 | over any sequence of insertions the array is written past its end on the way if and only if the final list does not fit it |
| HoledRanges.FullListIsOverrun | kernel/pci.c:148-151 | twenty page-based ranges and a hole of one page for which a twenty-first is written |
| HoledRanges.SecondInsertionChangesNothing | kernel/pci.c:141-164 | idempotent on every sorted list, for holes that cross or cover ranges too |
| HoledRanges.WhatIsLeft | kernel/pci.c:146-163 | no address is added, and those that go are exactly the hole and, for a split, the byte before it and the last byte of the range |
| HoledRanges.HoleIsGoneExactlyWhen | kernel/pci.c:146-163 | the hole disappears if and only if every range satisfies a condition on its bounds |
| HoledRanges.ContainedHole | kernel/pci.c:146-163 | a contained hole changes one range and costs its bytes, plus one each side when that range is split |
| HoledRanges.TotalAfterHoles | kernel/pci.c:146-163 | over any sequence of contained holes the total falls by exactly the sum of these costs |
| DisjointHoles.NothingIsAdded | kernel/pci.c:141-164 | no sequence of insertions ever adds an address |
| DisjointHoles.GoneForGood | kernel/pci.c:141-164 | a hole is gone after its own insertion if and only if every range lets it go then, and it stays gone |
| DisjointHoles.DescendingNeighbours | kernel/pci.c:146-163 | two adjacent pages in descending order, of which the second stays in the list |
| DisjointHoles.PageStartStays | kernel/pci.c:146-163 | the first byte of a page outside the holes is never lost, whatever the splits drop |
| DisjointHoles.AllGoneExactlyInGoodOrder | kernel/pci.c:355-399 | of up to 4093 disjoint holes of whole pages, cut out of the whole address space, all are gone in the end if and only if none reaches its top and none ends just below one inserted before it |
| BarProbe.AllOnes | kernel/pci.c:184-185 | a register of a natural size reads back as the complement of that size with its wired bits |
| BarProbe.WiringOf | kernel/pci.c:230-263 | the registers of every kind of block have the wiring that the probes need |
| BarProbe.TypeBits | kernel/pci.c:235-257 | the type bits tell I/O, 32-bit and 64-bit blocks apart, whatever address a register holds |
| BarProbe.PciFunction.Write | kernel/pci.c:12-16 | what a register stores; callers must have switched off memory decoding |
| BarProbe.DumpBaseAddressRegister32 | kernel/pci.c:176-194 | the end is base plus size less one, without overflow; the configuration space is as before |
| BarProbe.ProbeOne | kernel/pci.c:178-190 | a register is probed and restored |
| BarProbe.ProbePair | kernel/pci.c:197-220 | both words of a 64-bit register are probed and restored |
| BarProbe.DumpBaseAddressRegister64 | kernel/pci.c:197-226 | the same for 64 bits, below and above 4 GB of size |
| BarProbe.HoleIsTheBlock | kernel/pci.c:192-193 | a block in use becomes the hole from its base to the end of its size, rounded to pages |
| BarProbe.DumpBaseAddressRegister | kernel/pci.c:230-263 | the right kind of probe, and an offset past all registers of the block |
| BusScan.DumpRegisters | kernel/pci.c:267-277 | over a whole header every block is looked at once and the upper half of a 64-bit register never by itself; the space is unchanged; the array needs room for nothing but what results |
| BusScan.PrefAddressFits | kernel/pci.c:306-324 | the prefetchable addresses that the driver puts together fit 64 bits |
| BusScan.BitOrBits | kernel/pci.c:312-323 | the or of two numbers has the bits of both |
| BusScan.AddressByFields | kernel/pci.c:296-324 | twelve bits of a window register count in units of 16 MB, and the upper half counts exactly if the other four bits are not zero |
| BusScan.WindowsByFields | kernel/pci.c:291-329 | the windows of a bridge in the numbers of its registers |
| BusScan.WindowIsMisplaced | kernel/pci.c:293-303 | of the addresses of a memory window its hole takes out exactly those from sixteen times the base on |
| BusScan.DumpWindows | kernel/pci.c:291-329 | the windows of a bridge that are in use and not empty become holes, with the shifts and ors of the driver |
| BusScan.DumpFunction | kernel/pci.c:369-394 | by header type, restoring the function |
| BusScan.HeaderTypeByFields | kernel/pci.c:359-398 | the layout is the five low bits of the header type, and bit 7 tells of many functions |
| BusScan.HolesArePages | kernel/pci.c:132-134 | every hole that a scan inserts is a number of whole pages below 2^64 |
| BusScan.ScanOverrunsExactlyWhen | kernel/pci.c:338-404 | a scan writes past the end of an array if and only if the final list does not fit, which is what the scan below asks |
| BusScan.NumberOf | kernel/pci.c:355-358 | the three loops go through all positions by their numbers |
| BusScan.AddMemoryRangesOfBuses | kernel/pci.c:338-404 | after a scan of all buses every configuration space is as before, and the holes of exactly the reachable functions were inserted in the order of their numbers; blocks that do not overlap are all gone from the list if and only if their order is good |

## Left out

Hypotheses of the transfer:

- The tree on the client is a fixed snapshot: every file has the size that its header says, can be opened, and does not
  vanish, so that the error boxes of `sendDir` and the exit of `sendFile` do not occur. Entries of one directory have
  different names.
- Names are single path components without NUL, slash and backslash, not "." or "..", and shorter than 16384 bytes; paths fit
  MAX_PATH.
- A connection of the client that is gone stays gone: `send` and `recv` keep reporting SOCKET_ERROR, and a socket the client
  has closed reports nothing else. (A connection that failed once and then took bytes again would get some of them twice.)
- A closed socket keeps failing; its number is not given to another connection.
- Every round uses a new directory name, and the directory of a client is not a file.
- Server.SendAll: takes SIGPIPE to be ignored, so that a write to a connection that is gone returns; the program installs no
  handler, and the signal would end the whole process.
- `fclose` of a null pointer in `writeFile` is taken to do nothing, and stdio buffering is ignored: a chunk is on disk when
  `fwrite` returns.
- Server.ClientThread: does not model the waiting between rounds, the messages on the console and the end of the process by
  other threads.
- ClientSession.SessionLoop: does not model how a round's directory comes about; the directories of the rounds are a
  parameter.
- ServerThreads.InterleavingIsAsIfAlone: names with more than one component are excluded through `Strays`; the file system of
  the model does not resolve ".." and separators inside a name.
- Session.RoundBoundary: the connection does not break; breaks are the subject of `CutStream` and `ClientSession`.

Hypotheses of the driver:

- `phys_to_virt_` is a faithful direct map, the tables of the rogue page are not reached through the rogue entry, and the
  processor sets no accessed or dirty bits while the driver works. Reserved bits and canonical addresses are not checked by
  the modelled walk.
- Memory does not change by itself during a read or an image.
- PteMmap.Mapper.Attach: covers a rogue page that was found and locked; the failures of construction are not modelled.
- DeviceRead.Extension.PhysicalPartialRead: the view of the section is taken to start at the page of the offset, to which
  ZwMapViewOfSection rounds.
- DeviceRead.Extension.Read: offsets are not negative, which the I/O manager sees to; the buffer is one array, so that its
  pages are not shared with the tables.
- DeviceRead.Extension.PmemRead: where the buffer is probed, the check of the interrupt level and the fast I/O duplicate are
  left out; a probe succeeds or raises an exception.
- DeviceRead.Extension.constructor: the creation of the device and its links, and failures of `DriverEntry`, are left out.
- TlbProtocol.ReadsAreRight: no thread is moved to another processor between the flush and the end of its copy. Threads do
  not run out of memory descriptor lists.
- PmemWrite is compiled out in the default build and is not part of this model; nor is unloading during a read.

The imager and the bus scan:

- RawImage.WinPmem.CopyMemory: the buffers can be allocated; progress output is left out.
- RawImage.WinPmem.WriteRawImage: in the mode of the physical memory device, `device.kernel.misses` excludes pages for which the
  driver reported success without data; the other modes have no such pages.
- MemoryHoles.MemoryInfo.InsertMemoryHole: needs room in the array for the list that results, which the code does not test; what
  it does to the memory behind the array is not modelled. `HoledRanges.RoomIsNeededExactlyWhen` says when that happens.
- BusScan.DumpWindows: follows the shift by 20 of the code; `BusScan.WindowIsMisplaced` is about the memory window only.
- BusScan.AddMemoryRangesOfBuses: the header has no 64-bit register in its last slot, and the ports of the configuration
  mechanism are replaced by the functions behind them. The driver does not call this scan at present.
- BarProbe.PciFunction.Write: a function must not have its memory decoding wired on.

Not modelled, as they only add calls of the system or simple members: the registry, process and network dumps and their JSON,
argument parsing, socket setup, service and driver installation, resource extraction, logging, `kernel/kd.c`, and
`kernel/executable/main.cpp`, an older client whose boxes do not fit the server.
