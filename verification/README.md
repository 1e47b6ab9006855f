# SJBDOS: a verified model of its kernel's state machines

SJBDOS is a small x86-64 kernel with a vendored image decoder. This project models the parts of it
whose correctness is an invariant over whole runs, and proves those invariants.

* **Virtual memory.** `PhysicalMemory` and `PageTables` state the page-table code as functions on
  physical memory. `Ownership` gives every table and private page the one place that it serves, and
  `Mapping`, `Sharing`, `Reclaim`, `Faults` and `Lifecycle` show what each operation does to that.
  `IdentityMap` is the kernel half of every space, `KernelStores` what stores there do. `Spaces`,
  `Refinement`, `Programs` and `Runs` prove that copy-on-write memory refines a machine in which every
  program has a private memory. `Outside`, `Conservation` and `Exposure` give the exact conditions of
  properties that do not hold without one; `FirstRun` is a run from boot, and `Instances` shows from
  there that they fail. `PagingMachine` is the code as it runs, in place, over the bitmap allocator of
  `FrameAllocator`; `BootMemory` sets that allocator up.
* **Bit-level decoding.** `CanonicalCode` is the reference; `ZHuffman`, `BitStream`, `Lz77`,
  `BlockEnd` and `Inflate` are the DEFLATE decoder, `JpegHuffman`, `Words`, `JpegBits`, `JpegStream`,
  `JpegReader` and `JpegBlock` the JPEG entropy decoder, `Adam7` the de-interlacing of PNG.
* **USB.** `TrbRing` is the producer ring with word-by-word publication to a concurrent consumer,
  `EventRings` the ring that the driver consumes, `Ports` the bring-up of root hub ports.
* **Tasks.** `Scheduler`, `Turns`, `Waiting` and `TaskManagers` are the run queues and the waiting
  protocols, `Timers` the timer queue, `Pipes` the byte stream over messages.
* **Screen.** `Composition` says what should be seen; `FrameBuffers`, `Windows` and `Layers` are the
  incremental repaint that keeps the screen equal to it.
* **Files.** `Fat` is the read path of the file system.

Code that changes state is a class whose methods are proved against functions or against the state they
leave; the functions carry the lemmas about whole runs. A section that the kernel runs with interrupts
disabled is one step. What hardware answers (memory contents, connection states, device lookups, bytes
of a stream) is a parameter.

## Properties that need a condition

Some promises do not hold on all inputs. For each there is the condition, checkable before the call, and a
theorem that it holds if and only if the condition does; and, from boot for the state machines, an input
that fails.

| promise | it holds if and only if | theorem | an input that fails |
|---|---|---|---|
| a user store changes no other space | its address is in the user half, or not identity-mapped, or below 2 MiB | `Outside.ForeignIff`, in one state `Outside.StoreSparesIff` | `Outside.StoreReaches` |
| an access outside the user half changes nothing | the handler refuses it, or memory is full and it is identity-mapped or not in slot 0 | `Outside.HarmlessIff` | `Outside.StoreReaches` |
| a page mapped writeable is private | it was not a read-only page before | `Exposure.PrivateIffUnshared` | `Instances.SharedStoreInstance` |
| CleanPageMaps gives up what the space owns below the slot | the slot is in use, or frame 0 has nothing to lose | `Lifecycle.CleanSlotIff` | `Instances.ExitInstance`, `Instances.ExitFreesTemplatePage` |
| a program's life leaves the allocator as it was | slot 256 is the only user slot in use at its end | `Conservation.ProgramConserves` | `Instances.ExitKeepsFrames` |
| the kernel can clear each frame that it may be given | the allocator manages none beyond 64 GiB | `IdentityMap.ClearsIff` | `BootMemory.LargeMachine` |
| the boot loop stays inside the bitmap | what it marks and manages lies below 128 GiB | `BootMemory.MarkMemoryMap` | `BootMemory.HighRegion` |
| a DEFLATE block ends | it does not reach the end of the input and find a copy of no bytes in the zeros there | `Inflate.Inflater.ParseHuffmanBlock`, `BlockEnd.EndlessIff`, for tables `BlockEnd.TablesEndIff` | `Inflate.EmptyCopies` |
| JPEG's symbol decoder finds the symbol | no 256th symbol has a code of nine bits or fewer | `JpegReader.DecodeRightIff` | `JpegReader.LostSymbol` |
| the combined AC table leaves the same count of bits | sixteen bits are buffered | `JpegBits.FastAcAgrees` | `JpegReader.CountsDiffer` |
| JPEG's size list is not overrun | the counts sum to at most 256 | `JpegHuffman.Huffman.Build` | `JpegHuffman.ManySymbols` |
| after a push the consumer sees something | there was room | `TrbRing.PushNeedsRoom` | `TrbRing.FullRing` |
| a file read stays in the file | it starts inside, or asks for nothing | `Fat.SizeCheck` | `Fat.LoadPastEnd` |
| Load visits no cluster but the file's | what the size check allows ends within them, or it allows nothing and the offset is less than a cluster behind them | `Fat.FileDescriptor.Load` | `Fat.LoadPastEnd` |
| LoadFile agrees with a read | it is not asked for more than there is, or the file fills its clusters | `Fat.LoadFileAgrees` | `Fat.LoadFilePastSize` |
| a sleep leaves a task to run | the task sleeps already, or another is ready | `Scheduler.SleepIff` | `Turns.LastTask` |
| an end leaves a task to run | another one is ready | `Scheduler.ExitIff` | `Turns.LastTask` |

## Model

| member | source | states |
|---|---|---|
| PhysicalMemory.NewPageMapFacts | day02/kernel/paging.cpp:44-54 | A new page map is the frame that was free, inside the managed range, cleared and marked; nothing else changes. Without one every managed frame is in use and nothing changes at all. |
| PhysicalMemory.AddressStep | day02/kernel/paging.hpp:33-61 | How advancing one field of an address relates to the pages a table covers: entry 511 is the last one at every level, and the next entry starts where the previous one ends. |
| Ownership.PlacesApart | day02/kernel/paging.cpp:56-101 | Under the invariant no two tables or private pages, of one address space or of two, are the same frame. |
| Ownership.FreeFrameUnclaimed | day02/kernel/paging.cpp:44-54 | A frame that the allocator holds free serves nobody, so handing it out aliases nothing. |
| Ownership.LinkTable | day02/kernel/paging.cpp:56-67 | Linking a fresh cleared frame as a table below any entry keeps the whole invariant: trees stay trees, templates stay read-only, ownership stays one to one. |
| Ownership.MapPage | day02/kernel/paging.cpp:211-222 | Mapping a fresh page with any contents keeps the invariant. |
| Ownership.Release | day02/kernel/paging.cpp:108-131 | Freeing an empty table, or a page that is no template's, and clearing its entry keeps the invariant. |
| Mapping.WalkIsFlat | day02/kernel/paging.cpp:211-222 | The four-level walk from the top table finds exactly the entry of the table that owns the page: the radix tree is a flat map from page numbers. |
| Mapping.TableStep | day02/kernel/paging.cpp:56-67 | SetNewPageMapIfNotPresent and the flag writes at an interior entry leave a table there that belongs to the space, and change no translation of any space. |
| Mapping.LeafStep | day02/kernel/paging.cpp:69-101 | At a leaf entry they map that one page: an old page keeps its frame, a new one gets a fresh cleared frame of its own, every other translation stays. A page that is mapped writeable is not a shared one; what happens to a shared one is Exposure's. |
| Mapping.SetupKeeps | day02/kernel/paging.cpp:69-101 | SetupPageMap at every level and for every run of pages, across any number of 511 boundaries: it maps a prefix of the requested pages, all of those that the table covers unless memory runs out, adds distinct fresh cleared frames, keeps old frames, and keeps the invariant, provided that no shared page is in a range that is mapped writeable. |
| Refinement.MapStep | day02/kernel/paging.cpp:103-106 | SetupPageMaps on a whole space, where it maps no shared page writeable: the pages of the space become the old ones plus cleared ones for the requested range inside the address space; it reports failure exactly when some are missing, and then no frame is free; no other space changes. |
| Refinement.SetupFails | day02/kernel/paging.cpp:69-101 | Mapping gives up only when no frame is left. |
| Sharing.CopyKeeps | day02/kernel/paging.cpp:256-278 | CopyPageMaps at every level and from every entry: the new space gets its own tables, and read-only the very frames of its template; the template and all others are untouched. |
| Refinement.CopyFails | day02/kernel/paging.cpp:256-278 | Copying gives up only when no frame is left. |
| Lifecycle.NewSpace | day02/kernel/paging.cpp:167-181 | SetupPML4 yields a space with the kernel half of the current one, nothing in the user half, and everything else as it was. |
| Lifecycle.CleanSlot | day02/kernel/paging.cpp:133-145 | If the slot is in use, CleanPageMaps frees each frame that the space owns below it, once, and no other: no page shared with a template, nothing of another slot or space; no other space reads anything new. If it is not in use the same holds where frame 0 is free and holds no present entry. |
| Lifecycle.CleanSlotIff | day02/kernel/paging.cpp:133-145 | CleanPageMaps gives up exactly what the space owns below the slot, and writes no frame outside its tables, if and only if the slot is in use or frame 0 has nothing to lose: for a slot not in use it is frame 0 that is cleaned and freed. |
| Instances.ExitFreesTemplatePage | day02/kernel/terminal.cpp:704-710 | A program linked at the start of slot 257, run from boot, exits: slot 256 is not in use, what the firmware left in frame 0 is taken for a table, and the page of the template, which still maps it, is given back to the allocator. |
| Instances.ExitInstance | day02/kernel/paging.cpp:133-145 | In that reachable state CleanPageMaps does not give back what it should. |
| Reclaim.CleanKeeps | day02/kernel/paging.cpp:108-131 | CleanPageMap at every level below the top and from every entry: exactly the places below the entries from there on, and their frames, are given up, and the table is left empty from there on. |
| Lifecycle.DropSpace | day02/kernel/paging.cpp:183-190 | Freeing the top table forgets the space and keeps the invariant for all others. |
| Faults.PageFrame | day02/kernel/paging.cpp:211-278 | Every page that a space can reach is a used frame with one owner: the space itself, which then may write it unless it is a template, or the template it was made from, and then the entry is not writeable. |
| Faults.PermitsIsFlat | day02/kernel/paging.cpp:235-254 | The processor lets a user access through exactly when the page is mapped and, for a store, private to the space. |
| Faults.SetupContent | day02/kernel/paging.cpp:69-101 | After a mapping every page of every space holds what it held; the new pages of the one space hold zeros. |
| Faults.CowStep | day02/kernel/paging.cpp:224-254 | A write fault on a shared page changes no byte that any space, the faulting one and the template included, can see, and leaves the page writeable; when memory is full it changes nothing. |
| Programs.WriteFault | day02/kernel/paging.cpp:235-254 | The same, for a running program among all others: afterwards the store can proceed; it fails only when memory is full. |
| Programs.DemandFault | day02/kernel/paging.cpp:235-254 | A fault on an unmapped page maps one cleared page when the address is in the range the task may fault in, and fails then only when memory is full; outside the range it is refused, and nothing changes. File mappings are left out. |
| Faults.FaultRefused | day02/kernel/paging.cpp:235-254 | The handler refuses every fault but a user's store to a present page and an access to an absent one in the range, faults of the kernel included. |
| Faults.ValueFields | day02/kernel/paging.hpp:33-43 | The address that is compared with the range has the fields of the walk as its bits, with the highest one extended. |
| Programs.WritePage | day02/kernel/paging.cpp:211-254 | A store to a permitted page changes that word of that space, and nothing that any other space reads. |
| Programs.AccessStep | day02/kernel/paging.cpp:235-254 | In the user half a load or store proceeds at once if the page is at hand, is refused, and changes nothing, if the program is not entitled to the page, which is that it has it or may fault it in, and otherwise proceeds, with the memory as it should be, unless memory is full. Outside the user half nothing happens at the addresses that the handler refuses. |
| Runs.LaunchSpace | day02/kernel/terminal.cpp:613-656 | A program started from a template reads exactly what the template holds. |
| Runs.ExitStep | day02/kernel/terminal.cpp:704-710 | Cleaning slot 256, in use or with nothing to lose, and freeing the top table removes the one space and changes nothing that another one reads. |
| Runs.StepRefines | day02/kernel/terminal.cpp:613-710 | Each guarded event, loading a template, launching, mapping, loading, storing with the faults that these take, or exiting, does to the real memories what it does to a machine in which every program has a memory of its own and nothing is shared. Guarded are only the three things shown to break it: a shared page mapped writeable, an access outside the user half that the handler accepts unless it is a store to the first 2 MiB, an exit with slot 256 not in use while frame 0 has something to lose. |
| Runs.RunRefines | day02/kernel/terminal.cpp:613-710 | Copy-on-write memory refines private memory over every run of guarded events, with memory exhaustion at any point. |
| Runs.Isolation | day02/kernel/paging.cpp:211-278 | Over every such run, events of other spaces change no word that a space reads. |
| Runs.BootInv | day02/kernel/paging.cpp:22-42 | The state after boot, with the identity map that SetupIdentityPageTable leaves, satisfies the invariant, whatever memory holds otherwise. |
| Runs.FromBoot | day02/kernel/paging.cpp:22-42 | Everything that happens after boot in such a run is a run of the private-memory machine from no spaces at all. |
| IdentityMap.KernelWalk | day02/kernel/paging.cpp:30-40 | In every table with the kernel's lower half the first 64 GiB are mapped to themselves by 2 MiB pages, nothing else is, and no access of a program is let through. |
| IdentityMap.ClearsIff | day02/kernel/paging.cpp:44-54 | A new page map can be cleared where the kernel looks for it, whatever frames are free, if and only if the allocator manages none beyond 64 GiB. |
| KernelStores.StoreFault | day02/kernel/paging.cpp:211-241 | A user store to an identity-mapped address takes the copy-on-write branch: a frame is taken, filled with the bytes there, and its number is written into a word of the frame at which the 2 MiB page begins. The store itself is never done. |
| KernelStores.LowStore | day02/kernel/paging.cpp:211-241 | A store to the first 2 MiB changes nothing that any space reads, and keeps the invariant: the word that is written lies in frame 0. |
| Outside.HarmlessIff | day02/kernel/paging.cpp:235-254 | An access of a program outside the user half leaves memory and allocator as they were if and only if the handler refuses it, a present page and a load or an absent one that may not be faulted in, or memory is full and the address is identity-mapped or not in slot 0. |
| Outside.StoreSparesIff | day02/kernel/paging.cpp:211-241 | In any one state a store to an identity-mapped address leaves all frames of the other spaces as they are if and only if no frame is free, or the 2 MiB page does not begin with one of theirs, or the word is there already. |
| Outside.StoreReaches | day02/kernel/paging.cpp:211-241 | For every identity-mapped address beyond the first 2 MiB there is a run from boot after which a store to it changes what another space reads. |
| Outside.ForeignIff | day02/kernel/paging.cpp:211-241 | A user store to an address outside the user half leaves what every other space reads unchanged in every state that satisfies the invariant, if and only if the address is not identity-mapped, or lies in the first 2 MiB. |
| Conservation.ProgramConserves | day02/kernel/terminal.cpp:658-710 | From launch to exit a program that minds its own memory, without stores to the first 2 MiB, which cost a frame, and whose exit is guarded, leaves the allocator exactly as it found it if and only if slot 256 is the only user slot in use when it exits. |
| Instances.ExitKeepsFrames | day02/kernel/terminal.cpp:669-704 | The page of arguments at 0xffff'ffff'ffff'f000, which every program is given, is such a case: launched, given that page and ended, a program does not leave the allocator as it found it. |
| Conservation.ExitCost | day02/kernel/paging.cpp:133-145 | The same from any point of its life on: what an exit does not give back is what lies outside the slot that is cleaned. |
| Conservation.SlotsInUse | day02/kernel/paging.cpp:133-145 | A space holds frames outside slot 256 exactly when another user slot of its top table is present. |
| Exposure.SharedStoreLeaks | day02/kernel/paging.cpp:69-101 | A page that is still shared and is mapped again, writeable, stays the template's frame: the next store is read by the template. SetupPageMap rewrites the flags of a present entry. |
| Instances.SharedStoreInstance | day02/kernel/terminal.cpp:669-683 | An image with a loadable segment in the page of arguments, run from boot: the kernel's request for that page finds it shared, and the template reads a word that the program stores there. |
| Exposure.PrivateIffUnshared | day02/kernel/paging.cpp:69-101 | Mapping one page writeable leaves it private if and only if it was not a read-only page before the call. |
| PagingMachine.Machine.SetupIdentityPageTable | day02/kernel/paging.cpp:30-40 | The loops over directories and entries: from zeroed distinct tables they leave the identity map of the first 64 GiB, and write nothing else. |
| PagingMachine.Machine.SetNewPageMapIfNotPresent | day02/kernel/paging.cpp:56-67 | In place: the child of the entry, linked and cleared if it was absent, as the function that the proofs use. |
| PagingMachine.Machine.SetupPageMap | day02/kernel/paging.cpp:69-101 | The loop with its recursion, on memory and allocator changed in place, does what the function does, and leaves the bitmap and the ghost bits in step. |
| PagingMachine.Machine.CopyPageMaps | day02/kernel/paging.cpp:256-278 | The copy in place does what the function does. |
| PagingMachine.Machine.CleanPageMap | day02/kernel/paging.cpp:108-131 | The clean-up in place does what the function does. |
| PagingMachine.Machine.CleanPageMaps | day02/kernel/paging.cpp:133-145 | The slot is cleared, its tables cleaned and freed, as in the function. |
| PagingMachine.Machine.SetupPML4 | day02/kernel/paging.cpp:167-181 | A top table with the kernel half copied, now the current one. |
| PagingMachine.Machine.SetPageContent | day02/kernel/paging.cpp:211-222 | The entry of the page is redirected, writeable, as in the function. |
| PagingMachine.Machine.CopyOnePage | day02/kernel/paging.cpp:224-233 | A fresh frame with the bytes now visible replaces the page, as in the function. |
| PagingMachine.Machine.HandlePageFault | day02/kernel/paging.cpp:235-254 | The handler's branches but the one for file mappings, in place, as in the function. |
| FrameAllocator.BitAfter | day02/kernel/memory_manager.cpp:52-60 | Setting or clearing one bit of a 64-bit map line changes that bit and no other. |
| FrameAllocator.LowestIsFirstFit | day02/kernel/memory_manager.cpp:8-27 | The lowest free run is the one that the first-fit search of the paging proofs finds. |
| FrameAllocator.BitmapMemoryManager.SetBit | day02/kernel/memory_manager.cpp:52-60 | The bitmap as a sequence of bits changes at one frame. |
| FrameAllocator.BitmapMemoryManager.MarkAllocated | day02/kernel/memory_manager.cpp:35-39 | Exactly the frames of the run become marked. |
| FrameAllocator.BitmapMemoryManager.Free | day02/kernel/memory_manager.cpp:29-33 | Exactly the frames of the run become free. |
| FrameAllocator.BitmapMemoryManager.Allocate | day02/kernel/memory_manager.cpp:8-27 | For one frame or more: the lowest start of a free run inside the range, now marked and nothing else changed; none, and nothing changed, exactly when there is no such run. The jump past a used frame misses nothing. |
| BootMemory.MarkMemoryMap | day02/kernel/memory_manager.cpp:89-114 | From a sorted map without overlap: the loop stays inside the bitmap if and only if every gap and unavailable region that is marked, and the end of available memory, lie below 128 GiB; then a frame inside the range that is set is free exactly when an available descriptor has it, and frame 0 is never managed. |
| BootMemory.AvailableTypes | day02/kernel/memmap.h:24-55 | Available are boot services code and data and conventional memory, by the numbers of the UEFI specification, and no other type. |
| BootMemory.InitializeMemoryManager | day02/kernel/memory_manager.cpp:73-120 | On the same maps the heap is the lowest run of 128 MiB of available frames; outside it a managed frame is free exactly when an available descriptor has it. |
| BootMemory.HighRegion | day02/kernel/memory_manager.cpp:89-114 | A map with memory up to 1 GiB and a reserved region at 256 GiB is not such a map. |
| BootMemory.LargeMachine | day02/kernel/memory_manager.cpp:89-114 | With 96 GiB of memory it does manage such frames. |
| BitOrder.BitReverseIsRev | day02/apps/gview/stb_image.h:3952-3967 | The swap network and the shift reverse the low bits of a word, for every number of bits up to 16. |
| BitOrder.RevTwice | day02/apps/gview/stb_image.h:3961-3967 | Reversing twice gives the low bits back. |
| CanonicalCode.MatchUnique | day02/apps/gview/stb_image.h:4061-4091 | Canonical codes are prefix-free: no stream begins with the codes of two symbols. |
| CanonicalCode.CanonicalRules | day02/apps/gview/stb_image.h:3981-4000 | The codes are those of section 3.2.2 of RFC 1951: zero for the first of the shortest, consecutive within a length in the order of the symbols, and from one length to the next longer one that occurs, the next code with zeros appended. |
| CanonicalCode.MatchExists | day02/apps/gview/stb_image.h:4061-4077 | A 16-bit window between the bounds of a length begins with the code of the symbol whose rank the table computes. |
| CanonicalCode.SomeMatch | day02/apps/gview/stb_image.h:4061-4077 | Some code of at most that length begins the stream exactly when the window lies below the length's bound. |
| ZHuffman.Huffman.CodeStarts | day02/apps/gview/stb_image.h:3981-4000 | First codes, first symbols and bounds of each length; success exactly when the lengths admit a code. |
| ZHuffman.Huffman.FillFast | day02/apps/gview/stb_image.h:4003-4010 | Exactly the entries whose low bits are the reversed code receive the symbol. |
| ZHuffman.Huffman.Build | day02/apps/gview/stb_image.h:3969-4014 | Succeeds exactly on the lists that fit a code, and then fast table, bounds and symbol table decode the canonical code of section 3.2.2 of RFC 1951. |
| BitStream.BitReader.FillBits | day02/apps/gview/stb_image.h:4036-4049 | At least 25 bits are buffered and no bit of the stream is lost or moved. |
| BitStream.StreamBit | day02/apps/gview/stb_image.h:4036-4059 | The stream's bits are those of its bytes in turn, the lowest bit of each first, and zeros after the last. |
| BitStream.BitReader.Receive | day02/apps/gview/stb_image.h:4051-4059 | The next bits, lowest first, and the stream without them. |
| BitStream.BitReader.DecodeSlow | day02/apps/gview/stb_image.h:4061-4077 | When no short code matches: the symbol that matches, with the stored length equal to the length found, or -1 when none does. |
| BitStream.BitReader.Decode | day02/apps/gview/stb_image.h:4079-4091 | The one symbol whose canonical code begins the stream, and exactly its bits are consumed; -1, and nothing is consumed, when there is none. |
| BitStream.SameMatches | day02/apps/gview/stb_image.h:4079-4091 | With sixteen bits buffered, the buffer alone decides which code begins the stream. |
| Lz77.DistanceCoded | day02/apps/gview/stb_image.h:4112-4124 | The distance tables code every distance from 1 to 32768 in exactly one way. |
| Lz77.LengthCoded | day02/apps/gview/stb_image.h:4112-4124 | The length tables code every length from 3 to 257 in exactly one way by the first 28 codes, and 258 by the last code alone as well. |
| Lz77.LengthRules | day02/apps/gview/stb_image.h:4112-4124 | The rules of section 3.2.5 of RFC 1951 that make up the length tables: the number of extra bits of each code, and each range beginning where the one before it ends. |
| Lz77.DistanceRules | day02/apps/gview/stb_image.h:4112-4124 | The same for the distance tables. |
| Lz77.BlockUnique | day02/apps/gview/stb_image.h:4126-4166 | A stream spells at most one block: its tokens up to the end-of-block code are determined by its bits. |
| Lz77.AllBytesUnique | day02/apps/gview/stb_image.h:4153-4163 | The tokens determine the bytes, although a copy is only said to repeat what is a distance before it, overlaps included. |
| Inflate.Inflater.ZExpand | day02/apps/gview/stb_image.h:4093-4110 | A larger buffer that keeps all earlier output; it fails exactly when it may not grow or the doubled size exceeds the heap. |
| Inflate.Inflater.CopyBytes | day02/apps/gview/stb_image.h:4153-4163 | Both copy loops, the run of one byte and the overlapping one, leave every new byte equal to the one a distance before it, and stay inside the buffer. |
| Inflate.Inflater.DecodeCopy | day02/apps/gview/stb_image.h:4143-4152 | Length and distance of a copy with their extra bits, as the stream spells them, or the exact reason why it spells none. |
| Inflate.Inflater.ParseHuffmanBlock | day02/apps/gview/stb_image.h:4126-4166 | On success the output is the reference expansion of exactly the tokens before the end-of-block code, and the stream stands behind that code; each error is reported exactly for its cause: no code, a distance before the start of the output, no room, where the buffer may not grow or its doubled size exceeds the heap. It goes on for ever if and only if the block is endless. |
| Inflate.BlockDecided | day02/apps/gview/stb_image.h:4126-4166 | The input decides the tokens of a block and, when its tokens are ones that the format defines, its bytes, whatever codes the tables give to other symbols. |
| Inflate.DefinedTokens | day02/apps/gview/stb_image.h:4112-4124 | Tokens that the format defines copy 3 to 258 bytes from 1 to 32768 bytes back, extra bits included. |
| BlockEnd.Grows | day02/apps/gview/stb_image.h:4126-4166 | Tokens that the format defines produce a byte each, whatever the tables. |
| BlockEnd.EndlessIff | day02/apps/gview/stb_image.h:4126-4166 | A block has runs of tokens of every length if and only if some run of it reaches the end of the input and finds a copy of no bytes spelled by zeros there. |
| BlockEnd.TablesEndIff | day02/apps/gview/stb_image.h:4126-4166 | Blocks with two given tables end, whatever input and output, if and only if the zero code is not that of symbol 286 or 287, or no distance code is zero. |
| BlockEnd.FixedEnds | day02/apps/gview/stb_image.h:4259-4284 | The fixed tables give codes to 286 and 287, and every block that uses them ends: zeros spell its end. |
| Inflate.EmptyCopies | day02/apps/gview/stb_image.h:4112-4166 | Two accepted tables whose zero codes are a copy of no bytes: a block that uses them is endless. |
| CanonicalCode.SortedPosition | day02/apps/gview/stb_image.h:1902-1942 | In JPEG's sorted size list each symbol is its own position, and its code is the one that numbering in order gives. |
| JpegHuffman.Huffman.FillCodes | day02/apps/gview/stb_image.h:1911-1928 | Codes, differences and bounds for every length; success exactly when the lengths admit a code. |
| JpegHuffman.Huffman.FillFast | day02/apps/gview/stb_image.h:1930-1942 | Each byte of the fast table names the one symbol whose code begins the nine bits, or is 255. |
| JpegHuffman.Huffman.Build | day02/apps/gview/stb_image.h:1902-1944 | For every sixteen counts: the fill loop runs over the end of the list if and only if they sum to more than 256; otherwise it succeeds exactly on the counts that admit a code, with tables for the canonical code. |
| JpegHuffman.ManySymbols | day02/apps/gview/stb_image.h:3020-3027 | Counts of 255 for each of the last two lengths, which the marker code accepts, admit a code and sum to 510. |
| JpegBits.GrowZeros | day02/apps/gview/stb_image.h:1971-1987 | After a marker the buffer grows by zeros alone. |
| JpegStream.GrowStream | day02/apps/gview/stb_image.h:1971-1987 | Growing moves bits from the data to the buffer: the valid bits of the buffer followed by the data bytes before the first marker, of which a 0xff and its zero are one and fill bytes none, and by zeros, are the same bit string before and after. A marker that it meets is the first one, and reading goes on behind it. |
| JpegStream.FilledStream | day02/apps/gview/stb_image.h:1993-2060 | The first bits of a filled buffer are the first ones of that bit string. |
| JpegStream.DecodeUses | day02/apps/gview/stb_image.h:1993-2041 | Decoding a symbol uses up bits from the front of that string and no others. |
| JpegStream.ReceiveUses | day02/apps/gview/stb_image.h:2047-2060 | So does receiving a value, exactly as many as it has. |
| JpegBits.Received | day02/apps/gview/stb_image.h:2047-2060 | Rotation, mask and bias give the next bits, sign-extended as section F.2.2.1 of ITU-T T.81 says, and the shifted buffer. |
| JpegBits.FastAcAgrees | day02/apps/gview/stb_image.h:2120-2150 | A nonzero entry of the combined table gives the run, the value and the buffer of the two-step decoder, for every state; the count of valid bits agrees if and only if there were sixteen, which fails only after a marker. |
| JpegReader.CountsDiffer | day02/apps/gview/stb_image.h:2120-2150 | With the tables of one code of one bit, data that end at once with a marker: a count of -2 on one path and of 30 on the other. |
| JpegReader.DecodeRightIff | day02/apps/gview/stb_image.h:1993-2041 | The decoder finds, on every buffer with sixteen bits, the symbol whose canonical code begins it, or none when there is none, if and only if the table has no 256th symbol with a code of nine bits or fewer. |
| JpegReader.TablesExist | day02/apps/gview/stb_image.h:1902-1944 | Every list of lengths that is accepted has tables of that description. |
| JpegReader.LostSymbol | day02/apps/gview/stb_image.h:1930-2041 | Counts of 255 for eight bits and 1 for nine give such a table; a buffer that begins with its last code is decoded with ten bits taken instead of nine. |
| JpegReader.LastSymbolLost | day02/apps/gview/stb_image.h:1930-2041 | Such a symbol, whose number is the mark for "not accelerated", is decoded by the slow path with ten bits taken instead of its own length. |
| JpegReader.Jpeg.GrowBuffer | day02/apps/gview/stb_image.h:1971-1987 | The loop over bytes, stuffed zeros, fill bytes and markers, in place: the buffer, the place in the data and the marker that GrowStream is about. |
| JpegReader.Jpeg.Decode | day02/apps/gview/stb_image.h:1993-2041 | The loop and the tables in place: the symbol and the buffer that DecodeRightIff characterises, on every path, errors included. |
| JpegReader.Jpeg.Receive | day02/apps/gview/stb_image.h:2047-2060 | In place: the value and the buffer that Received characterises. |
| JpegReader.Jpeg.BuildFastAc | day02/apps/gview/stb_image.h:1946-1969 | Every entry of the combined table is the one that FastAcAgrees is about. |
| JpegBits.GrowPadded | day02/apps/gview/stb_image.h:1971-1987 | Whatever the bytes, the buffer keeps zeros below its valid bits, and the count of valid bits is negative only after a marker. |
| JpegBlock.TurnAgrees | day02/apps/gview/stb_image.h:2121-2149 | One turn of the AC loop does the same with the combined table as without it: the coefficient, its place, the next place, the error and the buffer. |
| JpegBlock.LoopsAgree | day02/apps/gview/stb_image.h:2119-2150 | So does the whole loop, from any reader state, across the end of the data: the same block, the same error, and the same state unless the data had ended. |
| JpegBlock.LoopPuts | day02/apps/gview/stb_image.h:2119-2150 | The loop leaves the block with exactly the coded coefficients, zero runs counted as section F.2.2.2 of ITU-T T.81 says, each dequantised at its place of the zigzag order. |
| JpegBlock.ZigzagWalk | day02/apps/gview/stb_image.h:2084-2098 | The places of the coefficients are the walk of Figure A.6 of ITU-T T.81 along the anti-diagonals, and its last place after that. |
| JpegBlock.DecodeCoefficient | day02/apps/gview/stb_image.h:2121-2149 | The body of the loop in place, both paths, as the turn that LoopsAgree is about. |
| JpegBlock.DecodeAc | day02/apps/gview/stb_image.h:2119-2150 | The loop in place, with the combined table, writes exactly the block that decoding every coefficient in two steps would write: every coded coefficient at its place. |
| Adam7.GridIsPattern | day02/apps/gview/stb_image.h:4700-4704 | The offsets and spacings of the seven passes are the 8 by 8 pattern of the PNG specification: every pixel belongs to exactly one pass. |
| Adam7.OneSample | day02/apps/gview/stb_image.h:4706-4725 | Pixels of the image and samples of the seven reduced images pair off one to one, for all image sizes. |
| Adam7.PutSample | day02/apps/gview/stb_image.h:4713-4721 | One sample goes to its own pixel, in bounds, and to no other. |
| Adam7.DeInterlace | day02/apps/gview/stb_image.h:4690-4732 | After the seven passes every pixel holds the sample that belongs to it. |
| TrbRing.StampFacts | day02/kernel/usb/xhci/ring.cpp:30-37 | Storing the cycle bit changes only that bit of the last word. |
| TrbRing.StepInv | day02/kernel/usb/xhci/ring.cpp:30-54 | Every single word store of the producer and every step of the consumer, in any order, keeps the ring in order, and exactly the pushes add to what the ring was given. |
| TrbRing.RingIsFifo | day02/kernel/usb/xhci/ring.cpp:30-54 | In every interleaving the consumer has read a prefix of what was pushed, in order, each TRB once and whole, across any number of wraps; the rest waits in the ring. No half-written TRB is accepted because the last word is stored last. |
| TrbRing.WaitingIsRead | day02/kernel/usb/xhci/ring.cpp:39-54 | A TRB that waits can be read at once, or after following one Link TRB. |
| TrbRing.RoomIs | day02/kernel/usb/xhci/ring.cpp:39-54 | There is room while fewer than N - 2 TRBs wait in a ring of N entries, and for one more unless the consumer has still to follow the Link TRB. |
| TrbRing.PushNeedsRoom | day02/kernel/usb/xhci/ring.cpp:39-54 | After a push the consumer finds something at its place if and only if there was room before it: without room the ring looks empty although it is full. |
| TrbRing.FullRing | day02/kernel/usb/xhci/ring.cpp:39-54 | A ring of three entries after two pushes: one TRB waits unread, there is no room, and after a third push nothing is visible. |
| TrbRing.Ring.constructor | day02/kernel/usb/xhci/ring.cpp:12-28 | A ring of zeroed entries with cycle state 1. |
| TrbRing.Ring.CopyToLast | day02/kernel/usb/xhci/ring.cpp:30-37 | The entry holds the TRB with the producer's cycle bit; no other entry changes. |
| TrbRing.Ring.Push | day02/kernel/usb/xhci/ring.cpp:39-54 | The buffer, the index and the cycle state after exactly the stores of the state machine, the Link TRB included. |
| EventRings.ActOrdered | day02/kernel/usb/xhci/ring.cpp:101-114 | Every single word store of the controller and every pop of the driver, in any order, keeps the event ring in order. |
| EventRings.EventsInOrder | day02/kernel/usb/xhci/ring.cpp:101-114 | In every interleaving the driver pops the events whole, in order, once each, across any number of wraps; HasFront is true exactly when one waits, and the front is the oldest. |
| EventRings.EventRing.HasFront | day02/kernel/usb/xhci/ring.hpp:88-94 | True exactly when the entry at the dequeue pointer carries the cycle state of the driver. |
| EventRings.EventRing.Pop | day02/kernel/usb/xhci/ring.cpp:101-114 | In place: the dequeue pointer and the cycle state after the pop of the state machine, the wrap included. |
| EventRings.EventRing.constructor | day02/kernel/usb/xhci/ring.cpp:56-93 | An event ring of zeroed entries with cycle state 1. |
| Ports.EarlyReturnUnreachable | day02/kernel/usb/xhci/xhci.cpp:257-268 | Once no port is being addressed the reset of a waiting port cannot fail, so the return before the device is initialised is never taken. |
| Ports.HandleInv | day02/kernel/usb/xhci/xhci.cpp:91-284 | Every event, whatever the controller reports, keeps a port between reset and address exactly when it is the nonzero addressing port, and moves phases forward only. |
| Ports.EveryStep | day02/kernel/usb/xhci/xhci.cpp:91-284 | A port takes the step to a phase if and only if the protocol says so: announced and connected it is reset, or waits while another one is addressed; it is reset as the lowest waiting one when the other has its address; it goes on when it is enabled and reset, when a slot is enabled, when it has its address, when its device is initialised at a known speed, when its endpoints are configured. No other port moves. |
| Ports.WhoIsAddressed | day02/kernel/usb/xhci/xhci.cpp:91-284 | Afterwards the addressing port is the one that has been reset and has no address yet, 0 exactly if there is none. |
| Ports.Answers | day02/kernel/usb/xhci/xhci.cpp:91-284 | The answer to each event, and that an event that is answered by an error changes nothing. |
| Ports.SerialBringUp | day02/kernel/usb/xhci/xhci.cpp:91-284 | Over every sequence of events that stays so, and the phase of a port changes at most seven times. |
| Ports.NoStepLeftOut | day02/kernel/usb/xhci/xhci.cpp:91-284 | Over every sequence of events the phases of a port follow each other in the order of the bring-up: none is left out, none comes twice. |
| Ports.PortConfig.Reset | day02/kernel/usb/xhci/xhci.cpp:91-113 | ResetPort in place. |
| Ports.PortConfig.ConfigurePort | day02/kernel/usb/xhci/xhci.cpp:443-448 | ConfigurePort in place, keeping the invariant. |
| Ports.PortConfig.OnPortStatus | day02/kernel/usb/xhci/xhci.cpp:197-210 | The port status handler with EnableSlot, in place. |
| Ports.PortConfig.OnTransfer | day02/kernel/usb/xhci/xhci.cpp:212-228 | The transfer handler with the phase change of ConfigureEndpoints, in place. |
| Ports.PortConfig.OnSlotEnabled | day02/kernel/usb/xhci/xhci.cpp:236-241 | The Enable Slot completion with AddressDevice, in place. |
| Ports.PortConfig.OnDeviceAddressed | day02/kernel/usb/xhci/xhci.cpp:242-268 | The Address Device completion with its scan for a waiting port, in place. |
| Ports.PortConfig.OnEndpointsConfigured | day02/kernel/usb/xhci/xhci.cpp:269-281 | The Configure Endpoint completion, in place. |
| Composition.AndIsIntersection | day02/kernel/graphics.hpp:87-98 | Rectangle::operator& is the intersection of the point sets, for all rectangles, empty and negative ones included. |
| Composition.PaintInside | day02/kernel/layer.cpp:108-112 | Inside the redrawn area a pixel takes the colour of the topmost layer that shows there. |
| Composition.PaintOutside | day02/kernel/layer.cpp:108-112 | Outside it only the transparent top layer is drawn, and what it draws is what should be seen. |
| Composition.AreaRedrawn | day02/kernel/layer.cpp:108-112 | Redrawing an area puts right every pixel in it and spoils none outside it. |
| Composition.LayerRedrawn | day02/kernel/layer.cpp:114-130 | So does redrawing a layer and those above it inside the layer's own area; for a transparent layer if its pixels were right before. |
| Composition.Moved | day02/kernel/layer.cpp:85-101 | After a move, redrawing the old area and then the layer makes back buffer and screen right at every pixel. |
| Composition.Refreshed | day02/kernel/layer.cpp:189-211 | After a layer has changed its place in the stack or its picture, redrawing the part of it in which the scene changed is enough. |
| Composition.Removed | day02/kernel/layer.cpp:282-299 | After a layer is gone, redrawing the area it covered is enough. |
| FrameBuffers.FrameBuffer.Put | day02/kernel/graphics.cpp:4-16 | One pixel changes. |
| FrameBuffers.FrameBuffer.Copy | day02/kernel/frame_buffer.cpp:59-86 | Exactly the pixels inside the area and both buffers change, each to the source pixel at its shifted place; rows never run into each other. |
| Windows.Window.Write | day02/kernel/window.cpp:45-48 | One pixel of the picture changes, in the pixels and in the shadow buffer. |
| Windows.Window.DrawTo | day02/kernel/window.cpp:20-43 | An opaque window is painted inside the area; of a transparent one every pixel on the buffer but those of the transparent colour; no other pixel changes. |
| Layers.RaisedStack | day02/kernel/layer.cpp:32-54 | What the index arithmetic of SetDepth does when Activate asks for the top: the layer lands directly below the mouse pointer, hidden or not, and the others keep their order. |
| Layers.Restacks | day02/kernel/layer.cpp:32-54 | For every depth: a negative one takes the layer away; else it stands at that depth, or one above it if it was hidden, at most on top; the others keep their order. |
| Layers.LayerManager.DrawArea | day02/kernel/layer.cpp:108-112 | Back buffer and screen at every pixel after Draw(area). |
| Layers.LayerManager.DrawLayer | day02/kernel/layer.cpp:114-130 | Back buffer and screen at every pixel after Draw(id, area). |
| Layers.LayerManager.DrawPart | day02/kernel/layer.cpp:264-266 | When the picture of a window has changed only inside an area of it, redrawing that area of that layer makes screen and back buffer equal the composition again. |
| Layers.LayerManager.SetDepth | day02/kernel/layer.cpp:32-54 | The stack after the call; every layer is in it at most once. |
| Layers.LayerManager.SetPosAbsolute | day02/kernel/layer.cpp:85-92 | Screen and back buffer equal the composition of the stack before, and again after the move. |
| Layers.LayerManager.SetPosRelative | day02/kernel/layer.cpp:94-101 | The same. |
| Layers.LayerManager.RemoveLayer | day02/kernel/layer.cpp:156-164 | The layer is gone from stack and table, and the scene is the old one without it. |
| Layers.LayerManager.Raise | day02/kernel/layer.cpp:202-208 | The layer that becomes active is on top, but for the mouse pointer, and the screen equals the composition. |
| Layers.ActiveLayer.Activate | day02/kernel/layer.cpp:189-211 | Screen and back buffer equal the composition before, and again after the two windows have redrawn themselves and the stack has changed. |
| Layers.ActiveLayer.CloseLayer | day02/kernel/layer.cpp:282-299 | The same for closing a window; false and nothing changed when there is no such layer. |
| Scheduler.InitInv | day02/kernel/task.cpp:82-94 | The initial queues satisfy the invariant. |
| Scheduler.SwitchInv | day02/kernel/task.cpp:101-135 | The timer's rotation keeps the invariant: a live task is marked running exactly when it stands once, in the queue of its own level; the queue that runs is not empty; a busy queue above it has been noticed. Afterwards the task that runs is on the highest busy level. |
| Scheduler.SleepInv | day02/kernel/task.cpp:154-166 | Sleep keeps the invariant with the idle task ready, of the running task or of any other but the idle one. |
| Scheduler.SleepIff | day02/kernel/task.cpp:154-166 | Of any task at all, the idle one included, Sleep keeps the queues in order if and only if the task sleeps already or another one is ready. |
| Scheduler.WakeupInv | day02/kernel/task.cpp:178-193 | Wakeup keeps the invariant with the idle task ready, of any other task, at any level, asleep or running. |
| Scheduler.WakeupSane | day02/kernel/task.cpp:178-193 | Of any task at all, at any level, it keeps the queues in order. |
| Scheduler.ChangeLevelInv | day02/kernel/task.cpp:210-232 | A change of level keeps the invariant with the idle task ready, of any other task that is ready. |
| Scheduler.ChangeLevelSane | day02/kernel/task.cpp:210-232 | Of any ready task it keeps the queues in order. |
| Scheduler.ExitInv | day02/kernel/task.cpp:234-239 | The end of a task keeps the invariant. |
| Scheduler.ExitIff | day02/kernel/task.cpp:234-239 | The end of the running task keeps the queues in order if and only if another one is ready. |
| Turns.Closer | day02/kernel/task.cpp:110-232 | No action of tasks of its own or of lower levels pushes a ready task of the highest busy level back, and every timer switch brings it closer. |
| Turns.TurnComes | day02/kernel/task.cpp:101-135 | A task at place k of the highest busy level runs within k switches, whatever the tasks of its own and of lower levels do. |
| Turns.Reachable | day02/kernel/task.cpp:82-135 | In every state that ticks, sleeps of any task, wakeups and changes of level of any task to any level, new tasks and ends lead to: a live task is marked running exactly when it stands in the queue of its own level, once and in no other; the queue that runs is not empty; a busy queue above it has been noticed; after a tick the task that runs is on the highest busy level. |
| Turns.OrderKept | day02/kernel/task.cpp:101-239 | Whatever happens to one task, the others keep their order in every queue. |
| Turns.FrontKept | day02/kernel/task.cpp:154-232 | Wakeups, changes of level, new tasks and sleeps of other tasks leave the running task at the front, so that it goes on running. |
| Turns.WhereItStands | day02/kernel/task.cpp:101-232 | A task stands last on its level after its turn, when it wakes, and when it is moved while another one runs. |
| Turns.FlagRises | day02/kernel/task.cpp:178-232 | The mark that the level has to change rises only if a queue above the running one is busy or the running task has moved down. |
| Turns.LastTask | day02/kernel/task.cpp:154-166 | From the first state the first task may sleep; then the idle task is the last one that is ready, and neither its sleep nor its end leaves the queues in order. |
| Waiting.StepSafe | day02/kernel/task.cpp:48-70 | Every step keeps: a task asleep inside Wait has no message, one awake has; a task asleep inside WaitFinish is registered with a child that has not ended; no dangling waiter, no missing message. |
| Waiting.StepIsTurns | day02/kernel/task.cpp:48-70 | Each step is what the scheduler is told: a wait without a message and a question for a child that has not ended put the task to sleep, a message wakes it, an end wakes the waiter, and nothing else sleeps or wakes anybody. |
| Waiting.Books | day02/kernel/task.cpp:48-70 | Only the running task changes its place: inside Wait after a wait without a message, in no such place once it has got one. |
| Waiting.CodeBooks | day02/kernel/task.cpp:234-264 | A question for a child that has ended returns its code and takes it off the books; for one that has not, the caller is entered as its waiter. An end leaves the code and takes its waiter off the books. |
| Waiting.ExitCodesOnce | day02/kernel/task.cpp:234-264 | Over every interleaving with one waiter for each child: WaitFinish returns the value that child passed to Finish, each at most once, none is lost, and nobody sleeps on what has happened. |
| Waiting.WaiterReturns | day02/kernel/task.cpp:251-264 | A waiter whose child has ended returns the child's code as soon as it runs. |
| Waiting.MessagesInOrder | day02/kernel/task.cpp:48-70 | Over every run what was sent to a task that is still there is what it has been handed followed by what waits in its queue: each message once, in order. |
| TaskManagers.TaskManager.RotateCurrentRunningQueue | day02/kernel/task.cpp:110-135 | In place, with the loop down the levels. |
| TaskManagers.TaskManager.SleepTask | day02/kernel/task.cpp:154-166 | In place. |
| TaskManagers.TaskManager.WakeupTask | day02/kernel/task.cpp:178-193 | In place. |
| TaskManagers.TaskManager.ChangeRunningLevel | day02/kernel/task.cpp:210-232 | In place. |
| TaskManagers.TaskManager.SendMsg | day02/kernel/task.cpp:144-152 | In place; false when there is no such task. |
| TaskManagers.TaskManager.Finish | day02/kernel/task.cpp:234-249 | In place, the waiter released. |
| TaskManagers.TaskManager.TryFinish | day02/kernel/task.cpp:251-264 | One turn of WaitFinish's loop, in place. |
| Timers.AddInv | day02/kernel/timer.cpp:97-99 | Adding a timer keeps the record of what is due. |
| Timers.TickInv | day02/kernel/timer.cpp:103-127 | So does a tick. |
| Timers.SentWhenDue | day02/kernel/timer.cpp:93-127 | Over every run a timer with deadline T added at tick t is sent exactly once, on tick max(T, t + 1); what is not yet due is pending; messages come in nondecreasing order of deadlines within a tick. |
| Timers.FiresEveryPeriod | day02/kernel/timer.cpp:111-116 | Once armed, the task-switch timer fires on its first tick and every period after it, and on no other tick. |
| Timers.TimerManager.Tick | day02/kernel/timer.cpp:103-127 | All and only the expired timers are sent, earliest first; an expired task-switch timer is set again and reported; the loop ends. |
| Timers.TimerManager.AddTimer | day02/kernel/timer.cpp:97-99 | The timer is pending. |
| Pipes.ChunksCarry | day02/kernel/terminal.cpp:814-827 | The messages of a write carry its bytes, in pieces that fit. |
| Pipes.ChunksFull | day02/kernel/terminal.cpp:814-827 | All messages of a write are full but the last. |
| Pipes.ReadFlow | day02/kernel/terminal.cpp:783-813 | A read takes bytes off the front of the stream; asked for some it gives none only at the end. |
| Pipes.ReadAmount | day02/kernel/terminal.cpp:783-813 | A read gives all that is left of the last message, or else of the next message of the pipe, as far as it was asked for, and waits only while there is none. |
| Pipes.Books | day02/kernel/terminal.cpp:783-835 | Over every run what is written is what arrived, in order, and what is received is what the reads gave. |
| Pipes.FaithfulStream | day02/kernel/terminal.cpp:783-835 | Over every run, unrelated messages interleaved, what was received is a prefix of what was written, and a read that gives nothing comes after FinishWrite and after every byte. |
| Pipes.PipeDescriptor.Write | day02/kernel/terminal.cpp:814-827 | In place: the messages that are sent. |
| Pipes.PipeDescriptor.ReadBytes | day02/kernel/terminal.cpp:783-813 | In place: the bytes and the state that the function says. |
| Fat.ReadsAreOne | day02/kernel/fat.cpp:290-312 | Any series of reads gives what one large read would. |
| Fat.NextIs | day02/kernel/fat.cpp:85-92 | NextCluster goes from a cluster of the chain to the one that the table links it to, and gives the end mark behind the last one. |
| Fat.SizeCheck | day02/kernel/fat.cpp:296-296 | The unsigned size check keeps a read inside the file if and only if it starts inside it, or asks for nothing. |
| Fat.LoadPastEnd | day02/kernel/paging.cpp:199-209 | A file of 5 bytes in one cluster of 4096 is mapped, and the first fault is 6 bytes into the mapping: the load of 4096 bytes from there leaves the cluster chain, and one of 2 bytes gives bytes behind the file. |
| Fat.LoadFileAgrees | day02/kernel/fat.cpp:221-238 | LoadFile agrees with a read from the start if and only if it is not asked for more than the file has, or the file fills its clusters. |
| Fat.LoadFilePastSize | day02/kernel/fat.cpp:221-238 | A file of one byte in a cluster of two bytes: LoadFile gives both. |
| Fat.LoadFile | day02/kernel/fat.cpp:221-238 | As many bytes of the cluster chain as were asked for and exist. |
| Fat.FileDescriptor.Read | day02/kernel/fat.cpp:290-312 | The bytes at the cursor, across clusters, as many as the size check allows, and the cursor behind them; it stays on the file's clusters if and only if they end within them; for a cursor within the file that is the slice of the flat file. |
| Fat.FileDescriptor.Load | day02/kernel/fat.cpp:378-391 | For any offset, whatever the descriptor's own cursor: it visits no cluster but the file's if and only if the bytes that the size check allows end within them, or there are none and the offset lies less than a cluster behind them; then it gives those bytes, and for an offset within the file the slice there. |

## Left out

- The TLB; the parsing of ELF files; argument and stack set-up of a program, which is ordinary mapping.
- CleanTempPML4: only disabled code calls it.
- Stores of the kernel into user pages, which bypass copy-on-write because write protection is off in kernel mode.
- Programs.DemandFault: the branch of the handler for file mappings, which uses the fault address as it is instead of that of its page.
- PagingMachine.Machine.HandlePageFault: without that branch, too; so is Outside.HarmlessIff, which therefore counts such an address as refused.
- Mapping.LeafStep: no writeable request for a page that is shared; Exposure.PrivateIffUnshared and Exposure.SharedStoreLeaks say what it does.
- Mapping.SetupKeeps: the same; nor is the page of a template made writeable, which nobody asks for.
- Refinement.MapStep: the same.
- Runs.RunRefines: frames beyond 64 GiB, which IdentityMap.ClearsIff is about, are cleared as if the kernel could reach them; an event for a space that does not exist is void. A store that faults is retried once; a further fault is a further event.
- PagingMachine.Machine.SetupPageMap: memory beyond the installed frames reads as zero and ignores stores; no table lies there under the invariant.
- BootMemory.InitializeMemoryManager: the kernel stops without a heap; here that is a result.
- BitStream.BitReader.Decode: zbuffer is a byte string that ends in zeros without end, as stbi__zget8 supplies them.
- Inflate.Inflater.ParseHuffmanBlock: the answer Running stands for a loop that never ends; the heap is a bound on the size of a block; the 32-bit overflow of buffer sizes beyond 1 GiB is not modelled.
- Inflate.BlockDecided: undefined distance codes copy bytes that are not initialised, whose values are left open.
- Uncompressed DEFLATE blocks, the code-length alphabet, the PNG filters and chunks: code with little state around the core.
- JpegHuffman.Huffman.Build: the answer Overrun stands for a store behind the list; what it does there is not modelled.
- BootMemory.MarkMemoryMap: the answer false stands for a store outside the bitmap, or a managed range beyond it.
- JpegBits.FastAcAgrees: the OR of a byte into the buffer is an addition, since the bits below the valid ones are zero; on tables that the build routine did not make, a symbol number outside the table is given the value 0.
- JpegBlock.DecodeAc: the DC coefficient before it, whose symbol may exceed the lengths that stbi__extend_receive can take.
- The other JPEG stages, the progressive decoder, floating point and SIMD code of the decoder, and its other image formats.
- TrbRing.Ring.constructor: memory for the ring is there; rings have at least two entries. Pushes that are Link TRBs themselves are not made by any caller.
- EventRings.EventRing.constructor: memory is there, and the size fits the 16 bits that the segment table has for it; the event ring has one segment.
- EventRings.ActOrdered: the controller stores the word with the cycle bit last and stops at a full ring, as section 4.9.4 of the xHCI specification asks of it.
- Ports.HandleInv: ports are numbered from 1; a waiting port that is unplugged before its turn stays waiting, and liveness of the bring-up is not claimed.
- Layers.LayerManager.DrawLayer: a partial area has both sides negative, which means the whole layer, or neither: with one negative side rows of a negative length would be copied, and nobody asks for it. int coordinates do not overflow. Layers are values in a table, and each has a window.
- Layers.ActiveLayer.Activate: the mouse pointer's layer, once set, is the top of the stack, and only it may be transparent; messages to tasks about activation are not modelled.
- FrameBuffers.FrameBuffer.Copy: a pixel is one cell instead of four bytes; the two formats differ only in their name.
- Scheduler.SleepInv: nobody puts the idle task to sleep; Scheduler.SleepIff is about every task.
- Scheduler.WakeupInv: nor wakes it; Scheduler.WakeupSane is about every task.
- Scheduler.ChangeLevelInv: nor moves it; Scheduler.ChangeLevelSane is about every task.
- Waiting.ExitCodesOnce: one waiter for each child. A second one would overwrite the first in waiter_tasks.
- The interrupt flag, which Task::Wait leaves different on its two paths; register save and restore.
- Timers.TimerManager.Tick: the tick counter stays below the sentinel's deadline of 2^64 - 1; the priority queue is a multiset, so that the order of equal deadlines is open.
- Pipes.PipeDescriptor.ReadBytes: a read that has to wait for a message returns and is called again.
- Fat.FileDescriptor.Read: the chain of the file is intact and covers its size; an offset fits 64 bits.
- Fat.FileDescriptor.Load: the answer false stands for a cluster that is not the file's; what lies there is not modelled.
- The write and create path of the file system, names and directories.
- ArrayPriorityQueue, which the timers do not use; BitmapMemoryManager::Stat; fonts, console, PCI, ACPI, the loader, syscalls, sample applications.
