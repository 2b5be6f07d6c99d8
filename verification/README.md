# MikanOS_X kernel: a verified model

This project models the stateful parts of the MikanOS_X kernel in Dafny and proves what they keep over whole runs.
Objects that the kernel updates in place are classes whose methods change the same fields in the same order; each
such method is tied to a value-level description of its step, and the theorems about runs are proved of that description.

| files | kernel component |
|---|---|
| PageTables, PageSteps, FilePages, AddressSpaces, Paging | four-level paging, demand paging, copy-on-write, program start and exit (section 4.5 of the Intel SDM, Vol. 3A) |
| FrameBitmap | first-fit frame bitmap and its set-up from the UEFI memory map |
| FatChains, FatBytes, FatFiles, FatNames, FatDirectories | FAT32 cluster chains, files, names and directories |
| Scheduler, TaskManager | multi-level round-robin scheduling, sleep and wakeup, messages, waiting for exit |
| XhciRings, XhciPorts | command, transfer and event rings, and port bring-up (sections 4.9.2 to 4.9.4, 4.6.5 and 6.4.4.1 of the eXtensible Host Controller Interface specification) |
| Composition, FrameBuffers, Layers | layer stack, windows, frame buffers and incremental redraw |
| HuffmanBits, HuffmanCodes, HuffmanTables | DEFLATE decoding tables of the vendored image library (section 3.2.2 of RFC 1951) |
| Pipes, DelimitedReads | pipe byte stream and line reader |
| UsbPool | bump allocator of the USB driver |
| NumberBits, Messages, Options, Bounds | shared definitions |

## How to read it

A page table, a cluster chain, a ring or a layer stack is a value (`World`, `Stored`, `Tree`, `State`, `seq<Layer>`).
The class next to it has a ghost function `Now()` (or `LayerMap()`, `Stack()`, `Content()`) that reads its fields as
that value, and its methods say what the new value is. Runs are sequences of events, and the main theorems
quantify over all of them: `Paging.Pager.Run` and `RunApp`, `Scheduler.RunsFromBoot`, `ProducerRing.TakenInOrder`,
`EventRings.EventsInOrder`, `Scheduler.MessagesInOrder`, `PortBringUp.BringUp`, `FrameBitmap.Serve`, `Pipes.Run`, `UsbPool.Run`,
`FatFiles.RoundTrip`.

What a step does is said twice: by the function its method is proved against, and, without that function, by the lemmas
whose names end in `Is` (`Scheduler.ChangeLevelIs`, `Paging.FreshContentIs`, `FatNames.UpperIs`, `Windows.PutAllDraws`,
`PortBringUp.HandleReacts`) or by histories of runs (`MessagesInOrder`, `PushedInOrder`, `ReadsLastStore`).

## Where the code does less than one would expect

Each of these is stated as code behaves, with the exact condition under which the expected property holds.

- `SetupPageMaps` on a page that is still shared makes the shared frame writable: the ownership invariant survives if
  and only if no page of the range is shared (`AddressSpaces.OwnershipAfterSetup`).
- `FileDescriptor::Write` compares with the length of the whole call instead of what is left of it, and `ExtendCluster`
  returns the last of the clusters it appends. A write is faithful if and only if it fits the room left in its cluster,
  or fills whole clusters of which at most one is missing (`FatBytes.FaithfulExactly`, `LandsExactly`, `OneByteTooMany`,
  `OneClusterLeftOut`). Where each byte lands otherwise is said by `FatFiles.BytesLanded`.
- Drawing a layer with a transparent colour again does not remove pixels that have become transparent: the screen is
  right if and only if no visible pixel was erased (`Composition.RedrawTransparent`, `ErasedSpotStays`).
- A name that is no 8.3 name is entered under one name and looked for under another. It is found again if and only if
  the two agree: without a dot, if its ninth to eleventh bytes are spaces or missing (`FatNames.PlainNameIsFound`); with
  one, if its part before the dot is not longer than eight bytes, or the extension covers the one or two bytes beyond
  (`OneDotIsFound`); with any number of dots, by `DottedNameIsFound`, and never with the first of several among the
  first eight bytes (`EarlyDotIsLost`).
- A search does not skip deleted entries, so a path can lead to one, or through one. Creating a file leaves a path's way
  as it was if and only if it does not go by the deleted entry that is overwritten (`FatDirectories.PathsKept`,
  `LostPath`).
- With two slashes before its last element, `CreateFile` and `Findfile` disagree on the directory; the
  created entry is found on its path if and only if its directory is the root (`FatDirectories.TwoSlashes`,
  `CreatedBehindTwoSlashes`).
- The turn to address a port can pass to one that was unplugged while it waited; then waiting ports wait for nobody.
  This is the only way (`PortBringUp.WaitingServedExactly`), and a run from boot leads there (`TurnIsLost`); without
  it every connected port gets configured (`EveryPortConfigured`).
- With buf_size - 1 TRBs outstanding, the controller can go on if and only if it does not stand before the Link TRB of
  the lap before (`ProducerRing.OneTooManyStalls`); allowed pushes lead there in rings of any size (`StallReached`).
- `LoadApp` and `ExecuteFile` do not free a space whose launch has failed: it keeps every frame that was free
  (`Paging.Pager.RunApp`).
- A pipe read of no bytes can return 0 before the end of the stream (`Pipes.ReadOfNothing`).

## Model

| member | source | states |
|---|---|---|
| PageTables.SlotWritten | Kernel/paging.cpp:51-57 | Writing one entry of a table a space owns changes exactly that entry of its tree and what hangs below it |
| PageSteps.PartOfSetPart | Kernel/paging.hpp:43-62 | SetPart changes the part it names and no other |
| PageSteps.KeyFacts | Kernel/paging.hpp:31-52 | The parts of an address are the base-512 digits of its page number |
| PageSteps.SubtreeBuilt | Kernel/paging.cpp:66-83 | Linking a child table and building a range of pages below it builds exactly that range below the parent |
| PageSteps.CopiedSubtree | Kernel/paging.cpp:214-227 | A copied table entry together with the copied subtree is a copied range of the parent |
| PageSteps.ReleasedEntry | Kernel/paging.cpp:106-119 | Clearing an entry after everything below it frees exactly the frames that served the entry's range |
| Paging.NextEntry | Kernel/paging.cpp:89-92 | After SetPart and clearing the lower parts the address is the first page of the next entry, with the carry through all levels |
| Paging.Pager.CleanEntry | Kernel/paging.cpp:100-119 | One iteration of the loop: the entry and all below it are gone, and exactly the frames that served its range are free |
| Paging.Pager.NewPageMap | Kernel/paging.cpp:176-185 | One formerly free frame, all zero, or an error only if no frame is free |
| Paging.Pager.SetNewPageMapIfNotPresent | Kernel/paging.cpp:43-57 | A present entry keeps its frame; an absent one gets a new frame of zeros; on failure nothing changes |
| Paging.Pager.LinkEntry | Kernel/paging.cpp:64-76 | One entry made present and user accessible; its writable bit is set as the level demands |
| Paging.Pager.SetupEntry | Kernel/paging.cpp:64-94 | One iteration of the loop: an entry and the pages below it from the address on, up to the number asked for or the end of the entry; it fails only when no frame is free |
| Paging.Pager.SetupPageMap | Kernel/paging.cpp:60-96 | Maps exactly the pages from the address on, up to the number asked for or index 511 of this table; new entries get pairwise different formerly free frames, present ones keep theirs, all other entries are unchanged; the remainder is what did not fit; it fails only when no frame is free, with a prefix built |
| Paging.Pager.SetupPageMaps | Kernel/paging.cpp:192-195 | The same from the PML4 on: all pages of a range that fits below the end of the address space |
| Paging.Pager.ShareEntry | Kernel/paging.cpp:203-210 | One page shared read-only; no frame is taken and the source's tables are unchanged |
| Paging.Pager.CopyTableEntry | Kernel/paging.cpp:218-223 | A new table with the flags of the source's entry, or an error only if no frame is free |
| Paging.Pager.CopyPageMaps | Kernel/paging.cpp:202-229 | Every entry of the source in the range has a copy: new tables on all levels, leaves on the source's frames without the writable bit; the source is unchanged; a failed copy is a part of that |
| Paging.Pager.ClearEntry | Kernel/paging.cpp:112-119 | The entry is zero, and its frame is free if the entry was writable |
| Paging.Pager.CleanPageMap | Kernel/paging.cpp:98-123 | With zero lower parts, all entries from the address on are gone, and exactly the frames the space owned in that range are free again |
| Paging.Pager.SetPageContent | Kernel/paging.cpp:151-162 | Only the leaf entry of the address changes: the new frame, writable |
| Paging.Pager.CopyOnePage | Kernel/paging.cpp:164-173 | The page gets a private writable frame; every page of every space reads as before; a failure changes nothing |
| Paging.Pager.MapFreshPage | Kernel/paging.cpp:243-245 | A page of the demand range becomes present, writable and zero; nothing else is read differently in any space |
| Paging.Pager.FindFileMapping | Kernel/paging.cpp:125-133 | The first mapping that contains the address |
| Paging.Pager.PreparePageCache | Kernel/paging.cpp:135-147 | The page is present and writable and holds the file from its offset in the mapping on, then zeros; no other page reads differently; it fails only when no frame is free |
| Paging.Pager.StorePage | Kernel/paging.cpp:144-145 | Filling an owned page changes what that one page reads and keeps all spaces in order |
| Paging.Pager.HandlePageFault | Kernel/paging.cpp:231-252 | Each error code exactly, by the demand range and the mappings: a page of the demand range is filled with zeros, one of a mapping with the file of the first mapping around the address, and only an address in neither is out of range; copy on write, already allocated and out of memory likewise; only that page is read differently, and other spaces and the templates keep every page |
| Paging.Pager.Access | Kernel/paging.cpp:231-252 | A user access with the faults it raises leaves the page that was there, or zeros in the demand range, or the file of the mapping, with the stored word in it if it is a store; no other page is read differently; it fails only if there is nothing to fill the page with or memory has run out |
| Paging.Pager.Run | Kernel/paging.cpp:202-252 | Copy-on-write isolation: after any interleaving of accesses, faults and mapping calls of several programs, each program reads exactly its own stores over what it read before, and the templates' tables and bytes are unchanged; an access is carried out only if its page had content at that point, and each that had is carried out unless memory has run out |
| Paging.ReadsLastStore | Kernel/paging.cpp:202-252 | After any run a program reads in a word what it has stored there last |
| Paging.ReadsUnstored | Kernel/paging.cpp:202-252 | A word it has not stored to is what it was before, or what its page was filled with by the first access |
| Paging.Pager.SetupPML4 | Kernel/terminal.cpp:126-139 | A new PML4 on a formerly free frame with the kernel's 256 entries and an empty upper half |
| Paging.Pager.Launch | Kernel/terminal.cpp:545-585 | For a cached template: a new space that reads as the template, with zeroed argument and stack pages; an empty demand range at the first page behind the image, mappings to begin below the stack; other spaces and tasks are not touched |
| Paging.Pager.Exit | Kernel/terminal.cpp:591-597 | Exactly the frames of the space are freed, all others keep their owners |
| Paging.Pager.RunApp | Kernel/terminal.cpp:545-598 | Conservation: launch, any accesses and mapping calls, exit; the allocator's free frames, all owners, all other programs and all templates are as before; a launch that fails leaves every formerly free frame with the abandoned space and changes nothing for anybody else |
| Paging.MapsKept | Kernel/syscall.cpp:369-400 | DemandPages and MapFile keep the mappings page aligned, ordered and as long as their files, and above the end for further ones |
| Paging.MapsAlwaysOk | Kernel/syscall.cpp:381-400 | Over any run, mapped ranges are whole pages and do not overlap |
| Paging.OnlyMapping | Kernel/paging.cpp:125-133 | Then the first mapping that contains an address is the only one |
| Paging.FreshContentIs | Kernel/paging.cpp:243-251 | An absent page can be filled if and only if its address is in the demand range or a mapping: with zeros in the range, otherwise with the file of the first mapping around it |
| Paging.FirstMappingIs | Kernel/paging.cpp:125-133 | The search finds nothing if and only if no mapping contains the address, and otherwise the first one that does |
| Paging.TaskStepIs | Kernel/syscall.cpp:369-400 | DemandPages moves the end of the range by whole pages; MapFile adds one mapping right below the others, of the least number of whole pages that hold the file |
| Paging.NowDemandPaged | Kernel/syscall.cpp:369-379 | After DemandPages exactly the addresses of the new pages are demand paged as well |
| Paging.NowMapped | Kernel/syscall.cpp:381-400 | After MapFile every address of the new range can be filled, and byte i of its page is the byte of that file |
| Paging.EachCallCounts | Kernel/syscall.cpp:369-400 | In a run, each mapping call changes the ranges of its own task as it should, and nothing else changes them |
| Paging.MappedPageHolds | Kernel/paging.cpp:135-147 | A fault in a mapped range finds its file at an offset inside the file, and byte i of the page is the byte of the file at that offset and i, or 0 behind its end |
| FilePages.PageHolds | Kernel/paging.hpp:65-82 | Any 4096 bytes, taken as the 512 entries with their bit fields, are the same bytes again |
| FilePages.FilePageHolds | Kernel/paging.cpp:143-145 | The page of a file at an offset holds its bytes from there on, then zeros |
| FilePages.LoadedIs | Kernel/fat.cpp:341-354 | A load replaces the bytes the file has and leaves the rest of the buffer |
| AddressSpaces.LeafDecides | Kernel/paging.cpp:70-83 | Under the invariant the leaf's present and writable bits alone decide what user mode may do, on all four levels |
| AddressSpaces.OwnershipAfterSetup | Kernel/paging.cpp:72-74 | SetupPageMaps on a range keeps "writable means private" if and only if no page of the range is shared |
| AddressSpaces.PageAllocated | Kernel/paging.cpp:202-212 | Every mapped page is on an allocated frame of the space itself or of its template |
| AddressSpaces.AppAfterSetup | Kernel/paging.cpp:192-195 | On absent pages it keeps the space in order and makes exactly those pages read zero |
| AddressSpaces.AppAfterStore | Kernel/paging.cpp:143-146 | A store into an owned page changes what exactly that page of that space reads |
| AddressSpaces.AppAfterCopy | Kernel/paging.cpp:164-173 | Replacing a shared page by a private copy keeps the space in order and everything it reads |
| AddressSpaces.NewSpace | Kernel/terminal.cpp:126-139 | A new PML4 is a consistent, empty space and disturbs no other |
| AddressSpaces.AppAfterLaunch | Kernel/terminal.cpp:182-187 | A full copy of a template is a space in order that reads as the template does |
| AddressSpaces.TemplateKept | Kernel/paging.cpp:202-229 | Whatever another space does, a template keeps its tables and its pages |
| AddressSpaces.AppKept | Kernel/paging.cpp:231-252 | Whatever one program does, another program keeps its pages and its ownership invariant |
| AddressSpaces.AfterExit | Kernel/terminal.cpp:594-597 | CleanPageMaps and FreePML4 return every frame of the space and no other |
| AddressSpaces.NothingLeaked | Kernel/terminal.cpp:126-147 | A space that was created and freed leaves no trace in the allocator |
| AddressSpaces.FreshWriteInvisible | Kernel/paging.cpp:182-183 | Writing to a free frame is visible in no space's tables |
| FrameBitmap.OrBit | Kernel/memory_manager.cpp:67-68 | Or with a shifted one sets that bit and no other |
| FrameBitmap.AndNotBit | Kernel/memory_manager.cpp:69-71 | And with its complement clears that bit and no other |
| FrameBitmap.BitmapMemoryManager.GetBit | Kernel/memory_manager.cpp:56-61 | Whether the frame is in the set of used frames |
| FrameBitmap.BitmapMemoryManager.SetBit | Kernel/memory_manager.cpp:63-72 | One frame is added to or removed from the set of used frames |
| FrameBitmap.BitmapMemoryManager.MarkAllocated | Kernel/memory_manager.cpp:44-48 | Exactly the frames of the block become used |
| FrameBitmap.BitmapMemoryManager.Free | Kernel/memory_manager.cpp:37-42 | Exactly the frames of the block become free |
| FrameBitmap.BitmapMemoryManager.Allocate | Kernel/memory_manager.cpp:11-35 | First fit: the lowest start of n free frames in the range, exactly those marked, and nothing if and only if there is no such run, in spite of the skip |
| FrameBitmap.Serve | Kernel/memory_manager.cpp:11-48 | Over any run of requests that frees only held blocks: each allocation is the first fit of the bitmap it finds, the blocks held are those that the requests and their results leave, they share no frame, and the used frames are theirs and the initial ones |
| FrameBitmap.InitializeMemoryManager | Kernel/memory_manager.cpp:103-129 | A frame is in the range that is set and free if and only if an available descriptor contains it |
| FatChains.SameRest | Kernel/fat.cpp:78-84 | From one cluster on, the rest of the chain is determined |
| FatChains.Acyclic | Kernel/fat.cpp:164-166 | A chain that ends never meets a cluster twice |
| FatChains.LowestFree | Kernel/fat.cpp:171-174 | The free clusters the scan takes are the lowest ones |
| FatChains.GrowMore | Kernel/fat.cpp:162-182 | Growing a chain twice takes the same clusters as growing it once by as many |
| FatChains.ExtendKeepsChains | Kernel/fat.cpp:162-182 | Growing one of many chains by free clusters keeps all of them finite, acyclic and disjoint; the old chain is a prefix and the others are unchanged |
| FatChains.AllocateKeepsChains | Kernel/fat.cpp:253-268 | So does starting a new chain |
| FatChains.Table.NextCluster | Kernel/fat.cpp:78-84 | The successor in the table, every end mark as the one constant |
| FatChains.Table.FindEnd | Kernel/fat.cpp:164-166 | From any cluster of a chain the last one is reached |
| FatChains.Table.LinkFree | Kernel/fat.cpp:168-179 | Exactly the first n free clusters are linked behind the end in ascending order |
| FatChains.Table.ExtendCluster | Kernel/fat.cpp:162-182 | The chain grows by exactly the first n free clusters, no other entry changes, and the result is the last cluster, not the first new one |
| FatChains.Table.AllocateClusterChain | Kernel/fat.cpp:253-268 | A new chain of exactly max(n, 1) free clusters, the first ones, and its first one |
| FatBytes.BytesAt | Kernel/fat.cpp:283-285 | A piece of a cluster is the piece of the file at the cluster's offset |
| FatBytes.BytesPut | Kernel/fat.cpp:328-330 | A piece written into a cluster of a chain replaces exactly that piece of the file |
| FatBytes.NumClusterIs | Kernel/fat.cpp:300-302 | num_cluster is the least number of clusters that hold so many bytes |
| FatBytes.SlackGrows | Kernel/fat.cpp:318-326 | One turn of the write loop keeps the cursor in step with the bytes written, except exactly when more than one cluster is appended |
| FatBytes.FaithfulExactly | Kernel/fat.cpp:314-334 | A write counts exactly its length and leaves the cursor right behind it if and only if it fits the room left in the cluster, or fills whole clusters of which at most one is missing |
| FatBytes.PlacesInOrder | Kernel/fat.cpp:317-334 | The bytes of a write land in order, none before where it should, and what is left out between two of them shifts all that follow |
| FatBytes.LandsExactly | Kernel/fat.cpp:314-334 | All bytes land one behind the other from the cursor on, and no more than asked for, under exactly the condition of FaithfulExactly |
| FatBytes.OneByteTooMany | Kernel/fat.cpp:329 | A counterexample: a write that straddles a cluster counts more bytes than it was given |
| FatBytes.OneClusterLeftOut | Kernel/fat.cpp:321 | A counterexample: after ExtendCluster by two, the first new cluster is left out |
| FatFiles.ReadStep | Kernel/fat.cpp:282-293 | One turn of the read loop delivers the next bytes of the file and leaves the cursor behind them |
| FatFiles.FileDescriptor.Read | Kernel/fat.cpp:274-297 | The next min(len, rest) bytes of the file, and the cursor behind them |
| FatFiles.FileDescriptor.ReadMany | Kernel/fat.cpp:274-297 | Any sequence of reads returns consecutive slices of the content |
| FatFiles.PiecesAre | Kernel/fat.cpp:274-297 | Each read begins where the one before ended and is as long as asked for, or goes to the end |
| FatFiles.PiecesAreOne | Kernel/fat.cpp:274-297 | Together these are one slice, up to the sum of the lengths or the end |
| FatFiles.FileDescriptor.Load | Kernel/fat.cpp:341-354 | The slice of the content from the offset on, for every offset in the file |
| FatFiles.FileDescriptor.LoadPage | Kernel/paging.cpp:143-145 | A page loaded from a file has its bytes from the offset on and keeps its own behind; a page of zeros becomes the page of the file that a fault maps |
| FatFiles.LoadFile | Kernel/fat.cpp:137-158 | The first bytes of the chain; for the file's size, exactly its content |
| FatFiles.FileDescriptor.AdvanceCluster | Kernel/fat.cpp:318-326 | At the end of a cluster: the next cluster, or the last of those appended; the chain grows by free clusters only |
| FatFiles.FileDescriptor.Begin | Kernel/fat.cpp:304-312 | The first write allocates the chain and enters its first cluster in the directory entry |
| FatFiles.FileDescriptor.WriteTurn | Kernel/fat.cpp:317-334 | One turn of the loop puts the next bytes of the buffer where the cursor stands and nowhere else |
| FatFiles.BytesLanded | Kernel/fat.cpp:317-334 | Over all turns of any write: byte k of the buffer ends at its place in the chain, no later turn touches it, and all other bytes are what they were |
| FatFiles.FileDescriptor.Write | Kernel/fat.cpp:299-339 | Cursor, count, size and every byte after any write: byte k of the buffer is at its place and no other byte of the chain, nor any other cluster, has changed; the text grows by exactly the buffer under the condition of FaithfulExactly, which is shown to be exact |
| FatFiles.FileDescriptor.WriteMany | Kernel/fat.cpp:299-339 | Any sequence of such writes: the text is the concatenation |
| FatFiles.ConcatIs | Kernel/fat.cpp:299-339 | What many writes write is their buffers one behind the other, byte k of each from its own byte k |
| FatFiles.NewFileFits | Kernel/fat.cpp:308 | For a new file the first write meets the condition if and only if it takes at most one cluster or fills whole ones |
| FatFiles.OtherFileKept | Kernel/fat.cpp:162-182 | A file that shares no cluster with a written one keeps its chain and its bytes |
| FatFiles.RoundTrip | Kernel/fat.cpp:274-339 | What one descriptor writes in such writes, a new one reads back exactly; the size is the length; another file is unchanged |
| FatNames.NameIsEqual | Kernel/fat.cpp:120-135 | Compares with the search name, in which a dot jumps to the extension and other bytes are upper-cased |
| FatNames.UpperIs | Kernel/fat.cpp:131 | toupper takes each small letter to its capital and every other byte to itself |
| FatNames.NameAnyCase | Kernel/fat.cpp:120-135 | Names that differ in the case of letters only match the same entries and get the same entry |
| FatNames.SetFileName | Kernel/fat.cpp:205-220 | The name cut at its last dot to eight and three upper-cased bytes, padded with spaces |
| FatNames.EntryIsCapital | Kernel/fat.cpp:205-220 | No entry name holds a small letter |
| FatNames.FormatName | Kernel/fat.cpp:44-64 | Both fields without trailing spaces, a dot between them only if there is an extension |
| FatNames.ValidNameIsFound | Kernel/fat.cpp:120-135 | Every valid 8.3 name, with any bytes but a first 0xe5, matches the entry that is made of it |
| FatNames.PlainNameIsFound | Kernel/fat.cpp:215-219 | A name without a dot matches its own entry if and only if its ninth to eleventh byte are spaces or missing |
| FatNames.DottedNameIsFound | Kernel/fat.cpp:120-135 | A name with dots matches its own entry if and only if it has one dot or at least eight bytes before the first, and what the search writes over the extension, part by part, is the last part |
| FatNames.OneDotIsFound | Kernel/fat.cpp:120-135 | With one dot and no space before it: up to ten bytes before the dot need an extension that covers those beyond eight; with more, bytes nine to eleven must be the extension |
| FatNames.EarlyDotIsLost | Kernel/fat.cpp:205-214 | A name with several dots, the first among its first eight bytes, never matches its own entry |
| FatNames.HasParts | Kernel/fat.cpp:205-214 | Every name is a part without dots and further parts with a dot before each, so that these conditions cover all names |
| FatNames.ValidNamePrints | Kernel/fat.cpp:58-64 | The entry of a valid name is printed as the upper-cased name |
| FatDirectories.UsedNotEnded | Kernel/fat.cpp:102-106 | No used entry ends a search |
| FatDirectories.FillKeepsSearch | Kernel/fat.cpp:184-203 | Filling the first unused entry of a directory makes the new name found there and keeps what other names found |
| FatDirectories.FillAddsOneName | Kernel/fat.cpp:184-203 | With zeros behind the first zero entry, no other name appears |
| FatDirectories.FillKeepsTail | Kernel/fat.cpp:184-203 | There are still only zeros behind the first zero entry |
| FatDirectories.AddedFinds | Kernel/fat.cpp:184-203 | A new name is found in the new entry, in a reused slot as in an appended cluster |
| FatDirectories.AddedKeeps | Kernel/fat.cpp:184-203 | What was found in any directory is found at the same slot, with the same entry, if and only if it was not the deleted entry that has been overwritten |
| FatDirectories.OverwrittenIsLost | Kernel/fat.cpp:101-107 | A search that ended at the deleted entry, which the code does not skip, no longer ends there |
| FatDirectories.AddedAddsOneName | Kernel/fat.cpp:184-203 | In all directories: where zeros end them they still do, and no name but the new one can be found that could not before |
| FatDirectories.TailsStayZero | Kernel/fat.cpp:184-203 | Zeros end all directories after any creation if they did before |
| FatDirectories.NoOtherPath | Kernel/fat.cpp:86-118 | Then a path that was not found before is found afterwards only by way of the new entry |
| FatDirectories.FindThrough | Kernel/fat.cpp:108-109 | A path through a directory continues in that directory |
| FatDirectories.FindAnyCase | Kernel/fat.cpp:86-118 | A path leads to the same entry in any case |
| FatDirectories.SearchIs | Kernel/fat.cpp:101-113 | A search finds the first entry with the name among those before the first zero mark, and nothing if there is none |
| FatDirectories.WalkThrough | Kernel/fat.cpp:108-109 | The entries on such a path are those on the way to the directory and those from there on |
| FatDirectories.PathsKept | Kernel/fat.cpp:86-118 | A path goes by the same entries after a file has been created anywhere if and only if it did not go by the deleted entry that is overwritten; then it leads to the same, unchanged entry |
| FatDirectories.LostPath | Kernel/fat.cpp:101-107 | A counterexample: the name of a deleted entry is found, a file is created over it, and the name is not found any more |
| FatDirectories.LostParent | Kernel/fat.cpp:86-118 | A path that goes on from one by way of the overwritten entry does not go that way any more |
| FatDirectories.CreatedIsFound | Kernel/fat.cpp:222-251 | The created entry is found on its path, by the way to its parent and one step, if and only if the way to its parent does not go by the overwritten entry |
| FatDirectories.CreatedOnPath | Kernel/fat.cpp:222-251 | The same for any path whose last element is a new valid name and whose parent is found, not by the overwritten entry |
| FatDirectories.TwoSlashes | Kernel/fat.cpp:225-241 | With two slashes before the name, the entry is created in the named directory and looked for in the root |
| FatDirectories.CreatedBehindTwoSlashes | Kernel/fat.cpp:87-89 | So it is found on its path if and only if that directory is the root |
| FatDirectories.Directories.SearchCluster | Kernel/fat.cpp:101-113 | One cluster's entries searched in order, up to the first match or the zero mark |
| FatDirectories.Directories.FindInDirectory | Kernel/fat.cpp:99-115 | The first match among all entries of the directory's chain |
| FatDirectories.Directories.Findfile | Kernel/fat.cpp:86-118 | The entry a path leads to, and whether a slash follows |
| FatDirectories.Directories.AllocateEntry | Kernel/fat.cpp:184-203 | The first unused slot of the directory, or the first of one appended cluster of zeros; nothing else changes |
| FatDirectories.Directories.Fill | Kernel/fat.cpp:244-250 | The slot, the first unused one or the first of an appended cluster, gets the name and size 0 and keeps its attribute and first cluster; no other entry changes |
| FatDirectories.Directories.CreateFile | Kernel/fat.cpp:222-251 | Both error cases exactly, and no change with them; otherwise one entry is added to the parent, all of its fields given, and a new valid name is then found on the same path in any case |
| Scheduler.RotateSelectsHighest | Kernel/task.cpp:278-300 | A rotation selects the highest level with a running task whenever level_changed_ is set or all higher queues are empty |
| Scheduler.RotateIs | Kernel/task.cpp:278-300 | A rotation takes the front of the current queue off or to its end and changes no other queue; the level stays unless level_changed_ is set or the queue is empty, and then is the highest with a task |
| Scheduler.SleepIs | Kernel/task.cpp:143-157 | Sleep takes exactly that task out of its queue, the others in their order, by a rotation if it is the current one; a sleeping task is left alone |
| Scheduler.WakeupAppends | Kernel/task.cpp:170-188 | Wakeup puts a sleeping task at the end of the queue of its new or old level; the current task stays; level_changed_ if that level is higher |
| Scheduler.ChangeLevelIs | Kernel/task.cpp:252-276 | The task moves to the level asked for: the current one to the front, where it stays current, another one to the end; all others keep their order |
| Scheduler.ExitIs | Kernel/task.cpp:217-235 | Finish rotates the current task away, and a waiter that sleeps goes to the end of its queue |
| Scheduler.WaitIs | Kernel/task.cpp:237-250 | WaitFinish leaves the queues alone if the code is there, and rotates the current task away otherwise |
| Scheduler.InitialInv | Kernel/task.cpp:114-125 | The state after the constructor is in order |
| Scheduler.TickInv | Kernel/task.cpp:133-140 | A timer rotation keeps the invariant |
| Scheduler.SleepInv | Kernel/task.cpp:143-157 | Sleep keeps it, of the current task or another |
| Scheduler.WakeupInv | Kernel/task.cpp:170-188 | Wakeup keeps it, with or without a new level |
| Scheduler.ChangeLevelInv | Kernel/task.cpp:252-276 | A change of level keeps it, of the current task or another |
| Scheduler.NewTaskInv | Kernel/task.cpp:127-130 | A new task keeps it |
| Scheduler.FinishInv | Kernel/task.cpp:217-235 | Finish keeps it, with or without a waiter |
| Scheduler.StepInv | Kernel/task.cpp:114-300 | In every step each running task stays exactly once in the queue of its level, sleeping ones in none, the current queue is not empty, and higher queues are empty unless level_changed_ is set |
| Scheduler.StepNoLostWakeup | Kernel/task.cpp:67-80 | No step leaves a task asleep in a receive loop with a message in its queue, or asleep for an exit code that is posted |
| Scheduler.ExitNoLostWakeup | Kernel/task.cpp:217-235 | Finish posts the code and wakes the waiter in one step |
| Scheduler.WaitNoLostWakeup | Kernel/task.cpp:237-250 | WaitFinish takes the code or registers before it sleeps |
| Scheduler.RunsFromBoot | Kernel/task.cpp:114-300 | All this holds in every state of every run from boot |
| Scheduler.MessagesInOrder | Kernel/task.cpp:67-81 | In every run from boot, what was sent to a living task is what it has received, followed by what still waits, in the order of sending |
| Scheduler.StepMsgs | Kernel/task.cpp:67-81 | Sending appends one message to the queue of one task, receiving takes the first one, and no other step touches messages |
| Scheduler.CodeDeliveredOnce | Kernel/task.cpp:237-250 | WaitFinish(id) returns if and only if id has finished and its code was not taken, and returns exactly the code passed to Finish |
| Scheduler.PostedCodeWakes | Kernel/task.cpp:227-232 | A waiter whose code is posted is running and in its queue |
| Scheduler.Fairness | Kernel/task.cpp:278-300 | A task at position p of the running queue is current after exactly p rotations while nobody sleeps, ends, changes level or wakes above it |
| TaskManagement.TaskManager.constructor | Kernel/task.cpp:114-125 | The main task and the idle task in their queues |
| TaskManagement.TaskManager.RotateCurrentRunQueue | Kernel/task.cpp:278-300 | The specified rotation, and the task that was current |
| TaskManagement.TaskManager.SleepTask | Kernel/task.cpp:143-157 | The specified sleep, and the invariant |
| TaskManagement.TaskManager.ChangeLevelRunning | Kernel/task.cpp:252-276 | Refines the specified change of level, and keeps the invariant |
| TaskManagement.TaskManager.WakeupTask | Kernel/task.cpp:170-188 | The specified wakeup, and the invariant |
| TaskManagement.TaskManager.AddTask | Kernel/task.cpp:127-130 | A new number, level 1, not running, no messages; nothing else changes |
| TaskManagement.TaskManager.SwitchTask | Kernel/task.cpp:133-140 | A rotation without sleep, and the invariant |
| TaskManagement.TaskManager.Send | Kernel/task.cpp:201-211 | The message is the last one in the queue of its task, which runs; all other tasks are as before; or there is no such task and nothing changes |
| TaskManagement.TaskManager.Receive | Kernel/main.cpp:192-198 | The oldest message, which leaves the queue, or the task is put to sleep because there is none; all other tasks are as before |
| TaskManagement.TaskManager.FinishCurrent | Kernel/task.cpp:217-235 | The specified exit, and both invariants |
| TaskManagement.TaskManager.WaitForFinish | Kernel/task.cpp:237-250 | The specified wait, and both invariants |
| TrbFormat.CycleFacts | Kernel/usb/xhci/ring.cpp:36-37 | The cycle bit is set as wanted, and the rest of the TRB is the same |
| TrbFormat.MaskedCycle | Kernel/usb/xhci/ring.cpp:36-37 | The bitwise and with 0xfffffffe and the bitwise or with the cycle bit compute that word |
| TrbFormat.PayloadIs | Kernel/usb/xhci/ring.cpp:31-38 | What is taken from a TRB is all of it but the cycle bit |
| TrbFormat.LinkIs | Kernel/usb/xhci/trb.hpp:163-196 | The fields of the Link TRB: the ring address, type 6, the toggle-cycle bit |
| ProducerRing.InitialInv | Kernel/usb/xhci/ring.cpp:13-29 | A zeroed ring is in order |
| ProducerRing.WordInv | Kernel/usb/xhci/ring.cpp:32-35 | A store of one of the words 0 to 2 touches a slot nobody trusts |
| ProducerRing.CompleteInv | Kernel/usb/xhci/ring.cpp:36-37 | The store of word 3 hands over one whole TRB |
| ProducerRing.LapInv | Kernel/usb/xhci/ring.cpp:45-51 | The last word of the toggling Link TRB closes the lap |
| ProducerRing.ControllerInv | Kernel/usb/xhci/ring.cpp:31-55 | A fetch of the controller, of a TRB or the Link TRB, keeps the invariant |
| ProducerRing.StepInv | Kernel/usb/xhci/ring.cpp:31-55 | So does every interleaved step, with at most buf_size - 2 TRBs outstanding |
| ProducerRing.TrustedIsNext | Kernel/usb/xhci/ring.cpp:31-55 | A slot with the expected cycle bit is the next pushed TRB, whole, or the Link TRB |
| ProducerRing.TakenInOrder | Kernel/usb/xhci/ring.cpp:31-55 | In every word-granular run over any number of laps, the TRBs taken are a prefix of those pushed |
| ProducerRing.PushedInOrder | Kernel/usb/xhci/ring.cpp:40-55 | In every run, what counts as pushed are exactly the TRBs given to Push, each once and in order |
| ProducerRing.NoStall | Kernel/usb/xhci/ring.cpp:40-55 | Between pushes an outstanding TRB is taken after at most one Link TRB |
| ProducerRing.OneTooManyStalls | Kernel/usb/xhci/ring.cpp:45-51 | Why buf_size - 2: with one more TRB outstanding the controller does nothing any more if and only if it still stands before the Link TRB, which the next lap has turned over |
| ProducerRing.StallReached | Kernel/usb/xhci/ring.cpp:40-55 | In a ring of every size from 3 on, an allowed run from Initialize reaches the state of which that is true |
| ProducerRing.CompletedInv | Kernel/usb/xhci/ring.cpp:40-55 | A push run to its end keeps the invariant |
| ProducerRing.CompletedIs | Kernel/usb/xhci/ring.cpp:40-55 | The stores of one Push together: the TRB with the cycle bit and, at the end, the Link TRB, index 0 and the toggled bit |
| ProducerRing.Ring.CopyToLast | Kernel/usb/xhci/ring.cpp:31-38 | The slot at the write index holds the TRB with the producer's cycle bit; no other slot changes |
| ProducerRing.Ring.Push | Kernel/usb/xhci/ring.cpp:40-55 | Refines the protocol: the fields and the ring are those of the protocol's completed push, which keeps the invariant |
| EventRings.StepInv | Kernel/usb/xhci/ring.cpp:102-115 | Every step of a conforming controller and of HasFront and Pop keeps the invariant |
| EventRings.EventsInOrder | Kernel/usb/xhci/ring.cpp:102-115 | In every run the handled events are a prefix of those produced; HasFront holds if and only if one is outstanding, and the front is the next one |
| EventRings.ProducedInOrder | Kernel/usb/xhci/ring.cpp:102-115 | In every run, what counts as produced are exactly the events begun, each once and in order, and each pop handles one |
| EventRings.EventRing.Front | Kernel/usb/xhci/ring.hpp:88-94 | Whether the front's cycle bit is the expected one, and the TRB there |
| EventRings.EventRing.PopFront | Kernel/usb/xhci/ring.cpp:102-115 | Refines the protocol's pop, with the wrap at the end of the segment |
| PortBringUp.FirstWaitingIs | Kernel/usb/xhci/xhci.cpp:258-266 | The loop finds the first waiting port |
| PortBringUp.AddressedInv | Kernel/usb/xhci/xhci.cpp:257-268 | Giving up the turn and passing it on keeps at most one port between reset and address, and lowers no phase |
| PortBringUp.HandleInv | Kernel/usb/xhci/xhci.cpp:91-284 | Every event keeps that, lowers no phase, raises one if it changes any, and changes nothing when it returns an error |
| PortBringUp.HandleReacts | Kernel/usb/xhci/xhci.cpp:91-284 | For every event and port, exactly when each phase is entered, who has the turn, and each return code, by the fields of the event and the phases before |
| PortBringUp.EveryRun | Kernel/usb/xhci/xhci.cpp:91-284 | In every run each phase-changing event raises the sum of the phases |
| PortBringUp.BringUp | Kernel/usb/xhci/xhci.cpp:25-46 | From boot: busy ports are one and the same, the addressing port, and at most 7 * 255 events of any run change a phase |
| PortBringUp.WaitingServedExactly | Kernel/usb/xhci/xhci.cpp:257-266 | A waiting port keeps somebody to wait for in every step, except exactly when the turn passes to a port that was unplugged |
| PortBringUp.TurnIsLost | Kernel/usb/xhci/xhci.cpp:257-266 | A run from boot in which it happens: a waiting port is unplugged, gets the turn, and waits for nobody |
| PortBringUp.ConnectedPort | Kernel/usb/xhci/xhci.cpp:91-113 | A port that gets connected is reset if nobody has the turn, and waits otherwise |
| PortBringUp.AnswerAdvances | Kernel/usb/xhci/xhci.cpp:115-284 | Each good answer of the hardware takes its port exactly one phase further; the end of addressing gives the turn to the first waiting port, and nothing else changes |
| PortBringUp.EveryPortConfigured | Kernel/usb/xhci/xhci.cpp:197-284 | In whatever order the hardware answers, after at most 7 * 256 answers none is due, and then every port that was connected is configured |
| PortBringUp.PortConfigurator.ResetPortNow | Kernel/usb/xhci/xhci.cpp:91-113 | The specified reset: nothing, wait, error or reset |
| PortBringUp.PortConfigurator.OnEvent | Kernel/usb/xhci/xhci.cpp:197-284 | For every event: each phase is entered exactly from the phase before it with the answers it needs, no other port and not the turn changes otherwise, and each return code is given exactly; the invariant is kept |
| Composition.IntersectPoints | Kernel/graphics.hpp:74-86 | operator& contains exactly the points common to both rectangles, also for negative sizes |
| Composition.PaintAllIs | Kernel/layer.cpp:74-77 | Drawing layers from bottom to top leaves the topmost colour in the area, and outside of it that of the layers with a transparent colour |
| Composition.TransparentWins | Kernel/window.cpp:73-86 | With transparent layers on top only, whatever colour one of them shows is the topmost one, so drawing it outside the area does no harm |
| Composition.ColorAtIs | Kernel/window.cpp:73-86 | What a layer shows at a point is the pixel of its window there, unless that has the transparent colour |
| Composition.TopIs | Kernel/layer.cpp:74-77 | The topmost colour is what is seen of a layer above which nothing is seen |
| Composition.ShownIs | Kernel/layer.cpp:74-79 | A screen that shows the stack has exactly that colour in its pixel |
| Composition.RedrawArea | Kernel/layer.cpp:74-79 | Redrawing an area shows the whole stack again after any change confined to the area |
| Composition.RedrawScreen | Kernel/layer.cpp:74-79 | Redrawing an area that contains the screen shows the stack, whatever was there before |
| Composition.RedrawLayer | Kernel/layer.cpp:85-103 | Redrawing an opaque layer's part and all above it shows the stack again after a change confined to the part |
| Composition.RedrawMoved | Kernel/layer.cpp:105-112 | The two draws of Move show the stack with the layer in its new place, transparent or not |
| Composition.RedrawTransparent | Kernel/layer.cpp:85-103 | After a change of a layer with a transparent colour, Draw(id) shows the stack if and only if no visible pixel of it was erased |
| Composition.ErasedSpotStays | Kernel/window.cpp:81-83 | A counterexample: a pixel that turns transparent keeps its old colour on the screen |
| FrameBuffers.FrameBuffer.Copy | Kernel/frame_buffer.cpp:59-86 | After the triple clipping exactly the pixels of the area that both buffers have come from the source; an error if and only if the formats differ |
| FrameBuffers.FrameBuffer.Move | Kernel/frame_buffer.cpp:88-109 | Each pixel of the target is the old pixel of the source, also when the rows overlap |
| Windows.CopyPaints | Kernel/window.cpp:66-71 | For an opaque window the clipped copy is the drawing of its pixels in the area |
| Windows.Window.Write | Kernel/window.cpp:101-104 | Exactly one pixel of what is drawn changes, with or without a transparent colour |
| Windows.PutAllDraws | Kernel/window.cpp:101-104 | After any sequence of writes each pixel has the colour of the last write to it, and is as before without one |
| Windows.Window.WriteAll | Kernel/window.cpp:101-104 | The pixels of the window after any drawing, each by its last write |
| Windows.Window.Move | Kernel/window.cpp:118-120 | Moves pixels of an opaque window; a window with a transparent colour shows the same as before |
| Windows.Window.DrawTo | Kernel/window.cpp:65-87 | The buffer is painted with the window, clipped to the buffer: opaque in the area, otherwise every pixel of another colour |
| Windows.Window.DrawVisible | Kernel/window.cpp:73-86 | The loop over a transparent window paints exactly its visible pixels |
| Layers.SunkToBottom | Kernel/layer.cpp:247-248 | UpDown(id, 0) lifts all others by one |
| Layers.RemoveIndex | Kernel/layer.cpp:149-155 | Taking a layer out moves those above it down by one and leaves the others |
| Layers.InsertIndex | Kernel/layer.cpp:123-147 | Inserting one puts it at its height and moves those above it up by one |
| ActiveLayers.TwoSteps | Kernel/layer.cpp:247-248 | Both calls of UpDown together put the layer right below the mouse |
| Layers.RaisedOk | Kernel/layer.cpp:247-248 | That keeps the bottom layer and keeps transparent layers on top |
| Layers.RemovedTop | Kernel/layer.cpp:198-205 | Removing a layer changes nothing where it showed nothing |
| ActiveLayers.RaisedElsewhere | Kernel/layer.cpp:247-249 | Raising and redrawing a layer changes nothing outside its area |
| ActiveLayers.RemovedRedrawn | Kernel/layer.cpp:326-328 | Redrawing the place of a removed layer shows the rest of the stack |
| Layers.LayerManager.NewLayer | Kernel/layer.cpp:69-72 | A layer with a new number, not on the stack |
| Layers.LayerManager.DrawArea | Kernel/layer.cpp:74-79 | All layers redrawn in the area, then the area copied to the screen |
| Layers.LayerManager.Draw | Kernel/layer.cpp:85-103 | The layer and those above it redrawn in the part of its window that was asked for |
| Layers.LayerManager.DrawnAreaIs | Kernel/layer.cpp:85-96 | The part drawn is the area asked for, counted from the corner of the window and cut at its edges, or all of the window |
| Layers.LayerManager.Move | Kernel/layer.cpp:105-112 | Only the position changes, and screen and back buffer show the stack again |
| Layers.LayerManager.MoveRelative | Kernel/layer.cpp:114-121 | The same for a difference of positions |
| Layers.LayerManager.UpDown | Kernel/layer.cpp:123-147 | The layer at the height asked for among the others in their order; below zero it is hidden |
| Layers.LayerManager.Hide | Kernel/layer.cpp:149-155 | Exactly this layer is off the stack |
| Layers.LayerManager.GetHeight | Kernel/layer.cpp:189-196 | The height of the layer, or -1 |
| Layers.LayerManager.RemoveLayer | Kernel/layer.cpp:198-205 | The layer is off the stack and gone |
| Layers.LayerManager.WriteWindow | Kernel/window.cpp:101-104 | Each pixel of the window has the colour of the last write to it, and nothing else of any layer changes |
| Layers.WrittenOnScreen | Kernel/layer.cpp:85-103 | On a screen that shows the stack, the last write to each place of an opaque window is seen wherever nothing is above it |
| Layers.LayerManager.DrawChanged | Kernel/layer.cpp:85-103 | A change of an opaque window followed by Draw(id, area): what was drawn is in the window, it is on the screen wherever nothing is above it, and the screen shows the stack again |
| ActiveLayers.ActiveLayer.Deactivate | Kernel/layer.cpp:236-241 | The pixels of the old window's title are in its window and, where nothing is above them, on the screen, which shows the stack |
| ActiveLayers.ActiveLayer.Raise | Kernel/layer.cpp:244-251 | The window is right below the mouse, the pixels of its title are in it and, where nothing is above them, on the screen, which shows the stack |
| ActiveLayers.ActiveLayer.Activate | Kernel/layer.cpp:231-252 | Both titles are drawn in their windows and are on the screen wherever nothing is above them; all other layers are as before, the window is right below the mouse, and the screen shows the stack; the same window again changes nothing |
| ActiveLayers.ActiveLayer.CloseLayer | Kernel/layer.cpp:315-333 | No window is active, exactly this layer is gone, the others are as before but for the title drawn again, and the screen shows what it covered; an error if and only if there is no such layer |
| HuffmanBits.BitReverse16At | apps/gview/stb_image.h:3952-3959 | The four masked swaps put bit i at 15 - i |
| HuffmanBits.BitReverseIs | apps/gview/stb_image.h:3961-3967 | Reversing sixteen bits and shifting reverses the lowest n bits |
| HuffmanBits.SplitBits | apps/gview/stb_image.h:4051-4059 | Mask and shift are remainder and quotient of a power of two |
| HuffmanBits.ByteOfStream | apps/gview/stb_image.h:4042-4049 | The stream is the bytes of the input in their order, the lowest bit of each first |
| HuffmanCodes.OneMatch | apps/gview/stb_image.h:3983-3994 | At most one canonical code (section 3.2.2 of RFC 1951) begins a stream |
| HuffmanCodes.MatchIs | apps/gview/stb_image.h:3952-3967 | A stream begins with a code if and only if its bits, as they come, are those of the code from the highest on |
| HuffmanCodes.CanonicalOrder | apps/gview/stb_image.h:3983-3994 | The codes are the canonical ones: zero first, consecutive within a length in the order of symbols, and one behind, filled up with zeros, for the next length |
| HuffmanCodes.NoMatchAbove | apps/gview/stb_image.h:4067-4070 | If no code of up to s bits begins the stream, its first s bits are not below the end of those codes |
| HuffmanCodes.MatchBelow | apps/gview/stb_image.h:4067-4072 | If they are below the end for the first time at s bits, one code of s bits begins the stream, and the offset from the first code finds its symbol |
| HuffmanTables.ReversedCode | apps/gview/stb_image.h:4004-4007 | An index of the fast table begins with a code if and only if its low bits are the reversed code |
| HuffmanTables.FirstCodeFits | apps/gview/stb_image.h:3984-3994 | First codes fit into their number of bits while the lengths are accepted |
| HuffmanTables.FastNext | apps/gview/stb_image.h:4003-4009 | Adding a symbol keeps every entry of the fast table right |
| HuffmanTables.ZHuffman.FillFast | apps/gview/stb_image.h:4004-4008 | The stride loop fills exactly the indices that begin with the code |
| HuffmanTables.ZHuffman.CountSizes | apps/gview/stb_image.h:3975-3979 | The number of symbols of each length |
| HuffmanTables.ZHuffman.FirstCodes | apps/gview/stb_image.h:3980-3995 | First codes, bounds and first symbols of all lengths; an error if and only if some length has more symbols than codes left |
| HuffmanTables.ZHuffman.AddSymbol | apps/gview/stb_image.h:3996-4012 | One symbol in its place by code, and in the fast table if its code is short |
| HuffmanTables.ZHuffman.Build | apps/gview/stb_image.h:3969-4014 | Succeeds if and only if the lengths leave a code for each symbol, and then the tables hold the canonical codes |
| HuffmanTables.ZHuffman.LengthOf | apps/gview/stb_image.h:4067-4069 | The scan stops at the only length whose codes can begin the stream |
| HuffmanTables.ZBuffer.FillBits | apps/gview/stb_image.h:4042-4049 | More than 24 bits are buffered and the stream is the same |
| HuffmanTables.ZBuffer.Receive | apps/gview/stb_image.h:4051-4059 | The next n bits of the stream as a number, and they are consumed |
| HuffmanTables.ZBuffer.DecodeSlow | apps/gview/stb_image.h:4061-4077 | For streams the fast table has no code for: the symbol whose code begins the stream, its bits consumed, or -1 if and only if there is none |
| HuffmanTables.ZBuffer.Decode | apps/gview/stb_image.h:4079-4091 | The symbol whose canonical code begins the stream, its bits consumed, through either table; -1 if and only if there is none |
| Pipes.PipeDescriptor.StreamInOrder | Kernel/terminal.cpp:840-901 | The bytes returned are a prefix of the bytes written, and all of them once the end is seen |
| Pipes.PipeDescriptor.SendChunk | Kernel/terminal.cpp:883-889 | One chunk of at most sixteen bytes is queued |
| Pipes.PipeDescriptor.Write | Kernel/terminal.cpp:879-892 | Exactly the buffer is added to the bytes written |
| Pipes.PipeDescriptor.FinishWrite | Kernel/terminal.cpp:893-901 | An empty pipe message ends the stream |
| Pipes.PipeDescriptor.BeginRead | Kernel/terminal.cpp:841-851 | Buffered bytes, or the end, or a wait begins; the rest of the buffer stays; no bytes are returned to a read of at least one only at the end |
| Pipes.PipeDescriptor.Receive | Kernel/terminal.cpp:853-876 | One message: others are skipped, a chunk is split between the caller and the buffer, an empty one is the end |
| Pipes.Run | Kernel/terminal.cpp:840-901 | Any interleaving of chunks, foreign messages, the end and reads, with the result of every step as specified: all that is returned is a prefix of the bytes written, and a read of at least one byte returns none if and only if the end has been sent and everything has been returned |
| Pipes.WrittenIs | Kernel/terminal.cpp:879-901 | What is written before the end is written in order, part by part |
| Pipes.FirstWritten | Kernel/terminal.cpp:879-901 | A chunk of one to sixteen bytes writes itself, the end writes nothing and ends it, and nothing else writes |
| Pipes.ReadOfNothing | Kernel/terminal.cpp:871-875 | A read of no bytes with nothing buffered returns 0 although the stream has not ended |
| DelimitedReads.ReadDelim | Kernel/file.cpp:18-31 | The next bytes of the file up to and with the first delimiter, at most len - 1; shorter only at the delimiter or the end |
| DelimitedReads.ReadLines | Kernel/file.cpp:18-31 | Successive results concatenate to the rest of the file |
| UsbPool.CeilRoundsUp | Kernel/usb/memory.cpp:7-9 | The mask form rounds up to the next multiple of a power of two |
| UsbPool.AlignedIsMultiple | Kernel/usb/memory.cpp:7-9 | Having zero low bits is being a multiple |
| UsbPool.NoStraddle | Kernel/usb/memory.cpp:25-30 | A block that begins at a boundary or ends before the next one does not cross one |
| UsbPool.LowestAligned | Kernel/usb/memory.cpp:22-24 | Rounding up leaves out no address at the alignment |
| UsbPool.LowestInBoundary | Kernel/usb/memory.cpp:25-30 | With a boundary, the lowest address that keeps the demand is the aligned one, or the next boundary exactly if the block would cross it |
| UsbPool.Pool.AllocMem | Kernel/usb/memory.cpp:21-40 | The lowest address from the pointer on that is aligned and crosses no boundary (or begins at one if the block is larger); null if and only if the block there would leave the pool |
| UsbPool.Run | Kernel/usb/memory.hpp:15-26 | Over a whole run every block keeps its demand, lies in the pool and shares no address with an earlier one; each is the lowest possible behind the one before, and null is returned only when that does not fit |

## Left out

- Paging.Pager.CleanPageMap: only for addresses whose lower parts are zero, as in its one call; with others the same lower parts would be skipped in every table.
- Paging.Pager.SetupPageMap: only in the upper half of the address space; the lower half is shared with the kernel.
- Paging.Pager.NewPageMap: takes any free frame, which covers first fit (FrameBitmap) and every other choice.
- Paging.Pager.Launch: the template is already cached, and maps none of the top seventeen pages, where the arguments and the stack go; reading the ELF image and building the template on the first launch is not modelled.
- Paging.Pager.HandlePageFault: write faults at addresses of the upper half only; kernel-mode stores, which ignore the writable bit, the TLB and huge pages are not modelled.
- Paging.Pager.PreparePageCache: what a file holds is a constant of its descriptor; that loading a page of zeros gives the page stored here is FatFiles.FileDescriptor.LoadPage.
- Paging.Pager.SetupPageMaps: ranges of the upper half that end below the end of the address space.
- Paging.Pager.RunApp: programs whose operations are accesses and mapping calls; what they do otherwise touches no page table.
- FrameBitmap.InitializeMemoryManager: descriptors in ascending order without overlaps, beginning at frames; the heap that is allocated afterwards is one more request.
- FrameBitmap.BitmapMemoryManager.Allocate: bitmap words are natural numbers, of which only the lowest 64 bits are used; Stat, which counts whole words, is left out.
- FatChains.Table.ExtendCluster: as many free clusters as are asked for must exist; the code's scan has no upper bound. The same holds for AllocateClusterChain, Write and CreateFile.
- FatFiles.FileDescriptor.Write: files of 4 GiB and more, whose size field wraps around, are not modelled.
- FatFiles.FileDescriptor.Read: the file does not change while it is read; the data area is an array of clusters, so the address arithmetic of GetClusterAddr does not appear.
- FatFiles.FileDescriptor.Load: offsets up to the size of the file; beyond it the code's length computation wraps around.
- FatDirectories.Directories.CreateFile: the parent path leads to a directory with clusters of its own, which the code does not check.
- FatDirectories.Directories.Findfile: path elements of any length; the code copies each into a buffer of 13 bytes.
- FatDirectories.PathsKept: the condition is on the way a path goes; by another deleted entry of the same name it may still lead to the same place when its way has changed.
- FatDirectories.CreatedBehindTwoSlashes: for parents whose path does not go by the overwritten entry.
- FatDirectories.Directories.Fill: attribute and first cluster of a reused entry stay, as in the code; entries are records and are not laid out in 32 bytes.
- FatNames.FormatName: names are bytes, toupper is that of the C locale, and a zero byte inside a stored name does not end it.
- Scheduler.StepInv: entry points are atomic, as callers disable interrupts around them; saving and restoring contexts, timers and Sleep by task number are not modelled, and the idle task never sleeps or ends.
- Scheduler.CodeDeliveredOnce: one waiter for each task; a second one would replace the first.
- ProducerRing.StepInv: the driver's stores are single words in program order, a fetch of the controller is one step.
- PortBringUp.HandleInv: device slots, contexts and endpoint settings appear as parameters of the events; registers do not appear.
- Composition.RedrawArea: coordinates are unbounded integers, so nothing overflows.
- FrameBuffers.FrameBuffer.Copy: areas of the source with sizes that are not negative; others make the length of a row negative.
- FrameBuffers.FrameBuffer.Move: source and target lie inside the buffer, and a sideways move does not overlap itself, as the code copies rows with memcpy. The same holds for Windows.Window.Move.
- Layers.LayerManager.Draw: the layer is on the stack, and the sizes of the area are both negative or both not; for other calls the code draws an uninitialised or turned-over area.
- ActiveLayers.ActiveLayer.Activate: what the title bar looks like is any sequence of pixels in the window; messages to the window's task and the map from layers to tasks are left out.
- Windows.Window.WriteAll: fonts, decorations and shapes are sequences of single pixels.
- HuffmanTables.ZHuffman.Build: lengths of at most 15 bits for at most 288 symbols, as the callers pass; the rest of the image library is left out.
- Pipes.Run: one reader and one writer; a read is two or more steps (BeginRead, Receive), and the writer stops after FinishWrite.
- DelimitedReads.ReadDelim: on FAT files, with a buffer of at least one byte; results are given by their length, so zero bytes in a file do no harm.
- UsbPool.Pool.AllocMem: alignment and boundary are powers of two or absent, the alignment not greater than the boundary, and addresses do not overflow; FreeMem does nothing and is left out.
- Assembly, interrupts, the local APIC, ACPI, PCI, mouse and keyboard drivers, console, terminal editing and the demo applications.
