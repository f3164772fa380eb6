# Proofs for the binary-analysis harness

This project models the stateful cores of a harness that emulates, fuzzes, links and inspects PE and
ELF binaries, and proves what they promise. One module stands for one component; classes carry the fields
the JavaScript objects carry, and every method is proved against a specification function about which
lemmas then speak.

- **Protected memory** (`Regions`, `RegionCuts`, `MemoryManager`): a region table sorted by base in which
  regions may overlap. What an address answers is followed through every split, insertion and stable sort:
  `protect` and `release` are exact at every address, and an address no command names keeps its answer over
  whole runs. `decommit` is exact if and only if its range has no unmapped gap before a region it touches.
  Accesses are checked at their first byte only; the exact condition under which that suffices is proved.
- **Heap** (`Heap`): first fit over a bump cursor. In every reachable state live blocks are disjoint and the
  heap validates, also after exhaustion; `realloc` keeps the bytes of every live block.
- **Loader rings** (`LoaderRings`): the three linked lists of loaded modules in guest memory, built on that
  heap. A Flink walk visits all modules in load order and closes after exactly n hops; Blink inverts Flink;
  the list head is outside its own ring, and its Blink is the last entry. If the guest has freed the loader data, the rebuild is complete exactly
  when first fit gives that block to none of its requests; a short module name is enough to break it.
- **COFF linker** (`Coff`, `LinkDriver`): bucket layout, the two offset passes, in-place relocation. Because the
  code leaves the copy's offset out, a linked field that no other relocation disturbs is right if and only if no
  earlier section of its name has bytes or the object file's own bytes already were the encoded target; this is
  one theorem about the whole linker, and the smallest failing link is followed to its bytes.
- **Coverage-guided fuzzing** (`Coverage`, `Snapshot`, `Mutators`, `FuzzCorpus`, `Fuzz`): a snapshot restore
  undoes a run if and only if the run was undoable, so coverage is a function of the input, so `globalSeen` is the union
  over all inputs executed, the duplicate test never blocks new coverage, and the corpus stays within its bounds.
  In every campaign, from its own seed phase on, the seeds kept and the children with new coverage are at most one
  more than the image has addresses.
- **Rules** (`RuleGrammar`, `RuleParser`, `RuleEval`): the condition parser accepts exactly the grammar, is
  inverse to printing, and negation-free conditions are monotone in the strings found.
- **Threads and APCs** (`Threads`): a re-entrant machine. Over every nesting each APC starts at most once, in
  its thread's order, and the caller's thread id, stack pointer and saved registers come back. Waits answer by the
  state of threads and events, and a name stands for one event throughout.
- **ELF** (`ElfStack`, `ElfFile`): the initial process stack reads back as pushed and the envp walk finds envp
  if and only if there are fewer than 64 arguments; any number of headers, and names if there are any, written by
  the fixture generator are read back by the triage reader.
- **Digests and bits** (`Crc32`, `HashPadding`, `Logic32`, `Md5`, `Sha256`, `Bits`, `Bitmask`): a four-byte burst always
  changes the CRC of a byte message; MD5 and SHA-256 equal the standards' folds over an injective padding, for exactly the
  message lengths the size computation survives; the Arm logical-immediate decoder returns the architecture's mask.
- **Differences and files** (`DiffClusters`, `Vfs`): byte diffs report the maximal clusters; a file handle
  refines a byte array with a cursor.

`Common` and `GuestMemory` hold what the modules share. `dafny verify dfyconfig.toml` checks everything.

Where the code and its own comments differ, the code is modelled: the heap's class comment speaks of coalescing
(nothing is merged); `mutSplice` says that the rest is filled with the existing bytes (it is zeroed); the linker
computes an offset per object copy and then leaves it out; events are created as manual or auto-reset, but no wait
ever resets one.

## Model

| member | source | states |
|---|---|---|
| RegionCuts.CutExact | packages/pe-runner/src/memory.mjs:105-123 | For any base-sorted table, overlaps allowed, after re-protecting or releasing a range every address still hits a piece of the region it hit before, with the new protection (or nothing) inside the range and unchanged outside |
| RegionCuts.CutSorted | packages/pe-runner/src/memory.mjs:120-121 | The rebuilt table is sorted by base |
| RegionCuts.DecommitExactIff | packages/pe-runner/src/memory.mjs:135-139 | Decommit turns exactly the mapped part of its range into reserved memory if and only if no unmapped gap of the range lies below a region it touches |
| RegionCuts.DecommitMapsAGap | packages/pe-runner/src/memory.mjs:138 | Concrete table whose unmapped page becomes reserved memory after a decommit |
| RegionCuts.MapExact | packages/pe-runner/src/memory.mjs:86-87 | A newly mapped region answers where it covers, unless an older region with the same or a lower base already covers the address |
| Regions.StableSortUnique | packages/pe-runner/src/memory.mjs:87 | A base-sorted table is determined by its order within each base, so the result does not depend on the stable sorting algorithm |
| Regions.SortStable | packages/pe-runner/src/memory.mjs:87 | Sorting keeps the regions of each base in their original order |
| Regions.SortSorted | packages/pe-runner/src/memory.mjs:87 | The sorted table is in base order |
| Regions.SortLookup | packages/pe-runner/src/memory.mjs:120-121 | When the regions covering an address are in base order already, sorting does not change which of them is hit first |
| MemoryManager.RunSorted | packages/pe-runner/src/memory.mjs:80-148 | Every run of map, protect, free and guest accesses keeps the table sorted |
| MemoryManager.RunFrame | packages/pe-runner/src/memory.mjs:80-181 | Over any run, an address that no command names keeps its protection, state and type |
| MemoryManager.ProtectionSticks | packages/pe-runner/src/memory.mjs:105-123 | A protection set on a mapped address holds over any continuation that does not name the address |
| MemoryManager.GuardOneShot | packages/pe-runner/src/memory.mjs:168-180 | An access to an armed guard region faults and disarms it; the next access there faults exactly when the remaining protection forbids it |
| MemoryManager.GuardIsLocal | packages/pe-runner/src/memory.mjs:160-181 | An access changes nothing an address of another region answers |
| MemoryManager.CheckedIsRight | packages/pe-runner/src/memory.mjs:160-181 | The same verdict for every table, kind of access and address, stated by region state and flag sets |
| MemoryManager.CutForProtect | packages/pe-runner/src/memory.mjs:108-119 | The rebuilding loop of protect computes the cut table and the first non-zero old protection |
| MemoryManager.CutForFree | packages/pe-runner/src/memory.mjs:129-144 | The rebuilding loop of free computes the cut table and whether anything was touched |
| MemoryManager.OldProtectIs | packages/pe-runner/src/memory.mjs:109-113 | The old protection is that of the first region met with a protection, or empty if none has one |
| MemoryManager.MemoryManager.MapRegion | packages/pe-runner/src/memory.mjs:82-94 | Aligns the base down; a region of positive size answers where it covers, unless an older one with the same or a lower base does; a non-positive size changes nothing |
| MemoryManager.MemoryManager.Find | packages/pe-runner/src/memory.mjs:96-102 | The first region of the table that covers the address |
| MemoryManager.MemoryManager.ProtectRegions | packages/pe-runner/src/memory.mjs:105-123 | At every address of the page-aligned range the protection becomes the new one, elsewhere and where nothing is mapped nothing changes; returns the protection of the first touched region that has one |
| MemoryManager.MemoryManager.FreeRegions | packages/pe-runner/src/memory.mjs:125-148 | At every address releasing unmaps the range and changes nothing else; decommitting changes nothing outside the range and reserves the mapped part inside it when no gap lies below a touched region; says whether anything was touched |
| MemoryManager.MemoryManager.QueryAt | packages/pe-runner/src/memory.mjs:150-156 | Reports the region found, or free memory |
| MemoryManager.MemoryManager.Access | packages/pe-runner/src/memory.mjs:160-204 | An address that is not bypassed faults when its region is reserved, when it is guarded, which disarms it, and otherwise exactly when the protection misses the flags for the kind of access; an unmapped one faults exactly for strict writes and strict fetches. Faults are recorded; an access of several bytes would pass byte by byte exactly when its first byte does and so does every later byte at which a region or bypassed range begins or ends |
| MemoryManager.AcceptsAllIff | packages/pe-runner/src/memory.mjs:160-203 | Every byte of a range is accepted if and only if its first byte and every byte at an edge inside it are |
| MemoryManager.StraddlingWriteAccepted | packages/pe-runner/src/memory.mjs:195-203 | Concrete eight-byte write from a writable page into a read-only one that is accepted, though its fifth byte alone is not |
| Heap.ReachableValidates | packages/pe-runner/src/memory.mjs:242-304 | Every heap any run of alloc, free and realloc reaches keeps the block invariant and validates, exhausted or not |
| Heap.LiveDisjoint | packages/pe-runner/src/memory.mjs:253-268 | Live payloads never overlap and are at least a header apart |
| Heap.AllocFresh | packages/pe-runner/src/memory.mjs:253-268 | The block handed out is live, large enough and apart from every block that was live |
| Heap.AllocKeepsLive | packages/pe-runner/src/memory.mjs:253-268 | Allocation keeps every live block |
| Heap.AllocAddsOne | packages/pe-runner/src/memory.mjs:253-268 | Allocation makes nothing else live |
| Heap.FirstFit | packages/pe-runner/src/memory.mjs:255-261 | The first free block that is large enough, or none |
| Heap.AllocBumps | packages/pe-runner/src/memory.mjs:262-268 | When no freed block fits, the block lies at the cursor, which moves to the first page boundary behind block and header, also when the request fails |
| Heap.ExhaustionSticks | packages/pe-runner/src/memory.mjs:263-264 | After a request has overrun the arena no run ever adds a block again: later allocations reuse freed blocks |
| Heap.ValidatesIff | packages/pe-runner/src/memory.mjs:295-303 | The scan accepts exactly the heaps whose blocks lie inside the arena in ascending order from its second page on |
| Heap.ReallocLiveIff | packages/pe-runner/src/memory.mjs:282-292 | The address realloc returns is live afterwards unless the block had been freed and was large enough |
| Heap.ReallocMoves | packages/pe-runner/src/memory.mjs:286-291 | A block that is too small is moved: it becomes free, every other live block stays live, and a live block with room is at another address; without room nothing is freed |
| Heap.ReallocElse | packages/pe-runner/src/memory.mjs:282-285 | A block with room stays where it is and an unknown address gets a new block |
| Heap.FreedBlockComesBack | packages/pe-runner/src/memory.mjs:282-292 | Concrete run in which realloc hands out a freed block, which is not live afterwards |
| Heap.MoveKeepsBytes | packages/pe-runner/src/memory.mjs:286-290 | Copying a block into a freshly allocated one keeps the bytes of every live block |
| Heap.AllocOwned | packages/pe-runner/src/memory.mjs:253-268 | The new block is in use afterwards, at an address no block in use has |
| Heap.OwnedApart | packages/pe-runner/src/memory.mjs:253-268 | Blocks in use are disjoint and inside the arena |
| Heap.RunKeepsHeld | packages/pe-runner/src/memory.mjs:242-304 | An address once handed out keeps its block, in use or freed, over every run of alloc, free and realloc |
| Heap.OnlyFreeBlockTaken | packages/pe-runner/src/memory.mjs:253-268 | In a heap with one free block a sequence of requests is given that block exactly when some request fits it |
| Heap.HeapAllocator.AllocBlock | packages/pe-runner/src/memory.mjs:253-268 | First fit, then bump; writes only the block handed out, and only when zeroing |
| Heap.HeapAllocator.FreeBlock | packages/pe-runner/src/memory.mjs:270-275 | Frees the block at the address and no other; false exactly for an unknown address |
| Heap.HeapAllocator.SizeOf | packages/pe-runner/src/memory.mjs:277-280 | Payload size of the block at the address, or zero |
| Heap.HeapAllocator.ReallocBlock | packages/pe-runner/src/memory.mjs:282-292 | A live block keeps its bytes wherever it ends up, and every other live block keeps its own |
| Heap.HeapAllocator.Validate | packages/pe-runner/src/memory.mjs:295-303 | True exactly when every block is inside the arena and the blocks ascend |
| LoaderRings.WalkVisits | packages/pe-runner/src/loader.mjs:165-187 | k hops from a head along any of the three rings reach entry k modulo n in load order, with its module's base |
| LoaderRings.WalkCloses | packages/pe-runner/src/loader.mjs:165-187 | Such a walk is back at the first entry after n hops and not before |
| LoaderRings.HeadIsNotInTheRing | packages/pe-runner/src/loader.mjs:165-187 | No number of hops reaches the list head |
| LoaderRings.BlinkInverts | packages/pe-runner/src/loader.mjs:171-174 | Blink undoes Flink, and Flink Blink, at every link of every ring |
| LoaderRings.HeadBlink | packages/pe-runner/src/loader.mjs:181-186 | The Blink of each of the three list heads is the last entry's link in that list |
| LoaderRings.WalkBackVisits | packages/pe-runner/src/loader.mjs:165-187 | From a head's Blink, k hops backwards along any of the three rings reach entry n - 1 - k modulo n, with its module's base |
| LoaderRings.EntryReads | packages/pe-runner/src/loader.mjs:165-180 | Every entry reads back base, entry point, size, and two name records with the length up to the first NUL and an address where the units stand |
| LoaderRings.RecordReads | packages/pe-runner/src/loader.mjs:138-186 | The loader data reads back its length and flag, and each list head the first and the last entry's link in its list |
| LoaderRings.LayoutAddressable | packages/pe-runner/src/loader.mjs:145-150 | Blocks of a heap below 2^64 - 256 satisfy what the walk results assume |
| LoaderRings.EntryWritten | packages/pe-runner/src/loader.mjs:165-180 | One entry's stores give its links, base, entry point, size and both name records, and touch nothing else |
| LoaderRings.LinksWritten | packages/pe-runner/src/loader.mjs:171-174 | The link loop writes the three Flink and Blink pairs and nothing else |
| LoaderRings.NameLen | packages/pe-runner/src/loader.mjs:159-163 | Length of a name up to its first NUL, at most 260 units |
| LoaderRings.MeasureName | packages/pe-runner/src/loader.mjs:159-163 | Measuring the name in guest memory gives twice that length |
| LoaderRings.RequestsAre | packages/pe-runner/src/loader.mjs:145-150 | The rebuild asks for 0x68 bytes per entry and then for each name's units and terminator |
| LoaderRings.Loader.RebuildLdr | packages/pe-runner/src/loader.mjs:132-189 | Unless the heap is exhausted, guest memory afterwards holds the loader data with length and flag set and zeros in the rest of what is wiped, complete rings over the modules in disjoint blocks that were not in use, and a PEB that points at them, whenever the loader data's block was in use; if the guest had freed it, with names free of NULs, exactly when the heap gives none of the rebuild's requests that block. Blocks in use before keep their bytes, outside the arena only the PEB pointer changes, and an empty list changes nothing |
| LoaderRings.NoEntryOverData | packages/pe-runner/src/loader.mjs:171-186 | Intact rings never have an entry in the loader data's block, whatever the names |
| LoaderRings.CompleteApart | packages/pe-runner/src/loader.mjs:138-186 | With names free of NULs no complete structure has an entry or a name in the loader data's block |
| LoaderRings.FreedRecordIsReused | packages/pe-runner/src/loader.mjs:138-150 | Concrete heap in which the guest has freed the loader data and the rebuild writes a module name over it |
| LoaderRings.Loader.BuildRings | packages/pe-runner/src/loader.mjs:145-186 | Entries, names and heads of a non-empty list, in blocks that were not in use, at the addresses first fit gives the requests; complete when none of them is the loader data's; all other blocks in use keep their bytes |
| LoaderRings.Loader.WriteEntry | packages/pe-runner/src/loader.mjs:165-180 | Writes one complete entry and nothing outside it |
| LoaderRings.Loader.PrepareData | packages/pe-runner/src/loader.mjs:135-143 | The loader data block is allocated once; on every rebuild it holds its length, the initialised flag and zeros elsewhere outside the list heads |
| Coff.CopyIntact | packages/compiler-worker/src/coff.mjs:119-127 | Each kept section's bytes lie intact in its bucket, 16-aligned, behind zero padding only |
| Coff.CopiesApart | packages/compiler-worker/src/coff.mjs:119-127 | Copies in one bucket do not overlap |
| Coff.StartsBucketIff | packages/compiler-worker/src/coff.mjs:122-127 | A copy starts its bucket exactly when every earlier section of the name is empty |
| Coff.SectionPlaced | packages/compiler-worker/src/coff.mjs:117-149 | The linked output holds every kept section intact at the tracked offset |
| Coff.SymbolsLast | packages/compiler-worker/src/coff.mjs:128-137 | A name is in the table exactly when some object exports it, and then at the copy of its last definition's section |
| Coff.DefinitionKept | packages/compiler-worker/src/coff.mjs:128-137 | Each exported definition that no later one replaces is in the finished table |
| Coff.TableHasExports | packages/compiler-worker/src/coff.mjs:128-137 | The finished table has a name exactly when some object exports it |
| Coff.TableIsLastExport | packages/compiler-worker/src/coff.mjs:128-137 | A name stands for its last external definition in a kept section: the symbol's value into that section's copy |
| Coff.PositionIs | packages/compiler-worker/src/coff.mjs:117-127 | A section's offset is its position in the concatenation of all objects |
| Coff.PlaceSection | packages/compiler-worker/src/coff.mjs:120-126 | Pads the bucket, notes the aligned offset and appends the data |
| Coff.PlaceObject | packages/compiler-worker/src/coff.mjs:117-127 | The section loop of one object extends every bucket and records the offsets of kept sections |
| Coff.Merge | packages/compiler-worker/src/coff.mjs:140-148 | Output sections are the concatenated chunks of the buckets that received anything |
| Coff.AddSymbols | packages/compiler-worker/src/coff.mjs:128-137 | The symbol loop of one object |
| Coff.LinkSections | packages/compiler-worker/src/coff.mjs:111-150 | Output sections and symbol table of any list of objects |
| LinkDriver.SectionsApart | packages/compiler-worker/src/linkdriver.mjs:24-31 | Output sections start on pages, above the headers, and do not overlap |
| LinkDriver.RvaTight | packages/compiler-worker/src/linkdriver.mjs:24-31 | In the order .text, .rdata, .data, .bss the first existing section is at 0x1000 and each later one at the first page boundary behind the one before |
| LinkDriver.NameIsRight | packages/compiler-worker/src/linkdriver.mjs:33-38 | An exported name has the address of the byte its last definition names in the linked section; any other name has the external address |
| LinkDriver.TargetIsRight | packages/compiler-worker/src/linkdriver.mjs:73-89 | The target of a relocation to a symbol in a kept section is the copy's offset plus the symbol's value from the start of that output section, where the linked bytes have the section's byte at that value; other symbols resolve by name, dangling ones to nothing |
| LinkDriver.FieldEncodes | packages/compiler-worker/src/linkdriver.mjs:101-140 | A patched REL32 field plus the address behind it gives the target, and the link fails exactly when the target is out of signed 32-bit reach; a 64-bit field holds the target, an ADDR32 field its low half |
| LinkDriver.ActIsRight | packages/compiler-worker/src/linkdriver.mjs:90-146 | What one relocation does, case by case: the displacement from behind the field in four bytes or an error beyond signed 32 bits, eight bytes or an error past the end, the low half, nothing for debug information, an error for other kinds |
| LinkDriver.LinkedField | packages/compiler-worker/src/linkdriver.mjs:63-149 | After all relocations every in-bounds field that overlaps no other holds its encoded value |
| LinkDriver.FieldByte | packages/compiler-worker/src/linkdriver.mjs:121-139 | A byte exactly one field covers holds that field's byte whatever the order of patching |
| LinkDriver.UntouchedByte | packages/compiler-worker/src/linkdriver.mjs:63-149 | A byte no field covers is the byte the section merge put there |
| LinkDriver.SucceedsIff | packages/compiler-worker/src/linkdriver.mjs:90-153 | Linking succeeds exactly when every relocation is applied or is debug information |
| LinkDriver.FirstErrorIs | packages/compiler-worker/src/linkdriver.mjs:114-118 | The error reported is that of the first relocation that fails |
| LinkDriver.MissingAre | packages/compiler-worker/src/linkdriver.mjs:90-94 | The names reported as unresolved are exactly those of relocations without a target |
| LinkDriver.OwnCopyIff | packages/compiler-worker/src/linkdriver.mjs:95-99 | A relocation patches its own section's copy if and only if that copy starts its bucket |
| LinkDriver.RelocationCorrect | packages/compiler-worker/src/linkdriver.mjs:63-149 | For a section whose earlier namesakes are all empty, after a successful link the field of each relocation that no other relocation disturbs encodes its target |
| LinkDriver.RelocationMissed | packages/compiler-worker/src/linkdriver.mjs:95-99 | For any other section such a field of its own copy is left as the object file had it, so it is right exactly when those bytes already encode the target |
| LinkDriver.AppliedRight | packages/compiler-worker/src/linkdriver.mjs:63-149 | Over all objects, sections and relocations at once: bytes no relocation hits are the merged ones, every target and every field's encoding is as TargetIsRight and ActIsRight say, and each otherwise undisturbed field is right exactly when no earlier namesake section has bytes or the object file was right already |
| LinkDriver.JobListed | packages/compiler-worker/src/linkdriver.mjs:63-72 | Every relocation of every kept section is carried out, at an explicit place in the order |
| LinkDriver.JobsOnly | packages/compiler-worker/src/linkdriver.mjs:63-72 | Nothing but the relocations of kept sections is carried out |
| LinkDriver.JobsInOrder | packages/compiler-worker/src/linkdriver.mjs:63-72 | They are carried out object by object, section by section, in the order listed |
| LinkDriver.PatchApplied | packages/compiler-worker/src/linkdriver.mjs:90-141 | A successful link stored, for each patching relocation of each kept section, the encoded target at its offset from the start of the linked section |
| LinkDriver.EntryIsRight | packages/compiler-worker/src/linkdriver.mjs:155-161 | The entry point is the byte that DriverEntry, else its decorated name, exports, else the start of .text at 0x1000 |
| LinkDriver.SecondObjectMisses | packages/compiler-worker/src/linkdriver.mjs:95-99 | Smallest failing link, down to the linked bytes: the second object's relocation overwrites the first object's patched field and its own field keeps the zeros of the object file |
| LinkDriver.InSequence | packages/compiler-worker/src/linkdriver.mjs:64-149 | Relocations of consecutive lists compose, and the first error decides |
| LinkDriver.SectionRvas | packages/compiler-worker/src/linkdriver.mjs:25-31 | The cursor loop gives each existing section its page-rounded slot |
| LinkDriver.TrackOffsets | packages/compiler-worker/src/linkdriver.mjs:44-61 | A second copy of the section loop, over buckets for the sections that exist only, comes to the offsets the merge used |
| LinkDriver.TrackObject | packages/compiler-worker/src/linkdriver.mjs:47-61 | One object of that pass |
| LinkDriver.StoreBytes | packages/compiler-worker/src/linkdriver.mjs:121-139 | Byte stores into a section buffer; those past its end have no effect |
| LinkDriver.Linker.SymAddr | packages/compiler-worker/src/linkdriver.mjs:33-38 | Address of a defined symbol, which points into its last definition's section bytes, else of the external one |
| LinkDriver.Linker.InternalAddr | packages/compiler-worker/src/linkdriver.mjs:78-86 | Address of a symbol by section and value: base, section start, offset of the object's copy and value |
| LinkDriver.Linker.Resolve | packages/compiler-worker/src/linkdriver.mjs:73-89 | Target of a relocation: internal, pointing at the byte of the section the symbol names, global, external, dangling or in a section that is not linked |
| LinkDriver.Linker.Relocate | packages/compiler-worker/src/linkdriver.mjs:72-147 | One relocation patches its field, records an unresolved name, or stops the link |
| LinkDriver.Linker.RelocateAll | packages/compiler-worker/src/linkdriver.mjs:63-149 | All relocations of all objects in order, up to the first error |
| LinkDriver.Linker.Link | packages/compiler-worker/src/linkdriver.mjs:63-161 | Succeeds exactly when no relocation fails or is unresolved; then the buffers hold every patch and the entry point is DriverEntry, its decorated name, or the start of .text |
| LinkDriver.LinkDriver | packages/compiler-worker/src/linkdriver.mjs:20-161 | The whole linker: it succeeds exactly when every relocation is applied or is debug information, and then sections, targets and fields are as AppliedRight says and the entry as EntryIsRight says; otherwise it reports the first error or all unresolved names |
| Coverage.Tracker.OnRip | packages/ntsim-analyzer/src/coverage.mjs:36-50 | The hook adds the address and the edge from the previous one, only when enabled and inside the image |
| Coverage.Tracker.Record | packages/ntsim-analyzer/src/coverage.mjs:69-82 | A run between reset and pause leaves exactly the executed addresses inside the image and, as edges, the pairs of them with no other in between |
| Coverage.PairsGrow | packages/ntsim-analyzer/src/coverage.mjs:42-48 | One more address adds exactly the edge from the address before it |
| Coverage.PairsIff | packages/ntsim-analyzer/src/coverage.mjs:36-50 | An edge is there exactly when its addresses were executed one after the other inside the image, with only outside addresses between |
| Coverage.AtMostImageSize | packages/ntsim-analyzer/src/coverage.mjs:41-43 | Coverage never has more addresses than the image |
| Snapshot.RestoreExactIff | packages/ntsim-analyzer/src/snapshot.mjs:16-215 | Restoring the snapshot taken before a run gives back the captured state exactly if and only if logs only grew and no counter name, log, register or flag field appeared or vanished |
| Snapshot.LogRestoredIff | packages/ntsim-analyzer/src/snapshot.mjs:122-129 | Truncating to the old length restores a log exactly when the old log is a prefix of the new one |
| Snapshot.ArchRestoredIff | packages/ntsim-analyzer/src/snapshot.mjs:137-151 | The architecture state is restored exactly when its event log grew and no counter was added |
| Snapshot.DiagRestoredIff | packages/ntsim-analyzer/src/snapshot.mjs:152-157 | The same for diagnostics |
| Snapshot.CpuRestoredIff | packages/ntsim-analyzer/src/snapshot.mjs:175-212 | Registers and flags are restored exactly when none was added and the flag fields are the same |
| Snapshot.KernelObject.RestoreFrom | packages/ntsim-analyzer/src/snapshot.mjs:117-215 | The in-place assignments compute the restored state; whatever kernel the snapshot was taken of is back if and only if what happened since was undoable |
| Mutators.XorshiftZeroIff | packages/ntsim-analyzer/src/fuzz.mjs:27-34 | The generator maps only zero to zero |
| Mutators.XorshiftExamples | packages/ntsim-analyzer/src/fuzz.mjs:27-34 | Two concrete steps that fix all three shifts of the linear generator |
| Mutators.FlippedByte | packages/ntsim-analyzer/src/fuzz.mjs:88-89 | Flipping a bit changes that bit and no other |
| Mutators.Generator.RandInt | packages/ntsim-analyzer/src/fuzz.mjs:41-44 | The next generator state modulo the bound; zero and no step of the generator for an empty range |
| Mutators.Generator.BitFlip | packages/ntsim-analyzer/src/fuzz.mjs:84-91 | Changes exactly one bit, or nothing in an empty input |
| Mutators.Generator.ByteFlip | packages/ntsim-analyzer/src/fuzz.mjs:93-99 | Complements exactly one byte |
| Mutators.Generator.Interesting8 | packages/ntsim-analyzer/src/fuzz.mjs:101-107 | Stores one listed byte value |
| Mutators.Generator.Interesting16 | packages/ntsim-analyzer/src/fuzz.mjs:109-117 | Stores one listed 16-bit value little-endian, or falls back to a byte |
| Mutators.Generator.Interesting32 | packages/ntsim-analyzer/src/fuzz.mjs:119-129 | Stores one listed 32-bit value little-endian, or falls back to a byte |
| Mutators.Generator.RandomByte | packages/ntsim-analyzer/src/fuzz.mjs:131-137 | Replaces one byte |
| Mutators.Generator.Splice | packages/ntsim-analyzer/src/fuzz.mjs:139-152 | A prefix of the input, then a suffix of a corpus entry, then zeros, in the input's length |
| Mutators.Generator.Resize | packages/ntsim-analyzer/src/fuzz.mjs:154-169 | A length eight shorter to seven longer within 1 to 256, or a listed one, with the common prefix kept |
| Mutators.Generator.Edit | packages/ntsim-analyzer/src/fuzz.mjs:175-185 | The next random number modulo eight picks which of the eight strategies is applied |
| Mutators.Generator.Havoc | packages/ntsim-analyzer/src/fuzz.mjs:171-188 | One to four single edits, each on the result of the one before |
| Mutators.Generator.MutateSingle | packages/ntsim-analyzer/src/fuzz.mjs:190-201 | The mutant is one single edit of the parent or a stack of one to four; the next random number modulo 100 picks which, by the code's thresholds |
| Mutators.MutantLength | packages/ntsim-analyzer/src/fuzz.mjs:84-201 | However edits are stacked, the length stays or ends between 1 and 256 |
| FuzzCorpus.ObservedKeepsInv | packages/ntsim-analyzer/src/fuzz.mjs:349-379 | One main-loop step keeps: globalSeen is the union over executed inputs, at most corpusCap distinct entries each with exactly its own coverage, and a non-empty corpus |
| FuzzCorpus.ObservedMeans | packages/ntsim-analyzer/src/fuzz.mjs:349-379 | What one main-loop step does with a child, in full: when it enters, what is dropped at the cap, what hit counts and best entry become |
| FuzzCorpus.SeedKeepsInv | packages/ntsim-analyzer/src/fuzz.mjs:312-327 | One seed-phase step keeps the same |
| FuzzCorpus.NewIsNotHad | packages/ntsim-analyzer/src/fuzz.mjs:352-357 | The duplicate test never holds back an input with new coverage |
| FuzzCorpus.CappedKeeps | packages/ntsim-analyzer/src/fuzz.mjs:362-372 | Eviction leaves between one and corpusCap of the entries |
| FuzzCorpus.NoveltyBounded | packages/ntsim-analyzer/src/fuzz.mjs:340-382 | Over a run of main-loop steps, children with new coverage are at most as many as the addresses they add |
| FuzzCorpus.NovelIs | packages/ntsim-analyzer/src/fuzz.mjs:352-357 | The children counted are those with a block nobody had before |
| FuzzCorpus.OneMoreSeed | packages/ntsim-analyzer/src/fuzz.mjs:317-323 | The admission test for one more seed continues the seed phase's result |
| FuzzCorpus.SeedKeptIff | packages/ntsim-analyzer/src/fuzz.mjs:317-323 | A seed is kept exactly when it is the first or has a block no earlier seed has |
| FuzzCorpus.SeedsNovel | packages/ntsim-analyzer/src/fuzz.mjs:312-327 | After the first, every seed kept has added an address |
| FuzzCorpus.SumHitsTake | packages/ntsim-analyzer/src/fuzz.mjs:363-367 | The score does not depend on the order the set of blocks is walked in |
| FuzzCorpus.HitsCountSharing | packages/ntsim-analyzer/src/fuzz.mjs:205-213 | Summing up hit counts block by block counts the blocks shared with each entry |
| FuzzCorpus.ScoreIsSharing | packages/ntsim-analyzer/src/fuzz.mjs:205-242 | An entry's score is the number of blocks it shares with the entries of the corpus, per block of its own |
| FuzzCorpus.ComputeScore | packages/ntsim-analyzer/src/fuzz.mjs:363-367 | Average hit count of an entry's blocks, with the caller's value for an entry without blocks |
| FuzzCorpus.BuildHitCounts | packages/ntsim-analyzer/src/fuzz.mjs:205-213 | For each block the number of entries that cover it |
| FuzzCorpus.FindWorst | packages/ntsim-analyzer/src/fuzz.mjs:363-371 | The first entry of highest score is evicted |
| FuzzCorpus.FirstSuccessIsFirst | packages/ntsim-analyzer/src/fuzz.mjs:329-337 | The best seed is the first successful entry |
| Fuzz.Rank | packages/ntsim-analyzer/src/fuzz.mjs:219-229 | Ranks all entries by increasing score, equal scores in corpus order |
| Fuzz.PickParent | packages/ntsim-analyzer/src/fuzz.mjs:215-242 | Draws from the pool, the lowest-scored third of the corpus and at most three, with the given random number and weights whose product with score + 1 is one; fewer entries are rarer than the chosen parent than the pool size |
| Fuzz.RarerWeighsMore | packages/ntsim-analyzer/src/fuzz.mjs:232-241 | Of two pooled entries one is strictly rarer exactly when its weight is strictly larger |
| Fuzz.Draw | packages/ntsim-analyzer/src/fuzz.mjs:234-241 | The weighted draw: the first index at which the random share of the total weight is used up, else the first of all |
| Fuzz.Fuzzer.RunInput | packages/ntsim-analyzer/src/fuzz.mjs:287-309 | The kernel is back in its initial state and the whole entry, coverage and result, is that of the input alone |
| Fuzz.Fuzzer.CoverIs | packages/ntsim-analyzer/src/fuzz.mjs:287-309 | The coverage of an input is the set of addresses inside the image that its run executes |
| Fuzz.Fuzzer.SeedPhase | packages/ntsim-analyzer/src/fuzz.mjs:312-337 | Keeps exactly the first seed and any later one that adds coverage, best is the first success among them, hit counts miss the last seed when a full corpus or a stopped kernel ends the phase, and it ends only so, at the end of the seeds or at twice the cap |
| Fuzz.Fuzzer.TrySeed | packages/ntsim-analyzer/src/fuzz.mjs:313-322 | One seed is executed and kept if it adds coverage or is the first |
| Fuzz.Fuzzer.FindBest | packages/ntsim-analyzer/src/fuzz.mjs:329-337 | The first successful entry of the corpus |
| Fuzz.Fuzzer.Observe | packages/ntsim-analyzer/src/fuzz.mjs:352-379 | Admission, eviction and best entry follow the main loop's rules |
| Fuzz.Fuzzer.Iterate | packages/ntsim-analyzer/src/fuzz.mjs:340-392 | One iteration executes an edit, or a stack of edits, of the parent that the weighted draw picks for the generator's next number, and follows the admission rule with exactly that input's entry |
| Fuzz.Fuzzer.RunCampaign | packages/ntsim-analyzer/src/fuzz.mjs:311-394 | A whole campaign ends with the initial kernel and the corpus invariant; every iteration is done on a kernel that was not crashed; the executed inputs are a prefix of the seeds and then the children; the main loop's states begin with what the seed phase made of exactly that prefix, follow the admission rule child by child and end in the final state; kept seeds and children with new coverage together are at most one more than the image has addresses |
| Fuzz.AdmissionsBounded | packages/ntsim-analyzer/src/fuzz.mjs:311-392 | That bound, for any seed phase and any run of the main loop whose coverage lies in an address range |
| RuleParser.ParseIffDerived | packages/triage/src/rules.mjs:153-226 | The parser accepts a token list with a tree exactly when the or/and/not/primary grammar derives it with that left-associative tree |
| RuleParser.Unambiguous | packages/triage/src/rules.mjs:153-226 | All derivations of a token list give one tree |
| RuleParser.PrintParse | packages/triage/src/rules.mjs:153-226 | Printing any tree with the parentheses it needs and parsing it gives the tree back |
| RuleParser.Binding | packages/triage/src/rules.mjs:164-186 | For any operands: and binds tighter than or, not tighter than and, and both operators associate to the left |
| RuleParser.Primaries | packages/triage/src/rules.mjs:187-221 | What each primary parses to, and parentheses around any derived condition |
| RuleParser.OrParsed | packages/triage/src/rules.mjs:164-171 | A derived or-expression is consumed whole |
| RuleParser.OrSound | packages/triage/src/rules.mjs:164-171 | Whatever is accepted has a derivation of exactly the consumed tokens |
| RuleParser.Parser.OrExpr | packages/triage/src/rules.mjs:164-171 | The loop returns the tree and leaves the cursor behind it, or the error |
| RuleParser.Parser.AndExpr | packages/triage/src/rules.mjs:172-179 | The same for and |
| RuleParser.Parser.NotExpr | packages/triage/src/rules.mjs:180-186 | The same for not |
| RuleParser.Parser.Primary | packages/triage/src/rules.mjs:187-221 | The same for primaries, with each of their errors |
| RuleParser.Parser.Condition | packages/triage/src/rules.mjs:223-225 | Parses all tokens or reports trailing ones |
| RuleEval.Monotone | packages/triage/src/rules.mjs:255-276 | A negation-free condition that holds still holds when more strings are found |
| RuleEval.ScanMonotone | packages/triage/src/rules.mjs:302-320 | The same for scans of one rule, without side condition |
| RuleEval.PushedMeans | packages/triage/src/rules.mjs:255-276 | Pushing negations down to the leaves keeps what a condition says |
| RuleEval.AndOrBounds | packages/triage/src/rules.mjs:257-258 | And implies both sides, either side implies or, and both are idempotent |
| RuleEval.SizeComparisons | packages/triage/src/rules.mjs:265-273 | The file size compares as each operator says, for every size |
| RuleEval.AllOfThemIff | packages/triage/src/rules.mjs:261 | "all of them" holds exactly when there are strings, all are found and their ids are distinct |
| RuleEval.CountIff | packages/triage/src/rules.mjs:262 | "n of them" holds exactly when there are n different found ids, or as many as there are strings |
| RuleEval.StringIff | packages/triage/src/rules.mjs:260 | A string's name holds exactly when a string of that id is found |
| RuleEval.RepeatedIdNeverAll | packages/triage/src/rules.mjs:261 | Concrete rule in which every string is found and "all of them" fails, because two share an id |
| RuleEval.AnyOfThemIff | packages/triage/src/rules.mjs:262 | "any of them" holds exactly when some string is found or the rule has none |
| RuleEval.HitIdsSize | packages/triage/src/rules.mjs:305-318 | The set of found ids is as large as the list of strings exactly when all are found and ids are distinct |
| RuleEval.TokenMeaning | packages/triage/src/rules.mjs:24-38 | A hex token matches a byte exactly when each nibble it spells is the byte's nibble; "?" and "??" match every byte |
| RuleEval.AllHits | packages/triage/src/rules.mjs:57-61 | All matching offsets, in increasing order |
| RuleEval.MatchesAt | packages/triage/src/rules.mjs:58-60 | The inner loop decides whether the masked pattern matches at an offset |
| RuleEval.FindBytes | packages/triage/src/rules.mjs:52-65 | The first 64 matching offsets, none for an empty or too long pattern |
| RuleEval.FirstHits | packages/triage/src/rules.mjs:52-65 | The offsets listed are the smallest matching ones: whatever is missing lies behind the 64th |
| Threads.StartedOnceInOrder | packages/pe-runner/src/threads.mjs:104-110 | No APC is started twice, and of two for one thread the one queued first starts first |
| Threads.ShiftKeepsInv | packages/pe-runner/src/threads.mjs:104-108 | Taking an APC off its queue keeps the order of all threads and loses none |
| Threads.QueueKeepsInv | packages/pe-runner/src/threads.mjs:255-260 | Queueing keeps the order of all threads and loses none |
| Threads.ThreadManager.RunThread | packages/pe-runner/src/threads.mjs:47-68 | Whatever the routine does, thread id, stack pointer and callee-saved registers are restored, the thread has exited, and its operations were executed under its id, in order, up to one that stops it |
| Threads.ThreadManager.Leave | packages/pe-runner/src/threads.mjs:62-68 | The finally block restores the caller and marks the thread exited |
| Threads.ThreadManager.MakeThread | packages/pe-runner/src/threads.mjs:76-90 | A fresh handle whose thread has run its routine and finished when it is returned |
| Threads.ThreadManager.IsSignalled | packages/pe-runner/src/threads.mjs:92-98 | A thread is pending until it has exited, an event while its state is false; everything else, also mutexes and unknown handles, is signalled |
| Threads.ThreadManager.CreateMutex | packages/pe-runner/src/threads.mjs:209-216 | Always a fresh handle |
| Threads.ThreadManager.SignalEvent | packages/pe-runner/src/threads.mjs:193-207 | Setting, resetting and pulsing change that event's state only |
| Threads.ThreadManager.CreateEvent | packages/pe-runner/src/threads.mjs:175-190 | An open name gives its event unchanged; otherwise the handle is fresh among all kinds of objects |
| Threads.ThreadManager.QueueApc | packages/pe-runner/src/threads.mjs:255-263 | Appends to the queue of the handle's thread, or of the current one |
| Threads.ThreadManager.RunOldest | packages/pe-runner/src/threads.mjs:104-110 | The oldest APC of the current thread is started |
| Threads.ThreadManager.DrainApcs | packages/pe-runner/src/threads.mjs:100-114 | The current thread's queue is empty afterwards and each APC ever queued for it has been started and its routine run, even when routines queue or drain again |
| Threads.ThreadManager.SleepEx | packages/pe-runner/src/threads.mjs:250-254 | Answers 0x192 exactly when it is alertable and APCs were queued, which it runs; otherwise 0 without any effect |
| Threads.ThreadManager.Call | packages/pe-runner/src/threads.mjs:53-61 | Any finite guest program keeps the invariants and returns to the thread that called; its operations were executed in order up to one that may stop it or the end of the budget |
| Threads.ThreadManager.WaitForSingleObjectEx | packages/pe-runner/src/threads.mjs:224-231 | An alertable wait answers 0xC0 exactly when APCs were queued; any other wait changes nothing and answers 0x102 exactly when it is not infinite and the object is a thread that has not exited or an event whose state is false, else 0; never a timeout for a returned thread handle |
| Threads.ThreadManager.WaitForMultipleObjects | packages/pe-runner/src/threads.mjs:232-241 | Times out exactly when it is not infinite and some of the first 64 objects, or for any of them all, are pending |
| Threads.ThreadManager.WaitForMultipleObjectsEx | packages/pe-runner/src/threads.mjs:232-245 | The same for several handles: 0xC0 exactly when APCs were queued, else 0x102 exactly when the wait is not infinite and some of the first 64 objects is pending where all are asked for, or all of them where any is, else 0 |
| ElfStack.StackBuilder.Build | packages/elf-runner/src/index.mjs:173-212 | From the final stack pointer one reads argc, the argument strings, NULL, the environment strings, NULL and the auxiliary vector; nothing above the stack top changes; the auxiliary vector is 16-byte aligned |
| ElfStack.AlignedIff | packages/elf-runner/src/index.mjs:197-212 | The final stack pointer is aligned exactly when arguments and environment strings are odd in number |
| ElfStack.TableReadsBack | packages/elf-runner/src/index.mjs:197-210 | The words on the stack read back as those tables |
| ElfStack.Auxv | packages/elf-runner/src/index.mjs:187-196 | Eight auxiliary entries ending in AT_NULL |
| ElfStack.AuxFinds | packages/elf-runner/src/index.mjs:187-196 | What a program finds under every kind: entry point, headers with size and number, page size, base and path, and nothing else |
| ElfStack.StackBuilder.PushString | packages/elf-runner/src/index.mjs:177-182 | A NUL-terminated string below everything pushed before |
| ElfStack.StackBuilder.PushStrings | packages/elf-runner/src/index.mjs:183-184 | All strings, each at its returned pointer |
| ElfStack.StackBuilder.PushAuxv | packages/elf-runner/src/index.mjs:198-202 | The vector, filled upwards |
| ElfStack.StackBuilder.PushWords | packages/elf-runner/src/index.mjs:205-208 | Pointers pushed last to first read in order |
| ElfStack.StackBuilder.PushTables | packages/elf-runner/src/index.mjs:203-210 | argc and both NULL-terminated pointer tables |
| ElfStack.EnvpWalk | packages/elf-runner/src/index.mjs:289-298 | The word behind the first zero among 64, else NULL |
| ElfStack.WalkFindsEnvp | packages/elf-runner/src/index.mjs:289-298 | On a stack built above the walk lands on the first envp slot if and only if there are fewer than 64 arguments |
| ElfFile.RoundTrip | packages/triage/src/elf.mjs:34-94 | A buffer that carries the written headers, with or without a section name table, is read back with every header field the reader reads, every section name cut at 64 characters, interpreter, stack and relocation flags; without section headers it has no sections, without a valid name index no names, and without a PT_LOAD it is refused |
| ElfFile.WriteImage | tools/gen-elf-fixtures.mjs:44-112 | Writing headers, and the name table if there is one, into disjoint regions lays out all of them and leaves every other byte alone; empty regions may lie anywhere |
| ElfFile.PutNames | tools/gen-elf-fixtures.mjs:103-112 | The name table, and nothing outside it |
| ElfFile.ChainWritten | tools/gen-elf-fixtures.mjs:26-32 | Stores at ascending offsets all read back, modulo their width, and touch nothing outside |
| ElfFile.Strtab | tools/gen-elf-fixtures.mjs:103-112 | The table and, for each name, an offset that stands for it |
| ElfFile.NameInTable | tools/gen-elf-fixtures.mjs:103-112 | At its offset each name is followed by a NUL |
| ElfFile.PutAll | tools/gen-elf-fixtures.mjs:45-90 | The stores of one header, in order |
| ElfFile.PutField | tools/gen-elf-fixtures.mjs:26-32 | One little-endian store, wrapped to its width |
| ElfFile.CStrReads | packages/triage/src/elf.mjs:22-26 | A NUL-terminated string is read whole or cut at the maximum |
| ElfFile.NameRead | packages/triage/src/elf.mjs:93-94 | The name at an offset of the table is the name put there |
| ElfFile.PhdrRead | packages/triage/src/elf.mjs:56-65 | A written program header reads back field by field |
| ElfFile.ShdrRead | packages/triage/src/elf.mjs:82-91 | A written section header reads back, except the two fields the reader skips |
| ElfFile.EhdrRead | packages/triage/src/elf.mjs:36-50 | A written file header passes every check and reads back |
| ElfFile.ReadPhdrs | packages/triage/src/elf.mjs:52-66 | The loop stops at the first header that does not fit |
| ElfFile.FindPhdr | packages/triage/src/elf.mjs:71-75 | The first program header of a type |
| ElfFile.ReadShdrs | packages/triage/src/elf.mjs:78-92 | The same for section headers |
| ElfFile.ParseElf | packages/triage/src/elf.mjs:34-94 | Every result and every refusal of the reader |
| ElfFile.GetIs | packages/triage/src/elf.mjs:16-21 | The integers are read low byte first |
| ElfFile.RefusedIff | packages/triage/src/elf.mjs:36-69 | Each refusal by the bytes of the file: magic, class, machine, and no loadable segment in a file that is not an object file |
| ElfFile.SegmentsMean | packages/triage/src/elf.mjs:70-76 | The stack is executable exactly when the first PT_GNU_STACK header has its lowest flag; relocations are read-only exactly when there is a PT_GNU_RELRO header; the first PT_INTERP header gives the interpreter |
| ElfFile.ReadFrom | packages/triage/src/elf.mjs:39-66 | Type, entry and program headers were read where the file header says, up to the first that does not fit |
| ElfFile.SectionsReadFrom | packages/triage/src/elf.mjs:78-94 | The sections were read back to back where the file header says, up to the first that does not fit, with names from the indexed table |
| Crc32.BurstDetected | packages/triage/src/apihash.mjs:79-86 | Two byte messages of one length that differ only inside a window of four bytes have different checksums |
| Crc32.WideUnitsCollide | packages/triage/src/apihash.mjs:79-86 | Concrete pair of names with a character above 255 that agree |
| Crc32.WindowIff | packages/triage/src/apihash.mjs:79-86 | For characters of any width the checksums of messages that differ only in such a window agree exactly when the difference is zero as a word |
| Crc32.StepLinear | packages/triage/src/apihash.mjs:83 | One bit step distributes over exclusive or |
| Crc32.StepsZeroIff | packages/triage/src/apihash.mjs:83 | Steps are one-to-one |
| Crc32.FoldLinear | packages/triage/src/apihash.mjs:80-84 | The registers of two messages differ by the register of their difference |
| Crc32.FoldWord | packages/triage/src/apihash.mjs:80-84 | Feeding up to four bytes, or three wide characters, is feeding their word at once |
| Crc32.Branchless | packages/triage/src/apihash.mjs:83 | The negated low bit masks the polynomial exactly for odd registers |
| Crc32.ComputeCrc | packages/triage/src/apihash.mjs:79-86 | The loop computes the checksum, for characters of any 16-bit value |
| Crc32.CheckValue | packages/triage/src/apihash.mjs:79-86 | The checksum of the digits 1 to 9 is the published check value of CRC-32 |
| Crc32.FeedByte | packages/triage/src/apihash.mjs:82-83 | The inner loop feeds one character |
| HashPadding.PadSizeExact | packages/triage/src/md5.mjs:27 | Below 2^31 - 72 bytes the shift expression is the next multiple of 64 with room for nine bytes; from there on it is smaller than the message |
| HashPadding.PaddingUnique | packages/triage/src/md5.mjs:26-32 | Message, marker, fewest zeros and length determine the padded bytes |
| HashPadding.PaddingInjective | packages/triage/src/md5.mjs:26-32 | No two accepted messages pad to the same bytes |
| HashPadding.Pad | packages/triage/src/md5.mjs:82-88 | Padding succeeds exactly below that length and gives a padded message in the hash's byte order |
| HashPadding.LengthField | packages/triage/src/md5.mjs:31-32 | Two 32-bit stores give the 64-bit length |
| Md5.Md5 | packages/triage/src/md5.mjs:24-62 | The printed digest is that of the fold of RFC 1321's block function over the padded message |
| Md5.InitialBytes | packages/triage/src/md5.mjs:34 | The registers start as the sixteen bytes the RFC lists |
| Md5.WordsRead | packages/triage/src/md5.mjs:38 | The words are the block's bytes, low byte first |
| Md5.Compress | packages/triage/src/md5.mjs:39-49 | 64 steps on four rotating variables compute the 64 operations of RFC 1321 section 3.4 |
| Md5.OneOperation | packages/triage/src/md5.mjs:40-49 | One loop pass is one operation on the register whose turn it is |
| Md5.OperationUndone | packages/triage/src/md5.mjs:40-49 | Each operation is undone by the inverse rotation and subtractions |
| Md5.OperationsInjective | packages/triage/src/md5.mjs:39-49 | A block's 64 operations map different states to different states |
| Md5.BlockAdds | packages/triage/src/md5.mjs:50-53 | What a block adds to the state is its operations' result |
| Md5.WordsAgree | packages/triage/src/md5.mjs:42-45 | The index formulas give the word numbers the RFC lists |
| Md5.ShiftsAgree | packages/triage/src/md5.mjs:8-13 | The shift table gives the amounts the RFC lists |
| Md5.FirstRound | packages/triage/src/md5.mjs:42 | The first round's function chooses between its last two arguments by the first |
| Md5.SecondRound | packages/triage/src/md5.mjs:43 | The second chooses between the first two by the last |
| Md5.ThirdRound | packages/triage/src/md5.mjs:44 | The third takes the parity |
| Md5.FourthRound | packages/triage/src/md5.mjs:45 | The fourth complements the second argument where the first has ones or the third has none |
| Logic32.SelectIsG | packages/triage/src/md5.mjs:43 | The second round's expression is the RFC's G |
| Logic32.RotlRotates | packages/triage/src/md5.mjs:18 | The shift expression rotates |
| Sha256.Sha256 | packages/triage/src/md5.mjs:66-116 | The printed digest is that of the fold of FIPS 180-4 section 6.2.2 over the padded message |
| Sha256.Expand | packages/triage/src/md5.mjs:93-98 | The array holds the message schedule |
| Sha256.WordsRead | packages/triage/src/md5.mjs:93 | The words are the block's bytes, high byte first |
| Sha256.ScheduleBack | packages/triage/src/md5.mjs:93-98 | Sixteen consecutive schedule words give the one in front of them |
| Sha256.Compress | packages/triage/src/md5.mjs:99-109 | The sequential assignments perform the 64 rounds |
| Sha256.RoundUndone | packages/triage/src/md5.mjs:99-109 | Each round is undone from its output |
| Sha256.RoundsInjective | packages/triage/src/md5.mjs:99-109 | A block's 64 rounds map different states to different states |
| Sha256.BlockAdds | packages/triage/src/md5.mjs:110-113 | What a block adds to the hash value is its rounds' result |
| Logic32.RotrRotates | packages/triage/src/md5.mjs:91 | The shift expression rotates |
| Logic32.ChChooses | packages/triage/src/md5.mjs:102 | Ch chooses between its last two arguments by the first |
| Logic32.MajAgrees | packages/triage/src/md5.mjs:105 | Wherever the first two arguments agree, Maj agrees with them |
| Logic32.MajAgreesOuter | packages/triage/src/md5.mjs:105 | The same for the first and the last |
| Logic32.MajAgreesLast | packages/triage/src/md5.mjs:105 | The same for the last two |
| Logic32.SumsRotate | packages/triage/src/md5.mjs:95-104 | The four sigma functions are exclusive ors of the standard's rotations and shifts |
| Bitmask.DecodeBitmask | packages/ntsim-analyzer/src/aarch64.mjs:44-56 | Accepts exactly the encodings whose element has at least two bits and fits the width, and returns the mask in which bit i is set exactly when ((i + r) mod esize) <= s |
| Bitmask.HighestSetBit | packages/ntsim-analyzer/src/aarch64.mjs:38-41 | The highest set bit below the bound, or -1 |
| Bitmask.Expand | packages/ntsim-analyzer/src/aarch64.mjs:47-55 | Rotates a run of ones and replicates the element |
| Bitmask.ElementBit | packages/ntsim-analyzer/src/aarch64.mjs:51-52 | Bits of one rotated element |
| Bitmask.RepeatBit | packages/ntsim-analyzer/src/aarch64.mjs:53-54 | Replication is periodic |
| Bitmask.DecodedBits | packages/ntsim-analyzer/src/aarch64.mjs:53-55 | Bits of the replicated mask within the width |
| Bitmask.DecodingUnique | packages/ntsim-analyzer/src/aarch64.mjs:43-56 | The bit condition determines the mask |
| Bitmask.OnesInMask | packages/ntsim-analyzer/src/aarch64.mjs:43-56 | The mask has s + 1 ones per element |
| Bitmask.ReservedIffAllOnes | packages/ntsim-analyzer/src/aarch64.mjs:43-56 | A mask is all ones exactly when its encoding has the all-ones element, which the architecture reserves (DecodeBitmask states that the decoder accepts it) |
| DiffClusters.DiffSection | packages/ntsim-analyzer/src/selfmod.mjs:54-75 | Counts every changed byte and reports the first maxRanges maximal clusters in order |
| DiffClusters.ClusteringUnique | packages/ntsim-analyzer/src/selfmod.mjs:54-75 | Two buffers have one clustering |
| DiffClusters.OpenCluster | packages/ntsim-analyzer/src/selfmod.mjs:65-73 | A change beyond the gap opens a cluster |
| DiffClusters.ExtendCluster | packages/ntsim-analyzer/src/selfmod.mjs:65-73 | A change within the gap extends the last one |
| DiffClusters.SkipUnchanged | packages/ntsim-analyzer/src/selfmod.mjs:64-65 | An equal byte changes nothing |
| DiffClusters.DiffBuffers | packages/shellcode-runner/src/index.mjs:87-105 | Runs of changed bytes are the clusters of gap one, the first 256 are listed, and all changed bytes are counted |
| DiffClusters.RunsAreSolid | packages/shellcode-runner/src/index.mjs:91-99 | Every byte of a run has changed |
| DiffClusters.RunLengthsSum | packages/shellcode-runner/src/index.mjs:95-103 | The run lengths add up to the number of changed bytes |
| Vfs.HandleRefinesCursor | packages/pe-runner/src/win32.mjs:417-454 | Over any run within the size limit a handle is a byte array with a cursor |
| Vfs.WriteIsCursorWriteIff | packages/pe-runner/src/win32.mjs:434-454 | A write is a cursor write if and only if it ends within one mebibyte |
| Vfs.FullFileDropsWrite | packages/pe-runner/src/win32.mjs:434-454 | Concrete write of one byte at the end of a full file that is dropped |
| Vfs.ReadAfterWrite | packages/pe-runner/src/win32.mjs:417-454 | What was written is read back from where it was written |
| Vfs.NormIdempotent | packages/pe-runner/src/win32.mjs:96 | Normalising a path twice is normalising it once |
| Vfs.FileSystem.CreateFile | packages/pe-runner/src/win32.mjs:383-399 | A non-truncating open gets the contents of the latest write to the normalised path, else the seeded file, else nothing; a truncating one starts empty |
| Vfs.FileSystem.ReadFile | packages/pe-runner/src/win32.mjs:417-433 | The bytes from the cursor on, at most one mebibyte, and the cursor moves past them; zeros, at most a page, for a handle that is no file |
| Vfs.FileSystem.WriteFile | packages/pe-runner/src/win32.mjs:434-454 | Changes the handle's own copy and publishes it under the normalised path; succeeds without effect for a handle that is no file |
| Vfs.FileSystem.SetFilePointer | packages/pe-runner/src/win32.mjs:480-488 | Moves the cursor by the distance from the start, the cursor or the end, not below zero; nothing for a handle that is no file |
| Threads.ThreadManager.Enter | packages/pe-runner/src/threads.mjs:51-54 | The new thread runs under its own id on a 16-byte aligned stack |
| Threads.ThreadManager.Register | packages/pe-runner/src/threads.mjs:77-86 | A fresh handle and thread id for a thread that has not exited |
| Threads.ThreadManager.Shift | packages/pe-runner/src/threads.mjs:104-107 | Takes the oldest APC of the current thread, which is thereby started |
| Threads.ThreadManager.Execute | packages/pe-runner/src/threads.mjs:116-263 | Every handler operation keeps the invariants, uses up budget and is recorded; operations that run no guest code have exactly their effect on events, queues and registers, and a created thread has run its routine |
| LinkDriver.Linker.RelocateSection | packages/compiler-worker/src/linkdriver.mjs:72-147 | The relocations of one section in order, up to the first error |
| LinkDriver.Linker.RelocateObject | packages/compiler-worker/src/linkdriver.mjs:66-148 | Those of the kept sections of one object |
| LinkDriver.Linker.StoreField | packages/compiler-worker/src/linkdriver.mjs:121-139 | Changes one section buffer at one field only |
| LinkDriver.ErrorStays | packages/compiler-worker/src/linkdriver.mjs:114-118 | An error in an initial part of the relocations is the error of all of them |
| LoaderRings.Loader.Take | packages/pe-runner/src/loader.mjs:145-150 | A zeroed block that was not in use, apart from every block in use, whose bytes all stay |
| LoaderRings.Loader.TakeEntries | packages/pe-runner/src/loader.mjs:145 | One block per module, pairwise apart, at the addresses first fit gives |
| LoaderRings.Loader.TakeName | packages/pe-runner/src/loader.mjs:146-150 | A block holding the name, its terminator and zeros |
| LoaderRings.Loader.TakeNames | packages/pe-runner/src/loader.mjs:146-150 | One name block per module, apart from every entry, at the addresses first fit gives |
| LoaderRings.Loader.WriteUstr | packages/pe-runner/src/loader.mjs:152-158 | Writes a name record with the measured length |
| LoaderRings.Loader.WriteEntries | packages/pe-runner/src/loader.mjs:165-180 | All entries of the ring, each intact, and all names still in place |
| LoaderRings.Loader.WriteHeads | packages/pe-runner/src/loader.mjs:181-186 | First and last entry in the three list heads complete the rings |
| Coverage.Tracker.Reset | packages/ntsim-analyzer/src/coverage.mjs:69-73 | Forgets all addresses, edges and the previous address |
| Coverage.Tracker.Pause | packages/ntsim-analyzer/src/coverage.mjs:75-77 | Disables the hook |
| Coverage.Tracker.Resume | packages/ntsim-analyzer/src/coverage.mjs:79-82 | Enables the hook and forgets the previous address |
| ElfFile.PutPhdrs | tools/gen-elf-fixtures.mjs:66-76 | All program headers in a row, and nothing outside them |
| ElfFile.PutShdrs | tools/gen-elf-fixtures.mjs:78-90 | All section headers in a row, and nothing outside them |
| ElfFile.ReadCStr | packages/triage/src/elf.mjs:22-26 | The character loop of cstr |
| ElfFile.SectionsRead | packages/triage/src/elf.mjs:78-94 | All section headers and names of a laid-out image |
| ElfStack.StackBuilder.PushWord | packages/elf-runner/src/index.mjs:203-210 | One word below the table built so far |
| Snapshot.OptionalLogRestoredIff | packages/ntsim-analyzer/src/snapshot.mjs:159-167 | A log that may be missing is restored exactly when it is missing on both sides or grew |
| Snapshot.CountsRestoredIff | packages/ntsim-analyzer/src/snapshot.mjs:147 | Assigning the old counters over the new ones restores them exactly when none was added |
| Snapshot.NewCounterSurvives | packages/ntsim-analyzer/src/snapshot.mjs:152-157 | Whatever counters the table had, a counter name the run introduces keeps its count through the restore, and such a run is not undoable |
| Snapshot.OnlyPresetCountersRewind | packages/ntsim-analyzer/src/snapshot.mjs:152-157 | Concrete run that raises two counters: the one the table had is rewound, the new one stays |
| HashPadding.PutLength | packages/triage/src/md5.mjs:31-32 | Two word stores write the length field and nothing else |
| HashPadding.NewBuffer | packages/triage/src/md5.mjs:27-28 | A zeroed buffer with the message in front |
| HashPadding.PrintWords | packages/triage/src/md5.mjs:56-61 | Each word prints as eight digits in the hash's byte order |
| HashPadding.HexInjective | packages/triage/src/md5.mjs:56-61 | Different digests print differently |
| HashPadding.WordIs | packages/triage/src/md5.mjs:38 | A word is its four bytes, low or high byte first |
| HashPadding.HexDigits | packages/triage/src/md5.mjs:56-61 | Each byte prints as its high and then its low lower-case digit |

## Left out

- RegionCuts.CutExact: excludes the addresses inside a decommitted range, for which RegionCuts.DecommitExactIff gives the exact condition.
- MemoryManager.MemoryManager.FreeRegions: a zero size frees up to 2^53 - 1 bytes above the base, as the code does; protection words are sets of flags and the old protection is the first non-empty one.
- MemoryManager.MemoryManager.MapRegion: page filling, and committing over an existing reservation through the memory API, are not modelled.
- Heap.HeapAllocator.ReallocBlock: heap memory is taken as writable, so protection faults inside the arena, which realloc would swallow, do not occur.
- LoaderRings.Loader.RebuildLdr: when a name that contains NULs takes the freed block of the loader data, the contract does not decide whether the structure is complete (such a name can spell the record's own bytes); a complete structure is promised up to the next action of the guest, which may overwrite any block; `loadImage`, export resolution and forwarders are not part of this model.
- Coff.LinkSections: object-file byte parsing is not part of this model; sections are numbered by position, as the parser numbers them.
- LinkDriver.RelocationCorrect: says nothing of a field another relocation overlaps, for which LinkDriver.FieldByte gives the bytes; REL32_1 to REL32_4 are treated as the code treats them, like REL32; implicit addends are not read by the code.
- LinkDriver.Linker.Link: the exports map, which rounds to doubles, and the emitted PE file are not modelled; a missing or dropped target section, on which the code throws a TypeError, is an error of its own; `byOrdinal`, which the parser never sets, is absent.
- Snapshot.RestoreExactIff: one CPU engine; nested bugcheck codes, objects shared between snapshot and kernel, and the 64-bit mask on registers are not modelled.
- Snapshot.CpuRestoredIff: the branch for a second CPU engine and its control registers are not modelled.
- Snapshot.KernelObject.RestoreFrom: the kernel's parts are values of one field, so aliasing between them is not captured; the limits of Snapshot.RestoreExactIff apply.
- Fuzz.Fuzzer.RunCampaign: the emulated driver is a parameter whose runs the snapshot can undo; seeds are non-empty because the CTL-code enrichment always adds one; the cap is at least one, so the fallback for an empty corpus is not reached; progress callbacks are absent.
- Fuzz.PickParent: scores, weights and the random share are real numbers rather than doubles.
- Coverage.Tracker.Record: addresses and pairs stand for their string keys.
- RuleParser.Parser.Condition: starts from tokens; the tokenizer's regular expression is not modelled.
- RuleEval.FindBytes: text, wide and regular-expression strings are not modelled; a rule's hits enter the evaluator as found or not found.
- Threads.ThreadManager.Call: guest code is any finite program of handler operations under a global instruction budget; APC routines' effect on registers is not restored by the code and not constrained here.
- Threads.ThreadManager.MakeThread: allocating and clearing the stack, and storing the thread id for the caller, are not modelled; the stack address is a parameter.
- Threads.ThreadManager.Execute: covers threads, APCs, events, mutexes and waits; TLS and FLS slots, exit codes and the tick count are not modelled.
- Threads.ThreadManager.CreateMutex: a mutex's owner, and the names recorded for mutexes, which nothing reads, are left out.
- Threads.ThreadManager.WaitForMultipleObjects: the handles are a list, so an unreadable slot of the array appears as the handle 0 the code puts there.
- ElfStack.StackBuilder.Build: asks for at least one argument (the code reads the first pointer) and for strings and tables that fit below the stack top; ElfStack.AlignedIff says when the final stack pointer is aligned, which the code does not provide for.
- ElfFile.WriteImage: asks for disjoint regions, as every fixture lays them out; symbol tables and section contents are bytes like any other; the option to spoil the identification bytes is left out.
- ElfFile.ParseElf: dynamic section, imports and static triage are not modelled.
- ElfFile.RoundTrip: values are within the widths of their fields; wider ones wrap, as ElfFile.ChainWritten states.
- Crc32.BurstDetected: fails for names with characters above 255, as Crc32.WideUnitsCollide shows; Crc32.WindowIff covers four bytes or three wide characters, and the other API hashes are not modelled.
- Md5.Md5: the sine table is a parameter because its entries come from floating-point arithmetic; a message the size computation does not survive has no digest.
- Bitmask.DecodeBitmask: the instruction interpreter around the decoder is not modelled.
- DiffClusters.DiffSection: one section; the report over all sections sums these results.
- Vfs.NormIdempotent: lower-casing is modelled for ASCII.
- Vfs.FileSystem.CreateFile: deleting, copying, moving and enumerating files, which do not change contents, and artifact lists are left out.
- Vfs.FileSystem.SetFilePointer: the returned value is not modelled, because the code mixes numbers and big integers there.
- PE mapping, the CPU interpreters, exception dispatch, network and registry models, report text, command lines and browser workers are outside the model.
