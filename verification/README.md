# A verified model of the code cache, the page-table pipeline and the configuration reader

The project models five files and proves what they promise only in comments and debug checks.

- `Simulator/core/fcache.c`: the allocator of the code cache. Shared caches keep freed bytes on
  segregated free lists whose headers and footers lie inside the freed bytes; private caches keep a
  FIFO of fragments and empty slots and evict runs of victims; units of memory live, wait to be
  freed, lie dead and are reused.
- `PageTables/Guest/dump_pagetables.c`: a dump of a page table through a file that may be read in
  pieces of any size.
- `PageTables/Host/host_gpa_translator.c`: a translator of guest frames that is fed the dump in
  pieces of any size.
- `PageTables/Host/host_pt_augmentor.c`: the replacement of missing frame numbers by unused ones.
- `Simulator/core/config.c`: a line splitter that shifts and refills one buffer, and the precedence
  of the configuration sources.

Code that updates things in place is a class or works on an array, and each method is proved to do
what a specification function says; what the code is for is then proved about those functions, for
all inputs and, where there is state, for all runs.

## How the files fit together

| files | content |
|---|---|
| `Layout`, `SlotModel`, `SlotLayout` | sizes, units, slots, and the invariant: slots tile the claimed bytes of each unit, marks, footers and lists agree with them |
| `SlotSteps`, `SharedSpec`, `SharedOps`, `SharedFlush` | the operations of a shared cache as functions on that state, and that they keep the invariant |
| `SharedRuns`, `SharedFrame`, `UnitAges` | runs of operations, what holds in every reachable state, what an operation does to the fragments it names and to all others, and the age of units |
| `SharedMemory`, `SharedRep`, `SharedChain`, `SharedCache` | memory as the code sees it (first words, headers, footers, list heads, fragment records), what it represents, and the code itself |
| `PrivateModel`, `PrivateOps`, `PrivateShrink`, `PrivateEviction`, `PrivateGrowth`, `PrivateRuns`, `PrivateFrame`, `PrivateChoice`, `PrivateCache` | the same for a private cache, with the FIFO as doubly linked records |
| `UnitPool`, `UnitReuse`, `UnitLife`, `FlushGroups`, `RegenRatio` | units waiting to be freed and dead units as linked lists, sizes of caches, who is kept and who is reused, which of the units that wait still have a cache, the growth ratio |
| `UnitSupply`, `CacheAccount` | where the units of a shared cache come from, and runs of a cache together with the pool |
| `Arithmetic`, `Bits`, `PageTables`, `PageDump`, `DumpFile` | 4- and 5-level tables, the walk, the dump and its file |
| `TextLines`, `FirstSeen`, `ChunkedInput`, `GpaWalk`, `Translator`, `TranslatorOutput` | lines of a text, first occurrences, the input in pieces, the translation of one frame, the translator and its output file |
| `HexText`, `FrameGaps`, `Augmentor` | hexadecimal text, unused numbers, the fill |
| `ConfigLines`, `ConfigReader`, `Config` | what the window delivers, the reader, the variables |

In the shared cache `abs` is a ghost state of type `SlotModel.State` and `Valid()` says that memory
represents it; in the private cache and the unit pool `abs` plays the same part. `Apply` gives the
state after an operation, `Leads` relates the two ends of a run, and `Reachable` starts at an empty
cache with one unit.

## Assumptions

- Sizes are those of x64: 8-byte headers, minimum slot sizes and holes as in the macros of
  `fcache.c`. The slot alignment divides the page size and is at most 64.
- Units of a shared cache reserve at most `MAX_FREE_ENTRY_SIZE` bytes, so that no free entry is too
  large for its header; the branches of `add_to_free_list` and `find_free_list_slot` for larger
  entries are then unreachable. Shared caches have no maximum size. Initial and maximum unit size
  are equal.
- Two units are never adjacent, because of guard pages. Address arithmetic does not wrap.
- Memory for a new unit, the decision to retire units when one is opened, the thread count and the
  flush times are parameters. Every public operation is atomic.
- The list of lazily deleted fragments is a set, from which `chain_fragments_for_flush` takes what
  it finds.
- For an add to a private cache the fragments that cannot be deleted (before and after a trace is
  given up), the verdicts of the growth ratio, whether the maximum size allows another unit, and the
  memory of that unit are parameters, `PrivateGrowth.World`.
- Page tables do not change during a dump or a session, no present entry names frame 0, and
  allocations succeed. A dump is one of user space.
- `sscanf` on the fields of a line is a parameter, `scan`, that gives five numbers or nothing. `qsort`
  is the function `FrameGaps.Sorted`, which is proved to sort and to permute.
- A configuration file is a regular file without NUL bytes, and reading it gives as much as is wanted
  and left. The environment is a function.

## Where the code does not do what its comments say

- `fcache_free_unit` takes a unit out of its cache without looking whether it still has one
  (`Simulator/core/fcache.c:1509`), while `append_units_to_free_list` has already taken every unit of
  a chain but the last out of its cache (lines 3766-3770). The model leaves such a unit alone and
  reports a fault. `UnitPool.FaultsMeaning` says exactly when a free call meets one, for runs in which
  every flush has its own time `FlushGroups.FreeFaultsExactlyIf` says so in terms of the flushes, and
  `UnitLife.TwoUnits` gives a sequence of calls.
- The comment at `Simulator/core/fcache.c:1480` allows five dead units or a quarter of the threads,
  whichever is more; the code keeps one more than a quarter. `UnitReuse.OneTooMany` says exactly when,
  `UnitReuse.SixDead` gives a pool, and `UnitReuse.DeadBounded` the bound that does hold.
- A unit is found by its addresses until its memory is given back, and `fcache_fragment_pclookup` looks
  at the cache of the unit that it finds (`Simulator/core/fcache.c:1145`). `FlushGroups.LookupFaultsExactlyIf`
  says exactly when there is none, and `FlushGroups.TwoUnitsFault` gives a run.
- A configuration value of 2048 characters or more is announced as cut, but `strncpy` leaves it without
  an end (`Simulator/core/config.c:303-310`). `Config.ReadBackExactly` says exactly when a value is read
  back, and `Config.LongValueRunsOn` gives a text that is not.
- What the translator lists depends on how the dump is cut into pieces: a header that is not complete
  in the first piece that is not empty is later taken for a mapping. `ChunkedInput.ExactlyWhen` says exactly when this
  makes a difference, `ChunkedInput.ChunkIndependent` that it makes none for headers without a comma,
  and `ChunkedInput.CutHeaderIsNoted` gives an input for which it does.
- The comment in `output_show` says that the header of the translator's output must be the number of
  records (`PageTables/Host/host_gpa_translator.c:915-922`); the code prints the guest's PID.
  `TranslatorOutput.File.HeaderCounts` says exactly when the two agree, and
  `TranslatorOutput.HeaderMisleads` gives a file for which they do not.
- `find_gaps`, when there are too many unused numbers, returns no table but leaves the count at
  1,036,870,912; the fill then reads through a null pointer if there is anything to fill.
  `Augmentor.Augment` reports this as a fault and says exactly when it happens, and
  `Augmentor.TooWide` gives a table.
- A last line without a newline is delivered by the configuration reader only if the window did not
  hold the end of the file when the line was reached. `ConfigLines.LastLineRule` states this exactly
  and `ConfigLines.LastLineLost` shows two files with the same last line, one of which loses it. A
  carriage return at the end of a line that was cut off is removed only if the buffer was full.

## Model

| member | source | states |
|---|---|---|
| SharedRuns.RunKeeps | Simulator/core/fcache.c:2943-3713 | every run of adds, removes, releases and flushes, from any good state, keeps the whole invariant: tiling, marks, footers, lists, the gap at the append point |
| SharedRuns.EveryByteHasOneOwner | Simulator/core/fcache.c:3265-3317 | in every reachable state each claimed byte of a unit lies in exactly one slot, which is a fragment or a free entry inside the claimed part |
| SharedRuns.WalkMeetsEverySlot | Simulator/core/fcache.c:1135-1194 | in every reachable state stepping from a unit's start by slot sizes meets all slots of the unit and nothing else, without gaps, and ends at the append point |
| SharedRuns.MarkedIffAfterFree | Simulator/core/fcache.c:3028-3045 | in every reachable state a fragment carries FRAG_FOLLOWS_FREE_ENTRY exactly when a free entry ends where its slot begins |
| SharedRuns.FreeEntriesStandAlone | Simulator/core/fcache.c:3077-3096 | in every reachable state no two free entries touch and none ends at the append point of the current unit |
| SharedRuns.ListedExactlyOnce | Simulator/core/fcache.c:3103-3117 | in every reachable state a free entry is on the list of its size class, once, and on no other list |
| SharedRuns.GapIsNeverASliver | Simulator/core/fcache.c:2462-2500 | in every reachable state the unclaimed end of a unit is empty exactly if the unit is full, and otherwise it is the current unit's and at least MIN_UNIT_END_HOLE |
| SharedFrame.OthersUntouched | Simulator/core/fcache.c:3622-3713 | no operation moves, resizes or loses a fragment it does not name |
| SharedFrame.NamedEffect | Simulator/core/fcache.c:3622-3713 | an added fragment holds a slot of at least the requested size and no larger than is of use, a removed one is gone, a shrunk one keeps its address and has the new length, those of a flushed unit are gone |
| SharedFrame.AddPlaces | Simulator/core/fcache.c:3265-3329 | a fragment is placed in a free entry of the smallest size class that has one large enough, else at the append point, else at the start of the new unit |
| UnitAges.AddOrder | Simulator/core/fcache.c:2557-2628 | which lists an add leaves behind: the new unit in front, the last unit retired if one is to be, and otherwise no change |
| UnitAges.NewestFirstInEveryRun | Simulator/core/fcache.c:2565-2597 | over every run the units of a cache, and behind them those that wait to be flushed, are in the order in which they were opened, the newest first |
| UnitAges.RetiredIsOldest | Simulator/core/fcache.c:2565-2597 | over every run a unit that is retired is older than every unit that stays |
| SharedSpec.AddFreeKeeps | Simulator/core/fcache.c:2971-3128 | coalescing with both neighbours and then retracting the append point or publishing an entry keeps the invariant |
| SharedOps.SearchRefinesExhaustive | Simulator/core/fcache.c:3146-3181 | the bucketed search succeeds if and only if some free entry of the cache is large enough, and what it finds is one |
| SharedOps.SearchTakesSmallestClass | Simulator/core/fcache.c:3131-3192 | and what it finds is of the smallest size class that has such an entry |
| SharedOps.ReuseKeeps | Simulator/core/fcache.c:3188-3250 | a fragment that takes all or part of an entry, the rest going back, leaves the invariant intact |
| SharedOps.AddKeeps | Simulator/core/fcache.c:3265-3329 | whatever way a request of a legal size takes, through the free lists, the append point, more commitment or a new unit, the invariant holds afterwards |
| SharedOps.AddAfterGrowth | Simulator/core/fcache.c:3322-3328 | growing the cache first does not change what an add leads to, creates no usable free entry, and leaves a current unit whose reservation has room |
| SharedOps.GrowthCounts | Simulator/core/fcache.c:3322-3328 | each growth lowers a count that starts at 2 or less, so that at most two take place |
| SharedOps.MoreSpaceCases | Simulator/core/fcache.c:2513-2533 | the commit loop makes room for the request exactly if the reservation has room, and otherwise commits all of it |
| SharedOps.CommitSizeFits | Simulator/core/fcache.c:2518-2524 | the commit loop ends with whole pages inside the reservation that suffice for the request |
| SlotLayout.CommitSize | Simulator/core/fcache.c:2511-2524 | what is committed is inside the reservation, suffices if the reservation does, and beyond one increment is less than twice what is missing |
| UnitSupply.CommitsOnDemand | Simulator/core/fcache.c:2511-2530 | an add commits memory only if no free entry is large enough and the request does not fit at the append point, and no more than this |
| SlotLayout.Doubled | Simulator/core/fcache.c:2518-2519 | doubling ends at or above what is needed and below twice that |
| SharedOps.NewSize | Simulator/core/fcache.c:2615-2620 | a new unit is at least twice the slot and at least the unit maximum, in whole pages, and no larger than that makes necessary |
| SharedOps.CloseKeeps | Simulator/core/fcache.c:2462-2500 | turning the rest of the current unit into a free entry keeps the invariant |
| SharedOps.RemoveKeeps | Simulator/core/fcache.c:3673-3713 | removing a fragment keeps the invariant |
| SharedOps.ReleaseKeeps | Simulator/core/fcache.c:3456-3525 | giving back the end of a slot, to the append point or to the free lists, keeps the invariant |
| SharedFlush.ForgetKeeps | Simulator/core/fcache.c:3786-3889 | forgetting all slots and entries of a unit keeps the invariant for the others |
| SharedFlush.OutsideMeaning | Simulator/core/fcache.c:3803-3824 | a list loses exactly the entries of the flushed unit |
| SharedChain.OutsideWithout | Simulator/core/fcache.c:3819-3822 | taking one entry of the flushed unit off a list changes nothing about the rest of the list, order included |
| SharedChain.ChainMeaning | Simulator/core/fcache.c:3830-3868 | the chain has exactly the unit's fragments that are not deleted or were taken off the lazy list, each once and in address order |
| Layout.Bucket | Simulator/core/fcache.c:2920-2929 | the size class is the last whose bound does not exceed the size |
| SharedMemory.FirstWordTells | Simulator/core/fcache.c:376-390 | at every slot the null-or-flag test on the first word is true exactly for free entries |
| SharedRep.JoinPrevStep | Simulator/core/fcache.c:3051-3070 | the footer read backwards from a marked fragment lands on the header of a real free entry of that size, which can be unlinked |
| SharedRep.ShiftedRecord | Simulator/core/fcache.c:3389-3402 | shifting the start inside its alignment keeps header address, slot size and end |
| SharedRep.ReturnArithmetic | Simulator/core/fcache.c:3436-3454 | the returnable bytes never underflow, kept and returned bytes add up to the slot, the kept part is aligned and large enough, and its padding fits in one byte |
| SharedRep.KeptIsSnug | Simulator/core/fcache.c:3456-3525 | what a fragment keeps beyond the bytes it needs is of no use: too little for an append at the end of the unit, and elsewhere too little for a slot |
| SharedRep.SlotSizePrepared | Simulator/core/fcache.c:3646-3658 | the slot size of a new fragment is a legal request, the smallest that holds body and header, and its padding fits in one byte |
| SharedRep.BodiesDisjoint | Simulator/core/fcache.c:1135-1194 | at most one fragment has a given address in its body |
| SharedRep.WalkMissed | Simulator/core/fcache.c:1169-1193 | a physical walk that passes an address without a hit has proved that no fragment has it in its body |
| SharedCache.Cache.constructor | Simulator/core/fcache.c:1542-1607 | an empty cache with one unit |
| SharedCache.Cache.FindBucket | Simulator/core/fcache.c:2920-2929 | finds the size class |
| SharedCache.Cache.RemoveFromFreeList | Simulator/core/fcache.c:2943-2968 | unlinks an entry, also at the head |
| SharedCache.Cache.CoalesceNext | Simulator/core/fcache.c:3000-3047 | absorbs a free entry behind the bytes or marks the fragment there |
| SharedCache.Cache.TakeInNext | Simulator/core/fcache.c:3003-3020 | the free entry behind comes off its list and is absorbed |
| SharedCache.Cache.MarkNext | Simulator/core/fcache.c:3027-3046 | the fragment behind is marked, and nothing else changes |
| SharedCache.Cache.CoalescePrev | Simulator/core/fcache.c:3048-3075 | absorbs the free entry in front, found through its footer, exactly if the fragment is marked |
| SharedCache.Cache.InsertEntry | Simulator/core/fcache.c:3103-3117 | header, footer and list head of a new entry |
| SharedCache.Cache.InsertOrRetract | Simulator/core/fcache.c:3077-3128 | the bytes become unclaimed space or a free entry on the right list |
| SharedCache.Cache.AddToFreeList | Simulator/core/fcache.c:2971-3128 | does what the specification of freeing bytes says, and no fragment but the one behind changes its record |
| SharedCache.Cache.SearchList | Simulator/core/fcache.c:3164-3178 | the first entry of a list that is large enough |
| SharedCache.Cache.SearchLists | Simulator/core/fcache.c:3151-3181 | the first entry that is large enough over the size classes |
| SharedCache.Cache.LookupUnit | Simulator/core/fcache.c:1126-1132 | the unit whose reservation contains an address, or none if there is none |
| SharedCache.Cache.PlaceFragment | Simulator/core/fcache.c:2675-2721 | writes the fragment into the slot that is meant for it |
| SharedCache.Cache.PutBackRest | Simulator/core/fcache.c:3208-3218 | the rest of a split entry goes back to the free lists |
| SharedCache.Cache.TakePart | Simulator/core/fcache.c:3208-3250 | the fragment takes the front of an entry |
| SharedCache.Cache.UnmarkNext | Simulator/core/fcache.c:3219-3246 | the fragment behind a taken entry loses its mark |
| SharedCache.Cache.TakeWhole | Simulator/core/fcache.c:3219-3250 | the fragment takes a whole entry |
| SharedCache.Cache.TakeOffList | Simulator/core/fcache.c:3188-3198 | the entry found leaves its list and its unit is looked up |
| SharedCache.Cache.TakeEntry | Simulator/core/fcache.c:3204-3250 | splits exactly if more than MIN_EMPTY_HOLE is left over |
| SharedCache.Cache.FindFreeListSlot | Simulator/core/fcache.c:3130-3262 | places the fragment if some entry is large enough and changes nothing otherwise |
| SharedCache.Cache.ExtendUnitEnd | Simulator/core/fcache.c:2462-2500 | claims bytes at the append point, and all of them if the rest would be useless; or makes the rest a free entry |
| SharedCache.Cache.ExtendCommitment | Simulator/core/fcache.c:1885-1900 | commits what the loop asks for |
| SharedCache.Cache.OpenUnit | Simulator/core/fcache.c:2557-2628 | the new unit is in front of the list; if a unit is retired it is the last of the list, and it is in front of those that wait to be flushed |
| SharedCache.Cache.CommitMore | Simulator/core/fcache.c:2513-2533 | reports room exactly if the reservation has it, and leaves a state from which closing gives the exhausted unit |
| SharedCache.Cache.TryForMoreSpace | Simulator/core/fcache.c:2506-2673 | grows the cache as specified and touches no fragment |
| SharedCache.Cache.AppendFragment | Simulator/core/fcache.c:3299-3317 | appends to the current unit |
| SharedCache.Cache.AddFragmentCommon | Simulator/core/fcache.c:3265-3329 | places the fragment after at most two growths; the recursion ends |
| SharedCache.Cache.AddFragment | Simulator/core/fcache.c:3622-3671 | is the add operation of the run model, and no other fragment's body changes |
| SharedCache.Cache.RemoveFragment | Simulator/core/fcache.c:3673-3713 | is the remove operation of the run model |
| SharedCache.Cache.ShiftStartPc | Simulator/core/fcache.c:3367-3412 | the slot stays as it is, start and size of the body change by the same amount, no other record changes |
| SharedCache.Cache.Returnable | Simulator/core/fcache.c:3436-3454 | splits a slot into the bytes kept and the bytes to return |
| SharedCache.Cache.ReleaseTail | Simulator/core/fcache.c:3456-3525 | releases exactly if the specification allows it |
| SharedCache.Cache.ResizeRecord | Simulator/core/fcache.c:3527-3538 | size and padding of the record are brought in line with the slot |
| SharedCache.Cache.ReturnExtraSpace | Simulator/core/fcache.c:3414-3556 | the body shrinks by the space given back, the slot to what is kept or not at all, and no other body changes |
| SharedCache.Cache.PcLookup | Simulator/core/fcache.c:1135-1194 | returns a fragment exactly if one has the address in its body, and then that one |
| SharedCache.Cache.SweepEntry | Simulator/core/fcache.c:3803-3824 | a free entry of the flushed unit comes off its list |
| SharedCache.Cache.SweepFragment | Simulator/core/fcache.c:3830-3867 | a fragment of the flushed unit is chained unless it is deleted and not on the lazy list |
| SharedCache.Cache.SweepUnit | Simulator/core/fcache.c:3798-3868 | the walk ends at the append point |
| SharedCache.Cache.ChainForFlush | Simulator/core/fcache.c:3786-3889 | is the flush operation of the run model; returns the chain and what is left of the lazy list |
| PrivateRuns.RunKeeps | Simulator/core/fcache.c:3622-3713 | every run of adds with their growth, removes and releases keeps the invariant of a private cache |
| PrivateRuns.FifoShape | Simulator/core/fcache.c:2260-2367 | in every reachable state the FIFO is all empty slots and then the fragments in order of insertion, each slot once |
| PrivateFrame.NamedEffect | Simulator/core/fcache.c:3415-3713 | a removed fragment is gone and its bytes are in the empty slot in front of the FIFO; a placed one has the bytes it asked for, no more than are of use, and is last in the FIFO; a shrunk one gives back its end exactly if that is of use |
| PrivateFrame.OthersStay | Simulator/core/fcache.c:3265-3713 | no operation moves, resizes or re-ages another fragment, and an add evicts exactly the fragments that begin in the bytes it is given, none of them undeletable throughout |
| PrivateFrame.FirstInFirst | Simulator/core/fcache.c:2259-2280 | over every run: of two fragments the one that was added by an earlier operation stands before the other in the FIFO |
| PrivateFrame.PrependedMeaning | Simulator/core/fcache.c:2311-2366 | freed bytes are one slot with the empty slot in front if the two touch, and a slot of their own in front otherwise |
| PrivateChoice.EmptyFirst | Simulator/core/fcache.c:3272-3298 | if an empty slot can take the request the fragment is placed at one |
| PrivateChoice.AppendSecond | Simulator/core/fcache.c:3300-3319 | if none can and there is room at the append point the fragment is placed there |
| PrivateChoice.OldestThird | Simulator/core/fcache.c:3321-3350 | if neither, and the ratio does not justify growth, it is placed at the oldest fragment that can make room |
| PrivateChoice.GrowsExactlyIf | Simulator/core/fcache.c:3321-3400 | exactly when an add makes the cache larger; while a refused ratio leaves a fragment to replace it stays as large as it is |
| PrivateEviction.BarredMeaning | Simulator/core/fcache.c:2800-2823 | the first walk over the victims stops exactly if some slot of the run is undeletable |
| PrivateEviction.RunIsShortest | Simulator/core/fcache.c:2804-2823 | the run of victims is as short as possible |
| PrivateEviction.EvictionMeaning | Simulator/core/fcache.c:2830-2860 | the second walk evicts exactly the slots of the contiguous run and leaves the rest of the queue in order |
| PrivateEviction.ReplacementMeaning | Simulator/core/fcache.c:2830-2879 | the new fragment is housed at the first victim's place, exactly the fragments of the run are gone, all others stay where they are |
| PrivateGrowth.GrownKeeps | Simulator/core/fcache.c:3265-3365 | whatever way an add takes the invariant holds afterwards, and the fragment is in the cache exactly if it is reported as placed |
| PrivateGrowth.FailsExactlyIf | Simulator/core/fcache.c:3299-3365 | an add fails exactly if the current unit cannot hold it, no other unit is allowed and, with all of the unit committed and a trace given up, at every slot the unit is too short or an undeletable fragment is in the way |
| PrivateGrowth.PlacedIfMore | Simulator/core/fcache.c:3319-3350 | as long as the cache may grow every request is placed |
| PrivateGrowth.MoreSpaceKeeps | Simulator/core/fcache.c:2506-2641 | trying for more space keeps the invariant and, if it succeeds, lowers a count that starts at 2 or less, so that the recursion ends |
| PrivateModel.PrependedKeeps | Simulator/core/fcache.c:2310-2367 | freed bytes joined to a neighbouring empty slot or put in front keep the invariant |
| PrivateOps.ReplacedKeeps | Simulator/core/fcache.c:2786-2896 | evicting a run and housing the new fragment restores the tiling |
| PrivateOps.RemovedKeeps | Simulator/core/fcache.c:3673-3713 | removing a fragment keeps the invariant |
| PrivateOps.FilledKeeps | Simulator/core/fcache.c:2462-2500 | claiming the rest of the unit leaves it full and keeps the invariant |
| PrivateShrink.ShrunkKeeps | Simulator/core/fcache.c:3456-3525 | giving back the end of a slot keeps the invariant, whatever follows the slot |
| PrivateCache.Cache.constructor | Simulator/core/fcache.c:1542-1607 | an empty private cache with one unit |
| PrivateCache.Cache.FifoAppend | Simulator/core/fcache.c:2260-2279 | the links form the old chain with the record at its end, head.prev being the tail |
| PrivateCache.Cache.FifoRemove | Simulator/core/fcache.c:2281-2308 | the links form the old chain without the record |
| PrivateCache.Cache.EnlargeDown | Simulator/core/fcache.c:2335-2340 | the empty slot behind the bytes grows downwards |
| PrivateCache.Cache.EnlargeUp | Simulator/core/fcache.c:2341-2345 | the empty slot in front of them grows upwards |
| PrivateCache.Cache.PushFront | Simulator/core/fcache.c:2348-2367 | a new record goes to the front |
| PrivateCache.Cache.PrependEmpty | Simulator/core/fcache.c:2310-2367 | does one of the three, and the chain is as specified |
| PrivateCache.Cache.CanReplace | Simulator/core/fcache.c:2800-2823 | true exactly if no victim is undeletable |
| PrivateCache.Cache.EvictFirst | Simulator/core/fcache.c:2767-2784 | the first victim leaves the FIFO |
| PrivateCache.Cache.EvictNext | Simulator/core/fcache.c:2767-2784 | the next victim leaves the FIFO and its bytes are joined |
| PrivateCache.Cache.EvictRun | Simulator/core/fcache.c:2830-2860 | evicts the whole run |
| PrivateCache.Cache.House | Simulator/core/fcache.c:2846-2879 | the fragment takes all bytes, or the front with an empty slot behind it, or unclaimed bytes as well |
| PrivateCache.Cache.ReplaceFragments | Simulator/core/fcache.c:2786-2896 | succeeds exactly if no victim is undeletable; otherwise nothing changes |
| PrivateCache.Cache.TryEmpties | Simulator/core/fcache.c:3282-3297 | tries the empty slots at the front, in order |
| PrivateCache.Cache.ReplaceFifo | Simulator/core/fcache.c:2898-2918 | tries the fragments in order; if all fail nothing has changed |
| PrivateCache.Cache.ExtendUnitEnd | Simulator/core/fcache.c:2462-2500 | claims bytes at the append point, and all of them if the rest would be useless |
| PrivateCache.Cache.AppendFragment | Simulator/core/fcache.c:3299-3317 | appends to the current unit and to the FIFO |
| PrivateCache.Cache.AddFragment | Simulator/core/fcache.c:3622-3671 | is the add operation of the run model; true exactly if the fragment is in the cache afterwards |
| PrivateCache.Cache.AddFragmentCommon | Simulator/core/fcache.c:3265-3329 | empty slots, the append point, growth if the ratio allows it, and so on; the recursion ends |
| PrivateCache.Cache.AddByForce | Simulator/core/fcache.c:3331-3365 | the fragments by age, growth after all, and the fragments again after a trace is given up |
| PrivateCache.Cache.TryForMoreSpace | Simulator/core/fcache.c:2506-2673 | commits, fills or opens a unit as specified, also when it fails in the end |
| PrivateCache.Cache.CommitMore | Simulator/core/fcache.c:2517-2524 | the commit loop |
| PrivateCache.Cache.RemoveFragment | Simulator/core/fcache.c:3673-3713 | is the remove operation; the fragment is gone, its bytes are in the empty slot in front, and all other fragments are where they were |
| PrivateCache.Cache.FillUnit | Simulator/core/fcache.c:2462-2500 | the rest of the current unit becomes an empty slot, and there is a rest only if it is useful |
| PrivateCache.Cache.ReturnExtraSpace | Simulator/core/fcache.c:3456-3538 | the slot shrinks as specified |
| PrivateCache.Cache.TrimTail | Simulator/core/fcache.c:3463-3484 | the bytes become unclaimed again |
| PrivateCache.Cache.ShedTail | Simulator/core/fcache.c:3471-3475 | the bytes become an empty slot |
| PrivateCache.Cache.TakeOverTail | Simulator/core/fcache.c:3486-3499 | the bytes join the empty slot behind them |
| PrivateCache.Cache.ExtendCommitment | Simulator/core/fcache.c:1885-1900 | more of the current unit is committed |
| PrivateCache.Cache.AddUnit | Simulator/core/fcache.c:2624-2628 | a new unit becomes the current one |
| UnitPool.RunKeeps | Simulator/core/fcache.c:1318-1515 | over every run with non-decreasing flush times the waiting list is sorted by time, the dead list by size, and each cache's size is the sum of the sizes of its units |
| UnitPool.FreedDueMeaning | Simulator/core/fcache.c:4002-4030 | a free call removes exactly the units flushed at or before the bound, a prefix of the list |
| UnitReuse.FateOfDue | Simulator/core/fcache.c:1480-1514 | each of these units is dead afterwards if there was room when its turn came, and given back otherwise |
| UnitReuse.OthersWait | Simulator/core/fcache.c:4002-4030 | the others wait as before |
| UnitReuse.DeadBounded | Simulator/core/fcache.c:1480-1482 | over every run with at most so many threads there are never more dead units than five, or a quarter of the threads and one |
| UnitReuse.OneTooMany | Simulator/core/fcache.c:1480-1482 | exactly when a freed unit takes the dead ones beyond what the comment allows |
| UnitReuse.SixDead | Simulator/core/fcache.c:1480-1482 | a pool in which it does |
| UnitPool.FaultsMeaning | Simulator/core/fcache.c:1480-1514 | a free call meets a unit without a cache exactly if one is due while there is room among the dead |
| UnitPool.ChainFaults | Simulator/core/fcache.c:3747-3780 | flushing two or more units together leads there while there is room |
| FlushGroups.GroupsKeep | Simulator/core/fcache.c:3747-3780 | if every flush has a time of its own, then of the units that wait after any operation exactly the last of each flush has a cache, and a unit without one is dead or waits |
| FlushGroups.LookupFaultsExactlyIf | Simulator/core/fcache.c:1135-1145 | over every run: a lookup in a unit reads through a null cache exactly if the unit is dead, or waits in front of a unit flushed with it |
| FlushGroups.FreeFaultsExactlyIf | Simulator/core/fcache.c:1480-1514 | over every run: a free call does so exactly if it meets, with room among the dead, a unit that is not the last of its flush |
| FlushGroups.TwoUnitsFault | Simulator/core/fcache.c:3747-3780 | a run from an empty pool after which both happen |
| UnitPool.FlushedKeeps | Simulator/core/fcache.c:3985-3997 | stamping the units of a flush and queueing them keeps lists and sizes right if the time is not earlier than that of the flush before |
| UnitSupply.SpacedKeeps | Simulator/core/fcache.c:1318-1515 | every operation on the pool keeps all units fit for use and apart from each other |
| UnitSupply.CreatedIsSupplied | Simulator/core/fcache.c:1318-1445 | a unit from the pool, dead or new, is one with which a shared cache can go on: apart from its other units and large enough for the request |
| UnitSupply.AddUnits | Simulator/core/fcache.c:2519-2628 | an add changes the committed size of no unit but the current one and the one it opens, which is then the current one, and no reservation |
| UnitSupply.BackedAfterAdd | Simulator/core/fcache.c:2615-2628 | after an add the units of the cache are still live units of the pool |
| UnitSupply.Supply | Simulator/core/fcache.c:2615-2628 | both programs together: the pool hands out the unit that the cache needs, the smallest dead unit that serves or a new one |
| CacheAccount.AddJoint | Simulator/core/fcache.c:1885-1900 | after an add, when the pool has been told what has grown, pool and cache agree about size, reservation and cache of every unit, and all units lie apart |
| CacheAccount.FlushJoint | Simulator/core/fcache.c:3896-3997 | so they do after a flush of retired units |
| CacheAccount.ForeignKeeps | Simulator/core/fcache.c:1318-1515 | what the pool does for other caches, and what it frees, leaves the units of this cache alone |
| CacheAccount.StartFits | Simulator/core/fcache.c:1543-1590 | they agree when the cache has its first unit |
| CacheAccount.SizeIsReal | Simulator/core/fcache.c:1885-1900 | then the size field of the cache is the sum of what is committed in its units, and in those that wait to be freed and still name it |
| CacheAccount.SizeInEveryRun | Simulator/core/fcache.c:2598-2606 | so it is over every run of adds, removals, releases and flushes of the cache and of anything the pool does for others: it is too big by the units that wait, and by no more |
| CacheAccount.Tell | Simulator/core/fcache.c:1885-1900 | the pool's half of committing more |
| CacheAccount.OfferUnit | Simulator/core/fcache.c:2615-2628 | a unit is created exactly if neither a free entry nor the current unit serves the request |
| CacheAccount.AddFragment | Simulator/core/fcache.c:3622-3671 | both programs together: an add is one move of the joint run |
| UnitPool.QueuedKeeps | Simulator/core/fcache.c:3747-3780 | hanging a chain on the waiting list keeps it sorted and the sizes right |
| UnitPool.FirstIsSmallest | Simulator/core/fcache.c:1332-1365 | first fit on the dead list is best fit |
| UnitReuse.ReuseExactlyIf | Simulator/core/fcache.c:1332-1407 | a cache gets a dead unit exactly if one is large enough and within its maximum, and then a smallest of these, and new memory otherwise |
| UnitPool.BuriedKeeps | Simulator/core/fcache.c:1480-1510 | insertion by size keeps the dead list sorted |
| UnitPool.RevivedKeeps | Simulator/core/fcache.c:1332-1407 | reusing a dead unit keeps lists and sizes right |
| UnitPool.BornKeeps | Simulator/core/fcache.c:1367-1407 | so does a new unit |
| UnitPool.GrownKeeps | Simulator/core/fcache.c:1885-1900 | so does committing more |
| UnitLife.Units.RemoveFromCache | Simulator/core/fcache.c:925-943 | the cache's size falls by the unit's, and the unit has no cache any more |
| UnitLife.Units.InsertDead | Simulator/core/fcache.c:1483-1501 | the links form the dead list with the unit at its place |
| UnitLife.Units.Bury | Simulator/core/fcache.c:1480-1510 | the unit is dead; a fault exactly if it had no cache |
| UnitLife.Units.ReallyFree | Simulator/core/fcache.c:945-977 | the unit is gone |
| UnitLife.Units.FreeUnit | Simulator/core/fcache.c:1448-1515 | keeps the unit while fewer than five, or a quarter of the threads, are dead, and destroys it otherwise |
| UnitLife.Units.FreePending | Simulator/core/fcache.c:4002-4030 | frees the due units in order, and keeps the tail pointer right |
| UnitLife.Units.HangOn | Simulator/core/fcache.c:3752-3761 | the chain hangs on the end of the list |
| UnitLife.Units.UncacheChain | Simulator/core/fcache.c:3766-3776 | every unit of the chain but the last leaves its cache, and the tail is the last |
| UnitLife.Units.AppendToFree | Simulator/core/fcache.c:3747-3780 | both together |
| UnitLife.Units.NewCache | Simulator/core/fcache.c:1543-1548 | a cache of size 0 |
| UnitLife.Units.PutToFlush | Simulator/core/fcache.c:2594-2597 | the unit is the first of those that wait to be flushed, and the others follow |
| UnitLife.Units.StampAll | Simulator/core/fcache.c:3990-3995 | every unit of the chain has the time of the flush, and nothing else has changed |
| UnitLife.Units.FlushPending | Simulator/core/fcache.c:3985-3997 | the chain is stamped and queued |
| UnitLife.Units.LookupCache | Simulator/core/fcache.c:1126-1145 | finds the unit around an address until its memory is given back; a fault exactly if the unit has no cache |
| UnitLife.TwoUnits | Simulator/core/fcache.c:3985-4030 | the calls of the program by which two units are made, flushed together and freed, and the fault they end in |
| UnitLife.Units.FindDead | Simulator/core/fcache.c:1332-1365 | the first dead unit that serves, and its predecessor |
| UnitLife.Units.CreateUnit | Simulator/core/fcache.c:1318-1445 | that unit, or a new one if none serves |
| UnitLife.Units.ExtendCommitment | Simulator/core/fcache.c:1885-1900 | unit and cache grow alike |
| RegenRatio.CheckRatio | Simulator/core/fcache.c:2430-2452 | the loop of subtractions decides by the two quotients, and takes the same multiple off both counters |
| RegenRatio.Gauge.Check | Simulator/core/fcache.c:2369-2457 | the whole test: maximum size, disabled working set, waiting, free growth, counters |
| RegenRatio.GrowthIsRationed | Simulator/core/fcache.c:2385-2416 | a private cache that may grow refuses the next replace_param times it is asked, whatever it is asked for |
| RegenRatio.GrowsExactlyIf | Simulator/core/fcache.c:2371-2457 | exactly when a cache may grow |
| RegenRatio.AskedLeaves | Simulator/core/fcache.c:2385-2428 | how long a private cache waits after a question, and from when on a shared one counts |
| RegenRatio.ComparedMeaning | Simulator/core/fcache.c:2430-2452 | both counts lose the same number of units until one has none left, and the answer is yes if the rebuilt ones have more |
| RegenRatio.NeverAboveMax | Simulator/core/fcache.c:2373-2376 | a cache that asks before it grows never exceeds its maximum |
| PageTables.WalkSame | PageTables/Guest/dump_pagetables.c:268-333 | what a walk finds is the same all over the region where it ends |
| PageTables.IndexStep | PageTables/Guest/dump_pagetables.c:234-266 | adding one index at a time gives the offset inside a larger page |
| PageDump.HandlePage | PageTables/Guest/dump_pagetables.c:234-266 | the columns above a large leaf are the frames of the entries, and those below it the base and the offset of the region at each level |
| PageDump.TableWalker | PageTables/Guest/dump_pagetables.c:268-333 | prints a line exactly if the page is mapped, with the frames of the second to fifth level in this order, and steps by a page or by the missing region |
| PageDump.OnTheWay | PageTables/Guest/dump_pagetables.c:268-317 | a walk that comes down to a leaf has met the frames above it on its way |
| PageDump.LandingStep | PageTables/Guest/dump_pagetables.c:324-332 | after a step the walk stands at the beginning of what is missing again |
| PageDump.NothingSkipped | PageTables/Guest/dump_pagetables.c:324-332 | no mapped page lies between two landings |
| PageDump.SkipTo | PageTables/Guest/dump_pagetables.c:268-333 | so a step delivers what going page by page would deliver |
| PageDump.DumpMeaning | PageTables/Guest/dump_pagetables.c:268-333 | the dump has a line for every mapped page, each once, in strictly increasing address, each with the right columns, and no other line |
| PageDump.LineShowsFrame | PageTables/Guest/dump_pagetables.c:234-266 | a line's last field is base + offset of the leaf, and there is a line exactly if there is a leaf |
| PageDump.LineFields | PageTables/Guest/dump_pagetables.c:234-266 | each column of a line: above the page the frame of the entry, from the page down base and offset of the region |
| PageDump.SmallPageLine | PageTables/Guest/dump_pagetables.c:268-333 | the line of a 4 KiB page |
| DumpFile.Advance | PageTables/Guest/dump_pagetables.c:421-453 | committing what was shown brings the file to the next landing or its end |
| DumpFile.DeliveredPrefix | PageTables/Guest/dump_pagetables.c:405-453 | whatever a reader has, in whatever pieces, is a beginning of the whole text |
| DumpFile.WholeDump | PageTables/Guest/dump_pagetables.c:405-453 | a reader that has come to the end has the header and the line of every mapped page below TASK_SIZE_MAX, once, in increasing order and with the right columns |
| DumpFile.File.Start | PageTables/Guest/dump_pagetables.c:405-419 | resumes where the last read stopped, unless the file is at its end |
| DumpFile.File.Show | PageTables/Guest/dump_pagetables.c:358-403 | shows the header, if at the beginning, and the line at the position |
| DumpFile.File.Next | PageTables/Guest/dump_pagetables.c:421-453 | what was shown is delivered; the position grows or the file is at its end |
| DumpFile.File.Stop | PageTables/Guest/dump_pagetables.c:455-458 | what was shown and not delivered will be shown again |
| DumpFile.File.Read | PageTables/Guest/dump_pagetables.c:405-458 | one read into which any number of records fits: what was delivered before stays, and the position grows if anything fits |
| DumpFile.File.ReadAll | PageTables/Guest/dump_pagetables.c:405-458 | whatever the reads are, and however many are in vain, a reader that does not give up comes to the end and has the whole text |
| GpaWalk.Translate | PageTables/Host/host_gpa_translator.c:148-261 | computes the chain level by level; its fields are the frames of the entries on the way and the base of the page |
| GpaWalk.ChainShape | PageTables/Host/host_gpa_translator.c:307-325 | a failed translation leaves a prefix of the chain; a successful one lacks a field only for a 1 GB page |
| GpaWalk.ChainFields | PageTables/Host/host_gpa_translator.c:148-261 | the first four fields, if present, are the frames of the entries on the way, and the fifth is the base of the page |
| GpaWalk.ChainReaches | PageTables/Host/host_gpa_translator.c:148-261 | which fields are present, in terms of the entries |
| GpaWalk.HostAddressMeaning | PageTables/Host/host_gpa_translator.c:165-175 | guest frames lie one behind the other in host memory, up to the end of the address space |
| GpaWalk.JoinIsOffset | PageTables/Host/host_gpa_translator.c:193-217 | for an aligned frame the shift-and-or formula gives base + (address mod size) / 4096 |
| GpaWalk.SameFrame | PageTables/Host/host_gpa_translator.c:177-261 | translator and dumper find the same frame |
| TextLines.LinesConcat | PageTables/Host/host_gpa_translator.c:736-782 | reading on after a piece is reading on after its unfinished rest |
| TextLines.LinesMeaning | PageTables/Host/host_gpa_translator.c:792-802 | lines and rest are the only way of writing a text as lines, each with its newline, and a rest without one |
| TextLines.CutAtLast | PageTables/Host/host_gpa_translator.c:759-774 | cutting after the last newline separates the complete lines from the rest |
| FirstSeen.NotedKeeps | PageTables/Host/host_gpa_translator.c:431-509 | the list has each non-zero number once, and exactly those that occurred |
| FirstSeen.NotedInOrder | PageTables/Host/host_gpa_translator.c:431-509 | in the order of first occurrence |
| FirstSeen.HeadStart | PageTables/Host/host_gpa_translator.c:431-509 | numbers noted beforehand make no difference exactly if the list begins with them anyway |
| ChunkedInput.SessionMeaning | PageTables/Host/host_gpa_translator.c:700-845 | what any way of cutting the input into pieces leads to; writes of nothing count for nothing, and the first piece that is not empty decides about the header |
| ChunkedInput.SessionStartsClean | PageTables/Host/host_gpa_translator.c:711-724 | a session does not depend on what an earlier one has left behind |
| ChunkedInput.FieldsMeaning | PageTables/Host/host_gpa_translator.c:516-543 | what follows the first comma of a line is scanned, and its numbers are taken in order |
| ChunkedInput.BodyMeaning | PageTables/Host/host_gpa_translator.c:804-832 | the first line that is not empty is the header |
| ChunkedInput.ChunkIndependent | PageTables/Host/host_gpa_translator.c:700-845 | with a header without a comma the result is that of the complete lines of the whole text, and the unfinished line is what follows the last newline |
| ChunkedInput.ExactlyWhen | PageTables/Host/host_gpa_translator.c:810-832 | the condition under which this holds for any header |
| ChunkedInput.CutHeaderIsNoted | PageTables/Host/host_gpa_translator.c:810-832 | an input for which it does not |
| Translator.Translation.AddEntry | PageTables/Host/host_gpa_translator.c:338-395 | the array doubles when full, starting at 1024, keeps its contents and gets one more |
| Translator.Translation.Note | PageTables/Host/host_gpa_translator.c:269-332 | a number is translated and listed when it occurs first; the memo agrees with a direct walk |
| Translator.SuccessesMeaning | PageTables/Host/host_gpa_translator.c:269-332 | the count of successes is that of the listed numbers with a translation |
| Translator.Translation.ProcessEntry | PageTables/Host/host_gpa_translator.c:431-509 | the five numbers of a line, in order |
| Translator.Translation.ParseLine | PageTables/Host/host_gpa_translator.c:516-543 | what follows the first comma is read, a line without one is ignored |
| Translator.Translation.Clear | PageTables/Host/host_gpa_translator.c:400-424 | everything is forgotten |
| Translator.Translation.ProcessLine | PageTables/Host/host_gpa_translator.c:804-832 | empty lines are skipped, the first other line is the header of a new session |
| Translator.Translation.ProcessLines | PageTables/Host/host_gpa_translator.c:792-835 | all complete lines are processed |
| Translator.Translation.ReadText | PageTables/Host/host_gpa_translator.c:759-835 | complete lines are processed, the rest is kept |
| Translator.Translation.InputWrite | PageTables/Host/host_gpa_translator.c:700-845 | one piece is one step of the session, and the position moves by its length |
| Translator.Translation.Open | PageTables/Host/host_gpa_translator.c:977-980 | the next write is at position 0 |
| Translator.Translation.WriteAll | PageTables/Host/host_gpa_translator.c:700-845 | a whole session, whatever the state before it: unfinished line and numbers listed are those of the session's own pieces |
| Translator.TwoSessions | PageTables/Host/host_gpa_translator.c:700-845 | one session after another: the list is that of the second dump alone |
| TranslatorOutput.File.Start | PageTables/Host/host_gpa_translator.c:864-883 | resumes at the position |
| TranslatorOutput.File.Show | PageTables/Host/host_gpa_translator.c:911-962 | the header or one entry |
| TranslatorOutput.File.Next | PageTables/Host/host_gpa_translator.c:885-904 | what was shown is delivered, the position grows by one |
| TranslatorOutput.File.Stop | PageTables/Host/host_gpa_translator.c:906-909 | what was not delivered will be shown again |
| TranslatorOutput.File.Complete | PageTables/Host/host_gpa_translator.c:864-904 | a reader that has come to the end has the header and each entry once, in order |
| TranslatorOutput.File.ReadAll | PageTables/Host/host_gpa_translator.c:864-909 | whatever the reads are, a reader that does not give up comes to the end and has the whole text |
| TranslatorOutput.File.HeaderCounts | PageTables/Host/host_gpa_translator.c:915-926 | the header is the number of the entries exactly if the guest's PID is that number |
| TranslatorOutput.HeaderMisleads | PageTables/Host/host_gpa_translator.c:915-926 | a file for which it is not |
| HexText.RoundTrip | PageTables/Host/host_pt_augmentor.c:316-322 | a number printed in hexadecimal is read back |
| HexText.NeverNan | PageTables/Host/host_pt_augmentor.c:316-322 | and never reads NAN |
| Augmentor.ParseHex | PageTables/Host/host_pt_augmentor.c:65-70 | NAN is the largest number, and nothing exceeds it |
| FrameGaps.SortedMeaning | PageTables/Host/host_pt_augmentor.c:265-266 | sorting gives an ascending permutation |
| FrameGaps.Dedup | PageTables/Host/host_pt_augmentor.c:268-278 | duplicates are removed in place |
| FrameGaps.UniqueIncreasing | PageTables/Host/host_pt_augmentor.c:268-278 | what is left is strictly increasing |
| FrameGaps.UniqueHas | PageTables/Host/host_pt_augmentor.c:268-278 | and has the same members |
| FrameGaps.GapsMember | PageTables/Host/host_pt_augmentor.c:82-157 | a number is collected exactly if it lies between two neighbours whose gap is not too large |
| FrameGaps.GapsMeaning | PageTables/Host/host_pt_augmentor.c:82-157 | the collected numbers are strictly increasing |
| FrameGaps.GapsAreFree | PageTables/Host/host_pt_augmentor.c:82-157 | no collected number is in use |
| FrameGaps.CapacityEnds | PageTables/Host/host_pt_augmentor.c:120-138 | growth by doubling and then by a fixed step ends at 1,036,870,912 and not before |
| FrameGaps.AddGap | PageTables/Host/host_pt_augmentor.c:118-143 | all numbers of a gap are added unless the table is at its limit |
| FrameGaps.FindGaps | PageTables/Host/host_pt_augmentor.c:82-157 | all unused numbers up to the limit; beyond it no table, with the count left at the limit |
| Augmentor.Collect | PageTables/Host/host_pt_augmentor.c:243-258 | all valid numbers of the table |
| Augmentor.FillRow | PageTables/Host/host_pt_augmentor.c:314-336 | the missing fields of a row get the next numbers, in order |
| Augmentor.Fill | PageTables/Host/host_pt_augmentor.c:309-337 | the whole table, in place; a fault exactly if there is no table, a count and something to fill |
| Augmentor.FilledIsFree | PageTables/Host/host_pt_augmentor.c:309-337 | a filled field has a number that no field of the input has |
| Augmentor.FilledAreDistinct | PageTables/Host/host_pt_augmentor.c:309-337 | two filled fields have different numbers |
| Augmentor.SpareExactly | PageTables/Host/host_pt_augmentor.c:103-141 | the numbers to fill in are exactly those in gaps of at most 100 million between two neighbouring numbers of the table |
| Augmentor.FilledElsewhere | PageTables/Host/host_pt_augmentor.c:309-337 | every other field keeps its value, and a field stays missing exactly if the numbers ran out before it |
| Augmentor.NothingMissing | PageTables/Host/host_pt_augmentor.c:309-337 | with enough numbers nothing is missing any more |
| Augmentor.Augment | PageTables/Host/host_pt_augmentor.c:243-360 | collect, sort, remove duplicates, find gaps, fill; the header is the number of records |
| Augmentor.LadderFaults | PageTables/Host/host_pt_augmentor.c:118-128 | one record of twelve to thirty frames, as far apart as a gap may be, leaves too many unused numbers |
| Augmentor.TooWide | PageTables/Host/host_pt_augmentor.c:309-337 | a table on which the program reads through a null pointer |
| ConfigLines.FreshExact | Simulator/core/config.c:338-390 | exactly what is delivered when lines and rest fit into the window |
| ConfigLines.LinesDelivered | Simulator/core/config.c:338-390 | of a file whose lines end in newlines and fit, all lines in order |
| ConfigLines.PlainFile | Simulator/core/config.c:322-391 | a file made of lines that fit into the window is delivered as these lines |
| ConfigLines.ChompMeaning | Simulator/core/config.c:378-381 | one carriage return goes, and only from the end |
| ConfigLines.LastLineRule | Simulator/core/config.c:340-377 | a last line without a newline is delivered exactly if something was unread when it was reached |
| ConfigLines.LastLineLost | Simulator/core/config.c:340-377 | two files with the same last line, one of which loses it |
| ConfigReader.Reader.OsRead | Simulator/core/config.c:342-345 | fills the buffer from a place on |
| ConfigReader.Reader.MoveDown | Simulator/core/config.c:358-360 | overlapping bytes are moved to the front |
| ConfigReader.Reader.ReadFresh | Simulator/core/config.c:340-348 | the buffer is filled from its beginning |
| ConfigReader.Reader.ShiftAndRead | Simulator/core/config.c:352-369 | the unfinished line is moved to the front and the room behind it is filled |
| ConfigReader.Reader.TakeFirst | Simulator/core/config.c:371-381 | the first line, or the whole buffer if it has none |
| ConfigReader.Reader.NextLine | Simulator/core/config.c:338-382 | one round delivers the next line and makes progress |
| ConfigReader.Reader.ReadAll | Simulator/core/config.c:338-390 | the loop delivers all lines and ends |
| Config.FirstWins | Simulator/core/config.c:303-316 | a variable with a value keeps it; another takes the first value the lines give |
| Config.GivenMeaning | Simulator/core/config.c:290-310 | the line name=v gives the variable the value v, cut to 2048 characters |
| Config.DefinesMeaning | Simulator/core/config.c:290-303 | a line gives a value exactly if it begins with the name and an equals sign |
| Config.MalformedMeaning | Simulator/core/config.c:290-302 | a line is fatal exactly if it begins with a name and no equals sign follows |
| Config.FinalPrecedence | Simulator/core/config.c:482-496 | application file, default file, environment, in terms of the lines of the files |
| Config.FileLinesMeaning | Simulator/core/config.c:384-387 | of the lines of a file those count, in order, that are neither empty nor comments |
| Config.ReadBackExactly | Simulator/core/config.c:303-313 | a reader gets the text of a value, cut to 2048 characters, exactly if the text is shorter than that; otherwise nothing ends it, and the reader takes the flags behind the array along |
| Config.LongValueRunsOn | Simulator/core/config.c:211-232 | the shortest such text, and what is read |
| Config.ProcessLine | Simulator/core/config.c:287-318 | sets the variables a line gives unless they have a value; fatal exactly if a line begins with a name and gives no value |
| Config.HandleLine | Simulator/core/config.c:384-387 | blank lines and comments are ignored |
| Config.ReadFile | Simulator/core/config.c:322-391 | all lines of a file |
| Config.SetFromEnv | Simulator/core/config.c:241-261 | the environment fills in what has no value yet |
| Config.ReadConfig | Simulator/core/config.c:482-496 | the first line about a variable in the application's file decides whatever the other sources hold, without one the first in the default file, and without that the environment; the text is the value given, cut to 2048 characters |

## Left out

- SharedCache.Cache.PcLookup: answers for the units of the cache. Of a flushed unit, which the code still
  finds, only the look at its cache is modelled (`FlushGroups.LookupFaultsExactlyIf`), not the walk
  through its free entries, whose list links are those of the moment it was flushed.
- FlushGroups.LookupFaultsExactlyIf: for runs without `fcache_mark_units_for_free`, which takes the last
  unit of a flush out of its cache as well.
- PrivateGrowth.FailsExactlyIf: giving up a trace is taken to make fragments deletable and none
  undeletable.
- PrivateCache.Cache.ReturnExtraSpace: takes the length the slot is to keep as given; the arithmetic
  with header, padding and minimum size is proved for the shared cache, where it is the same.
- PrivateCache.Cache.SetSize: the record is resized before the rest of the slot is disposed of, while
  the code does so afterwards.
- RegenRatio.Gauge.Check: where the size and the counters it looks at are increased is not modelled.
- TranslatorOutput.File.Show: an entry is shown as a value, without its hexadecimal text.
- DumpFile.File.Show: only user space; the messages for a process that cannot be read are left out, and
  so is the root frame, which is the same on every line.
- Augmentor.Augment: starts from rows of fields; the limits of `fgets` and `strtok` (4095 characters,
  32 fields, empty fields) and the width of the `int` counters are not modelled.
- Config.ReadConfig: starts when the files are open; their search paths are left out.
- Coarse-grain units, persisted caches, hot patching and the protection of cache pages.
- Resizing and moving units (`fcache_increase_size`, `fcache_shift_fragments`): unreachable when initial
  and maximum unit size are equal.
- The list of all live units and the flush of all caches at once; locks, statistics and profiling.
- Decoding of EPT entries, the jump to kernel space and EPT mode in the guest dump.
- Finding the guest's memory and process, the status files and the progress counters of the translator.
- Query mode and re-reading in `config.c`.
- `emit.c`, `dispatch.c`, `dynamo.c`, `annotations.c`: they rest on code generation, signals and start-up
  order, and what could be stated about them here would be easy.
