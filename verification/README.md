# lmbench: chains, harness and search

A Dafny model of the algorithmic parts of lmbench 3.0-a9, with proofs. Sources are cited by path and line.

- **Pointer chains** (`Chains`, `PageChains`, `BitOrder`, `PageTables`, `MemInit`, `MemFacts`, `LibMem`,
  `Thrash`, `Tlb`, `DramPage`). A benchmark walks `p = *p` through a buffer laid out by nested loops. The
  buffer is an array whose entries are indices into it; sizes and offsets are counted in pointer-sized words
  from the page-aligned base. `Chains.OneCycle(mem, start, words)` says that walking from `start` visits
  exactly `words`, each once, before it returns. One predicate, `PageChains.Grouped`, describes every layout
  that threads groups of pages line by line and word by word; `GroupedIsOneCycle` proves it one cycle, and
  mem_initialize, line_initialize, line_test, measure and regroup are proved to establish or keep it.
- **The page recolouring search** (`CacheMeasure`, `CacheTables`, `CacheFixup`, `CacheTest`, `CacheSearch`,
  `SizeTable`). A class holds the page table and the buffer; measured times are readings of an arbitrary clock.
  `CacheFixup.Fixup` gives the outcome of fixup_chunk as a function of the table and these readings, and
  `CacheTest.Tested`, `Collected` and `Searched` those of test_chunk, collect_sample and search. Ghost logs
  record every walk and every back-out. `Valid`, which every method keeps, says that every walk over different
  pages was one cycle and that every page can still be measured; it does not ask that no page is in the table
  twice, because a partial back-out can do that.
- **The benchmp harness** (`Results`, `Harness`, `HarnessInv`, `HarnessSafety`, `HarnessProgress`). The parent
  and any number of children are a state machine over their reads, writes, polls and intervals; start, result
  and exit pipes are counters, the response pipe is a sequence of bytes, and all hold a bounded number of bytes.
  Statements are about all runs. The tables of results are arrays that insertsort shifts in place.
- **Interval autosizing** (`Autosize`), **the directory tree** of lat_fs (`DirTree`), **weighted least squares**
  (`Regression`), **CPU placement** (`Placement`), **option parsing** (`GetOpt`).

`dafny verify dfyconfig.toml` checks the project.

What the code does not do, each stated as a theorem:

- mem_initialize's line counter gains one less than the lines of a page: on a buffer of more than one page whose
  last page is not full it threads more lines than the length asked for (`MemFacts.ExactLength`). Then that page
  cannot be measured by cache.c (`CacheSearch.LaidInner`).
- thrash_initialize on a buffer of partial pages is a cycle over all its lines exactly when their number is a
  power of two (`Thrash.ListCycle`); words_initialize repeats an entry for every other number
  (`BitOrder.WordOrderDistinct`).
- fixup_chunk's "move everything to the end of the page list" does so exactly when the chunk does not overlap
  the last slots, and only then does moving back undo it (`CacheTables.MoveIsolates`, `CacheTables.MoveBack`).
- fixup_chunk saves and restores `sizeof(int) * ntotalpages` bytes of a table of `size_t`: half of its entries
  where they are twice as wide. How many entries that is, is a parameter of FixupChunk, TestChunk,
  CollectSample and Search. A back-out keeps all pages exactly when no page from behind the copy's end is now
  before it (`CacheTables.BackOut`), and among the slots in use, without overlap, exactly when the copy stops
  before the chunk (`CacheTables.BackOutInUse`). Over all readings of the clock it never loses a page exactly when
  the copy stops before the chunk or takes the whole table (`CacheFixup.CopyExact`; `CacheFixup.LosesPage` is a run
  that does). A whole search keeps all pages exactly if none of its back-outs lost one, which for a copy of the
  whole table is always so (`CacheSearch.Searcher.Search`).
- Where fixup_chunk found nothing worth having, without backing out, it leaves the chunk among the last slots and
  other pages in its place, unless it was there before (`CacheFixup.NotPutBack`). When no page is ever cheap, only
  a chunk that is the last page in use is left as it was (`CacheFixup.LeavesRearranged`).
- fixup_chunk tries the spare pages in turn, but never the first one (`CacheFixup.EachTried`, `CacheFixup.Tried`).
- fixup_chunk divides by the number of spare pages less one. Whether search can reach it with one spare page or
  none depends on the buffer: every sample it may collect has two exactly if the buffer is less than a page and a
  half, or more than eight pages, or more than five and not whole pages (`SizeTable.ReadyExact`). On eight pages
  it has not (`SizeTable.OneSpare`).
- regroup takes the lines of a partly used last page away from all pages of its group: the chain stays one cycle,
  over the same words exactly if that group is one page or the page is full (`DramPage.SameWords`).
- sched_pin tests and sets bits of a word by shifting an int. Whatever the machine makes of a shift to the sign
  bit or beyond, the mask has exactly the bit of the CPU found exactly below that bit (`Placement.PinExact`), and
  on a host whose CPUs may all be used every process of UNIQUE is pinned to its own exactly if an int is wider
  than a word or there are fewer CPUs than bits of an int (`Placement.HostExact`). On 64 CPUs two processes share
  CPU 8 where shifts count modulo 32 (`Placement.TwoOnOneCpu`).
- The starting pointers of mem_initialize are set for every width only if the last one's mark is among its
  links (`LibMem.AllStarts`); on eight lines to a page, two pages and width 16 the last two are not.
- The median of n results depends on the order in which they came in, unless n is odd or at most 2
  (`Results.MedianOrder`). With several children the number of iterations is the same in all of them, and then
  the order never matters (`HarnessSafety.MedianParallel`).
- BENCH_INNER saves the iteration count for the next interval with the time of the last one; it is the count
  that was timed exactly on target, or when rescaling takes away less than one iteration
  (`Autosize.SavedIsTimed`, `Autosize.SavedIsNotTimed`).
- UNIQUE_SPREAD gives as many processes as there are CPUs a CPU each exactly on 2^n or 2^n - 1 CPUs
  (`Placement.SpreadDistinct`); the source's remark names only powers of two.
- getopt's assertion can fail after a missing argument of a `;` option, and after nothing else
  (`GetOpt.StaysReady`, `GetOpt.AssertFails`). After any other error it does not move on: a caller that goes on
  calling gets the same answer for ever (`GetOpt.ErrorRepeats`).
- The merged table of benchmp is large enough in every run exactly when repetitions is at least 1 or there are
  at most 11 children (`HarnessProgress.CapacityExact`).

## Model

| member | source | states |
|---|---|---|
| Chains.CycleIsOneCycle | lmbench-3.0-a9/src/lib_mem.c:322-348 | a list of distinct words, each pointing to the next and the last to the first, is one closed cycle over them, walked in that order |
| Chains.OneCycleVisitsOnce | lmbench-3.0-a9/src/lib_mem.c:322-348 | on one cycle the walk meets every word exactly once before it is back at the start |
| Chains.OneCycleClosed | lmbench-3.0-a9/src/lib_mem.c:322-348 | the chain never leaves its words, so a benchmark may take any number of steps |
| Chains.WalkChain | lmbench-3.0-a9/src/lib_mem.c:628-638 | the walk p = *p of a benchmark stays in the buffer and ends where that many links lead |
| PageChains.GroupedIsOneCycle | lmbench-3.0-a9/src/lib_mem.c:322-348 | groups of pages threaded line by line, group by group and word by word are one cycle over exactly the words they cover, in that order |
| BitOrder.ReverseBits | lmbench-3.0-a9/src/lib_mem.c:536-541 | the bit loop computes the reversal of the low bits |
| BitOrder.RevRev | lmbench-3.0-a9/src/lib_mem.c:536-541 | reversing twice gives the number back, so reversal is a bijection |
| BitOrder.RevBit | lmbench-3.0-a9/src/lib_mem.c:536-541 | bit i of the reversal is bit n - 1 - i of the number |
| BitOrder.WordsInitialize | lmbench-3.0-a9/src/lib_mem.c:525-546 | the table is the bit-reversed order, scaled |
| BitOrder.WordOrderDistinct | lmbench-3.0-a9/src/lib_mem.c:525-546 | no entry of the order repeats exactly when the number of entries is a power of two |
| BitOrder.WordOrderOnto | lmbench-3.0-a9/src/lib_mem.c:525-546 | for a power of two the order reaches every multiple of the scale |
| BitOrder.WordOrderSeparated | lmbench-3.0-a9/src/lib_mem.c:525-546 | for a power of two the entries are apart by the scale and inside the bound, and the first is 0 |
| BitOrder.Permutation | lmbench-3.0-a9/src/lib_timing.c:1631-1668 | the order that the random numbers give, exchange by exchange, each multiple being where its exchanges take it; for every random sequence a rearrangement of 0, scale, 2*scale, ... |
| BitOrder.AnyOrder | lmbench-3.0-a9/src/lib_timing.c:1647-1653 | every rearrangement of the multiples is the order some random numbers give |
| LibMem.MemState.BaseInitialize | lmbench-3.0-a9/src/lib_mem.c:128-175 | a fresh buffer with room for every page, and a page table that holds all pages of maxlen in the order the random numbers give, for any line and page size |
| LibMem.MemState.MemInitialize | lmbench-3.0-a9/src/lib_mem.c:291-355 | the pages are visited in the order the random numbers give; the chain is one cycle over the words it threads, over every word of the buffer when len is whole pages of maxlen; starting pointer k is set, to the start of link k * (npointers / width) for word k of a line, exactly if there is such a link, and lies on the chain |
| LibMem.AllStarts | lmbench-3.0-a9/src/lib_mem.c:331-335 | all width starting pointers are set exactly when (width - 1) * (npointers / width) is less than the number of links |
| LibMem.MemState.LineInitialize | lmbench-3.0-a9/src/lib_mem.c:364-409 | one cycle over the first word of every line of every page, starting at p[0] |
| LibMem.MemState.LineTest | lmbench-3.0-a9/src/lib_mem.c:596-666 | the walk is over one cycle through one word every stride bytes of every page for a power of two, and memory is afterwards exactly what it was |
| LibMem.MemState.ChainReady | lmbench-3.0-a9/src/lib_mem.c:306-320 | the tables mem_initialize works from fit into the buffer, line by line and word by word |
| MemInit.LinkLine | lmbench-3.0-a9/src/lib_mem.c:326-329 | every word of a line points to the same word of the next line, and nothing else changed |
| MemInit.LinkWords | lmbench-3.0-a9/src/lib_mem.c:338-341 | the last line of a page leads word for word to the next page, and nothing else changed |
| MemInit.LinkRound | lmbench-3.0-a9/src/lib_mem.c:344-348 | the last line leads each word on to the next word at the start of the chain |
| MemFacts.StepOfWalk | lmbench-3.0-a9/src/lib_mem.c:322-348 | the walk goes through all lines of all pages for one word of a line, then for the next word |
| MemFacts.ExactLength | lmbench-3.0-a9/src/lib_mem.c:306-341 | the chain has as many lines as the length asks for exactly when there is one page or the last page is full |
| MemFacts.PageWordsCount | lmbench-3.0-a9/src/lib_mem.c:322-348 | how many words a chain over pages of which the last is partly used has |
| MemFacts.OrderPrefix | lmbench-3.0-a9/src/lib_mem.c:600-618 | the first pagesize/stride entries of the longer reversed order are the order for that stride |
| MemFacts.OrderIsMultiples | lmbench-3.0-a9/src/lib_mem.c:600-618 | these entries are exactly the multiples of the stride on every page |
| LibMem.ShortenLines | lmbench-3.0-a9/src/lib_mem.c:610-619 | every page leaves after its first pagesize/stride lines, and only one word per page changed |
| LibMem.RestoreLines | lmbench-3.0-a9/src/lib_mem.c:645-663 | the full chain is back, word for word |
| Thrash.ThrashInitialize | lmbench-3.0-a9/src/lib_mem.c:206-273 | on whole pages one cycle over every line of every page; on partial pages, for any line size, one cycle over all lines exactly when their number is a power of two |
| Thrash.NextPageEachStep | lmbench-3.0-a9/src/lib_mem.c:248-270 | every link leads to the next page of the order, never to the same page when there are two |
| Thrash.LanesCycle | lmbench-3.0-a9/src/lib_mem.c:248-270 | the rotated layout is one cycle over every line slot of every page |
| Thrash.ListCycle | lmbench-3.0-a9/src/lib_mem.c:235-246 | the flat list is one cycle over all lines exactly for a power of two |
| Tlb.ShufflePages | lmbench-3.0-a9/src/lib_mem.c:491-499 | the order that the random choices give: page 0 stays, the rest is one cyclic rearrangement for every random sequence, and no other page keeps its slot when there are three |
| Tlb.DrawnTells | lmbench-3.0-a9/src/lib_mem.c:491-499 | different random choices give different orders |
| Tlb.MergeCycles | lmbench-3.0-a9/src/lib_mem.c:494-499 | one exchange between two cycles of the rearrangement makes one cycle of both |
| Tlb.TlbInitialize | lmbench-3.0-a9/src/lib_mem.c:430-514 | one cycle through exactly one word on every page, walked in the shuffled order of the pages |
| Tlb.OffsetsDiffer | lmbench-3.0-a9/src/lib_mem.c:501-506 | pages visited fewer steps after one another than a page has lines are read at different offsets |
| Tlb.StrideInitialize | lmbench-3.0-a9/src/lib_mem.c:185-204 | one cycle through every stride-th word of the buffer, for any stride, walked in address order |
| DramPage.Regroup | lmbench-3.0-a9/src/lat_dram_page.c:101-144 | all pages but the last lead to the same place one page on; pointers of the last page into itself lead into the first; nothing else changed; a group of one page is untouched |
| DramPage.GroupedStep | lmbench-3.0-a9/src/lat_dram_page.c:101-144 | regrouping single pages makes them one group of the same chain, also where its last page is partly used |
| DramPage.DramPageInitialize | lmbench-3.0-a9/src/lat_dram_page.c:146-169 | after every group, also a short last one, the chain is one cycle; over the same words exactly if the last group is one page or all lines of the last page are used; over the whole buffer when len is whole pages of maxlen; in every group of two or more every step but the last goes to a different page |
| DramPage.NextPageInGroup | lmbench-3.0-a9/src/lat_dram_page.c:111-143 | in a linked group of two or more different pages every step but the last goes to a different page |
| DramPage.ChunksCycle | lmbench-3.0-a9/src/lat_dram_page.c:158-166 | a chain cut into groups of any size is one cycle, with the words it covers |
| DramPage.SameWords | lmbench-3.0-a9/src/lat_dram_page.c:111-143 | these are the words covered before exactly if the last group is one page or all lines of its last page are used |
| CacheMeasure.MeasureChain | lmbench-3.0-a9/src/cache.c:426-473 | the links make one chain of the pages in use while it is walked, if none of them is there twice; afterwards every page's inner chain is intact in any case |
| CacheMeasure.InnerAnyOrder | lmbench-3.0-a9/src/cache.c:426-437 | intact inner chains do not depend on the order of the page table, nor on which of the pages are in it, or how often |
| CacheSearch.MeasuredSize | lmbench-3.0-a9/src/cache.c:411-442 | a size that is a multiple of the line size is measured over exactly that many words |
| CacheSearch.Searcher.constructor | lmbench-3.0-a9/src/cache.c:257-303 | the table in address order holds no page twice, and is ready to be measured exactly if mem_initialize used all lines of every page |
| CacheSearch.LaidInner | lmbench-3.0-a9/src/cache.c:257-303 | mem_initialize leaves every page ready exactly when it used all lines of the last page |
| CacheSearch.Searcher.Measure | lmbench-3.0-a9/src/cache.c:401-479 | under any page order one walk, over one cycle through the words of the first pages if these are different, and everything can be measured again |
| CacheSearch.Searcher.RemoveChunk | lmbench-3.0-a9/src/cache.c:482-506 | one walk without the chunk, and the table is as it was |
| CacheTables.RemovedIsolates | lmbench-3.0-a9/src/cache.c:489-495 | the first npages - chunk slots hold exactly the pages outside the chunk, also when chunk and tail overlap |
| CacheTables.PassTwice | lmbench-3.0-a9/src/cache.c:489-503 | the second pass of swaps restores the table, also when chunk and tail overlap |
| CacheTables.MoveIsolates | lmbench-3.0-a9/src/cache.c:595-602 | the chunk ends up in the last slots exactly when it does not overlap them, or is them |
| CacheTables.MoveBack | lmbench-3.0-a9/src/cache.c:687-695 | moving back undoes the move exactly when they do not overlap |
| CacheTables.BackOut | lmbench-3.0-a9/src/cache.c:593-682 | for every table the search may have left and every r, putting the first r entries back keeps all pages exactly when no page from slot r on is now before slot r; otherwise one is lost |
| CacheTables.BackOutInUse | lmbench-3.0-a9/src/cache.c:593-682 | where the copy ends among the slots in use and the chunk does not overlap the last of them, all pages are kept exactly when it stops before the chunk; a page is also lost as far as the moved slots reach when they do overlap |
| CacheTables.BackedOutLoses | lmbench-3.0-a9/src/cache.c:593-682 | so a logged back-out of fixup_chunk loses a page exactly when its copy reaches into or past the chunk, if it ends among the slots in use and the chunk does not overlap the last of them |
| CacheTables.ConservedThen | lmbench-3.0-a9/src/cache.c:508-556 | over several rounds all pages are kept exactly if no back-out of any of them lost one: a page lost never comes back |
| CacheFixup.LosesPage | lmbench-3.0-a9/src/cache.c:567-704 | on every table and for every chunk there are readings for which fixup_chunk backs out and loses a page, for every r behind the chunk's start but the whole table |
| CacheFixup.EachTried | lmbench-3.0-a9/src/cache.c:640-667 | any nspare - 1 rounds in a row try every spare page but the first |
| CacheFixup.TriedLater | lmbench-3.0-a9/src/cache.c:667 | the next search of spare pages goes on where the last one stopped |
| CacheFixup.CopyExact | lmbench-3.0-a9/src/cache.c:567-704 | for all readings no page is lost exactly if the copy stops before the chunk or takes the whole table |
| CacheFixup.FixupFound | lmbench-3.0-a9/src/cache.c:567-704 | for all readings the table found is a rearrangement that below the last slots is the moved table, and what is left is that table, the same moved back, or a copy over it |
| CacheFixup.NotPutBack | lmbench-3.0-a9/src/cache.c:671-702 | where nothing was gained and nothing backed out, the chunk's first slot holds another page than before |
| CacheFixup.LeavesRearranged | lmbench-3.0-a9/src/cache.c:671-702 | when no page is ever cheap the table is as before exactly if the chunk is the last page in use |
| CacheSearch.Searcher.KeepPages | lmbench-3.0-a9/src/cache.c:606-621 | one walk per page; pages that cost nothing come first, the others behind them, each with a latency it was measured with; other slots and the pool are unchanged |
| CacheSearch.Searcher.PageSort | lmbench-3.0-a9/src/cache.c:758-774 | latencies rise, every page keeps its latency, nothing outside the part changes |
| CacheSearch.Searcher.TrySubstitute | lmbench-3.0-a9/src/cache.c:640-660 | one walk with the spare page as the last, over part of it where the buffer ends there; it leaves the table alone unless the spare page beats the worst one, which it then replaces, and the rest is sorted again |
| CacheSearch.Searcher.Substitute | lmbench-3.0-a9/src/cache.c:639-667 | swapped counts the pages kept, which are cheap; the others stay sorted; every page keeps a latency it was measured with; two spare pages keep every index in range |
| CacheSearch.Searcher.FixupChunk | lmbench-3.0-a9/src/cache.c:567-704 | the outcome is that of Fixup for the readings in order; at most 20 pages; changes are kept only if they save 0.1 percent, otherwise the first `restored` saved entries are put back, which is logged with the table found, a rearrangement of the old one that below the last slots in use is the moved table; without back-out the pool is conserved |
| CacheSearch.Searcher.TestChunk | lmbench-3.0-a9/src/cache.c:508-556 | the answer, the table and the baseline are those of CacheTest.Tested for the readings in order; terminates for every clock, takes at least one walk for every step through the chunk, calls fixup_chunk with at most 20 pages, says yes exactly when it changed the baseline, which then fell; all pages are kept exactly if no back-out, each of `restored` entries, lost one |
| CacheSearch.Searcher.Suspect | lmbench-3.0-a9/src/cache.c:527-544 | a part is suspected exactly if both readings, or the one reading if that is enough to tell, are below 0.99 of the baseline and 0.999 of the last harmless part; the slower one is handed on |
| CacheTest.TestedParts | lmbench-3.0-a9/src/cache.c:518-525 | a chunk of more than 20 pages, or of all pages in use, is cut into parts of a twentieth, rounded up |
| CacheTest.PartHanded | lmbench-3.0-a9/src/cache.c:527-553 | a part whose two readings pass is handed on with the baseline in force and the slower reading; its outcome is kept, and that reading is the new limit if it was harmless |
| CacheTest.PartLeft | lmbench-3.0-a9/src/cache.c:535-544 | a part with a reading that is not clearly faster is left alone, after one walk if that is the first |
| CacheTest.PartsBefore | lmbench-3.0-a9/src/cache.c:525-536 | parts whose first readings are not clearly faster are passed over, and the search goes on with the next |
| CacheTest.Quiet | lmbench-3.0-a9/src/cache.c:508-556 | when no reading is clearly below the baseline the answer is no, and the table, the baseline and available_index are as before |
| CacheTest.SomeClockFinds | lmbench-3.0-a9/src/cache.c:508-556 | on every table, for every chunk of more than 20 pages or of all in use, at any depth of cutting up, and every baseline above 2.1, there are readings for which the answer is yes |
| CacheSearch.Searcher.CollectSample | lmbench-3.0-a9/src/cache.c:373-399 | the latency, the table and available_index are those of CacheTest.Collected for the readings in order: at most eight rounds, as long as they change something; reports the first measurement or one at least 0.1 percent below it; all pages are kept exactly if no back-out lost one |
| CacheTest.QuietSample | lmbench-3.0-a9/src/cache.c:379-391 | when no later reading is clearly below the first, that is the latency and the table is as before |
| CacheSearch.Searcher.Search | lmbench-3.0-a9/src/cache.c:336-371 | the latencies, the ratios and the table are those of CacheTest.Searched for the readings in order; the bisection ends, collects only samples strictly between its ends, goes on exactly while the latency rises by more than 35 percent; all pages are kept exactly if no back-out lost one, and so always if the whole table is copied |
| CacheTest.SearchedSplit | lmbench-3.0-a9/src/cache.c:340-371 | where the ratio asks for it the middle sample is taken, then the right half searched, then the left |
| CacheTest.SamplingIs | lmbench-3.0-a9/src/cache.c:366-391 | the latency recorded in the middle is the baseline collect_sample ends with |
| SizeTable.CountSizes | lmbench-3.0-a9/src/cache.c:265-269 | the number of samples is that of all sizes up to maxlen |
| SizeTable.FillSizes | lmbench-3.0-a9/src/cache.c:277-286 | the second loop fills exactly the table allocated, in range |
| SizeTable.SizesIncrease | lmbench-3.0-a9/src/cache.c:265-269 | the sizes increase |
| SizeTable.SampleReady | lmbench-3.0-a9/src/cache.c:305-371 | every sample but the last can be measured and leaves two spare pages, if the buffer is roomy |
| SizeTable.ReadyExact | lmbench-3.0-a9/src/cache.c:305-371 | all samples search may collect are so exactly on a roomy buffer: less than a page and a half, more than eight pages, or more than five and not whole ones |
| SizeTable.OneSpare | lmbench-3.0-a9/src/cache.c:305-371 | on eight pages the last sample but one takes seven and leaves one |
| Results.Table.InsertSort | lmbench-3.0-a9/src/lib_timing.c:1219-1241 | the table stays sorted and gains the value in its place; readings of no time are dropped |
| Results.InsertSorted | lmbench-3.0-a9/src/lib_timing.c:1219-1241 | inserting keeps the order, largest time per iteration first |
| Results.InsertSame | lmbench-3.0-a9/src/lib_timing.c:1219-1241 | inserting adds exactly the value |
| Results.Table.SaveMedian | lmbench-3.0-a9/src/lib_timing.c:1271-1291 | for an odd number an entry with at most half of the others above and at most half below it; for an even number half the sums of two entries that have equally many others above and below them and none between; (0, 1) for none |
| Results.Middle | lmbench-3.0-a9/src/lib_timing.c:1271-1291 | the same of every sorted table |
| Results.RatioOrder | lmbench-3.0-a9/src/lib_timing.c:1225-1228 | times per iteration compare as the products do |
| Results.Table.SaveMinimum | lmbench-3.0-a9/src/lib_timing.c:1259-1269 | a value of the table with the least time per iteration |
| Results.SortedRatios | lmbench-3.0-a9/src/lib_timing.c:1219-1241 | two sorted tables of the same values have the same ratio in every place |
| Results.OddMedian | lmbench-3.0-a9/src/lib_timing.c:1271-1291 | for an odd number the median ratio depends on the values only |
| Results.EvenMedian | lmbench-3.0-a9/src/lib_timing.c:1283-1286 | for every even number from 4 on there are values whose median ratio depends on the order they came in |
| Results.MedianOrder | lmbench-3.0-a9/src/lib_timing.c:1271-1291 | it never does exactly for odd numbers and up to two values |
| Results.CountMedian | lmbench-3.0-a9/src/lib_timing.c:1271-1291 | for values with the same number of iterations the sorted table and its median do not depend on the order |
| Results.MergeUnion | lmbench-3.0-a9/src/lib_timing.c:477-480 | merging a table adds exactly its values and keeps the order |
| Results.MergeTable | lmbench-3.0-a9/src/lib_timing.c:477-480 | the loop over one child's table merges it into the parent's, within its capacity |
| Results.MergedFits | lmbench-3.0-a9/src/lib_timing.c:354 | room for all samples exactly when repetitions >= 1 or there are at most TRIES children |
| HarnessInv.InitInv | lmbench-3.0-a9/src/lib_timing.c:600-636 | the first state satisfies the invariant |
| HarnessInv.StepInv | lmbench-3.0-a9/src/lib_timing.c:358-762 | every read, write, poll and interval of every process keeps the invariant |
| HarnessInv.CollectReadyStage | lmbench-3.0-a9/src/lib_timing.c:358-390 | when the parent has its ready bytes every child has sent one |
| HarnessInv.CollectDoneStage | lmbench-3.0-a9/src/lib_timing.c:403-434 | when the parent has its done bytes every child has left its intervals |
| HarnessInv.WritePieceStage | lmbench-3.0-a9/src/lib_timing.c:733-746 | only the child that read the result byte writes its record, in order |
| HarnessInv.RecordRead | lmbench-3.0-a9/src/lib_timing.c:438-481 | the bytes read for one record are that child's whole record, and the pipe is empty after it |
| HarnessSafety.RunInv | lmbench-3.0-a9/src/lib_timing.c:358-762 | every state of every run satisfies the invariant |
| HarnessSafety.OverlapSafety | lmbench-3.0-a9/doc/lmbench3.ms:577-580 | while any child is in a timing interval every child has sent ready and none has seen a result byte |
| HarnessSafety.RecordsWhole | lmbench-3.0-a9/doc/lmbench3.ms:815-871 | every record the parent has read is one child's, whole, and no child's twice |
| HarnessSafety.TablesFit | lmbench-3.0-a9/src/lib_timing.c:353-354 | no table grows beyond what was allocated when repetitions >= 1 or there are at most TRIES children |
| HarnessProgress.CapacityExact | lmbench-3.0-a9/src/lib_timing.c:353-354 | the parent's table stays within its allocation in all runs exactly under that condition |
| HarnessProgress.LargestTable | lmbench-3.0-a9/src/lib_timing.c:353-354 | there is a run in which every child reports as many samples as it can |
| HarnessSafety.Merged | lmbench-3.0-a9/src/lib_timing.c:436-490 | the merged table is the sum of all children's tables, sorted |
| HarnessSafety.TableHolds | lmbench-3.0-a9/src/lib_timing.c:702-709 | at any time in any run a child's table holds exactly the samples it took that show a time |
| HarnessSafety.StopsExactly | lmbench-3.0-a9/src/lib_timing.c:702-712 | in any run a child times until it has taken one sample and as many as repetitions, or has given up, and stops right then |
| HarnessSafety.MergedHolds | lmbench-3.0-a9/src/lib_timing.c:436-490 | at the end of any run the parent's table holds exactly the samples all children took, sorted |
| HarnessSafety.MedianAnyOrder | lmbench-3.0-a9/src/lib_timing.c:436-490 | two runs in which the children took the same samples, an odd number of them, report the same median ratio, whatever the order and the numbers of iterations |
| HarnessSafety.MedianParallel | lmbench-3.0-a9/src/lib_timing.c:436-490 | with several children two runs in which they took the same samples report the same median, for any number of samples |
| HarnessSafety.BytesConserved | lmbench-3.0-a9/src/lib_timing.c:400-487 | at the end every child has read one start, one result and one exit byte, and the pipes are empty |
| HarnessProgress.NoDeadlock | lmbench-3.0-a9/src/lib_timing.c:358-762 | in every reachable unfinished state, with pipes that hold any number of bytes but none, some process has a step that brings the run closer to its end |
| HarnessProgress.StepWork | lmbench-3.0-a9/src/lib_timing.c:358-762 | every step brings the run closer to its end or changes nothing |
| HarnessProgress.BoundedRun | lmbench-3.0-a9/src/lib_timing.c:358-762 | the number of steps that change anything is bounded |
| HarnessProgress.CanFinish | lmbench-3.0-a9/src/lib_timing.c:358-762 | every run can be continued to the end |
| Autosize.Child.Interval | lmbench-3.0-a9/src/lib_timing.c:702-731 | which intervals count as samples, and that the table then gains just the time of the interval, rounded down, with its iterations; how the iterations change; when the child cools down |
| Autosize.RescaledExact | lmbench-3.0-a9/src/lib_timing.c:714-717 | the new count takes a tenth more than enough at the rate just measured, and exceeds that by at most one iteration |
| Autosize.SettledIfRescaled | lmbench-3.0-a9/src/lib_timing.c:714-717 | at costs within four percent, after one rescaling every later interval is long enough to count |
| Autosize.ExactIsSteady | lmbench-3.0-a9/src/lib_timing.c:702-731 | an exact positive cost per iteration is within these four percent |
| Autosize.GrowthLimit | lmbench-3.0-a9/src/lib_timing.c:718-723 | multiplying by eight passes 2^27 at the tenth step and not before |
| Autosize.RunAlone | lmbench-3.0-a9/src/lib_timing.c:702-731 | for every cost per iteration that is not arbitrarily small where it shows, a child alone cools down within a stated number of intervals, with all its samples or too many iterations; at steady costs at most ten intervals do not count |
| Autosize.NoEndWithoutBound | lmbench-3.0-a9/src/lib_timing.c:702-731 | without a lower bound on the cost it need not: from every count some interval neither counts nor ends it |
| Autosize.Inner.Bench | lmbench-3.0-a9/src/bench.h:246-274 | ends within a stated number of intervals for every such cost, and within twelve at steady costs; all intervals but the last were too short, and the saved time is that of the last one, rounded down, or 0 past 2^27 iterations |
| Autosize.NextExact | lmbench-3.0-a9/src/bench.h:258-268 | the count timed next: the same on target, eight times as many when the interval was short, otherwise the rescaled count, within one iteration |
| Autosize.SavedIsTimed | lmbench-3.0-a9/src/bench.h:258-273 | the count saved is the count timed exactly when the time was on target, or so little above it that rescaling takes away less than one iteration |
| Autosize.SavedIsNotTimed | lmbench-3.0-a9/src/bench.h:258-273 | an overlong interval of 1000 iterations is saved as 551 iterations |
| DirTree.Plan | lmbench-3.0-a9/src/lat_fs.c:164-172 | the nested ceilings terminate and count the root and every directory below it, in a tree deep enough for n files |
| DirTree.CeilNested | lmbench-3.0-a9/src/lat_fs.c:168-172 | rounding up level by level is rounding up once by the product |
| DirTree.BelowStep | lmbench-3.0-a9/src/lat_fs.c:138-142 | one subdirectory more adds itself and what is below it to the count |
| DirTree.Tree.constructor | lmbench-3.0-a9/src/lat_fs.c:152-205 | exactly n files named by their digits and exactly the planned directories, so the source's error report is never reached |
| DirTree.Tree.Recurse | lmbench-3.0-a9/src/lat_fs.c:126-150 | how far the two offsets advance, what is written between, and that nothing else is |
| DirTree.DigitsInjective | lmbench-3.0-a9/src/lat_fs.c:143-148 | different files have different names |
| DirTree.DigitsNumber | lmbench-3.0-a9/src/lat_fs.c:143-148 | the digits of a file name, read in base max, are the number of the file |
| DirTree.FewEntries | lmbench-3.0-a9/src/lat_fs.c:138-142 | directories with the same parent have different numbers below max |
| DirTree.FewFiles | lmbench-3.0-a9/src/lat_fs.c:143-148 | files in the same directory have different numbers below max |
| DirTree.EntriesBound | lmbench-3.0-a9/src/lat_fs.c:126-150 | every directory holds at most max entries, and no directory holds both files and directories |
| DirTree.AncestorsFirst | lmbench-3.0-a9/src/lat_fs.c:221-226 | a directory inside another comes later in dirs, so removing in reverse order never removes a parent first |
| Regression.Regress | lmbench-3.0-a9/src/lib_stats.c:550-597 | no result exactly when all x are equal; otherwise both normal equations hold, chi2 is the sum of squares, and no line has a smaller one |
| Regression.SolvesNormal | lmbench-3.0-a9/src/lib_stats.c:567-588 | the quotients computed solve the normal equations |
| Regression.Pythagoras | lmbench-3.0-a9/src/lib_stats.c:592-597 | any other line adds the weighted squares of its difference |
| Regression.Optimal | lmbench-3.0-a9/src/lib_stats.c:592-597 | the line is the best, and the only best one when two x differ |
| Regression.SpreadZero | lmbench-3.0-a9/src/lib_stats.c:567-587 | the divisor Stt is zero exactly when all x are equal |
| Placement.ReverseCpu | lmbench-3.0-a9/src/lib_sched.c:106-122 | the low bits of the number, as many as CPU numbers need, reversed |
| Placement.SpreadDistinct | lmbench-3.0-a9/src/lib_sched.c:80-97 | reversal modulo the number of CPUs is injective exactly on 2^n or 2^n - 1 CPUs |
| Placement.SchedPin | lmbench-3.0-a9/src/lib_sched.c:201-231 | of the tests that find something the one numbered cpu modulo their count, and the bits its shift sets: exactly that CPU, an allowed one, below an int's sign bit |
| Placement.PinExact | lmbench-3.0-a9/src/lib_sched.c:217-231 | exactly the bit of that CPU is set, whatever other shifts do, exactly when it lies below the int's sign bit in its word |
| Placement.BitTells | lmbench-3.0-a9/src/lib_sched.c:217-231 | two processes end at the same test exactly when they ask for the same number among those that find something |
| Placement.HandleScheduler | lmbench-3.0-a9/src/lib_sched.c:45-98 | for every policy the test of the CPU asked for; that one allowed CPU if shifting an int can name the allowed ones |
| Placement.AskedExact | lmbench-3.0-a9/src/lib_sched.c:52-97 | which CPU every policy asks for, also from a list that is shorter than the run or empty |
| Placement.BalancedRound | lmbench-3.0-a9/src/lib_sched.c:55-60 | under BALANCED any ncpus children in a row take every CPU once |
| Placement.UniquePlacement | lmbench-3.0-a9/src/lib_sched.c:72-97 | UNIQUE and, on 2^n or 2^n - 1 CPUs, UNIQUE_SPREAD pin no two processes to one CPU, and each to one, if shifting an int can name the allowed CPUs |
| Placement.BalancedPlacement | lmbench-3.0-a9/src/lib_sched.c:55-71 | BALANCED and, on 2^n or 2^n - 1 CPUs, BALANCED_SPREAD pin two processes to the same CPU exactly if they are of the same child, if shifting an int can name the allowed CPUs |
| Placement.CustomPlacement | lmbench-3.0-a9/src/lib_sched.c:89-97 | CUSTOM_SPREAD with a list of different CPUs, one for every process, pins no two of them to one CPU, under the same condition |
| Placement.HostExact | lmbench-3.0-a9/src/lib_sched.c:201-231 | on a host whose CPUs may all be used every process is pinned to its own CPU, whatever other shifts do, exactly if an int is wider than a word or there are fewer CPUs than bits of an int |
| Placement.TwoOnOneCpu | lmbench-3.0-a9/src/lib_sched.c:201-231 | with 64 CPUs and shifts that count modulo 32 UNIQUE pins processes 8 and 40 to CPU 8 |
| Placement.SharedCpu | lmbench-3.0-a9/src/lib_sched.c:80-97 | on any other number of CPUs two processes share one |
| GetOpt.Getopt.Next | lmbench-3.0-a9/src/getopt.c:32-116 | the state and the answer of a call are those of the specification, and its assertion holds |
| GetOpt.StaysReady | lmbench-3.0-a9/src/getopt.c:48-102 | the assertion holds at the next call exactly unless a missing adjoining argument was followed by a shorter option word |
| GetOpt.KindExact | lmbench-3.0-a9/src/getopt.c:66-95 | the character after the first place of a letter says how it takes an argument |
| GetOpt.ErrorExact | lmbench-3.0-a9/src/getopt.c:54-109 | the answer is '?' exactly for a letter not in opts, or one whose argument is missing; optopt is that letter |
| GetOpt.ErrorRepeats | lmbench-3.0-a9/src/getopt.c:54-109 | after an error every further call answers the same, exactly unless an adjoining argument was missing |
| GetOpt.NeverFails | lmbench-3.0-a9/src/getopt.c:48 | without ';' in the option string the assertion never fails |
| GetOpt.AssertFails | lmbench-3.0-a9/src/getopt.c:96-102 | -ab -a with "ab;" makes it fail |
| GetOpt.ReadCluster | lmbench-3.0-a9/src/getopt.c:66-115 | successive calls read a word of clustered flags and the option after them |
| GetOpt.RoundTrip | lmbench-3.0-a9/src/getopt.c:32-116 | any legal options, printed and followed by operands, are returned in order with their arguments, then EOF with optind at the first operand |

## Left out

- Clocks, signals, the alarm that kills children, failing children, and failure of fork, pipe and malloc: runs of benchmp are those without failures, times are arbitrary inputs, allocation succeeds.
- benchmp's own first run with one child, from which it takes the iterations for many: the two runs are modelled apart.
- Alignment: offsets are from the aligned base, and one unit is one pointer; the sizes given in bytes are multiples of it.
- Integer widths: page numbers, iteration counts and sizes are unbounded, except where a comment says otherwise; floating-point times are reals.
- Autosize.RunAlone: costs that show are bounded from below, by any bound; the width of iter_t is not modelled.
- CacheSearch.Searcher.FixupChunk: two spare pages are required; with one the source divides by zero. Its caller provides two exactly on the buffers of `SizeTable.ReadyExact`; what it does on others is not modelled. The latencies not measured yet are zeros; the source leaves them undefined and does not read them.
- CacheSearch.Searcher.PageSort: for no pages the source's bound wraps around and its loops swap nothing; they are not stepped through.
- CacheSearch.Searcher.Search: the slope, which nothing reads, is not computed.
- HarnessProgress.CanFinish: fairness is not modelled; that a process gets to run is up to the scheduler.
- Placement.HandleScheduler: the user's list of CPUs comes as numbers; how it is read from the environment is not part of this model.
- Regression.Regress: the error estimates sig_a and sig_b need square roots and are not part of this model; where all x are equal the source divides by zero, and the model returns nothing.
- Tlb.ShufflePages: the random generator is any function; its state is not modelled.
- line_find, par_mem, find_cache and check_memory: searches over measured times and diagnostics, easier than what they call.
- BENCHO's subtraction of overheads from a table, and the overhead estimates of lib_timing.c.
- bread, tvsub, tvdelta and number printing: no state worth an invariant.
- Networking, disk, context-switch and arithmetic benchmarks, scripts and documents.
