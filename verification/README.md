# tcmalloc in Dafny

A model of the allocator core of gperftools: the page heap, the central free lists with
their transfer caches, the thread caches, the index structures beside them, the CPU
profiler's sample table, and the small regular-expression matcher of the benchmarks. Each
part is proved against what its code and documentation promise. `dafny verify
dfyconfig.toml` checks everything.

**Page heap** (`Spans`, `FreeLists`, `Accounting`, `HeapState`, `Coalescing`, `Carving`,
`Truncation`, `Fitting`, `Search`, `Limits`, `SizeCache`, `PackedCache`, `PageHeap`, `Aggressive`). The
class `PageHeap` keeps descriptors, page map, free lists, large sets and statistics. Descriptor addresses are
recycled and only the boundary entries of the page map are trusted. Every operation keeps
`Valid()`: the spans tile the managed pages, boundary pages are recorded, pages never
managed map to nothing, each free span is on exactly the list its length and location
select, the statistics equal the pages counted, and no two adjacent spans are both normal. In
runs in which aggressive decommit is never switched on, no two adjacent free spans share a
location. For the merge step the exact condition under which this survives aggressive
decommit is `MergeCoalescesIff`, and `CoalescingCanBreak` is a heap where it does not. Freeing in
aggressive mode gives back the span and the free spans beside it; it looks no farther, so a
normal span can stay beside the returned one, exactly under the condition of `NormalBesideIff`
(`NormalCanStay` is such a heap). The
system allocator and the decommit call are nondeterministic: they may fail, and an allocation
is any region disjoint from the heap. The ghost field `refusals` counts the decommits that
failed, `denials` the times memory could not be had from the system or the page map not be
extended over it, and `failures` in the page maps the allocations that failed; results that
depend on a failure are stated by these counts, so an allocation fails exactly under the
condition stated, or because something was refused or denied. `asked` and `visits` record what
the system was asked for and which lists were looked at.

**Central free lists** (`CentralState`, `CentralLocks`, `CentralPlaces`, `CentralMoves`,
`CentralSpans`, `CentralAccounts`, `CentralRuns`, `CentralFlow`, `Populate`). A state machine of any number
of threads and size classes. A thread inside an operation needs one lock to go on; a step
takes it or runs the code up to the next place where the lock is dropped or a loop goes
round. The theorems quantify over every run: what every step keeps, in which order an
operation goes, and that whoever finds the locks free gets an object. The unlocked look at another class's cache
may see stale values, so eviction may be given up at any time.

**Thread caches** (`Chains`, `Rings`, `ThreadCache`). Chains through the first word of free
objects and rings of spans are pointer code over a memory of links, proved against
sequences. The thread cache works on those sequences. Its ghost field `ledger` holds the
objects taken in and not given out; that these are the objects on its lists is part of
`Valid()`.

**Index structures** (`PageMap`, `SizeMap`, `SizeClasses`, `NaturalAlignment`, `AddressMap`),
**profile log** (`ProfileData`) and **regular expressions** (`Regex`, `RegexTermination`,
`RegexSearch`, `RegexParser`, `RegexSyntax`, `RegexPrinter`). `RegexSyntax` gives the language of
the parser as a grammar with a meaning, and the parser is shown to accept exactly its texts. The matcher takes partial callbacks, defined on
every rest that a match can leave; for expressions with no star over a nullable body its
recursion is well founded. For all expressions it is a matcher with a bound on its recursion;
`RegexSearch` shows which bound is enough, and when none is.

Code and comments disagree in eight places; the model follows the code. At the end of
`AllocLarge` the code asserts that no normal span fits, because releasing it would have made
room; it may not if what is in use exceeds the limit already (`PageHeaps.PageHeap.AllocLarge`,
`Limits.NormalFitCanFail`). `Carve` and `Split` hold a page count in an `int`, which is right
exactly below 2^31 pages (`Truncation.CarveIsRightIff`, `Truncation.SplitIsRightIff`). A start
in a later block hides an earlier range from `FindInside`, although the code means to handle
empty ranges (`AddressMaps.FoundIff`, `AddressMaps.EmptyRangeHides`). The size map checks that
its classes are naturally aligned, which fails for a minimum span of five pages
(`NaturalAlignment.CheckAlignment`). `TCMalloc_PageMap1::Ensure`
is not an overflow-free form of the test it names when the start lies beyond the array
(`PageMaps.PageMap1.Ensure`). The radix maps' `Ensure` succeeds without doing anything when
the last key passes the word size (`PageMaps.PageMap2.Ensure`). A range that ends at the very
top of the address space has no inside for `FindInside` (`AddressMaps.InsideMeans`). A
character set ends the run of a regular expression (`RegexPrinter.SetEndsRun`).

## Model

| member | source | states |
|---|---|---|
| `Spans.TilesPartition` | src/src/page_heap.cc:322-337 | spans that tile the managed pages are pairwise disjoint and cover exactly those pages |
| `Spans.LookupBefore` | src/src/page_heap.cc:453-488 | the page-map entry at the page before a span is absent or names the span that truly ends there, although inner entries may be stale |
| `Spans.LookupAfter` | src/src/page_heap.cc:453-497 | the page-map entry at the page after a span is absent or names the span that truly starts there, although inner entries may be stale |
| `Spans.AbsorbKeepsLayout` | src/src/page_heap.cc:479-497 | absorbing a neighbour, with one page-map entry rewritten, keeps disjointness, coverage and recorded boundary pages |
| `Spans.CutKeepsLayout` | src/src/page_heap.cc:322-337 | cutting a span in two, with the new boundary pages recorded, keeps disjointness, coverage and recorded boundary pages |
| `Spans.GrowKeepsLayout` | src/src/page_heap.cc:758-779 | recording a span over pages never managed keeps the layout, and pages never managed still map to nothing |
| `Spans.UpdateKeepsLayout` | src/src/page_heap.cc:660-669 | a location or size-class change keeps the layout; a size class goes only to a span in use all of whose pages are recorded |
| `FreeLists.EnlistKeepsExact` | src/src/page_heap.cc:502-527 | putting a free span on its list keeps: each free span is on exactly the list or set that its length and location select, once |
| `FreeLists.DelistKeepsExact` | src/src/page_heap.cc:529-548 | taking a free span off leaves the lists exact for all other spans |
| `FreeLists.Without` | src/src/span.cc:62-67 | unlinking removes one descriptor and keeps every other, each once |
| `FreeLists.UnlinkKeepsOrder` | src/src/span.cc:62-67 | unlinking a descriptor leaves what was before it and what was behind it, in their order |
| `Accounting.LocationsSplit` | src/src/page_heap.cc:392-398 | the pages in use, normal and returned split the managed pages |
| `Accounting.AbsorbCount` | src/src/page_heap.cc:479-497 | merging moves exactly the absorbed pages between the counts |
| `HeapState.PrependKeepsSound` | src/src/page_heap.cc:502-527 | layout, exact lists and balanced statistics survive listing a span; free and unmapped count the listed pages |
| `HeapState.RemoveKeepsSound` | src/src/page_heap.cc:529-548 | layout, exact lists and balanced statistics survive delisting a span |
| `HeapState.CommitKeepsSound` | src/src/page_heap.cc:339-359 | the invariant survives a change of the committed count, the pages being booked as pending until the span is relocated |
| `HeapState.AbsorbKeepsSound` | src/src/page_heap.cc:479-497 | the whole invariant survives absorbing a neighbour |
| `HeapState.CutKeepsSound` | src/src/page_heap.cc:361-390 | the whole invariant survives cutting a span |
| `HeapState.GrowKeepsSound` | src/src/page_heap.cc:752-779 | the whole invariant survives adding a region, system and committed pages growing by its length |
| `HeapState.RegisterKeepsSound` | src/src/page_heap.cc:660-669 | the whole invariant survives giving a span in use a size class |
| `Coalescing.Neighbour` | src/src/page_heap.cc:479-489 | what the two boundary lookups name is a live span that is the true neighbour |
| `Coalescing.JoinKeepsSound` | src/src/page_heap.cc:429-447 | an attempt to merge on one side keeps the invariant, decommit failing or not |
| `Coalescing.MergeKeepsSound` | src/src/page_heap.cc:449-500 | merging and listing a freed span keeps the invariant, touches no span in use, and moves no page unless it decommits the span or a neighbour |
| `Coalescing.OnlyNeighbour` | src/src/page_heap.cc:479-489 | at most one span touches another on a side, and the page map names it |
| `Coalescing.JoinClears` | src/src/page_heap.cc:429-447 | after the attempt on one side no mergeable neighbour is left there, exactly unless the merged neighbour exposed a returned one |
| `Coalescing.MergeCoalescesIff` | src/src/page_heap.cc:429-500 | freeing a span into a maximally coalesced heap leaves it maximally coalesced if and only if no normal neighbour is decommitted and merged while the span beyond it is already returned |
| `Coalescing.MergeIsExact` | src/src/page_heap.cc:449-500 | if no decommit fails, merging joins exactly the free spans that touch the span, in aggressive mode all of them, and leaves the result returned |
| `Coalescing.ExactlyGivesBack` | src/src/page_heap.cc:473-477 | in aggressive mode the pages of the freed span and of every free span beside it are then returned |
| `Coalescing.StaysGivenBack` | src/src/page_heap.cc:550-582 | and they stay returned through whatever is released afterwards |
| `Coalescing.NormalBesideIff` | src/src/page_heap.cc:435-497 | in aggressive mode a normal span touches the merged one if and only if it touched, from the far side, a returned span that was merged |
| `Coalescing.MergeKeepsApart` | src/src/page_heap.cc:429-500 | in either mode and whichever decommits fail, merging leaves no two normal spans touching if there were none |
| `Coalescing.WithdrawnIsGentle` | src/src/page_heap.cc:584-596 | merging a span that was normal and has just been released attempts no further decommit, because it has no normal neighbour |
| `Aggressive.CoalescingCanBreak` | src/src/page_heap.cc:435-446 | a concrete maximally coalesced heap that satisfies the invariant, in which freeing a span in aggressive mode leaves two returned spans side by side |
| `Aggressive.NormalCanStay` | src/src/page_heap.cc:435-497 | a concrete heap in which freeing a span in aggressive mode, nothing refused, leaves a normal span beside the returned one |
| `Coalescing.StatsAgree` | src/src/page_heap.cc:752-757 | between operations free and unmapped are the normal and returned pages, and unmapped plus committed equals system |
| `Coalescing.MoveMovesPages` | src/src/page_heap.cc:584-596 | moving a span from normal to returned moves exactly its own pages |
| `Coalescing.ReleaseCounts` | src/src/page_heap.cc:584-596 | in either mode, releasing a span moves exactly its own pages from normal to returned |
| `Coalescing.EvolveCounts` | src/src/page_heap.cc:598-634 | when pages only move from normal to returned, free falls and unmapped rises by the same amount |
| `Carving.CarveMovesPages` | src/src/page_heap.cc:361-400 | carving puts exactly the first n pages of a free span in use and moves no other page |
| `Carving.CarveKeepsCoalesced` | src/src/page_heap.cc:375-387 | carving a maximally coalesced heap without coalescing the leftover leaves it maximally coalesced |
| `Carving.CarveKeepsApart` | src/src/page_heap.cc:375-387 | carving without coalescing the leftover leaves no two normal spans touching |
| `Truncation.CarveIsRightIff` | src/src/page_heap.cc:361-400 | with the number of leftover pages held in an int, carving hands out exactly n pages and keeps the heap sound if and only if fewer than 2^31 pages are left over |
| `Truncation.CarveCanLosePages` | src/src/page_heap.cc:368-387 | a sound heap of one span of 2^32 + 2 pages, from which carving one page leaves a span of one page and loses the rest |
| `Truncation.ShortCarve` | src/src/page_heap.cc:368-387 | whenever the int is positive but less than the number of pages left over, carving leaves the heap unsound |
| `Truncation.SplitIsRightIff` | src/src/page_heap.cc:322-337 | splitting keeps the heap sound if and only if fewer than 2^31 pages are split off |
| `Carving.CarveCounts` | src/src/page_heap.cc:392-398 | after carving, unmapped falls by n exactly if the span was returned, free by n exactly if it was normal |
| `Carving.GrowExtends` | src/src/page_heap.cc:746-787 | growing and freeing the new region leaves everything in use as it was |
| `Fitting.NeverEqual` | src/src/page_heap.cc:514-516 | two different spans are never equal in the best-fit order, so no set drops one as a duplicate |
| `Fitting.LargeBestFit` | src/src/page_heap.cc:271-301 | the better of the two upper bounds is a best fit among all long free spans, normal on ties |
| `Fitting.FirstIsBest` | src/src/page_heap.cc:104-127 | the first non-empty exact-length list at or above n holds a best fit over all free spans |
| `Fitting.BestOverGap` | src/src/page_heap.cc:99-131 | when all exact-length lists from n up are empty, the best fit among long spans is the best fit over all |
| `Fitting.EmptySlot` | src/src/page_heap.cc:104-127 | an empty list means that no free span has its length and location |
| `Fitting.OverLimitIff` | src/src/page_heap.cc:303-319 | whether the limit leaves no room for the best fit depends on any best fit alike, over the long spans or over all |
| `Fitting.NormalFitMakesRoom` | src/src/page_heap.cc:316-317 | within the limit, releasing a normal fit always makes room, so the assertion at the end of the search holds there |
| `Limits.NormalFitCanFail` | src/src/page_heap.cc:316-319 | a coalesced heap with a normal fit on which the search fails: the assertion that there is none does not hold once what is in use exceeds the limit |
| `PackedCaches.PackedAnswers` | src/src/packed-cache-inl.h:157-172 | a packed word answers exactly the key it was packed for, with the value packed |
| `PackedCaches.InvalidAnswersNone` | src/src/packed-cache-inl.h:174-188 | a cleared or invalidated word answers no key |
| `PackedCaches.PackedCache.constructor` | src/src/packed-cache-inl.h:150-155 | a new cache knows nothing, and so does the cache of size classes it implements |
| `PackedCaches.PackedCache.TryGet` | src/src/packed-cache-inl.h:157-172 | the answer for a key is what the cache as a map of known keys says, and the answer of every cache of size classes the words implement |
| `PackedCaches.PackedCache.Put` | src/src/packed-cache-inl.h:179-183 | afterwards the key has the value, at most one other key is forgotten, and no other answer changes; the words implement the cache of size classes after the same step |
| `PackedCaches.PackedCache.Invalidate` | src/src/packed-cache-inl.h:185-188 | the key, and any key sharing its slot, is forgotten; no other answer changes; the words implement the cache of size classes after the same step |
| `PackedCaches.PutAgrees` | src/src/packed-cache-inl.h:179-183 | remembering a value in the words is remembering it in the cache of lines that the page heap relies on |
| `PackedCaches.SameNumber` | src/src/packed-cache-inl.h:157-172 | words that stand for the same page number are the same word |
| `SizeCache.StaysTruthful` | src/src/page_heap.cc:161-173 | when spans in use keep their classes, a truthful cache stays truthful |
| `SizeCache.RememberingIsTruthful` | src/src/central_freelist.cc:318-323 | caching the class of a page of a live span keeps every cached answer for live objects right |
| `PageHeaps.PageHeap.constructor` | src/src/page_heap.cc:83-97 | an empty heap satisfies the invariant, with nothing in use |
| `PageHeaps.PageHeap.DecommitSpan` | src/src/page_heap.cc:348-359 | if the system releases the memory the span leaves the committed count, else nothing changes and one more refusal is counted |
| `PageHeaps.PageHeap.CommitSpan` | src/src/page_heap.cc:339-346 | the span joins the committed count |
| `PageHeaps.PageHeap.RemoveFromFreeList` | src/src/page_heap.cc:529-548 | the list or set of the span and its count lose it, nothing else changes |
| `PageHeaps.PageHeap.PrependToFreeList` | src/src/page_heap.cc:502-527 | the list or set of the span gains it at the front and its count its length, nothing else changes |
| `PageHeaps.PageHeap.CheckAndHandlePreMerge` | src/src/page_heap.cc:429-447 | names the neighbour exactly if it is free and at the same location, or normal, in aggressive mode, and successfully decommitted; then it is off its list; a refusal is counted exactly if that decommit fails |
| `PageHeaps.PageHeap.MergeOneSide` | src/src/page_heap.cc:479-497 | the new state is the specified one: the neighbour named by the page map absorbed and one boundary entry rewritten, or nothing changed |
| `PageHeaps.PageHeap.MergeIntoFreeList` | src/src/page_heap.cc:449-500 | unless a refusal was counted the span becomes one span with exactly its mates, which are the free spans that touch it, in aggressive mode all of them and returned, else those at its own location; every other span stays as it is; keeps the invariant and that no two normal spans touch; keeps maximal coalescing in runs without aggressive decommit |
| `PageHeaps.PageHeap.ReleaseSpan` | src/src/page_heap.cc:584-596 | zero, nothing changed and one refusal counted, or the length, with exactly the pages of the span moved from normal to returned and no refusal, in either mode |
| `PageHeaps.PageHeap.UpperBound` | src/src/page_heap.cc:276-297 | the least element of a set of long spans that is at least n pages long |
| `PageHeaps.PageHeap.NextToRelease` | src/src/page_heap.cc:606-622 | the next span to release is the last of its short list, or the least of the long normal spans |
| `PageHeaps.PageHeap.ReleaseNext` | src/src/page_heap.cc:606-628 | the list whose turn it is gives up its next span, the last of a short list or the least of the long ones, with exactly its pages returned, unless it is empty or the system refuses |
| `PageHeaps.PageHeap.ReleaseRound` | src/src/page_heap.cc:606-631 | one sweep looks at the lists in turn from where the last one stopped, one span of each; it shrinks the normal free pages by exactly the result, and by at least one page unless a refusal was counted |
| `PageHeaps.PageHeap.ReleaseAtLeastNPages` | src/src/page_heap.cc:598-634 | terminates from any release index, looking at the lists in turn throughout; releases at least num pages, or nothing normal is left, or a refusal was counted; the result is exactly the pages moved from normal to returned |
| `PageHeaps.PageHeap.EnsureLimit` | src/src/page_heap.cc:636-658 | says yes if and only if n more pages then stay within the limit; releases only when it must and may; says no after releasing only if a refusal was counted or all normal pages together were too few |
| `PageHeaps.PageHeap.Carve` | src/src/page_heap.cc:361-400 | for every free span the new state is the specified one for the int that holds the number of leftover pages; if they are fewer than 2^31, exactly n pages from its start are in use, everything else in use is untouched, statistics and invariant agree |
| `PageHeaps.PageHeap.BestLarge` | src/src/page_heap.cc:271-301 | the best fit among the long spans, or none if none fits |
| `PageHeaps.PageHeap.TakeNormal` | src/src/page_heap.cc:300-302 | pages carved from a normal span were normal from the start of the search, and the pages taken do not rise |
| `PageHeaps.PageHeap.AllocLarge` | src/src/page_heap.cc:271-319 | with no limit takes a best fit of the long spans or finds that there is none; a span that takes the pages over the limit consists of pages that were normal; retries at most once; unless a refusal was counted it fails if and only if nothing fits, or the best fit is returned and even releasing every normal page would leave no room |
| `PageHeaps.PageHeap.SearchFreeAndLargeLists` | src/src/page_heap.cc:99-131 | with no limit takes a free span of minimal length over normal and returned together, normal on ties, and returns exactly n pages; with a limit the pages taken stay within it, or do not rise and the span consists of pages that were normal; unless a refusal was counted it fails if and only if nothing fits, or the best fit of all is returned and even releasing every normal page would leave no room |
| `PageHeaps.PageHeap.SearchLength` | src/src/page_heap.cc:105-127 | one length: what was found could be had from the start, and if nothing was found the search has released nothing, or has made room and something longer is left, or has released everything in vain |
| `Searches.ReturnedRemains` | src/src/page_heap.cc:119-125 | a returned span that disappears by coalescing has become part of a returned span at least as long |
| `Searches.NotTaken` | src/src/page_heap.cc:114-126 | a returned span that was not taken has been merged into a longer one, or there is no room for the best fit |
| `Searches.LongSpansDecide` | src/src/page_heap.cc:129-130 | after all short lists the long spans fail exactly if the heap at the start did, over all its free spans |
| `Searches.BestExists` | src/src/page_heap.cc:99-131 | if there is any fit there is a best one |
| `PageHeaps.PageHeap.DeleteLocked` | src/src/page_heap.cc:407-427 | nothing else in use changes and the invariant holds; in aggressive mode, unless a refusal was counted, the pages of the span and of the free spans beside it are returned; else, until it is time to scavenge, exactly its own pages become normal and no page is returned |
| `PageHeaps.PageHeap.PutBack` | src/src/page_heap.cc:407-424 | the span is free and merged: exactly its mates joined unless a refusal was counted, no page moved but its own if decommit is not aggressive |
| `PageHeaps.PageHeap.Delete` | src/src/page_heap.cc:402-405 | the same as a public operation, with the size-class cache still truthful |
| `PageHeaps.PageHeap.IncrementalScavenge` | src/src/page_heap.cc:550-582 | until as many pages as the wait have been freed nothing happens; then, unless the rate is next to nothing or a refusal was counted, at least one page is released if any is normal; the next wait is the delay for what was released, or the default; nothing in use changes |
| `PageHeaps.DelayMeans` | src/src/page_heap.cc:571-580 | the wait times the rate is at most a thousand pages for each page released, a page more would exceed it, and no wait is longer than 2^20 pages |
| `PageHeaps.PageHeap.SystemAlloc` | src/src/page_heap.cc:733-743 | a region disjoint from the heap that starts at a page, given only if the pages asked for stay within the limit; nothing only if a denial or a refusal was counted or even releasing every normal page would leave no room |
| `PageHeaps.PageHeap.AskSystem` | src/src/page_heap.cc:730-745 | asks for the usual minimum, and for just n pages if and only if that is denied; what comes back is disjoint from the heap and has at least n pages; nothing only for the same reasons |
| `PageHeaps.PageHeap.AddRegion` | src/src/page_heap.cc:746-787 | on success the managed pages grow by exactly the region and the free pages by its length; if the page map cannot be extended the region is counted in the statistics, belongs to no span, is remembered as leaked, and a denial is counted |
| `PageHeaps.PageHeap.GrowHeap` | src/src/page_heap.cc:726-788 | on success a free span of n pages exists and the limit leaves room for it; unless a denial or, under a limit, a refusal was counted it fails only if the request is too long or the limit leaves no room; everything in use is untouched |
| `PageHeaps.PageHeap.CoalesceBeforeGrowth` | src/src/page_heap.cc:176-204 | exactly if much is free and the heap is about to cross a mark, everything normal is released, unless a refusal was counted |
| `PageHeaps.ForcedIff` | src/src/page_heap.cc:184-187 | coalescing is forced if and only if a quarter of what was taken is free, part of it normal and part of it returned, and the heap is about to pass a multiple of 128 megabytes |
| `PageHeaps.PageHeap.NewLocked` | src/src/page_heap.cc:175-229 | a span of exactly the rounded size whose pages were not in use, everything else in use untouched; unless a denial or, under a limit, a refusal was counted it fails if and only if the request is too long, or the limit leaves no room and nothing fits within it; memory is obtained only if nothing fits; before that, if coalescing is forced, every normal page is released; the pages taken stay within the limit, or do not rise, or exceed it by no more than the system gave beyond the request |
| `PageHeaps.PageHeap.NewWithSizeClass` | src/src/page_heap.cc:161-173 | the same with a size class, failing under the same exact condition, and the size-class cache stays truthful |
| `PageHeaps.PageHeap.Split` | src/src/page_heap.cc:322-337 | for every span in use the new state is the specified one for the int that holds the number of pages split off; if they are fewer than 2^31 the span becomes two, with the pages and the boundary entries split at n |
| `PageHeaps.PageHeap.RegisterSizeClass` | src/src/page_heap.cc:660-669 | the span has the class and every one of its pages maps to it |
| `PageHeaps.PageHeap.NewAligned` | src/src/page_heap.cc:231-269 | a span of exactly the rounded size that starts at a multiple of the alignment, prefix and trailer free again and the pages in use grown by exactly that span; unless a denial or, under a limit, a refusal was counted it fails if and only if rounding and adding the alignment overflows or a span of that sum could not be had |
| `PageHeaps.PageHeap.TrimFront` | src/src/page_heap.cc:256-260 | the skipped prefix goes back to the free lists |
| `PageHeaps.PageHeap.TrimBack` | src/src/page_heap.cc:262-267 | the trailer goes back to the free lists |
| `PageHeaps.SkipToAligned` | src/src/page_heap.cc:249-255 | the skip loop stops at the first multiple of the alignment, before it has skipped a whole alignment |
| `PageHeaps.RoundUpGrows` | src/src/page_heap.cc:135-144 | rounding and adding room for alignment either does not overflow or makes a request that is refused |
| `Arith.RoundUpIsLeast` | src/src/page_heap.cc:135-144 | rounding gives the least multiple that is not less, or the largest multiple when that would overflow |
| `PageHeaps.PageHeap.CacheSizeClass` | src/src/central_freelist.cc:318-323 | after every page of a new span has been cached the cache is truthful about all live objects |
| `PageHeaps.PageHeap.FindOwner` | src/src/tcmalloc.cc:1539-1566 | from the page a live object starts on, cache and page map give the size class of its span, or the span itself if it has none |
| `PageHeaps.PageHeap.SetAggressiveDecommit` | src/src/page_heap.h:234-237 | switching aggressive decommit keeps the invariant, and with it that no two normal spans touch; a run that ever switched it on loses only that no two returned spans touch |
| `PageHeaps.PageHeap.GetNextRange` | src/src/page_heap.cc:694-724 | address, length, type and fraction of the span recorded at the first page from start on that has an entry, or none if there is no such page; from a page that no span straddles that span is live |
| `PageHeaps.ReportMeans` | src/src/page_heap.cc:700-722 | a range ends where the next span may start, and its fraction is the part of it that is in use |
| `PageHeaps.TotalsAgree` | src/src/page_heap.cc:694-724 | the bytes reported free, unmapped and in use are the free, unmapped and remaining pages of the statistics |
| `PageHeaps.PageHeap.IterateOverRanges` | src/src/tcmalloc.cc:473-499 | on an unchanging heap every span is reported exactly once, in address order, with its type and fraction, in spite of stale entries; the bytes of each type add up to the statistics |
| `Rings.SpanMemory.Init` | src/src/span.cc:57-60 | the header alone is an empty list |
| `Rings.SpanMemory.IsEmpty` | src/src/span.h:151-153 | true exactly for the empty list |
| `Rings.SpanMemory.Length` | src/src/span.cc:69-75 | the walk round the ring ends and counts the members |
| `Rings.SpanMemory.Prepend` | src/src/span.cc:77-84 | the list gains the span at the front, forward and backward links inverse to each other |
| `Rings.SpanMemory.Remove` | src/src/span.cc:62-67 | the list loses the span and keeps the order of the rest |
| `Chains.ObjectMemory.Push` | src/src/linked_list.h:52-56 | the chain gains the object at the front; no other object is written |
| `Chains.ObjectMemory.TryPop` | src/src/linked_list.h:64-73 | the first object and the chain of the rest, or nothing for the empty chain |
| `Chains.ObjectMemory.PopRange` | src/src/linked_list.h:79-96 | the first n objects become a chain of their own that ends at null, the rest stays a chain |
| `Chains.ObjectMemory.PushRange` | src/src/linked_list.h:98-102 | two chains become one, the new objects in front |
| `Chains.FreeList.Push` | src/src/thread_cache.h:198-203 | the list as a value gains the object in front, length is the length of the chain |
| `Chains.FreeList.TryPop` | src/src/thread_cache.h:212-219 | the first object leaves and the low-water mark follows the length down |
| `Chains.FreeList.PushRange` | src/src/thread_cache.h:225-228 | the list as a value gains the objects in front |
| `Chains.FreeList.PopRange` | src/src/thread_cache.h:230-235 | the first n objects leave as a chain of their own and the low-water mark follows the length down |
| `Chains.FreeList.ClearLowWater` | src/src/thread_cache.h:195-196 | the low-water mark is the length |
| `CentralRuns.RunIsSound` | src/src/central_freelist.cc:84-373 | every state of every run, whatever the interleaving, satisfies the whole invariant |
| `CentralRuns.StepKeepsSound` | src/src/central_freelist.cc:84-373 | every step of every thread keeps the whole invariant |
| `CentralRuns.ObjectConservation` | src/src/central_freelist.cc:84-134 | in every run each carved object is in exactly one place, once: its span, one transfer cache entry, one thread list, the hands of one thread, the application, or a span being carved |
| `CentralRuns.CountsAreExact` | src/src/central_freelist.cc:275-302 | in every run a refcount is the number of the span objects off its list and positive, a counter the number of class objects on lists, and the two lists split the spans of the class by whether objects remain |
| `CentralAccounts.CounterIsSum` | src/src/central_freelist.cc:111-116 | a counter is the sum over the spans on the two lists of total minus refcount |
| `CentralAccounts.RefcountCounts` | src/src/central_freelist.cc:97-112 | the refcount is the number of the span objects that are not on its list |
| `CentralAccounts.LastObjectOut` | src/src/central_freelist.cc:112-126 | the refcount is one if and only if a given object is the only one off the list |
| `CentralRuns.SpanReturnsWithLastObject` | src/src/central_freelist.cc:112-133 | releasing an object takes its span away if and only if all its other objects are on its list |
| `CentralRuns.SpansStay` | src/src/central_freelist.cc:112-126 | no step but the release of one of its objects takes a span away |
| `CentralRuns.TransferCaches` | src/src/central_freelist.cc:152-228 | in every run used entries are at most the cache size and that at most its cap, each used entry holds exactly one batch, and the total of all cache sizes never exceeds its initial value |
| `CentralRuns.OneLockAtATime` | src/src/central_freelist.cc:175-196 | in every run no thread owns two locks, be they two list locks or a list lock and the page-heap lock |
| `CentralLocks.WritesUnderLock` | src/src/central_freelist.cc:92-373 | a step changes the data of a size class only if the thread owns that lock |
| `CentralRuns.SpanWritesUnderLock` | src/src/central_freelist.cc:92-134 | a step changes the record of a span, its free objects and its refcount, or makes it appear or disappear, only if the thread owns the lock of its class |
| `CentralRuns.NoDeadlock` | src/src/central_freelist.cc:175-243 | in every run a thread inside an operation can take a step, or waits for a lock whose owner can |
| `CentralRuns.LockHolderGoesOn` | src/src/central_freelist.cc:92-105 | a thread that owns its lock always has a step: the span of a released object exists and a nonempty span has an object |
| `CentralFlow.StepInOrder` | src/src/central_freelist.cc:152-271 | every step of every thread goes on in order: a fetch ends with a cached batch, with all that was wanted or with all there was, and with nothing only when it is starved and the lists are empty; a thread is starved only when the page heap has given nothing, and asks it only when there is nothing to fetch; a chain looks for an entry by force only after failing without, and is given up only after force, at the cap, or if it is no batch |
| `CentralFlow.EmptyHandedAfterRefusal` | src/src/central_freelist.cc:264-271 | in every run whoever comes back from a central list empty-handed has been refused by the page heap, and has found nothing after that |
| `CentralFlow.ForceComesSecond` | src/src/central_freelist.cc:152-170 | in every run a chain is evicting by force only after it has failed without |
| `CentralFlow.GivenUpOnlyAfterForce` | src/src/central_freelist.cc:152-229 | in every run a batch that could be cached goes back to its spans only after failing to win an entry first without force and then by force |
| `CentralFlow.AllocationSucceeds` | src/src/central_freelist.cc:231-271 | from every sound state an idle thread that finds the locks free brings the application an object of any class, in at most nine steps of its own, if the page heap has memory |
| `CentralFlow.SomeRunAllocates` | src/src/central_freelist.cc:231-271 | from every initial state there is a run in which any given thread hands the application an object of any given class |
| `CentralFlow.SomeObjectIsHandedOut` | src/src/central_freelist.cc:231-271 | there is a configuration and a run of it in which an object is handed to the application |
| `CentralLocks.InsertIsLocal` | src/src/central_freelist.cc:216-229 | inserting writes only the held class, keeps its cache within bounds and gains no entry |
| `CentralLocks.EvictIsLocal` | src/src/central_freelist.cc:136-150 | the held lock is dropped before the lock of the victim is wanted: the thread then owns no lock |
| `CentralLocks.ShrinkIsLocal` | src/src/central_freelist.cc:188-214 | shrinking writes only the victim, whose lock is held, and keeps its cache within bounds |
| `CentralLocks.ShrinkTakesEntry` | src/src/central_freelist.cc:188-214 | a victim with an entry gives one up exactly if it has a free one or force is used; the thread then carries it, and it spills a batch exactly if the entry was in use; no other class changes |
| `CentralLocks.DecideIsLocal` | src/src/central_freelist.cc:152-170 | deciding writes only the class whose lock is held and keeps its cache within bounds |
| `CentralLocks.DecideGivesEntry` | src/src/central_freelist.cc:152-170 | the entry carried is given to the class exactly if it is still below its cap, else it is lost; the thread carries none afterwards |
| `CentralMoves.PushMoves` | src/src/central_freelist.cc:216-227 | exactly the batch in hand goes into the next free entry, and nothing else moves |
| `CentralMoves.PopMoves` | src/src/central_freelist.cc:231-243 | exactly the batch in the last used entry comes into the hands of the thread, and nothing else moves |
| `CentralMoves.SpillMoves` | src/src/central_freelist.cc:203-210 | a forced eviction moves exactly the last batch of the victim into the hands of the evicting thread |
| `CentralMoves.ShrinkMoves` | src/src/central_freelist.cc:188-214 | exactly a forced eviction from a full cache moves anything, the last batch of the victim |
| `CentralMoves.GatherMoves` | src/src/central_freelist.cc:275-302 | fetching moves a prefix of one span list, as long as wanted or all of it, in front of what the thread has in hand, and nothing else |
| `CentralMoves.RemoveMoves` | src/src/central_freelist.cc:231-271 | a batch from the transfer cache if a whole batch is wanted and there is one, else a prefix of a span list; if there is none nothing moves and the page heap is asked |
| `CentralMoves.GatherMoreMoves` | src/src/central_freelist.cc:231-262 | as long as objects are wanted and there are any a prefix of a span list is added, else the fetch ends with what is in hand |
| `CentralMoves.InsertMoves` | src/src/central_freelist.cc:216-229 | a whole batch goes into a free entry if there is one; a chain of another length, or one for a cache at its cap, is taken up for release; else nothing moves |
| `CentralMoves.StartInsertMoves` | src/src/thread_cache.cc:192-210 | exactly the first n objects of a thread list are taken in hand |
| `CentralMoves.HandOutMoves` | src/src/thread_cache.cc:120-136 | exactly the first object fetched goes to the application |
| `CentralMoves.StoreMoves` | src/src/thread_cache.cc:120-136 | exactly the rest goes to the front of the thread list |
| `CentralSpans.TodoIsTagged` | src/src/central_freelist.cc:92-97 | an object to be released belongs to a listed span of the class whose lock is held, and is not on its list |
| `CentralSpans.PutBackMoves` | src/src/central_freelist.cc:127-133 | exactly the first object to be released goes to the front of its span list, and nothing else moves |
| `CentralSpans.RetireMoves` | src/src/central_freelist.cc:112-126 | when a span leaves, its objects are nowhere and all others are where they were |
| `CentralSpans.PopulateMoves` | src/src/central_freelist.cc:305-365 | the objects of a newly carved span are in the hands of the carving thread only |
| `CentralSpans.CarvedMoves` | src/src/central_freelist.cc:366-372 | when the span joins its class its objects are on its list, and then a prefix is fetched at once; nothing else moves |
| `CentralAccounts.PutBackKeepsAccounts` | src/src/central_freelist.cc:97-133 | refcount, counter and lists stay exact when an object comes back |
| `CentralAccounts.FetchKeepsAccounts` | src/src/central_freelist.cc:275-302 | refcount, counter and lists stay exact when objects are fetched |
| `CentralAccounts.RetireKeepsAccounts` | src/src/central_freelist.cc:112-119 | counter, number of spans and lists stay exact when a span leaves |
| `CentralAccounts.JoinKeepsAccounts` | src/src/central_freelist.cc:366-372 | counter, number of spans and lists stay exact when a span joins |
| `Populating.CarveObjects` | src/src/central_freelist.cc:327-365 | as many objects as fit, in address order and back to back, with no overflow past the top of the address space; none exactly if the span ends at the very top |
| `Populating.RowIsDisjoint` | src/src/central_freelist.cc:327-365 | carved objects do not overlap and stay inside the span |
| `Populating.CarvedIsFresh` | src/src/central_freelist.cc:305-365 | what is carved from pages that hold no live object is a fresh span in the sense of the run |
| `Populating.CacheSizesFit` | src/src/central_freelist.cc:50-82 | the cap is the most entries, up to 64, that hold at most a megabyte of objects, but at least one; the initial cache size is 16 or the cap if that is less |
| `ThreadCaches.ThreadCache.constructor` | src/src/thread_cache.cc:76-105 | lists are empty, size is zero |
| `ThreadCaches.ThreadCache.FetchFromCentralCache` | src/src/thread_cache.cc:118-159 | the central list is asked once, for a batch or the cap if that is less; the first object is returned, the others go in front of the list, the cap is raised; size stays the sum of length times object size, and no object is lost or doubled |
| `ThreadCaches.ThreadCache.Allocate` | src/src/thread_cache.h:324-343 | the head of the list, with size and low-water mark following; if the list is empty, exactly what a fetch gives |
| `ThreadCaches.ThreadCache.ReleaseToCentralCache` | src/src/thread_cache.cc:192-210 | exactly the first objects of the list go back to the central list, in their order, packaged in whole batches and one last chain; size follows, and no object is lost or doubled |
| `ThreadCaches.ThreadCache.Package` | src/src/thread_cache.cc:197-208 | cutting and giving back batch by batch is cutting and giving back once: same objects, same low-water mark |
| `ThreadCaches.ThreadCache.ListTooLong` | src/src/thread_cache.cc:161-189 | the list gives a batch back and its cap is adjusted; the lists are scavenged exactly if they then hold more than the limit; all accounts hold |
| `ThreadCaches.ThreadCache.Deallocate` | src/src/thread_cache.h:345-364 | the object goes to the front of its list; exactly a list over its cap is trimmed and exactly a cache over its limit is scavenged; all accounts hold |
| `ThreadCaches.FreeingIs` | src/src/thread_cache.h:345-364 | freeing puts the object in front; exactly a list then over its cap gives a batch back, and exactly if the cache then holds more than it may every list gives back half of what it did not need |
| `ThreadCaches.ThreadCache.TrimList` | src/src/thread_cache.cc:161-184 | a batch leaves; a cap below a batch grows by one, a cap above it shrinks by a batch after the fourth overage |
| `ThreadCaches.TooLongGivesBatch` | src/src/thread_cache.cc:161-184 | a list over its cap gives exactly a batch from the front, or all of it; a cap below a batch grows by one, and four overages take a batch off a cap above it |
| `ThreadCaches.CapConverges` | src/src/thread_cache.cc:167-184 | every time a list is too long its cap comes exactly one step nearer to a batch, and then stays there |
| `ThreadCaches.SlowPathsOnlyRelease` | src/src/thread_cache.cc:161-244 | trimming and scavenging after a free leave every list a tail of what it held, the freed object in front of its own: nothing is reordered, added or doubled |
| `ThreadCaches.ScaledIsLess` | src/src/thread_cache.cc:362-370 | a scaled limit is the limit times the ratio rounded down if the ratio is below one, else the limit |
| `ThreadCaches.ShareIs` | src/src/thread_cache.cc:352-360 | the share of a cache is what there is for each, rounded down, unless that is below the minimum or above the maximum |
| `ThreadCaches.ThreadCache.ScavengeList` | src/src/thread_cache.cc:220-243 | without idle objects only the mark changes; else half of the low-water mark leaves from the front, rounded but at least one object, the cap comes down by a batch but not below one, and the size falls; the new mark is the length; no other list changes |
| `ThreadCaches.ScavengedGivesIdle` | src/src/thread_cache.cc:220-243 | the same as a relation between a list before and after |
| `ThreadCaches.ThreadCache.Scavenge` | src/src/thread_cache.cc:213-244 | every list is scavenged, the size falls if any list had objects it did not need, and the shared allowance stays balanced |
| `ThreadCaches.ThreadCache.Drain` | src/src/thread_cache.cc:107-114 | every list goes back whole, in its order; nothing is held and the size is zero |
| `ThreadCaches.RaisedIsCap` | src/src/thread_cache.cc:139-157 | raising a cap keeps it within 1..8192 and at most a batch or a multiple of it |
| `ThreadCaches.RaisedIsMost` | src/src/thread_cache.cc:139-157 | below a batch a cap is raised by one, from there on to the most whole batches that are at most one batch more and within 8192 |
| `ThreadCaches.LoweredIsCap` | src/src/thread_cache.cc:176-184 | lowering a cap above a batch leaves a positive multiple of the batch |
| `ThreadCaches.Registry.constructor` | src/src/thread_cache.cc:65-74 | all of the allowance is unclaimed |
| `ThreadCaches.Registry.FindVictim` | src/src/thread_cache.cc:258-279 | the pointer to steal from stays null or in the list; the victim is another cache above the minimum; with at most ten caches one is found if there is one |
| `ThreadCaches.Registry.IncreaseCacheLimit` | src/src/thread_cache.cc:246-280 | unclaimed space is used first, then another cache; the limit grows by the steal amount, or, with at most ten caches, no other cache is above the minimum; unclaimed plus all limits equals the overall allowance |
| `ThreadCaches.Registry.FirstShare` | src/src/thread_cache.cc:76-91 | a new cache gets the steal amount if it can be had, else the minimum with unclaimed space going negative; the sum is preserved |
| `ThreadCaches.Registry.NewHeap` | src/src/thread_cache.cc:313-331 | the new cache is first in the list, has the steal amount or the minimum, and the sum is preserved |
| `ThreadCaches.Registry.DeleteCache` | src/src/thread_cache.cc:333-349 | the cache is out of the list, nothing points at it, and its limit is unclaimed again |
| `ThreadCaches.Registry.RecomputePerThreadCacheSize` | src/src/thread_cache.cc:351-373 | every limit is scaled by the ratio of the new share to the old one if that is below one, and unclaimed plus all limits equals the overall allowance |
| `ThreadCaches.Registry.SetOverallThreadCacheSize` | src/src/thread_cache.cc:386-397 | the allowance is clipped to the minimum and to one gigabyte, and the sum holds again |
| `PageMaps.PageMap1.Set` | src/src/pagemap.h:96-102 | one key changes, as in a map |
| `PageMaps.PageMap1.Ensure` | src/src/pagemap.h:74-82 | for a start inside the array true exactly if the range fits; for a start beyond its end the difference wraps, and exactly which counts pass |
| `PageMaps.TestIsRightIff` | src/src/pagemap.h:76-82 | the unsigned test agrees with the range fitting if and only if the start is at most the length or the count is enormous |
| `PageMaps.TestCanBeWrong` | src/src/pagemap.h:76-82 | a concrete range beyond the array that passes the test |
| `PageMaps.LoopIsEnteredIff` | src/src/pagemap.h:158-159 | the loop over a range is entered if and only if the range is not empty and does not pass the word size, or is empty at zero |
| `PageMaps.PageMap1.Next` | src/src/pagemap.h:104-112 | the value at the least key from k on that has one, or null if there is none |
| `PageMaps.PageMap2.Set` | src/src/pagemap.h:151-156 | one key changes, as in a map |
| `PageMaps.PageMap2.Ensure` | src/src/pagemap.h:158-178 | no value changes; success makes the whole range settable; unless an allocation failed it succeeds exactly if the range fits; if the last key passes the word size it succeeds and does nothing; an empty range succeeds exactly if the start is not zero |
| `PageMaps.PageMap2.Next` | src/src/pagemap.h:187-203 | the value at the least key from k on that has one, or null if there is none |
| `PageMaps.PageMap3.Set` | src/src/pagemap.h:259-265 | one key changes, as in a map |
| `PageMaps.PageMap3.Ensure` | src/src/pagemap.h:267-295 | as for two levels |
| `PageMaps.PageMap3.Next` | src/src/pagemap.h:300-321 | the value at the least key from k on that has one, or null if there is none, missing nodes being skipped whole |
| `PageMaps.PageMap3.NodeIsMissing` | src/src/pagemap.h:302-307 | skipping to the next node skips no value |
| `SizeMaps.LgFloor` | src/src/common.cc:71-83 | the exponent of the highest set bit |
| `SizeMaps.AlignmentForSize` | src/src/common.cc:85-105 | the alignment is the specified power of two |
| `SizeMaps.AlignIsPow2` | src/src/common.cc:85-105 | from 128 bytes on the alignment is an eighth of the largest power of two in the size, or a page if that is less |
| `SizeMaps.NextSize` | src/src/common.cc:170-173 | each size is a multiple of its alignment, and the sizes meet the largest size exactly |
| `SizeMaps.SizeIsCoarse` | src/src/common.h:159-176 | sizes are multiples of 8, above 1024 of 128 |
| `SizeMaps.RankStep` | src/src/common.cc:170-173 | with pages of at least 8192 bytes each step to the next size passes one of at most 105 sizes |
| `SizeClasses.MoveIsAbout64K` | src/src/common.cc:107-127 | as many objects as fit into 64K are moved at a time, but at least two, and not more than the transfer count; the span must hold a quarter of them |
| `SizeClasses.SpanBytes` | src/src/common.cc:175-189 | the two loops end with the shortest multiple of the minimum span that wastes at most an eighth and holds enough objects |
| `SizeClasses.AddSize` | src/src/common.cc:192-211 | a size is merged into the last class exactly if both have the same shortest span and are cut out of it equally often, else it starts a new one; classes stay strictly increasing and each has its shortest span |
| `SizeClasses.ComputeClasses` | src/src/common.cc:168-213 | strictly increasing classes, each with its shortest roomy span, up to exactly the largest size; exactly the sizes that do not merge with the next have a class; with pages of at least 8192 bytes at most 105, fewer than the table holds |
| `SizeClasses.SettledGrows` | src/src/common.cc:192-211 | adding the next size settles whether the one before it has a class |
| `SizeMaps.NextIsLeast` | src/src/common.cc:170-173 | no size lies between one and the next |
| `SizeClasses.ClassWastesLittle` | src/src/common.cc:179-187 | every class, merged or not, wastes at most an eighth of its span and holds at least a quarter of a batch |
| `SizeClasses.BoundarySeparates` | src/src/common.h:186-215 | a class boundary between two sizes separates their entries in the flattened index |
| `SizeClasses.FillClass` | src/src/common.cc:217-223 | the entries of one class overwrite none that are right |
| `SizeClasses.FillIndex` | src/src/common.cc:215-223 | every size up to the largest is mapped to the first class that is large enough |
| `SizeClasses.SizeMap.constructor` | src/src/common.cc:130-223 | for every page size from 128 bytes to a megabyte, minimum span and transfer count, the classes and the index are as stated above |
| `SizeClasses.SizeMap.GetSizeClass` | src/src/common.h:248-258 | none exactly above the largest size, else the least class that fits |
| `NaturalAlignment.CheckAlignment` | src/src/common.cc:248-261 | the final check fails if and only if the minimum span is five pages and a quarter of a batch of three quarters of a page is at most six objects, or it is one page and that is exactly six |
| `NaturalAlignment.CheckMultiples` | src/src/common.cc:257-261 | the inner loop passes only if every multiple below a page is aligned, and stops only at one that is not |
| `NaturalAlignment.NaturallyAlignedIff` | src/src/common.cc:248-261 | the same of the classes themselves: every multiple of a power of two has a class whose size is a multiple of it, if and only if the configuration is not one of those |
| `NaturalAlignment.SkewedIsNotAligned` | src/src/common.cc:257-261 | in those configurations three quarters of a page fall into a class of thirteen sixteenths of a page |
| `NaturalAlignment.EvenMerges` | src/src/common.cc:194-205 | of the sizes that are an even number of eighths of a power of two only twelve and fourteen can merge with the next, in spans of exactly eighty and of sixteen for each |
| `NaturalAlignment.FourteenGoesOn` | src/src/common.cc:194-205 | if fourteen eighths merge with fifteen, fifteen merge with sixteen |
| `NaturalAlignment.EightKilobytePages` | src/src/common.cc:257-261 | with pages of 8192 bytes the check fails exactly for a minimum span of 40960 bytes |
| `AddressMaps.IndexIsFirst` | src/src/addressmap-inl.h:209-217 | the chain walk finds the cluster with the id, or none |
| `AddressMaps.SetBlockIsOneBucket` | src/src/addressmap-inl.h:303-333 | changing one block list changes no other |
| `AddressMaps.NewClusterChangesNothing` | src/src/addressmap-inl.h:219-226 | an empty cluster in front of a chain changes no lookup |
| `AddressMaps.InsideIsUnique` | src/src/addressmap-inl.h:369-374 | at most one of the ranges contains a key if each ends before the next one starts |
| `AddressMaps.InsideMeans` | src/src/addressmap-inl.h:369-374 | the wrapping comparison is containment exactly for ranges that end below the top of the address space |
| `AddressMaps.AddressMap.constructor` | src/src/addressmap-inl.h:265-272 | an empty map |
| `AddressMaps.AddressMap.Find` | src/src/addressmap-inl.h:284-301 | the value of the map at the key, or none |
| `AddressMaps.AddressMap.Insert` | src/src/addressmap-inl.h:303-333 | the map with the key bound to the value; entries made are entries in use plus entries kept, in whole batches |
| `AddressMaps.AddressMap.FindAndRemove` | src/src/addressmap-inl.h:335-352 | the map without the key, the value it had, and one entry more kept for reuse |
| `AddressMaps.AddressMap.ScanBlock` | src/src/addressmap-inl.h:365-377 | the entry of the block whose range holds the key, and whether any starts below it |
| `AddressMaps.SmallerHides` | src/src/addressmap-inl.h:378-380 | a start below the key hides every range that starts in an earlier block |
| `AddressMaps.FoundIff` | src/src/addressmap-inl.h:354-399 | among disjoint ranges, an address in a range is found if and only if it is itself a start or no start in a later block lies between the start of the range and the address |
| `AddressMaps.EmptyRangeHides` | src/src/addressmap-inl.h:369-380 | an empty range at 150 hides the range of 100 addresses at 100 from the address 160 |
| `AddressMaps.OrderedIsVisible` | src/src/addressmap-inl.h:378-380 | if each range ends before the next one starts, whatever contains an address is found |
| `AddressMaps.OrderedIsLatest` | src/src/addressmap-inl.h:369-380 | of ordered ranges the one that contains an address is the last to start at or below it |
| `AddressMaps.TooFarBack` | src/src/addressmap-inl.h:383-392 | farther back than the longest range there is nothing to find |
| `AddressMaps.AddressMap.SearchCluster` | src/src/addressmap-inl.h:363-387 | the blocks of a cluster are searched back to its first |
| `AddressMaps.AddressMap.SearchBack` | src/src/addressmap-inl.h:354-399 | the walk back over blocks and clusters finds a range that no later start hides, or shows that there is none |
| `AddressMaps.AddressMap.FindInside` | src/src/addressmap-inl.h:354-399 | for any ranges no longer than max: a range that contains the key and does not start in an earlier block than another start at or below the key, or none if and only if there is no such range; if each range ends before the next one starts, none if and only if no range contains the key; the walk back ends |
| `Profiles.LogReadsBack` | src/src/profiledata.cc:118-131 | the five words of the header, the records and the end marker are read back to exactly the period and the records |
| `Profiles.PeriodIs` | src/src/profiledata.cc:118-131 | the period is a second divided by the frequency in microseconds, rounded toward zero |
| `Profiles.ProfileData.Start` | src/src/profiledata.cc:93-131 | refused exactly when running or without a file; a new profile has no samples |
| `Profiles.ProfileData.Evict` | src/src/profiledata.cc:67-79 | the log gains exactly the entry, and the buffer never exceeds its length |
| `Profiles.ProfileData.FlushEvicted` | src/src/profiledata.cc:309-317 | what is written and what is buffered is the same log |
| `Profiles.ProfileData.FindEntry` | src/src/profiledata.cc:264-283 | the entry of the bucket with the stack, or none has it |
| `Profiles.ProfileData.LeastUsed` | src/src/profiledata.cc:285-292 | the entry of the bucket with the least count |
| `Profiles.ProfileData.Add` | src/src/profiledata.cc:246-305 | one more sample of the stack cut to 254 entries is accounted for in log and table together: the entry of its bucket that has the stack counts it, or if none has the least used is logged and put to new use; no other entry changes, and no stack has two entries; ignored when not running |
| `Profiles.ProfileData.FlushTable` | src/src/profiledata.cc:225-244 | the file then holds every sample so far |
| `Profiles.ProfileData.Stop` | src/src/profiledata.cc:150-182 | the file decodes to the period and to records whose total for each stack is the number of times it was added |
| `Regex.MatchIsMeaning` | src/benchmark/trivialre.h:114-196 | for every expression without a star over a nullable body the matcher answers yes if and only if some match from the position leaves a rest that the callback accepts |
| `Regex.SeqIsMeaning` | src/benchmark/trivialre.h:129-133 | the same for a sequence |
| `Regex.StarIsMeaning` | src/benchmark/trivialre.h:156-168 | the same for a star |
| `Regex.MatchEats` | src/benchmark/trivialre.h:156-168 | an expression that is not nullable matches only non-empty stretches |
| `RegexTermination.TameTerminates` | src/benchmark/trivialre.h:114-196 | a recursion depth of text length plus star nesting is never exceeded, with the same answer |
| `RegexTermination.NullableStarDiverges` | src/benchmark/trivialre.h:156-168 | a star over a nullable body exceeds every recursion depth at the end of the text when the callback refuses |
| `RegexTermination.StarTerminatesIff` | src/benchmark/trivialre.h:156-168 | a star terminates for all texts, contexts and callbacks if and only if its body is not nullable |
| `RegexSearch.AnswerIsRight` | src/benchmark/trivialre.h:114-196 | for every expression, text and callback: a yes means that some match leads to a yes, a no that every match leads to a no |
| `RegexSearch.EndsIff` | src/benchmark/trivialre.h:114-196 | every expression, on every text and with every callback, ends if and only if it ends within a recursion depth of text length plus star nesting, and then with the same answer at any depth |
| `RegexSearch.CheckCatchesAll` | src/benchmark/trivialre.h:156-168 | a matcher that gives up when a star comes back to where it was gives every answer that the real one gives |
| `RegexSearch.DepthSuffices` | src/benchmark/trivialre.h:156-168 | what that matcher answers, the real one answers within the known depth |
| `RegexSearch.EndsForAllIff` | src/benchmark/trivialre.h:114-196 | from a place in a text the matcher ends for every callback if and only if no way to match comes to a star whose body matches nothing there |
| `RegexSearch.NoMeansNoLoop` | src/benchmark/trivialre.h:156-168 | a matcher that says no has met no such star |
| `RegexSearch.MatchSubstring` | src/benchmark/trivialre.h:57-69 | for every expression and text: yes only if some substring matches, no only if none does, and neither if and only if the search does not end |
| `RegexSearch.UnmatchedSearchEndsIff` | src/benchmark/trivialre.h:57-69 | on a text without a match the search ends if and only if nowhere a way to match comes to such a star |
| `RegexSearch.TameSearchEnds` | src/benchmark/trivialre.h:57-69 | without a star over a nullable body the search ends on every text |
| `RegexSearch.StarSearchEnds` | src/benchmark/trivialre.h:57-69 | the search for any star ends on every text, also for (a*)* |
| `RegexSearch.NestedStarCanHang` | src/benchmark/trivialre.h:57-69 | the search for (a*)*b in the empty text does not end |
| `RegexParser.CollectRanges` | src/benchmark/trivialre.h:262-292 | the loop of a character set collects exactly the ranges up to the closing bracket |
| `RegexParser.AltLeavesSuffix` | src/benchmark/trivialre.h:235-248 | what the parser leaves over is a suffix of its input |
| `RegexParser.RunLeavesSuffix` | src/benchmark/trivialre.h:308-387 | what a run leaves over is a suffix of its input |
| `RegexParser.StarLeavesSuffix` | src/benchmark/trivialre.h:403-430 | what follows an expression and its marks leaves a suffix |
| `RegexParser.CharSetLeavesSuffix` | src/benchmark/trivialre.h:262-304 | what a character set leaves over is a suffix of its input, the empty one on error |
| `RegexSyntax.CompileIff` | src/benchmark/trivialre.h:235-445 | a text compiles to an expression if and only if it is a text of the grammar and the grammar gives it that meaning |
| `RegexSyntax.ShownCompiles` | src/benchmark/trivialre.h:432-445 | every text of the grammar compiles, to its meaning |
| `RegexSyntax.RunReads` | src/benchmark/trivialre.h:308-387 | every run of the grammar is read with its meaning, whatever ends it |
| `RegexSyntax.MarksRead` | src/benchmark/trivialre.h:403-427 | marks are read in order, with a question mark after a star or a plus as laziness |
| `RegexSyntax.SpecialsAre` | src/benchmark/trivialre.h:313-314 | the characters with a meaning of their own |
| `RegexSyntax.ItemsRead` | src/benchmark/trivialre.h:262-292 | every list of ranges, quoted and single characters is read as its ranges |
| `RegexSyntax.ReadAlts` | src/benchmark/trivialre.h:235-248 | whatever the parser reads without noting an error is a text of the grammar with that meaning |
| `RegexSyntax.ReadRun` | src/benchmark/trivialre.h:308-387 | the same for a run |
| `RegexSyntax.ReadBracket` | src/benchmark/trivialre.h:262-304 | the same for a character set |
| `RegexPrinter.WritableIff` | src/benchmark/trivialre.h:235-445 | an expression is what some text compiles to if and only if it is the empty one or can be written: no literal mixes plain and special characters or is empty, the empty expression is only an alternative, and no range has a closing bracket at one end only or a caret in front |
| `RegexPrinter.CompileReadsBack` | src/benchmark/trivialre.h:432-445 | every expression that can be written compiles to itself from its printed form |
| `RegexPrinter.MarkBindsLast` | src/benchmark/trivialre.h:325-330 | marks after a plain text of two or more characters bind its last character only, for every combination of marks |
| `RegexPrinter.EachMarkBindsLast` | src/benchmark/trivialre.h:325-330 | the star, the plus and the question mark, and the lazy star and plus, spelled out |
| `RegexPrinter.NoLazyOption` | src/benchmark/trivialre.h:423-427 | a second question mark after a text is refused: there is no lazy form of the question mark |
| `RegexPrinter.SetEndsRun` | src/benchmark/trivialre.h:361-363 | text after a character set compiles if and only if it is empty or an alternative that compiles: the sequence is not continued |
| `RegexPrinter.SetNeedsGroup` | src/benchmark/trivialre.h:361-363 | a set followed by a letter does not compile, the same with groups does |

## Left out

- System calls, stack unwinding, symbolization, signal and file handling, statistics printing and the malloc front end: not part of this model.
- The fork handlers that take all central locks at once: they break the one-lock discipline on purpose.
- The sampler: not part of this model.
- PageHeaps.PageHeap.IncrementalScavenge: the release rate and the wait are real numbers, so rounding in double arithmetic is not captured.
- The page-heap lock and the batching of sixteen ranges per lock in range iteration: the heap does not change while ranges are reported.
- Statistics count pages, not bytes; event counters such as the number of scavenges are not kept.
- Memory taken for metadata does not count toward the heap limit.
- PageHeaps.PageHeap.SystemAlloc: all memory obtained stays below 2^31 pages, because from then on `Carve` and `Split` no longer keep the invariant (`Truncation.CarveIsRightIff`); regions are counted in pages, so alignment to a page, which is all that is asked for, holds by construction.
- PageHeaps.PageHeap.Split: if 2^31 pages or more are split off, the page number of the last page-map entry written is not reduced modulo the word size.
- PageHeaps.PageHeap.GetNextRange: the size of the objects in use in a span with a size class is a parameter, and the fraction is a real number.
- PageHeaps.PageHeap.SetAggressiveDecommit: maximal coalescing is promised only until aggressive decommit is first switched on, because the code does not keep it afterwards.
- Which of several nonempty spans a central fetch takes first: the model takes any of them, so the order of the two span lists is not captured. A newly carved span is fetched from first, as in the code.
- The count of objects moved at a time and the sizes of spans are parameters of the central runs; `Populating` and `SizeClasses` prove what the code computes for them.
- The address bits of a span's pages are not part of the central runs; `Populating.CarvedIsFresh` connects carving with them.
- ThreadCaches.ThreadCache.FetchFromCentralCache: what the central list returns is any chain of at most the wanted length; that the objects are fresh is proved in `CentralRuns`.
- The thread cache holds its free lists as values; `Chains.FreeList` is the pointer code for one list, and objects in one list being distinct from those in another is proved in `CentralRuns`.
- The links between thread caches are a sequence; the two pointers in each cache are not modelled.
- ThreadCaches.Registry.RecomputePerThreadCacheSize: the ratio is a real number, so rounding in double arithmetic is not captured.
- ThreadCaches.Registry.SetMinPerThreadCacheSize: needs at least the steal amount, because below that a limit could become negative.
- The nodes of the radix page maps and the clusters of the address map are values in fields; update in place of a shared node is not captured, because no node is shared.
- The bit operations on page numbers and addresses are divisions and remainders by powers of two.
- SizeClasses.ComputeClasses: with pages of less than 8192 bytes the bound of 128 classes depends on how many sizes are merged; this run-time check of the code is not shown to pass.
- NaturalAlignment.CheckAlignment: pages of at most 256 kilobytes, because for longer ones the code looks up sizes that have no class.
- AddressMap::Iterate: would only add an easy member.
- Counts of the profile table do not overflow.
- Characters are compared as code points; the sign of `char` above 127 is not captured.
- RegexSearch.MatchSubstring: the matcher of the code has no bound; a search that does not end is the answer `Deeper`.
- RegexPrinter.CompileReadsBack: only for expressions that can be written, because no text compiles to any other (`RegexPrinter.WritableIff`).
- CentralFlow.AllocationSucceeds: says that an object can be had, not that it is under every schedule; a thread can be kept waiting for a lock by others for ever.
