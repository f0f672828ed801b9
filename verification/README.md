# A model of the memory pool, the HTTP codecs and the search index

This project models three parts of the repository in Dafny and proves properties of the models.

**The memory pool** (`High_Concurrent_Memory_Pool`). The page cache splits and merges spans of pages, the central cache
cuts spans into objects and counts how many are out, the thread caches keep short lists of free objects.

- `Pages` is the page cache on values: the spans, the free lists, the page map, the pages obtained. `Spans` and
  `PageCaches` are the real thing: span records, circular doubly linked lists, a map that is updated in place; each
  method is tied to the function of `Pages` that says what it does.
- `Chains` is memory as words, with the intrusive free list and the loop that cuts a span into objects.
  `CentralCaches` is one bucket of the central cache on real spans, lists and words, with its search, fetch and release
  loops; `ThreadCaches` is a thread's cache for that bucket on the same words.
- `Pools` is the whole pool as a transition system in which any number of threads take steps; a step is what
  happens between two lock operations. `PoolProofs` shows that every step keeps the invariant. `PoolMemory` adds the
  words the lists are chained through, and callers that write into what they hold; `PoolTheorems` says what holds in
  every reachable state. `BucketView` shows that one bucket of that system is the bucket of `CentralCaches`, and `PoolCalls`
  that the small steps of a whole call, taken one after another, do what the methods of `ThreadCaches` promise.
- `Recarving` and `RecutRun`, `Overlap` and `OverlapRun`, `Lookups` and `WholeSpans` are about three things the code takes for
  granted and that are not always so; each gives the exact condition, what goes wrong outside it, and a run that gets there.
- `SizeClass` is the size-class arithmetic with masks, shifts and 64-bit wrap-around. `ObjectPools` is the pool for objects
  of one size. `Stores` says where each object is.

**HTTP framing and codecs** (`Boost_Search_Engine/httplib.h`). `Chunked` and `HexNumbers` (chunked transfer coding),
`Multipart` (form parser), `HeaderLines` (what its header lines mean), `MultipartForms` (form builder and round trip),
`MultipartPieces` (forms that come in pieces), `Base64`, `ThreadPools` (the worker pool and how it is shut down), `Texts`
(string operations).

**The search engine** (`Boost_Search_Engine`). `Records` (tag stripping, the file of records) and `Search` (the inverted
index and the searcher).

Addresses and page numbers are naturals; a pointer to a span record is an object of class `Span` or, on values, an element
of a type `S`. What the operating system, the scheduler, a socket or a receiver may do is a parameter or a
non-deterministic choice. Two threads' steps interleave in any order.

## Findings

Where the code does not keep what it seems to promise, the model does what the code does.

1. The loop that cuts a span never writes the word of the last object (CentralCache.cpp, lines 35-42). Pages fresh from the
   system are always good (`Recarving.FreshSpanCanBeCut`). When pages that came back are cut again, into objects of whatever
   size, the cut gives a list exactly if the last new object was the first one put back onto the empty free list of the old
   span, or no old object began there and the word is null (`Recarving.CutAgainExactly`). Otherwise the list ends in an old
   object, and with the same objects as before it runs in a circle and hands an object out twice. `RecutRun.CutInCircle` is
   such a run of the pool, with two threads and two objects.
2. When the object size does not divide the bytes of a span the last object runs into the next page. The objects of
   a bucket stay clear of what lies behind them in every reachable state exactly if the size divides the bytes
   (`OverlapRun.StaysClearExactly`); for every other bucket there is a run after which two objects share memory
   (`OverlapRun.MisfitsOverlap`).
3. The page map need not lead from the page of an object back to its span, and then the object cannot be given back. A request
   for k pages gets a span that every page leads back to, whatever happened before, exactly if k is at most 2
   (`Lookups.CompleteExactly`); so all objects of a bucket can be given back in every reachable state exactly if its spans
   have at most two pages (`Lookups.FoundExactly`), which are the buckets of 8 and of 16 bytes (`Lookups.SmallSpans`). For every
   other bucket `Lookups.SomeAreLost` is a run that ends with a lost object, and it stays lost (`Lookups.FoundStays`). The reason
   is the exact fit, which enters nothing into the map; a fresh span of 128 pages has no entry at all
   (`WholeSpans.LargestNotFound`).
4. A span handed out by exact fit keeps old entries for its inner pages, which may name a deleted record
   (`Pages.StaleInteriorTag`). The two merging loops never meet one: they only look at the first and last page of a
   neighbour (`Pages.BackNeighbour`, `Pages.ForwardNeighbour`).
5. A request for 0 bytes has no bucket: the index wraps to the largest `size_t` (`SizeClass.ZeroHasNoBucket`).
6. A chunked transfer that breaks off between the carriage return and the newline behind the data of a chunk passes for
   complete; cut anywhere else it is refused (`Chunked.CutShort`). So does one with any other line in that place
   (`Chunked.NoLineEnd`).
7. A form's content types arrive without blanks at their ends (`MultipartForms.ArriveAsGiven`); a form without items is refused
   (`MultipartForms.EmptyFormRefused`).
   A form that is handed to the parser in pieces arrives in the same way however it is cut, exactly if the content of every
   part is steady (`MultipartPieces.AnyPiecesExactly`): after waiting in vain for the delimiter the parser delivers as many
   characters as the delimiter is long, without looking at them, and that may take the beginning of the delimiter along.
   Content without a line break and dashes is steady but for long runs of such characters (`MultipartPieces.PlainIsSteady`);
   content that ends with a line break and dashes is not (`MultipartPieces.DashesAtTheEnd`).
8. Once the workers have been joined, a job has been run exactly if some worker was left when it was enqueued
   (`ThreadPools.LateJobExactly`); `ThreadPools.LateJobIsLost` is a run with a job that came too late.
9. Documents without content are dropped when the file of records is read, and only those (`Search.RawRoundTrip`).
   The range check of `GetForwardIndex` lets the number of documents itself through (index.hpp, line 97) and no other number
   without a document (`Search.Index.OnePastTheEnd`); `Search` never gets there.
10. Stop words are taken out before letters become small, so a stop word in another case stays
    (`Search.StopWordInOtherCase`).
11. For objects larger than 128K the object pool's count of remaining bytes wraps around at the first request
     (`ObjectPools.LargerThanChunk`).

## Model

| member | source | states |
|---|---|---|
| Pages.RunPartition | High_Concurrent_Memory_Pool/PageCache.cpp:5-123 | over every sequence of requests and returns, each page obtained is in exactly one span, free or in use, no span has a page not obtained, and every free span is once on the list of its page count and on no other |
| Pages.NewSpanKeeps | High_Concurrent_Memory_Pool/PageCache.cpp:5-48 | a request returns a span of the asked page count, keeps the invariant once it is marked used, and changes no span in use nor a map entry of its pages |
| Pages.NewSpanBestFit | High_Concurrent_Memory_Pool/PageCache.cpp:7-47 | the span is cut from the head of a smallest free span that is large enough; 128 pages are obtained exactly when there is none |
| Pages.NewSpanComplete | High_Concurrent_Memory_Pool/PageCache.cpp:7-33 | after a request every page leads back to the span exactly if it was newly cut, or came off its list with complete entries; Lookups.CompleteExactly says for which requests that is certain |
| Pages.SmallSpansComplete | High_Concurrent_Memory_Pool/PageCache.cpp:25-33 | spans of one or two pages always have complete entries |
| Pages.NewSpanUse | High_Concurrent_Memory_Pool/CentralCache.cpp:22-26 | the span returned was not in use, and no other span becomes used |
| Pages.BackNeighbour | High_Concurrent_Memory_Pool/PageCache.cpp:63-90 | the look-up of the page before a span finds the live span that ends there, on the list it is erased from if it is free |
| Pages.ForwardNeighbour | High_Concurrent_Memory_Pool/PageCache.cpp:92-118 | the look-up of the page behind a span finds the live span that begins there, on the list it is erased from if it is free |
| Pages.ReleaseKeeps | High_Concurrent_Memory_Pool/PageCache.cpp:61-123 | a return keeps the invariant, at most 128 pages, all pages of the span, and every other span that survives |
| Pages.ReleaseMaximal | High_Concurrent_Memory_Pool/PageCache.cpp:61-123 | after a return neither neighbour is a free mapped span that would still fit; the refusal backward survives merging forward |
| Pages.CompleteStays | High_Concurrent_Memory_Pool/PageCache.cpp:30-33 | complete entries of a span in use stay complete until it is returned itself |
| Pages.StaleInteriorTag | High_Concurrent_Memory_Pool/PageCache.cpp:7-9 | three calls after which an inner page of a span in use leads to a deleted record |
| Pages.WholeSpanUnmapped | High_Concurrent_Memory_Pool/PageCache.cpp:39-47 | 128 fresh pages handed out whole are not in the map |
| Spans.SpanList.Insert | High_Concurrent_Memory_Pool/Comm.h:243-254 | the ring gets the new node in front of the given one and stays a ring |
| Spans.SpanList.Erase | High_Concurrent_Memory_Pool/Comm.h:256-265 | the ring loses exactly this node and stays a ring |
| PageCaches.PageCache.NewSpan | High_Concurrent_Memory_Pool/PageCache.cpp:5-48 | on real records, rings and map, after at most one recursive call: the state and the span are those of Pages.NewSpan |
| PageCaches.PageCache.ReleaseSpanToPageCache | High_Concurrent_Memory_Pool/PageCache.cpp:61-123 | the two merging loops end, and the state is that of Pages.Release |
| PageCaches.PageCache.MapObjectToSpan | High_Concurrent_Memory_Pool/PageCache.cpp:50-59 | the map entry of the object's page, or none |
| SizeClass.RoundUpIsLeast | High_Concurrent_Memory_Pool/Comm.h:124-147 | for every power-of-two alignment the mask form is the least multiple not below the input and the shift form numbers the multiples |
| SizeClass.BucketOfSize | High_Concurrent_Memory_Pool/Comm.h:128-170 | a size from 1 to 256K has a bucket below 208 whose class size is the rounded size |
| SizeClass.SharedBucket | High_Concurrent_Memory_Pool/Comm.h:128-170 | two sizes share a bucket exactly when they round to the same size, and buckets grow with sizes |
| SizeClass.BucketsOnto | High_Concurrent_Memory_Pool/Comm.h:150-170 | every bucket below 208 is the bucket of its class size |
| SizeClass.WasteBound | High_Concurrent_Memory_Pool/Comm.h:121-143 | above 128 bytes less than a ninth of the block is wasted |
| SizeClass.ZeroHasNoBucket | High_Concurrent_Memory_Pool/Comm.h:145-156 | the index of a request for 0 bytes is the largest size_t |
| SizeClass.BatchBytes | High_Concurrent_Memory_Pool/Comm.h:173-185 | a batch is the number of objects that fit into 256K, at least 2 and at most 512, so it takes at most twice the largest size |
| SizeClass.PagesForBatch | High_Concurrent_Memory_Pool/Comm.h:188-195 | the page count is one the page cache accepts, with room for at least one object |
| SizeClass.BatchFillsPages | High_Concurrent_Memory_Pool/Comm.h:188-195 | the pages are those the batch fills completely |
| SizeClass.SmallClassesFit | High_Concurrent_Memory_Pool/Comm.h:173-195 | classes up to 512 bytes fill their spans exactly |
| SizeClass.ClassThatDoesNotFit | High_Concurrent_Memory_Pool/Comm.h:173-195 | 528-byte objects do not divide their 63 pages |
| Chains.ChainUnique | High_Concurrent_Memory_Pool/Comm.h:57-60 | the words determine a null-terminated list completely |
| Chains.FreeList.Push | High_Concurrent_Memory_Pool/Comm.h:65-72 | the list gets the object in front; one word changes |
| Chains.FreeList.PushRange | High_Concurrent_Memory_Pool/Comm.h:84-88 | the list gets the whole chain in front; one word changes |
| Chains.FreeList.PopRange | High_Concurrent_Memory_Pool/Comm.h:90-100 | the first n objects come off as a chain of their own, closed by null |
| Chains.Carve | High_Concurrent_Memory_Pool/CentralCache.cpp:28-42 | the chain of all objects that start below the span's end, in order, ending where the last object's word led before; no other word changes |
| Chains.ObjectsAre | High_Concurrent_Memory_Pool/CentralCache.cpp:35-42 | the objects are exactly the addresses base + k times size below the end, each once |
| Chains.ObjectsApart | High_Concurrent_Memory_Pool/CentralCache.cpp:35-42 | objects of one span do not overlap |
| Chains.ObjectsFit | High_Concurrent_Memory_Pool/CentralCache.cpp:35-42 | all objects end inside the span exactly when the size divides its bytes |
| Chains.CarvedIsTerminated | High_Concurrent_Memory_Pool/CentralCache.cpp:35-42 | the chain is a list exactly when the last object's word was null |
| Chains.NeverNull | High_Concurrent_Memory_Pool/CentralCache.cpp:61-72 | a chain that leads back into itself has no null-terminated reading, and a walk along it visits an object twice |
| Chains.CutAgain | High_Concurrent_Memory_Pool/CentralCache.cpp:35-42 | the words alone: after two objects were put back, the first one first, the loop leaves the last word leading to the first object; RecutRun.CutInCircle is the whole run |
| CentralCaches.CentralCache.GetOneSpan | High_Concurrent_Memory_Pool/CentralCache.cpp:7-49 | a span with a free object: one of the bucket, or a new one cut and put in front, whose chain ends where the word of its last object led; the bucket is sound afterwards exactly if that word was null |
| CentralCaches.CentralCache.FindSpan | High_Concurrent_Memory_Pool/CentralCache.cpp:9-16 | the first span of the ring with a free object, or the sentinel if there is none |
| CentralCaches.CentralCache.FetchRangeObj | High_Concurrent_Memory_Pool/CentralCache.cpp:51-81 | from the front of the free list of the first span that has any, or of a new one: as many objects as asked for, or all there are; chained to null, all now out; the rest of that list and every other list is as it was |
| CentralCaches.CentralCache.FetchFrom | High_Concurrent_Memory_Pool/CentralCache.cpp:61-75 | the first objects of the span's free list, as many as asked for or available; one word changes |
| CentralCaches.CentralCache.ReleaseListToSpans | High_Concurrent_Memory_Pool/CentralCache.cpp:83-120 | the loop does to the bucket what ReleaseAll does, ends with the chain, and writes only words of the chain's objects |
| CentralCaches.ReleaseAllConserves | High_Concurrent_Memory_Pool/CentralCache.cpp:83-120 | each object given back is in the free list of its own span, no list gains anything else, and a span leaves only with all its objects back |
| CentralCaches.LastBack | High_Concurrent_Memory_Pool/CentralCache.cpp:96-104 | when the last object of a span comes back the rest of the chain has none of it |
| CentralCaches.FetchThenRelease | High_Concurrent_Memory_Pool/CentralCache.cpp:51-120 | taking a batch whose pages lead back to the span and giving it back leaves every span with the free objects it had |
| CentralCaches.FoundIsOut | High_Concurrent_Memory_Pool/CentralCache.cpp:89-93 | of the objects that are out the release loop can take back exactly those whose page leads to their span |
| ThreadCaches.ThreadCache.Allocate | High_Concurrent_Memory_Pool/ThreadCache.cpp:5-15 | the front of the list; or, if it is empty, the first object of a batch, and the others become the list: as many as the limit, the batch size and what the span has free allow; nothing held by callers or other threads is touched; the limit grows by one up to the batch size |
| ThreadCaches.ThreadCache.FetchFromCentralCache | High_Concurrent_Memory_Pool/ThreadCache.cpp:38-62 | the first object of the batch and the others as the list; together they are the minimum of limit, batch size and what the span has free |
| ThreadCaches.ThreadCache.DeAllocate | High_Concurrent_Memory_Pool/ThreadCache.cpp:24-36 | the object is in front of the list, or at the limit the list is empty, every object was found and the bucket is what ReleaseAll makes of it; nothing else that is out is touched |
| ThreadCaches.ThreadCache.ListTooLong | High_Concurrent_Memory_Pool/ThreadCache.cpp:17-22 | the whole list goes back; only words of its objects are written |
| ThreadCaches.OtherListStays | High_Concurrent_Memory_Pool/ThreadCache.cpp:5-36 | the list of another thread on the same bucket is still the same list and stays apart |
| CentralCaches.ReleaseKeepsOut | High_Concurrent_Memory_Pool/CentralCache.cpp:83-120 | giving a chain back leaves every other object out |
| CentralCaches.CentralCache.Survives | High_Concurrent_Memory_Pool/Comm.h:57-60 | writing into an object that is out breaks no free list of the bucket |
| PoolProofs.NextKeeps | High_Concurrent_Memory_Pool/ThreadCache.cpp:5-62 | every step of every thread keeps the invariant of the pool |
| PoolMemory.AfterKeeps | High_Concurrent_Memory_Pool/Comm.h:57-119 | every step, and every write of a caller into its object, keeps the lists threaded through memory and untouched memory untouched |
| PoolMemory.StepTouches | High_Concurrent_Memory_Pool/CentralCache.cpp:35-93 | a step writes only words of objects that are somewhere, or that it cuts |
| PoolTheorems.ExclusiveOwnership | High_Concurrent_Memory_Pool/CentralCache.cpp:7-120 | in every reachable state and interleaving the lists are what memory says, each object cut is at one position of one list or with one caller, and none is lost |
| PoolTheorems.NotHandedOutTwice | High_Concurrent_Memory_Pool/ThreadCache.cpp:5-15 | an object handed out was not held by any caller |
| PoolTheorems.UseCounts | High_Concurrent_Memory_Pool/CentralCache.cpp:72-104 | the use count of a span and the length of its chain in memory add up to the number of objects cut |
| PoolTheorems.LastObjectBack | High_Concurrent_Memory_Pool/CentralCache.cpp:96-116 | when a drain brings a use count to 0 every object is back, the rest of the chain has none of that span, and none of its objects is anywhere afterwards |
| PoolTheorems.ReturnedSpanIsEmpty | High_Concurrent_Memory_Pool/CentralCache.cpp:108-113 | while a thread returns a span no object lies in its pages |
| PoolTheorems.DrainShortens | High_Concurrent_Memory_Pool/CentralCache.cpp:89-118 | each turn of the release loop shortens its chain by one |
| PoolTheorems.OneDrainer | High_Concurrent_Memory_Pool/CentralCache.cpp:87-119 | one thread at a time drains into a bucket |
| PoolTheorems.ThreadCacheBound | High_Concurrent_Memory_Pool/ThreadCache.cpp:5-62 | each thread list is as long as recorded, below its limit, the limit at most one more than a batch, and its bytes at most twice the largest size |
| BucketView.ViewOk | High_Concurrent_Memory_Pool/CentralCache.cpp:7-120 | each bucket of a sound pool is a sound bucket of the central cache |
| BucketView.FetchIsFetch | High_Concurrent_Memory_Pool/CentralCache.cpp:61-75 | fetching in the pool is fetching in the bucket |
| BucketView.FlightIsOut | High_Concurrent_Memory_Pool/ThreadCache.cpp:17-22 | the chain a thread gives back is out, and the release loop accepts it exactly if every object is found |
| BucketView.DrainIsReleaseOne | High_Concurrent_Memory_Pool/CentralCache.cpp:89-116 | a drain step in the pool is one turn of the release loop |
| PoolCalls.AllocateHit | High_Concurrent_Memory_Pool/ThreadCache.cpp:9-10 | the caller gets the first object of the list; every other list and every limit is as it was |
| PoolCalls.AllocateFound | High_Concurrent_Memory_Pool/ThreadCache.cpp:38-62 | with an empty list the steps of the call can be taken, and at the end the caller has the first object of the first span with any free, the list has the next ones up to the old limit, the batch size and what was free, the limit is one larger unless it was above the batch size, the use count has grown by as many, and nothing else has changed |
| PoolCalls.FirstCall | High_Concurrent_Memory_Pool/ThreadCache.cpp:44-48 | slow start: the first allocation of a thread takes one object and keeps none, and the next may take two |
| PoolCalls.AllocateNew | High_Concurrent_Memory_Pool/CentralCache.cpp:18-48 | with nothing free in the bucket the same from the objects of a new span, which then stands first in the bucket |
| PoolCalls.FreeKept | High_Concurrent_Memory_Pool/ThreadCache.cpp:24-36 | below the limit the object is in front of the list and nothing else changes |
| PoolCalls.FreeAll | High_Concurrent_Memory_Pool/ThreadCache.cpp:17-36 | at the limit, with every object found, there is a run that ends with the list empty, the bucket and the page cache as ReleaseAll of the whole list leaves them, the locks as before and every other list and bucket untouched |
| PoolCalls.DrainAll | High_Concurrent_Memory_Pool/CentralCache.cpp:84-120 | draining a chain step by step, with the bucket unlocked for each span that goes back, is the whole release loop |
| PoolCalls.NoDeadlock | High_Concurrent_Memory_Pool/CentralCache.cpp:7-120 | a thread in the middle of a call can go on, or waits for a bucket whose one holder can; unless one of them has an object in hand that the page map does not find |
| PoolCalls.CanAllocate | High_Concurrent_Memory_Pool/ThreadCache.cpp:5-15 | a thread that is in no call can allocate every size, in exactly one of the two ways |
| Recarving.FreshSpanCanBeCut | High_Concurrent_Memory_Pool/CentralCache.cpp:23-42 | a span of pages just obtained can be cut into a list |
| Recarving.LastWordWhenReturned | High_Concurrent_Memory_Pool/CentralCache.cpp:90-104 | when a span comes back the word of its last object is null exactly if that object was put onto the empty free list, and otherwise leads to an object of the span |
| Recarving.WordRests | High_Concurrent_Memory_Pool/CentralCache.cpp:96-116 | over every run, the words of pages that were given back stay as they are until the pages are cut again or a caller writes there |
| Recarving.OnlyMisfitsReachThere | High_Concurrent_Memory_Pool/CentralCache.cpp:35-42 | the only callers that can write there hold an object that runs over the end of its span |
| Recarving.CutAgainExactly | High_Concurrent_Memory_Pool/CentralCache.cpp:35-42 | when such pages are cut again, for any bucket and after any run: the new chain is a list exactly if its last object was at the end of the old free list, or no old object began there and the word is null; a chain that leads back into itself never comes to null and visits an object twice |
| Recarving.OtherLast | High_Concurrent_Memory_Pool/CentralCache.cpp:35-42 | in 64 pages the last 2048-byte object is the last but one 1024-byte object |
| RecutRun.CutInCircle | High_Concurrent_Memory_Pool/CentralCache.cpp:35-42 | a reachable state of the pool in which the next cut makes a circle |
| Overlap.ObjectsApartExactly | High_Concurrent_Memory_Pool/CentralCache.cpp:38-42 | no two objects overlap exactly if every span that does not fit has no span of objects right behind it |
| Overlap.FittingObjectsApart | High_Concurrent_Memory_Pool/CentralCache.cpp:38-42 | objects of buckets that fit never overlap |
| Overlap.WhichFit | High_Concurrent_Memory_Pool/Comm.h:173-195 | buckets up to 512 bytes and above 64K fit, the 528-byte bucket does not |
| OverlapRun.StaysClearExactly | High_Concurrent_Memory_Pool/CentralCache.cpp:38-42 | the objects of a bucket stay clear of everything behind them in all reachable states exactly if the size divides the bytes of the span |
| OverlapRun.MisfitsOverlap | High_Concurrent_Memory_Pool/CentralCache.cpp:38-42 | for every other bucket, a reachable state in which two objects share memory |
| WholeSpans.OnlyLargestTakesWhole | High_Concurrent_Memory_Pool/Comm.h:188-195 | only the bucket of 256K objects asks for 128 pages |
| WholeSpans.LargestNotFound | High_Concurrent_Memory_Pool/PageCache.cpp:39-57 | when its pages come from the system, the span has no entry for the page of any of its objects |
| Lookups.CompleteExactly | High_Concurrent_Memory_Pool/PageCache.cpp:7-33 | over all runs of the page cache: every request for k pages gets a span with complete entries exactly if k is at most 2 |
| Lookups.FoundExactly | High_Concurrent_Memory_Pool/PageCache.cpp:50-59 | every object of a bucket can be given back in every reachable state exactly if the spans of the bucket have at most two pages |
| Lookups.SomeAreLost | High_Concurrent_Memory_Pool/PageCache.cpp:7-9 | for every other bucket, a reachable state with an object that the look-up does not find |
| Lookups.SmallSpans | High_Concurrent_Memory_Pool/Comm.h:188-195 | only the buckets of 8 and 16 bytes have spans of at most two pages |
| Lookups.FoundStays | High_Concurrent_Memory_Pool/PageCache.cpp:5-123 | no step changes whether an object is found while its span is not given back |
| ObjectPools.LiveObjectsApart | High_Concurrent_Memory_Pool/ObjectPool.h:40-82 | over every run with objects of at most 128K: objects in use share no byte with each other or a free slot, lie in chunks, free slots are listed once, the remaining bytes never wrap |
| ObjectPools.NewKeeps | High_Concurrent_Memory_Pool/ObjectPool.h:40-73 | a new object was not in use and the invariant is kept |
| ObjectPools.NewExactly | High_Concurrent_Memory_Pool/ObjectPool.h:40-73 | no slot is lost; one is made only when none is free, behind the last one or at the beginning of a new chunk |
| ObjectPools.DeleteThenNew | High_Concurrent_Memory_Pool/ObjectPool.h:40-82 | what was given back last is handed out next, and then everything is as before |
| ObjectPools.LargerThanChunk | High_Concurrent_Memory_Pool/ObjectPool.h:52-68 | for larger objects the first one runs over the end and the remaining bytes wrap |
| ObjectPools.ObjectPool.New | High_Concurrent_Memory_Pool/ObjectPool.h:40-73 | on memory words: what the pool on values does |
| ObjectPools.ObjectPool.Delete | High_Concurrent_Memory_Pool/ObjectPool.h:75-82 | on memory words: what the pool on values does; one word changes |
| HexNumbers.FromIToHex | Boost_Search_Engine/httplib.h:1279-1287 | the digits in positional notation |
| HexNumbers.HexIs | Boost_Search_Engine/httplib.h:1279-1287 | they are lower-case digits without leading zeros, and their value is the number |
| HexNumbers.StrToUlIs | Boost_Search_Engine/httplib.h:2613 | what strtoul reads, whoever wrote it: white space, sign, prefix, digits in either case with leading zeros, up to the first other character; too large a value gives ULONG_MAX, a minus sign negates |
| HexNumbers.NoNumber | Boost_Search_Engine/httplib.h:2613 | without a digit there is no number |
| HexNumbers.HexRoundTrip | Boost_Search_Engine/httplib.h:1279-1287 | strtoul reads the number back, whatever follows the digits |
| Chunked.LineReader.Append | Boost_Search_Engine/httplib.h:1583-1594 | the fixed and the growing buffer together hold the line with one more character |
| Chunked.LineReader.GetLine | Boost_Search_Engine/httplib.h:1556-1580 | the next line, however the stream splits its reads |
| Chunked.ReadContentWithLength | Boost_Search_Engine/httplib.h:2548-2568 | exactly so many characters, delivered in order, or false |
| Chunked.ReadContentChunked | Boost_Search_Engine/httplib.h:2600-2638 | success, content delivered and rest of the stream are those of Decode, for every split of the reads |
| Chunked.WriteContentChunked | Boost_Search_Engine/httplib.h:2813-2883 | what was put out is the encoding of the calls made, and the count returned is its length |
| Chunked.AskedUntilDone | Boost_Search_Engine/httplib.h:2830-2875 | a provider is asked for more until it says it is done or writes nothing |
| Chunked.ChunkedRoundTrip | Boost_Search_Engine/httplib.h:2600-2883 | for every sequence of writes followed by done the reader delivers their concatenation and consumes exactly the encoding |
| Chunked.CutShort | Boost_Search_Engine/httplib.h:2619-2627 | a transfer cut short anywhere is refused, except between the two characters behind the data of a chunk |
| Chunked.AnyTransfer | Boost_Search_Engine/httplib.h:2600-2638 | a transfer by any writer, sizes in either case, with leading zeros and extensions: the reader delivers the data put together and leaves what follows |
| Chunked.DecodeAnyChunk | Boost_Search_Engine/httplib.h:2613-2632 | one chunk with any such size line |
| Chunked.DecodeAnyLast | Boost_Search_Engine/httplib.h:2618-2635 | a size of zero ends the content; complete exactly if an empty line follows |
| Chunked.TooLargeOrTooShort | Boost_Search_Engine/httplib.h:2613-2622 | a size that does not fit, or more than there is, is refused |
| Chunked.NoSize | Boost_Search_Engine/httplib.h:2613-2615 | a line that begins with no digit is refused |
| Chunked.NoLineEnd | Boost_Search_Engine/httplib.h:2626-2627 | data followed by another line passes for the end of a complete transfer |
| MultipartForms.FormRoundTrip | Boost_Search_Engine/httplib.h:2998-3139 | for one or more items and every boundary the client accepts, the whole body in one call gives the items in order, a valid end and an empty buffer |
| MultipartForms.PartsRoundTrip | Boost_Search_Engine/httplib.h:2998-3116 | the same for parts with any header lines: what the lines say, one after the other, and the content |
| MultipartForms.FormWithExtras | Boost_Search_Engine/httplib.h:3028-3056 | any number of other header lines before, between and behind the known ones changes nothing |
| HeaderLines.DispositionExactly | Boost_Search_Engine/httplib.h:2998-3001 | the regular expression matches exactly the lines of its form, in any case of letters, and finds the shortest name |
| HeaderLines.TypeLine | Boost_Search_Engine/httplib.h:3041-3045 | a content type line, in any case of letters |
| HeaderLines.OtherLine | Boost_Search_Engine/httplib.h:3041-3051 | a line that begins with neither name leaves the file information as it is |
| MultipartPieces.AnyPiecesExactly | Boost_Search_Engine/httplib.h:2998-3116 | the body arrives in the same way for every way of cutting it into pieces exactly if the content of every part is steady |
| MultipartPieces.PlainIsSteady | Boost_Search_Engine/httplib.h:3061-3077 | content without a line break with dashes and without long runs of such characters is steady |
| MultipartPieces.DashesAtTheEnd | Boost_Search_Engine/httplib.h:3080-3102 | content that ends with a line break and dashes is not |
| Texts.TrimIs | Boost_Search_Engine/httplib.h:3041-3045 | spaces and tabs are taken away at both ends and nothing else |
| Texts.StartsWithIs | Boost_Search_Engine/httplib.h:1289-1295 | case is ignored for the 26 letters and for nothing else |
| Texts.FindFirst | Boost_Search_Engine/httplib.h:3026-3093 | the first occurrence, or none |
| MultipartForms.ArriveAsGiven | Boost_Search_Engine/httplib.h:3041-3045 | the items arrive exactly as given if and only if no content type has a blank at an end |
| MultipartForms.DelimiterFound | Boost_Search_Engine/httplib.h:3087-3098 | the delimiter is found behind the content, because its carriage return comes only once |
| MultipartForms.EmptyFormRefused | Boost_Search_Engine/httplib.h:3012-3021 | a form without items is refused |
| MultipartForms.Post | Boost_Search_Engine/httplib.h:5438-5466 | the body built, or a refusal exactly when the boundary holds a character that is no ASCII letter, digit, dash or underscore by its code |
| Multipart.MultipartFormDataParser.ParseMore | Boost_Search_Engine/httplib.h:2998-3116 | whatever the buffer and the receiver, the parser's fields and answer are those of Parse |
| Base64.Base64Encode | Boost_Search_Engine/httplib.h:1331-1357 | the standard's encoding of every input, with a 32-bit accumulator that overflows |
| Base64.DecodeEncode | Boost_Search_Engine/httplib.h:1331-1357 | a decoder recovers every input |
| Base64.EncodeDecode | Boost_Search_Engine/httplib.h:1331-1357 | the strict decoder accepts nothing but encodings |
| Base64.EncodedLength | Boost_Search_Engine/httplib.h:1352-1354 | four letters for every three bytes, rounded up |
| Base64.LowBits | Boost_Search_Engine/httplib.h:1342-1347 | what overflow loses at the top of the accumulator does not matter |
| Base64.Alphabet | Boost_Search_Engine/httplib.h:1332-1333 | the letters of the standard, in order |
| Base64.TestVectors | Boost_Search_Engine/httplib.h:1331-1357 | the test vectors of the standard |
| ThreadPools.FirstInFirstOut | Boost_Search_Engine/httplib.h:536-557 | over every run jobs are taken in order, and none is finished twice or run by two workers |
| ThreadPools.DrainedAtJoin | Boost_Search_Engine/httplib.h:519-533 | once all workers have left, every job enqueued before the flag was set is finished exactly once, and a later one exactly if it was taken |
| ThreadPools.NoLostWakeup | Boost_Search_Engine/httplib.h:513-557 | while a job is queued and a worker alive, an awake worker can come for it; after shutdown every worker can move |
| ThreadPools.JoinTerminates | Boost_Search_Engine/httplib.h:519-533 | after the flag is set a run without new jobs has at most Left(p) steps of workers; after that many all have left; once notified they can stop only when all have left |
| ThreadPools.LateJobExactly | Boost_Search_Engine/httplib.h:513-557 | for every run that ends with all workers gone: a job was finished exactly if some worker was left when it was enqueued |
| ThreadPools.LateJobIsLost | Boost_Search_Engine/httplib.h:513-517 | a run with such a job |
| Records.ParseContent | Boost_Search_Engine/parser.cc:105-139 | the text the state machine keeps |
| Records.StrippedIsClean | Boost_Search_Engine/parser.cc:105-139 | no newline and no tag opening survives, whatever the page |
| Records.StripsTags | Boost_Search_Engine/parser.cc:105-139 | exactly the text between tags is kept, each character as it is but a space for a line break |
| Records.EveryPage | Boost_Search_Engine/parser.cc:105-139 | every page is tags and texts with perhaps an open tag at the end, or nothing of it is kept |
| Records.CutFields | Boost_Search_Engine/util.hpp:36-41 | cutting gives exactly the fields, however many separators are between them |
| Records.LinesAre | Boost_Search_Engine/index.hpp:70-73 | reading line by line gives the lines, and a last one that is not ended |
| Records.SaveHtml | Boost_Search_Engine/parser.cc:192-215 | one record for each document |
| Records.CutRecord | Boost_Search_Engine/util.hpp:36-41 | cutting a record gives its three fields, exactly if the content is not empty |
| Records.LinesOfSaved | Boost_Search_Engine/index.hpp:62-73 | the lines of the file are the records |
| Search.RawRoundTrip | Boost_Search_Engine/index.hpp:62-133 | saving and building gives exactly the documents with content, in order, numbered by position |
| Search.Cutter.CutStringForSearch | Boost_Search_Engine/util.hpp:94-111 | the words without the stop words |
| Search.WithoutIs | Boost_Search_Engine/util.hpp:97-110 | every word that is no stop word is kept as often as it was there, and no stop word is |
| Search.WithoutInOrder | Boost_Search_Engine/util.hpp:97-110 | the words kept are in the order they had |
| Search.StopWordInOtherCase | Boost_Search_Engine/util.hpp:97-110 | a stop word in another case stays |
| Search.ToLowerIs | Boost_Search_Engine/index.hpp:156-166 | letters A to Z become small and nothing else changes |
| Search.Cutter.SameScores | Boost_Search_Engine/searcher.hpp:52-80 | queries whose words differ at most in case give every document the same score |
| Search.Cutter.FoundInAnyCase | Boost_Search_Engine/searcher.hpp:52-80 | a word finds a document that has it in any case, with weight ten for the title |
| Search.Cutter.WeightIs | Boost_Search_Engine/index.hpp:136-177 | ten for each place of the word in the title, one for each in the content |
| Search.Cutter.ScoreAdds | Boost_Search_Engine/searcher.hpp:55-80 | the score adds up the weights of the query's words |
| Search.LineTaken | Boost_Search_Engine/index.hpp:116-133 | a line is a document exactly if it has three fields |
| Search.Index.BuildIndex | Boost_Search_Engine/index.hpp:62-94 | the documents of the lines, and an inverted index that agrees with a scan of all documents |
| Search.Index.BuildInvertedIndex | Boost_Search_Engine/index.hpp:136-177 | the index agrees with a scan again after a document is added |
| Search.Index.OnePastTheEnd | Boost_Search_Engine/index.hpp:95-103 | the range check lets through, of the numbers without a document, exactly the number of documents |
| Search.Searcher.Search | Boost_Search_Engine/searcher.hpp:37-110 | each document with a word of the query once, with the sum of its weights over the query, in non-increasing order; every document looked up exists |
| Search.Cutter.PositiveScore | Boost_Search_Engine/searcher.hpp:55-80 | a score is positive exactly for documents that have a word of the query |

## Left out

- System calls: `SystemAlloc` is a parameter, pages nobody had before, with zero words.
- A turn of the release loop for an object that the page map does not find: the code goes on with a null or dangling pointer, the model has no step; `Lookups` says exactly for which buckets that can happen.
- Carving a span whose last word is not null in the transition system: the list would be none; `Recarving` says exactly when, and `RecutRun` gives a run.
- CentralCaches.CentralCache.FetchRangeObj: for a new span whose last word is not null only `GetOneSpan` says what happens.
- ThreadCaches.ThreadCache.FetchFromCentralCache: the same.
- ThreadCaches.ThreadCache.DeAllocate: when the list goes back every object on it must be found.
- PoolTheorems.ExclusiveOwnership: for runs of the steps above, that is, up to the first cut that gives no list and the first object that is not found.
- Writes of a caller onto the first word of another object: possible only where objects overlap; `OverlapRun` says for which buckets.
- C++ data races: a look-up in the page map is one step; the locks are those of the code, each segment between lock operations is one step.
- PoolMemory.AfterKeeps: words of memory are first words of addresses; two unaligned words that overlap in part are two words.
- CentralCaches.CentralCache.ReleaseListToSpans: one bucket alone, without locks; the interleaving is in `Pools`.
- ThreadCaches.ThreadCache.Allocate: the class has the list of one size class out of 208; all lists together, interleaved with other threads, are in `Pools` on values.
- `UnitTest`, `UnitTest.cpp` and `concurrentAlloc.h`: callers only.
- The regular expression engine: the one expression of the form parser is written out by hand.
- Compression of chunks, sockets, TLS, routing and the rest of httplib.h.
- Chunked.WriteContentChunked: the content provider is a list of calls, so it is known in advance what it will do.
- ThreadPools.FirstInFirstOut: the work a job does is not modelled, only that it was taken and finished.
- Search.Searcher.Search: weights are unbounded, not 32-bit; the text cut out for display (`GetDesc`) and the JSON form are not modelled.
- How texts are cut into words: a parameter. Letters are lower-cased as in ASCII.
- File access: files are strings and sequences of lines.
- `Load_Balancing_Online_OJ` and the other directories: thin layers over libraries, or easy members.
