/** The cache of one thread for one size class, on real lists, spans and words. */
module ThreadCaches {
  import opened Pages
  import opened Chains
  import opened CentralCaches
  import opened PageCaches
  import opened Spans
  import SC = SizeClass
  import P = Pools

  /** Objects that are out and not on this thread's list, held by a caller or by another thread: they stay out, nothing
      is written into them, and they do not get onto the list. */
  ghost predicate Untouched<S>(b: Bucket<S>, n: Bucket<S>, i: nat, v: map<nat, nat>, w: map<nat, nat>, was: seq<nat>,
                               now: seq<nat>) {
    forall x :: Gone(b, i, x) && x !in was ==> Gone(n, i, x) && Word(w, x) == Word(v, x) && x !in now
  }

  /** So the list of another thread on the same bucket stays what it is, and stays apart from this one. */
  lemma OtherListStays<S>(b: Bucket<S>, n: Bucket<S>, i: nat, v: map<nat, nat>, w: map<nat, nat>, was: seq<nat>,
                          now: seq<nat>, p: nat, objs: seq<nat>)
    requires Untouched(b, n, i, v, w, was, now) && Chain(v, p, objs, 0) && AllGone(b, i, objs)
    requires forall x :: x in objs ==> x !in was
    ensures Chain(w, p, objs, 0) && AllGone(n, i, objs) && forall x :: x in objs ==> x !in now
  {
    hide Gone;
    ChainFrame(v, w, p, objs, 0);
  }

  /** The first object of a batch goes to the caller, the others form a chain of their own. */
  lemma RestOfBatch<S>(b: Bucket<S>, i: nat, words: map<nat, nat>, objs: seq<nat>)
    requires |objs| > 1 && Chain(words, objs[0], objs, 0) && AllGone(b, i, objs)
    ensures Chain(words, Word(words, objs[0]), objs[1..], 0) && NoDup(objs[1..]) && AllGone(b, i, objs[1..])
    ensures objs[0] !in objs[1..] && objs[1..][|objs| - 2] == objs[|objs| - 1] && Gone(b, i, objs[|objs| - 1])
  {
    hide Gone;
    ChainSuffix(words, objs[0], objs, 0, 1);
    assert forall k :: 0 < k < |objs| ==> objs[0] != objs[k];
  }

  lemma FirstOfBatch<S>(b: Bucket<S>, i: nat, objs: seq<nat>)
    requires |objs| > 0 && AllGone(b, i, objs)
    ensures Gone(b, i, objs[0]) && objs[0] !in objs[1..] && AllGone(b, i, objs[1..])
  {
    hide Gone;
    assert forall k :: 0 < k < |objs| ==> objs[0] != objs[k];
  }

  lemma LastGone<S>(b: Bucket<S>, i: nat, objs: seq<nat>)
    requires |objs| > 0 && AllGone(b, i, objs)
    ensures Gone(b, i, objs[|objs| - 1])
  {
    hide Gone;
  }

  lemma OneMore<S>(b: Bucket<S>, i: nat, a: nat, objs: seq<nat>)
    requires Gone(b, i, a) && a !in objs && AllGone(b, i, objs)
    ensures AllGone(b, i, [a] + objs)
  {
    hide Gone;
  }

  lemma GoneNotNull<S>(b: Bucket<S>, i: nat, a: nat)
    requires BucketOk(b, i) && Gone(b, i, a)
    ensures a != 0
  {
    hide NoDup;
    PositivePage(b.pages, SpanOf(b, i, a));
  }

  lemma OneChanged(words: map<nat, nat>, objs: seq<nat>, x: nat, v: nat)
    requires x in objs
    ensures OnlyChanged(words, words[x := v], objs)
  {
  }

  lemma ChangedTwice(u: map<nat, nat>, v: map<nat, nat>, w: map<nat, nat>, objs: seq<nat>)
    requires OnlyChanged(u, v, objs) && OnlyChanged(v, w, objs)
    ensures OnlyChanged(u, w, objs)
  {
  }

  lemma EmptyChain(words: map<nat, nat>, p: nat)
    ensures Chain(words, p, [], 0) <==> p == 0
  {
  }

  lemma AlignedSize(size: nat)
    requires 1 <= size <= SC.MAX_BYTES
    ensures SC.RoundUp(size) == P.Size(SC.Index(size)) <= SC.MAX_BYTES
  {
    hide SC.RoundUp, SC.Index, SC.ClassSize;
    SC.BucketOfSize(size);
  }

  lemma NoneGone<S>(b: Bucket<S>, i: nat)
    ensures AllGone(b, i, [])
  {
  }

  lemma SomeBatch(size: nat)
    requires 0 < size <= SC.MAX_BYTES
    ensures SC.NumMoveSize(size) >= 1
  {
    SC.BatchBytes(size);
  }

  lemma BatchUntouched<S>(b: Bucket<S>, n: Bucket<S>, i: nat, v: map<nat, nat>, w: map<nat, nat>, objs: seq<nat>,
                           now: seq<nat>, end: nat, p: nat)
    requires OutsKept(b, n, i, v, w) && (forall x :: Gone(b, i, x) ==> x !in objs)
    requires (forall x :: x in now ==> x in objs) && end in objs
    ensures Untouched(b, n, i, v, w, [], now) && Untouched(b, n, i, v, w[end := p], [], now)
  {
    hide Gone;
  }

  lemma KeptUntouched<S>(b: Bucket<S>, i: nat, v: map<nat, nat>, w: map<nat, nat>, was: seq<nat>, now: seq<nat>)
    requires OnlyChanged(v, w, was) && forall x :: x in now ==> x in was
    ensures Untouched(b, b, i, v, w, was, now)
  {
    hide Gone;
  }

  lemma ReleasedUntouched<S>(b: Bucket<S>, i: nat, v: map<nat, nat>, w: map<nat, nat>, objs: seq<nat>)
    requires BucketOk(b, i) && AllOut(b, i, objs) && OnlyChanged(v, w, objs)
    ensures Untouched(b, ReleaseAll(b, i, objs), i, v, w, objs, [])
  {
    hide Gone, BucketOk, AllOut, ReleaseAll;
    forall x | Gone(b, i, x) && x !in objs ensures Gone(ReleaseAll(b, i, objs), i, x) {
      ReleaseKeepsOut(b, i, objs, x);
    }
  }

  /** The page map leads from the page of each of these objects to the span that page lies in. */
  ghost predicate AllFound<S>(b: Bucket<S>, objs: seq<nat>) { forall a :: a in objs ==> P.Found(b.pages, a) }

  lemma FoundAreOut<S>(b: Bucket<S>, i: nat, objs: seq<nat>)
    requires BucketOk(b, i) && AllGone(b, i, objs)
    ensures AllFound(b, objs) <==> AllOut(b, i, objs)
  {
    hide BucketOk, Gone, Out, P.Found;
    forall a | a in objs ensures P.Found(b.pages, a) <==> Out(b, i, a) {
      FoundIsOut(b, i, a);
    }
  }

  class ThreadCache {
    const central: CentralCache
    const list: FreeList

    ghost predicate Valid()
      reads central, central.pages, central.mem, central.list, central.pages.Lists(), central.pages.Links(),
            central.list.Nodes(), central.free.Keys
      reads list, list.mem
    {
      && central.Valid() && list.Valid() && list.mem == central.mem
      && AllGone(central.Abs(), central.i, list.objs)
      && list.size < list.maxSize <= SC.NumMoveSize(P.Size(central.i)) + 1
    }

    /** Requests of this size go to this list. */
    ghost predicate Serves(size: nat) {
      1 <= size <= SC.MAX_BYTES && SC.Index(size) == central.i
    }

    constructor (central: CentralCache)
      requires central.Valid()
      ensures Valid() && this.central == central && list.objs == [] && fresh(list)
    {
      this.central := central;
      hide PageCache.Valid, SpanList.Valid, Gone, Chain, BucketOk, SC.NumMoveSize, P.Size;
      ghost var nodes := central.list.Nodes();
      list := new FreeList(central.mem);
      new;
      assert central.list.Nodes() == nodes && central.Valid();
      NoneGone(central.Abs(), central.i);
    }

    /** ThreadCache.cpp, lines 5-15: the front of the list, or with an empty list the first of a batch that nobody had;
        the others become the list. */
    method Allocate(size: nat, base: nat) returns (ptr: nat, ghost from: Span)
      requires Valid() && Serves(size)
      requires |list.objs| == 0 && central.NothingFree() ==> central.FreshSpanIsClean(base)
      modifies list, central`free, central.mem, central.list`elems, central.list.head, central.pages,
               central.pages.Lists()`elems, central.pages.Links()
      ensures Valid() && Gone(central.Abs(), central.i, ptr) && ptr !in list.objs
      ensures |old(list.objs)| > 0 ==>
        && ptr == old(list.objs)[0] && list.objs == old(list.objs)[1..] && list.maxSize == old(list.maxSize)
        && central.Abs() == old(central.Abs()) && central.mem.words == old(central.mem.words)
      ensures |old(list.objs)| == 0 ==> var batch := SC.NumMoveSize(P.Size(central.i));
        && !old(Gone(central.Abs(), central.i, ptr))
        && list.maxSize == old(list.maxSize) + (if old(list.maxSize) <= batch then 1 else 0)
        && from in central.free && central.free == old(central.free)[from := central.free[from]]
      ensures |old(list.objs)| == 0 && !old(central.NothingFree()) ==> var batch := SC.NumMoveSize(P.Size(central.i));
        && FirstSome(old(central.list.elems), old(central.free), from)
        && old(central.free)[from] == [ptr] + list.objs + central.free[from]
        && |list.objs| + 1 == P.Min(P.Min(old(list.maxSize), batch), |old(central.free)[from]|)
      ensures |old(list.objs)| == 0 && old(central.NothingFree()) ==> var batch := SC.NumMoveSize(P.Size(central.i));
        && from !in old(central.free) && old(central.NextObjects(base)) == [ptr] + list.objs + central.free[from]
        && |list.objs| + 1 == P.Min(P.Min(old(list.maxSize), batch), |old(central.NextObjects(base))|)
      ensures Untouched(old(central.Abs()), central.Abs(), central.i, old(central.mem.words), central.mem.words,
              old(list.objs), list.objs)
    {
      hide CentralCache.Valid, PageCache.Valid, SpanList.Valid, Gone, Chain, BucketOk, SC.NumMoveSize, P.Size,
           SC.RoundUp, SC.Index, SC.ClassSize, Untouched, CentralCache.FreshSpanIsClean, CentralCache.NothingFree;
      var alignSize := SC.RoundUp(size);
      AlignedSize(size);
      ghost var nodes := central.list.Nodes();
      var empty := list.Empty();
      assert central.list.Nodes() == nodes && central.Valid();
      if !empty {
        FirstOfBatch(central.Abs(), central.i, list.objs);
        NothingChanged(central.mem.words, list.objs);
        KeptUntouched(central.Abs(), central.i, central.mem.words, central.mem.words, list.objs, list.objs[1..]);
        ptr := list.Pop();
        from := central.list.head;
        assert central.list.Nodes() == nodes && central.Valid();
      } else {
        ptr, from := FetchFromCentralCache(alignSize, base);
      }
    }

    /** ThreadCache.cpp, lines 38-62: fetch a batch, return its first object and keep the others. */
    method FetchFromCentralCache(size: nat, base: nat) returns (ptr: nat, ghost from: Span)
      requires Valid() && size == P.Size(central.i) <= SC.MAX_BYTES && |list.objs| == 0
      requires central.NothingFree() ==> central.FreshSpanIsClean(base)
      modifies list, central`free, central.mem, central.list`elems, central.list.head, central.pages,
               central.pages.Lists()`elems, central.pages.Links()
      ensures Valid() && Gone(central.Abs(), central.i, ptr) && ptr !in list.objs
      ensures !old(Gone(central.Abs(), central.i, ptr))
      ensures from in central.free && central.free == old(central.free)[from := central.free[from]]
      ensures !old(central.NothingFree()) ==>
        && FirstSome(old(central.list.elems), old(central.free), from)
        && old(central.free)[from] == [ptr] + list.objs + central.free[from]
        && |list.objs| + 1 == P.Min(P.Min(old(list.maxSize), SC.NumMoveSize(size)), |old(central.free)[from]|)
      ensures old(central.NothingFree()) ==>
        && from !in old(central.free) && old(central.NextObjects(base)) == [ptr] + list.objs + central.free[from]
        && |list.objs| + 1 ==
           P.Min(P.Min(old(list.maxSize), SC.NumMoveSize(size)), |old(central.NextObjects(base))|)
      ensures list.maxSize == old(list.maxSize) + (if old(list.maxSize) <= SC.NumMoveSize(size) then 1 else 0)
      ensures Untouched(old(central.Abs()), central.Abs(), central.i, old(central.mem.words), central.mem.words, [],
              list.objs)
    {
      hide CentralCache.Valid, Gone, AllGone, Untouched, OutsKept, CentralCache.FreshSpanIsClean,
           CentralCache.NothingFree, PageCache.Valid, SpanList.Valid, CentralCache.ChainedIn, SC.NumMoveSize, P.Size,
           Chain, BucketOk, From;
      SomeBatch(size);
      EmptyChain(central.mem.words, list.freeList);
      ghost var nodes := central.list.Nodes();
      ghost var b, words := central.Abs(), central.mem.words;
      var batchNum := P.Min(list.maxSize, SC.NumMoveSize(size));
      if list.maxSize == batchNum {
        list.maxSize := list.maxSize + 1;
      }
      assert central.list.Nodes() == nodes && central.Valid();
      var start, end, actualNum;
      ghost var objs;
      start, end, actualNum, objs, from := central.FetchRangeObj(batchNum, base);
      EmptyChain(central.mem.words, list.freeList);
      ptr := start;
      FirstOfBatch(central.Abs(), central.i, objs);
      BatchUntouched(b, central.Abs(), central.i, words, central.mem.words, objs, objs[1..], end, list.freeList);
      assert objs == [ptr] + objs[1..];
      if actualNum != 1 {
        KeepRest(start, end, actualNum - 1, objs);
      }
    }

    /** `PushRange` of all but the first object of a batch. */
    method KeepRest(start: nat, end: nat, n: nat, ghost objs: seq<nat>)
      requires central.Valid() && list.Valid() && list.mem == central.mem && list.objs == []
      requires |objs| == n + 1 > 1 && end == objs[n] && start == objs[0] && Chain(central.mem.words, start, objs, 0) &&
               AllGone(central.Abs(), central.i, objs)
      modifies list`freeList, list`size, list`objs, central.mem
      ensures central.Valid() && list.Valid() && list.objs == objs[1..] && AllGone(central.Abs(), central.i, list.objs)
      ensures central.mem.words == old(central.mem.words)[end := old(list.freeList)]
    {
      hide CentralCache.Valid, PageCache.Valid, SpanList.Valid, CentralCache.ChainedIn, Gone, AllGone, Chain,
           BucketOk, NoDup;
      RestOfBatch(central.Abs(), central.i, central.mem.words, objs);
      central.IsFramed();
      central.Survives(end, list.freeList);
      ghost var nodes := central.list.Nodes();
      list.PushRange(central.mem.Next(start), end, n, objs[1..], 0);
      assert objs[1..] + [] == objs[1..] && central.list.Nodes() == nodes;
      central.Whole();
    }

    /** ThreadCache.cpp, lines 17-22: the list holds `_maxSize` objects, and all of them go back. */
    method ListTooLong(size: nat)
      requires central.Valid() && list.Valid() && list.mem == central.mem
      requires AllGone(central.Abs(), central.i, list.objs) && AllFound(central.Abs(), list.objs)
      requires Serves(size) && list.size == list.maxSize
      modifies list, central`free, central.mem, central.list`elems, central.list.head, central.pages,
               central.pages.Lists()`elems, central.pages.Links()
      ensures central.Valid() && list.Valid() && list.objs == [] && list.maxSize == old(list.maxSize)
      ensures BucketOk(old(central.Abs()), central.i) && AllOut(old(central.Abs()), central.i, old(list.objs))
      ensures central.Abs() == ReleaseAll(old(central.Abs()), central.i, old(list.objs))
      ensures OnlyChanged(old(central.mem.words), central.mem.words, old(list.objs))
    {
      hide CentralCache.Valid, PageCache.Valid, SpanList.Valid, CentralCache.ChainedIn, Gone, AllGone, AllOut,
           AllFound, Chain, BucketOk, OnlyChanged, NoDup, ReleaseAll, SC.Index;
      ghost var objs := list.objs;
      ghost var last := objs[|objs| - 1];
      central.ValidBucket();
      FoundAreOut(central.Abs(), central.i, objs);
      LastGone(central.Abs(), central.i, objs);
      NoneGone(central.Abs(), central.i);
      OneChanged(central.mem.words, objs, last, 0);
      central.IsFramed();
      central.Survives(last, 0);
      ghost var nodes := central.list.Nodes();
      assert objs[..|objs|] == objs && objs[|objs|..] == [];
      var start, end := list.PopRange(list.maxSize);
      assert central.list.Nodes() == nodes;
      central.Whole();
      ghost var words := central.mem.words;
      EmptyChain(words, list.freeList);
      central.ReleaseListToSpans(start, objs);
      EmptyChain(central.mem.words, list.freeList);
      ChangedTwice(old(central.mem.words), words, central.mem.words, objs);
    }

    /** `Push` of one object. */
    method Keep(ptr: nat)
      requires central.Valid() && list.Valid() && list.mem == central.mem
      requires AllGone(central.Abs(), central.i, list.objs)
      requires Gone(central.Abs(), central.i, ptr) && ptr !in list.objs
      modifies list`freeList, list`size, list`objs, central.mem
      ensures central.Valid() && list.Valid() && list.objs == [ptr] + old(list.objs) &&
              AllGone(central.Abs(), central.i, list.objs)
      ensures central.Abs() == old(central.Abs())
      ensures central.mem.words == old(central.mem.words)[ptr := old(list.freeList)]
    {
      hide CentralCache.Valid, PageCache.Valid, SpanList.Valid, CentralCache.ChainedIn, Gone, AllGone, Chain,
           BucketOk;
      OneMore(central.Abs(), central.i, ptr, list.objs);
      central.IsFramed();
      GoneNotNull(central.Abs(), central.i, ptr);
      central.Survives(ptr, list.freeList);
      ghost var nodes := central.list.Nodes();
      list.Push(ptr);
      assert central.list.Nodes() == nodes;
      central.Whole();
    }

    /** ThreadCache.cpp, lines 24-36: the object goes to the front of the list, and a list that has reached its
        limit goes back as a whole. */
    method DeAllocate(ptr: nat, size: nat)
      requires Valid() && Serves(size) && Gone(central.Abs(), central.i, ptr) && ptr !in list.objs
      requires |list.objs| + 1 == list.maxSize ==> AllFound(central.Abs(), [ptr] + list.objs)
      modifies list, central`free, central.mem, central.list`elems, central.list.head, central.pages,
               central.pages.Lists()`elems, central.pages.Links()
      ensures Valid() && list.maxSize == old(list.maxSize)
      ensures BucketOk(old(central.Abs()), central.i)
      ensures if |old(list.objs)| + 1 < list.maxSize
        then list.objs == [ptr] + old(list.objs) && central.Abs() == old(central.Abs())
        else list.objs == [] && AllOut(old(central.Abs()), central.i, [ptr] + old(list.objs))
             && central.Abs() == ReleaseAll(old(central.Abs()), central.i, [ptr] + old(list.objs))
      ensures Untouched(old(central.Abs()), central.Abs(), central.i, old(central.mem.words), central.mem.words,
              [ptr] + old(list.objs), list.objs)
    {
      hide CentralCache.Valid, PageCache.Valid, SpanList.Valid, CentralCache.ChainedIn, Gone, AllGone, AllOut,
           AllFound, Chain, BucketOk, OnlyChanged, Untouched, ReleaseAll, Link, SC.NumMoveSize, P.Size;
      ghost var b, words, objs := central.Abs(), central.mem.words, [ptr] + list.objs;
      central.ValidBucket();
      OneMore(b, central.i, ptr, list.objs);
      Keep(ptr);
      OneChanged(words, objs, ptr, old(list.freeList));
      KeptUntouched(b, central.i, words, central.mem.words, objs, objs);
      if list.size >= list.maxSize {
        ghost var mid := central.mem.words;
        ListTooLong(size);
        ChangedTwice(words, mid, central.mem.words, objs);
        ReleasedUntouched(b, central.i, words, central.mem.words, objs);
        NoneGone(central.Abs(), central.i);
      }
    }
  }
}
