/** One bucket of the central cache on real spans, lists and memory words. */
module CentralCaches {
  import opened Pages
  import opened Spans
  import opened PageCaches
  import opened Chains
  import P = Pools
  import PP = PoolProofs
  import St = Stores

  /** A bucket on values: the page cache it draws on, its spans front first, and their free objects. */
  datatype Bucket<S(==)> = Bucket(pages: Pages.State<S>, elems: seq<S>, free: map<S, seq<nat>>)

  ghost predicate SpanOk<S>(b: Bucket<S>, i: nat, s: S)
    requires s in b.free
  {
    && P.Usable(b.pages, s, i) && NoDup(b.free[s]) && |b.free[s]| <= P.Total(i)
    && forall a :: a in b.free[s] ==> P.Obj(b.pages.spans[s], i, a)
  }

  ghost predicate BucketOk<S>(b: Bucket<S>, i: nat) {
    && i < P.BUCKETS && Pages.Inv(b.pages) && NoDup(b.elems)
    && (forall s :: s in b.elems ==> s in b.free)
    && (forall s :: s in b.free ==> s in b.elems && SpanOk(b, i, s))
  }

  /** Object `a` belongs to a span of the bucket, is out, and the page map leads from its page to the span. */
  ghost predicate Out<S>(b: Bucket<S>, i: nat, a: nat) {
    && a / P.PAGE in b.pages.tags
    && var s := b.pages.tags[a / P.PAGE];
       s in b.free && s in b.pages.spans && P.Obj(b.pages.spans[s], i, a) && a !in b.free[s]
  }

  /** Object `a` of span `s` is out, whether or not the page map leads back to the span. */
  ghost predicate From<S>(b: Bucket<S>, i: nat, s: S, a: nat) {
    s in b.free && s in b.pages.spans && P.Obj(b.pages.spans[s], i, a) && a !in b.free[s]
  }

  ghost predicate Gone<S>(b: Bucket<S>, i: nat, a: nat) { exists s :: s in b.free && From(b, i, s, a) }

  ghost predicate AllGone<S>(b: Bucket<S>, i: nat, chain: seq<nat>) {
    NoDup(chain) && forall a :: a in chain ==> Gone(b, i, a)
  }

  /** `s` is the first of the spans that has a free object. */
  ghost predicate FirstSome<S>(elems: seq<S>, free: map<S, seq<nat>>, s: S) {
    exists k :: 0 <= k < |elems| && elems[k] == s && s in free && |free[s]| > 0
      && forall j :: 0 <= j < k ==> elems[j] in free && |free[elems[j]]| == 0
  }

  lemma OnlyFirst<S>(elems: seq<S>, free: map<S, seq<nat>>, s: S, r: S)
    requires FirstSome(elems, free, s) && FirstSome(elems, free, r)
    ensures s == r
  {
  }

  /** What the release loop can take back is what is out and found. */
  lemma FoundIsOut<S>(b: Bucket<S>, i: nat, a: nat)
    requires BucketOk(b, i) && Gone(b, i, a)
    ensures P.Found(b.pages, a) <==> Out(b, i, a)
  {
    hide Covers, Listed, Tagged, NoDup, P.Obj, P.Total, SpanOk;
    var s :| s in b.free && From(b, i, s, a);
    P.ObjPage(b.pages.spans[s], i, a);
    if Out(b, i, a) {
      P.ObjPage(b.pages.spans[b.pages.tags[a / P.PAGE]], i, a);
    }
  }

  lemma OutIsGone<S>(b: Bucket<S>, i: nat, a: nat)
    requires Out(b, i, a)
    ensures Gone(b, i, a)
  {
    assert From(b, i, b.pages.tags[a / P.PAGE], a);
  }

  ghost predicate AllOut<S>(b: Bucket<S>, i: nat, chain: seq<nat>) {
    NoDup(chain) && forall a :: a in chain ==> Out(b, i, a)
  }

  /** One turn of the release loop (CentralCache.cpp, lines 89-118). */
  ghost function ReleaseOne<S>(b: Bucket<S>, i: nat, a: nat): Bucket<S>
    requires BucketOk(b, i) && Out(b, i, a)
  {
    var s := b.pages.tags[a / P.PAGE];
    var objs := [a] + b.free[s];
    if |objs| < P.Total(i) then b.(free := b.free[s := objs])
    else
      CanRelease(b, i, s);
      Bucket(Release(b.pages, s), Without(b.elems, s), b.free - {s})
  }

  lemma CanRelease<S>(b: Bucket<S>, i: nat, s: S)
    requires BucketOk(b, i) && s in b.free
    ensures s in b.pages.spans && b.pages.spans[s].isUse && Releasing(b.pages, s)
  {
    hide Sound, NoDup;
    assert SpanOk(b, i, s);
    StartRelease(b.pages, s);
  }

  lemma PushKeeps<S>(b: Bucket<S>, i: nat, a: nat, rest: seq<nat>)
    requires BucketOk(b, i) && AllOut(b, i, [a] + rest) && Out(b, i, a)
    requires |b.free[b.pages.tags[a / P.PAGE]]| + 1 < P.Total(i)
    ensures BucketOk(ReleaseOne(b, i, a), i) && AllOut(ReleaseOne(b, i, a), i, rest)
  {
    hide Pages.Inv, P.Obj, P.Usable, P.Total;
    var s, n := b.pages.tags[a / P.PAGE], ReleaseOne(b, i, a);
    forall r | r in n.free ensures SpanOk(n, i, r) {
      assert SpanOk(b, i, r);
    }
    RestOfChain(a, rest);
    forall x | x in rest ensures Out(n, i, x) {
      assert x in [a] + rest;
      assert Out(b, i, x);
    }
  }

  lemma RestOfChain(a: nat, rest: seq<nat>)
    requires NoDup([a] + rest)
    ensures NoDup(rest) && a !in rest
  {
    var c := [a] + rest;
    forall k | 0 <= k < |rest| ensures rest[k] != a {
      assert c[0] != c[k + 1];
    }
    forall j, k | 0 <= j < k < |rest| ensures rest[j] != rest[k] {
      assert c[j + 1] != c[k + 1];
    }
  }

  lemma OutMeansFewer<S>(b: Bucket<S>, i: nat, a: nat)
    requires BucketOk(b, i) && Out(b, i, a)
    ensures |b.free[b.pages.tags[a / P.PAGE]]| < P.Total(i)
  {
    hide Pages.Inv, P.Obj, P.Total, Complete;
    var s := b.pages.tags[a / P.PAGE];
    assert SpanOk(b, i, s);
    var g := b.pages.spans[s];
    PP.ObjsFacts(g, i);
    if |b.free[s]| == P.Total(i) {
      St.Pigeonhole(b.free[s], P.Objs(g, i));
    }
  }

  /** When the last object of a span comes back, the rest of the chain has none of it. */
  lemma LastBack<S>(b: Bucket<S>, i: nat, a: nat, x: nat)
    requires BucketOk(b, i) && Out(b, i, a) && Out(b, i, x) && a != x
    requires |b.free[b.pages.tags[a / P.PAGE]]| + 1 >= P.Total(i)
    ensures b.pages.tags[x / P.PAGE] != b.pages.tags[a / P.PAGE]
  {
    hide Pages.Inv, P.Obj, P.Total, Complete;
    var s := b.pages.tags[a / P.PAGE];
    assert SpanOk(b, i, s);
    var g, objs := b.pages.spans[s], [a] + b.free[s];
    PP.ObjsFacts(g, i);
    assert NoDup(objs);
    OutMeansFewer(b, i, a);
    St.Pigeonhole(objs, P.Objs(g, i));
    assert x in objs ==> x in b.free[s];
  }

  lemma ReleaseMoves<S>(b: Bucket<S>, i: nat, s: S)
    requires BucketOk(b, i) && s in b.free
    ensures Releasing(b.pages, s) && Pages.Inv(Release(b.pages, s)) && PP.PagesMoved(b.pages, Release(b.pages, s), s)
  {
    hide Sound, NoDup, SpanOk, Release;
    CanRelease(b, i, s);
    ReleaseKeeps(b.pages, s);
  }

  lemma EraseSpanOk<S>(b: Bucket<S>, i: nat, s: S, pages: Pages.State<S>, r: S)
    requires r in b.free && SpanOk(b, i, r) && r != s && PP.PagesMoved(b.pages, pages, s)
    ensures SpanOk(Bucket(pages, Without(b.elems, s), b.free - {s}), i, r)
    ensures r in pages.spans && pages.spans[r] == b.pages.spans[r]
  {
    hide PP.PagesMoved, P.Obj, Without;
    PP.UsableKept(b.pages, pages, s, r, i);
  }

  lemma StillOut<S>(b: Bucket<S>, i: nat, s: S, pages: Pages.State<S>, x: nat)
    requires Out(b, i, x) && b.pages.tags[x / P.PAGE] != s && SpanOk(b, i, b.pages.tags[x / P.PAGE])
    requires PP.PagesMoved(b.pages, pages, s)
    ensures Out(Bucket(pages, Without(b.elems, s), b.free - {s}), i, x)
  {
    hide Without;
    var r := b.pages.tags[x / P.PAGE];
    EraseSpanOk(b, i, s, pages, r);
    P.ObjPage(b.pages.spans[r], i, x);
    assert SameTag(b.pages.tags, pages.tags, x / P.PAGE);
  }

  lemma EraseKeeps<S>(b: Bucket<S>, i: nat, a: nat, rest: seq<nat>)
    requires BucketOk(b, i) && AllOut(b, i, [a] + rest) && Out(b, i, a)
    requires |b.free[b.pages.tags[a / P.PAGE]]| + 1 >= P.Total(i)
    ensures BucketOk(ReleaseOne(b, i, a), i) && AllOut(ReleaseOne(b, i, a), i, rest)
  {
    hide Pages.Inv, P.Obj, P.Usable, P.Total, PP.PagesMoved, Release, SpanOk, Out, Without, NoDup;
    OutSpan(b, i, a);
    var s := b.pages.tags[a / P.PAGE];
    var n := ReleaseOne(b, i, a);
    ReleaseMoves(b, i, s);
    WithoutIn(b.elems, s);
    forall r | r in n.free ensures SpanOk(n, i, r) {
      EraseSpanOk(b, i, s, n.pages, r);
    }
    RestOfChain(a, rest);
    forall x | x in rest ensures Out(n, i, x) {
      assert x in [a] + rest && a in [a] + rest;
      LastBack(b, i, a, x);
      OutSpan(b, i, x);
      StillOut(b, i, s, n.pages, x);
    }
  }

  lemma OutSpan<S>(b: Bucket<S>, i: nat, a: nat)
    requires Out(b, i, a)
    ensures a / P.PAGE in b.pages.tags && b.pages.tags[a / P.PAGE] in b.free
  {
  }

  lemma WithoutIn<S>(xs: seq<S>, x: S)
    requires NoDup(xs)
    ensures NoDup(Without(xs, x))
    ensures forall y :: y in Without(xs, x) ==> y in xs && y != x
    ensures forall y :: y in xs && y != x ==> y in Without(xs, x)
  {
    WithoutMembers(xs, x);
  }

  lemma ReleaseOneKeeps<S>(b: Bucket<S>, i: nat, a: nat, rest: seq<nat>)
    requires BucketOk(b, i) && AllOut(b, i, [a] + rest)
    ensures Out(b, i, a) && BucketOk(ReleaseOne(b, i, a), i) && AllOut(ReleaseOne(b, i, a), i, rest)
  {
    hide BucketOk, Out, P.Total, ReleaseOne, NoDup;
    assert a in [a] + rest;
    OutSpan(b, i, a);
    if |b.free[b.pages.tags[a / P.PAGE]]| + 1 < P.Total(i) {
      PushKeeps(b, i, a, rest);
    } else {
      EraseKeeps(b, i, a, rest);
    }
  }

  /** The whole release loop. */
  ghost function ReleaseAll<S>(b: Bucket<S>, i: nat, chain: seq<nat>): Bucket<S>
    requires BucketOk(b, i) && AllOut(b, i, chain)
    decreases |chain|
  {
    hide BucketOk, AllOut, Out, ReleaseOne;
    if |chain| == 0 then b
    else
      assert [chain[0]] + chain[1..] == chain;
      ReleaseOneKeeps(b, i, chain[0], chain[1..]);
      ReleaseAll(ReleaseOne(b, i, chain[0]), i, chain[1..])
  }

  // ----- the bucket itself -----

  /** Only words of these objects have been written. */
  ghost predicate OnlyChanged(a: map<nat, nat>, b: map<nat, nat>, objs: seq<nat>) {
    forall x: nat :: x !in objs ==> Word(a, x) == Word(b, x)
  }

  lemma ChangedMore(a: map<nat, nat>, b: map<nat, nat>, objs: seq<nat>, x: nat)
    requires OnlyChanged(a, b, objs) && x in objs
    ensures forall c :: OnlyChanged(b, c, [x]) ==> OnlyChanged(a, c, objs)
  {
  }

  lemma NothingChanged(a: map<nat, nat>, objs: seq<nat>)
    ensures OnlyChanged(a, a, objs)
  {
  }

  lemma FreeApart<S>(b: Bucket<S>, i: nat, s: S, r: S, a: nat)
    requires BucketOk(b, i) && s in b.free && r in b.free && a in b.free[s] && a in b.free[r]
    ensures s == r
  {
    hide Covers, Listed, Tagged, P.Obj, P.Total, NoDup, Complete;
    assert SpanOk(b, i, s) && SpanOk(b, i, r);
    PP.SpansMeetNowhere(b.pages, s, r, i, i, a);
  }

  class CentralCache {
    const pages: PageCache
    const mem: Memory
    const list: SpanList
    const i: nat
    ghost var free: map<Span, seq<nat>>

    ghost function Abs(): Bucket<Span>
      reads this, pages, list
    {
      Bucket(pages.abs, list.elems, free)
    }

    ghost predicate Separate()
      reads pages
    {
      list !in pages.Lists() && list.head !in pages.Links()
    }

    /** The words chain each span's free objects, and the counts add up. */
    ghost predicate ChainAt(s: Span)
      reads this, mem, s
    {
      s in free && Chain(mem.words, s.freeList, free[s], 0) && s.useCount + |free[s]| == P.Total(i)
    }

    ghost predicate Chained()
      reads this, mem, free.Keys
    {
      forall s :: s in free ==> ChainAt(s)
    }

    /** A span that is not in use has nothing out. */
    ghost predicate Rested()
      reads pages, pages.abs.spans.Keys`useCount
    {
      forall s :: s in pages.abs.spans && !pages.abs.spans[s].isUse ==> s.useCount == 0
    }

    ghost predicate Valid()
      reads this, pages, mem, list, pages.Lists(), pages.Links(), list.Nodes(), free.Keys
    {
      Separate() && pages.Valid() && list.Valid() && BucketOk(Abs(), i) && Chained() && Rested()
    }

    constructor (pages: PageCache, mem: Memory, i: nat)
      requires pages.Valid() && i < P.BUCKETS
      requires forall s :: s in pages.abs.spans && !pages.abs.spans[s].isUse ==> s.useCount == 0
      ensures Valid() && this.pages == pages && this.mem == mem && this.i == i
      ensures Abs() == Bucket(pages.abs, [], map[]) && fresh(list) && fresh(list.head)
    {
      this.pages := pages;
      this.mem := mem;
      this.i := i;
      list := new SpanList();
      free := map[];
    }

    /** `span->_freeList = head; span->_useCount = count` */
    method SetFree(span: Span, head: nat, count: nat)
      requires pages.Valid() && list.Valid()
      modifies span`freeList, span`useCount
      ensures pages.Valid() && list.Valid() && span.freeList == head && span.useCount == count
    {
      pages.SetObjects(span, head, count);
    }

    /** Walk along a chain for at most `batchNum` objects (CentralCache.cpp, lines 62-71). */
    method Walk(start: nat, batchNum: nat, ghost objs: seq<nat>) returns (end: nat, actualNum: nat)
      requires Chain(mem.words, start, objs, 0) && |objs| > 0 && batchNum >= 1
      ensures actualNum == P.Min(batchNum, |objs|) && end == objs[actualNum - 1]
    {
      end := start;
      var k := 0;
      actualNum := 1;
      while k < batchNum - 1 && mem.Next(end) != 0
        invariant 0 <= k < |objs| && k <= batchNum - 1 && actualNum == k + 1 && end == objs[k]
        decreases batchNum - k
      {
        assert Link(mem.words, objs, k, 0);
        end := mem.Next(end);
        k := k + 1;
        actualNum := actualNum + 1;
      }
      assert Link(mem.words, objs, k, 0);
      assert k + 1 < |objs| ==> Link(mem.words, objs, k + 1, 0);
    }

    /** A write to an object of one span leaves the free lists of the others alone. */
    lemma OtherChains(span: Span, a: nat, w: nat, s: Span)
      requires BucketOk(Abs(), i) && span in free && a in free[span] && s in free && s != span
      requires Chain(mem.words, s.freeList, free[s], 0)
      ensures Chain(mem.words[a := w], s.freeList, free[s], 0)
    {
      forall x | x in free[s] ensures Word(mem.words[a := w], x) == Word(mem.words, x) {
        if x == a {
          FreeApart(Abs(), i, span, s, x);
        }
      }
      ChainFrame(mem.words, mem.words[a := w], s.freeList, free[s], 0);
    }

    /** One word, one list head and one use count change together; every chain is right again afterwards. */
    method Relink(span: Span, a: nat, w: nat, head: nat, count: nat, ghost objs: seq<nat>)
      requires Separate() && pages.Valid() && list.Valid() && Rested() && Chained()
      requires span in free && span in pages.abs.spans && pages.abs.spans[span].isUse
      requires BucketOk(Abs().(free := free[span := objs]), i)
      requires Chain(mem.words[a := w], head, objs, 0) && count + |objs| == P.Total(i)
      requires forall s :: s in free && s != span ==> Chain(mem.words[a := w], s.freeList, free[s], 0)
      modifies this`free, mem, span`freeList, span`useCount
      ensures Valid() && pages.abs == old(pages.abs) && list.elems == old(list.elems)
      ensures free == old(free)[span := objs] && mem.words == old(mem.words)[a := w]
    {
      hide BucketOk, Chain, P.Total, Pages.Inv, NoDup, PageCache.Shape, CentralCache.Valid;
      mem.SetNext(a, w);
      free := free[span := objs];
      SetFree(span, head, count);
      forall s | s in free ensures ChainAt(s) {
        assert s != span ==> old(ChainAt(s));
      }
      Assemble();
    }

    /** Detach the first `n` objects of a span, the last of them being `end` (lines 72-75). */
    method Detach(span: Span, end: nat, n: nat)
      requires Valid() && span in free && 1 <= n <= |free[span]| && end == free[span][n - 1]
      modifies this`free, mem, span`freeList, span`useCount
      ensures Valid() && pages.abs == old(pages.abs) && list.elems == old(list.elems)
      ensures free == old(free)[span := old(free)[span][n..]] && mem.words == old(mem.words)[end := 0]
    {
      hide BucketOk, Chain, P.Total, CentralCache.Valid, CentralCache.Rested, SpanList.Valid, PageCache.Valid;
      Parts();
      assert ChainAt(span);
      FetchChains(span, n);
      Relink(span, end, 0, mem.Next(end), span.useCount + n, free[span][n..]);
    }

    /** The part of FetchRangeObj after a span is chosen (CentralCache.cpp, lines 61-75): take a batch, or
        what there is. */
    method FetchFrom(span: Span, batchNum: nat) returns (start: nat, end: nat, actualNum: nat)
      requires Valid() && span in free && |free[span]| > 0 && batchNum >= 1
      modifies this`free, mem, span`freeList, span`useCount
      ensures Valid() && pages.abs == old(pages.abs) && list.elems == old(list.elems)
      ensures actualNum == P.Min(batchNum, |old(free)[span]|)
      ensures start == old(free)[span][0] && end == old(free)[span][actualNum - 1]
      ensures Chain(mem.words, start, old(free)[span][..actualNum], 0)
      ensures free == old(free)[span := old(free)[span][actualNum..]] && mem.words == old(mem.words)[end := 0]
    {
      hide BucketOk, Chain, P.Total, Pages.Inv, NoDup, PageCache.Apart, PageCache.ListAt, PageCache.InFrame,
           PageCache.Fields;
      assert ChainAt(span);
      start := span.freeList;
      end, actualNum := Walk(start, batchNum, free[span]);
      FetchChains(span, actualNum);
      Detach(span, end, actualNum);
    }

    /** Cutting a batch off one span's free list leaves a chain in hand and chains everywhere else. */
    lemma FetchChains(span: Span, n: nat)
      requires BucketOk(Abs(), i) && Chained() && span in free && 1 <= n <= |free[span]|
      ensures var objs, end := free[span], free[span][n - 1];
        && span.freeList == objs[0] && Chain(mem.words[end := 0], span.freeList, objs[..n], 0)
        && Chain(mem.words[end := 0], mem.Next(end), objs[n..], 0)
        && (forall s :: s in free && s != span ==> Chain(mem.words[end := 0], s.freeList, free[s], 0))
      ensures BucketOk(Abs().(free := free[span := free[span][n..]]), i)
      ensures span in pages.abs.spans && pages.abs.spans[span].isUse
    {
      hide BucketOk, Chain, P.Total;
      var objs, end := free[span], free[span][n - 1];
      assert ChainAt(span);
      ChainCut(mem.words, span.freeList, objs, n);
      ChainStart(mem.words, span.freeList, objs);
      FetchKeeps(Abs(), i, span, n);
      SpanInUse(Abs(), i, span);
      forall s | s in free && s != span ensures Chain(mem.words[end := 0], s.freeList, free[s], 0) {
        assert ChainAt(s);
        OtherChains(span, end, 0, s);
      }
    }

    /** Putting object `a` in front of its span's free list leaves chains everywhere. */
    lemma PutChains(span: Span, a: nat, rest: seq<nat>, p: nat)
      requires BucketOk(Abs(), i) && Chained() && Out(Abs(), i, a) && span == pages.abs.tags[a / P.PAGE] && a != 0
      requires Chain(mem.words, p, rest, 0) && a !in rest
      ensures span in free && span in pages.abs.spans && pages.abs.spans[span].isUse
      ensures var w := mem.words[a := span.freeList];
        && Chain(w, a, [a] + free[span], 0) && Chain(w, p, rest, 0)
        && (forall s :: s in free && s != span ==> Chain(w, s.freeList, free[s], 0))
      ensures BucketOk(Abs().(free := free[span := [a] + free[span]]), i) && span.useCount >= 1
    {
      hide Chain, P.Total, Pages.Inv, P.Obj, NoDup;
      OutSpan(Abs(), i, a);
      assert ChainAt(span);
      SpanInUse(Abs(), i, span);
      OutMeansFewer(Abs(), i, a);
      PutOk(Abs(), i, a);
      var w := mem.words[a := span.freeList];
      OneLink(mem.words, a);
      ChainJoin(mem.words, a, [a], mem.Next(a), span.freeList, free[span]);
      ChainFrame(mem.words, w, p, rest, 0);
      forall s | s in free && s != span ensures Chain(w, s.freeList, free[s], 0) {
        assert ChainAt(s);
        OnlyOwner(Abs(), i, a, s);
        ChainFrame(mem.words, w, s.freeList, free[s], 0);
      }
    }

    /** Lines 90-96: push the object back to the span its page leads to. */
    method PutOn(start: nat, ghost rest: seq<nat>, ghost p: nat) returns (span: Span)
      requires Valid() && Out(Abs(), i, start) && start != 0 && Chain(mem.words, p, rest, 0) && start !in rest
      modifies this`free, mem, free.Keys`freeList, free.Keys`useCount
      ensures Valid() && span == old(pages.abs).tags[start / P.PAGE] && span in free
      ensures Abs() == old(Abs()).(free := old(free)[span := [start] + old(free)[span]])
      ensures Chain(mem.words, p, rest, 0) && OnlyChanged(old(mem.words), mem.words, [start])
    {
      hide BucketOk, Chain, P.Total, P.Obj, Pages.Inv, NoDup, PageCache.Valid, CentralCache.Valid;
      Parts();
      var found := pages.MapObjectToSpan(start);
      OutSpan(Abs(), i, start);
      span := found;
      PutChains(span, start, rest, p);
      assert ChainAt(span);
      ghost var objs := [start] + free[span];
      assert |objs| == 1 + |free[span]| && span.useCount - 1 + |objs| == P.Total(i);
      Relink(span, start, span.freeList, start, span.useCount - 1, objs);
    }

    /** `_spanLists[index].Erase(span)`: the page cache's own rings share no node with this one. */
    method ListErase(span: Span)
      requires Separate() && pages.Valid() && list.Valid() && span in list.elems
      requires forall s :: s in list.elems ==> s in pages.abs.spans && pages.abs.spans[s].isUse
      modifies list`elems, list.Nodes()`next, list.Nodes()`prev
      ensures pages.Valid() && list.Valid() && list.elems == Without(old(list.elems), span)
    {
      hide Sound, NoDup, Without;
      SoundRests(pages.abs, {}, {});
      forall j | 0 <= j < NPAGES
        ensures pages.InFrame(j) && pages.ListAt(j) && pages.spanLists[j].Nodes() !! list.Nodes()
      {
        pages.NodesIdle(j);
      }
      list.Erase(span);
      forall j | 0 <= j < NPAGES ensures pages.InFrame(j) && pages.ListAt(j) {
        assert old(pages.InFrame(j) && pages.ListAt(j) && pages.spanLists[j].Nodes() !! list.Nodes());
      }
    }

    /** Lines 100-113: a span all of whose objects are back leaves the bucket and goes to the page cache. */
    method EraseAndReturn(span: Span)
      requires Valid() && span in free && |free[span]| == P.Total(i)
      modifies this`free, list`elems, list.Nodes()`next, list.Nodes()`prev, span`freeList, span`useCount
      modifies pages, pages.Lists()`elems, pages.Idle()`next, pages.Idle()`prev, pages.Idle()`pageId, pages.Idle()`n
      modifies span`pageId, span`n, span`isUse
      ensures Releasing(old(pages.abs), span)
      ensures Valid()
      ensures Abs() == Bucket(Release(old(pages.abs), span), Without(old(list.elems), span), old(free) - {span})
      ensures pages.abs.spans.Keys <= old(pages.abs).spans.Keys
    {
      hide Sound, NoDup, Without, Release, Chain, P.Total, BucketOk, PageCache.Apart, PageCache.ListAt,
           PageCache.InFrame, PageCache.Fields, SpanList.Valid;
      ghost var b := Abs();
      ElemsInUse(b, i);
      CanRelease(b, i, span);
      EraseBucketOk(b, i, span);
      assert ChainAt(span);
      Withdraw(span);
      free := free - {span};
      HandBack(span);
    }

    /** Lines 111-113: the span, unlinked and with nothing out, goes to the page cache. */
    method HandBack(span: Span)
      requires Separate() && pages.Valid() && list.Valid() && Chained() && Rested() && span.useCount == 0
      requires span in pages.abs.spans && pages.abs.spans[span].isUse && span !in free && span !in list.Nodes()
      requires list.Nodes() !! pages.Idle()
      requires Releasing(pages.abs, span) && BucketOk(Bucket(Release(pages.abs, span), list.elems, free), i)
      modifies pages, pages.Lists()`elems, pages.Idle()`next, pages.Idle()`prev, pages.Idle()`pageId, pages.Idle()`n
      modifies span`pageId, span`n, span`isUse, span`next, span`prev
      ensures Valid() && pages.abs == Release(old(pages.abs), span)
      ensures pages.abs.spans.Keys <= old(pages.abs).spans.Keys
    {
      hide Sound, NoDup, Release, Chain, P.Total, BucketOk, PageCache.Apart, PageCache.ListAt, PageCache.InFrame,
           PageCache.Fields, SpanList.Valid;
      OthersRested(pages.abs, span);
      pages.ReleaseSpanToPageCache(span);
    }

    /** Take the span out of the bucket's ring and drop its free list (lines 101-104). */
    method Withdraw(span: Span)
      requires Separate() && pages.Valid() && list.Valid() && span in list.elems && NoDup(list.elems)
      requires forall s :: s in list.elems ==> s in pages.abs.spans && pages.abs.spans[s].isUse
      modifies list`elems, list.Nodes()`next, list.Nodes()`prev, span`freeList, span`useCount
      ensures pages.Valid() && list.Valid() && list.elems == Without(old(list.elems), span)
      ensures span.useCount == old(span.useCount) && span !in list.Nodes() && list.Nodes() !! pages.Idle()
    {
      hide Sound, NoDup, Without;
      WithoutIn(list.elems, span);
      ListErase(span);
      NotIdle(span);
      NodesBusy();
      SetFree(span, 0, span.useCount);
      Unlink(span);
    }

    /** The page cache never relinks a node of this bucket's ring. */
    lemma NodesBusy()
      requires Separate() && pages.Valid()
      requires forall s :: s in list.elems ==> s in pages.abs.spans && pages.abs.spans[s].isUse
      ensures list.Nodes() !! pages.Idle()
    {
      hide Sound;
    }

    /** `span->_next = nullptr; span->_prev = nullptr` */
    method Unlink(span: Span)
      requires Separate() && pages.Valid() && list.Valid() && span !in list.Nodes()
      requires span in pages.abs.spans && pages.abs.spans[span].isUse
      modifies span`next, span`prev
      ensures pages.Valid() && list.Valid()
    {
      hide Sound, NoDup;
      SoundRests(pages.abs, {}, {});
      NotIdle(span);
      pages.ClearLinks(span);
    }

    lemma NotIdle(span: Span)
      requires pages.Valid() && span in pages.abs.spans && pages.abs.spans[span].isUse
      ensures span !in pages.Idle()
    {
      hide Sound;
    }

    lemma InLinks()
      requires BucketOk(Abs(), i)
      ensures list.Nodes() <= {list.head} + pages.Links() && pages.Idle() <= pages.Links() && free.Keys <= pages.Links()
    {
      hide BucketOk;
      ElemsInUse(Abs(), i);
    }

    lemma ValidBucket()
      requires Valid()
      ensures BucketOk(Abs(), i) && forall s :: s in free ==> ChainAt(s)
    {
    }

    /** Lines 100-116. */
    method EraseIfDone(span: Span)
      requires Valid() && span in free
      modifies this`free, list`elems, list.head, pages, pages.Lists()`elems, pages.Links()
      ensures Valid() && pages.Links() <= old(pages.Links()) && |old(free)[span]| <= P.Total(i)
      ensures |old(free)[span]| < P.Total(i) ==> Abs() == old(Abs())
      ensures |old(free)[span]| == P.Total(i) ==> Releasing(old(pages.abs), span)
      ensures |old(free)[span]| == P.Total(i) ==>
        Abs() == Bucket(Release(old(pages.abs), span), Without(old(list.elems), span), old(free) - {span})
    {
      hide CentralCache.Valid, NoDup, Chain, P.Total, BucketOk, Release, Without, Sound;
      ValidBucket();
      assert ChainAt(span);
      InLinks();
      if span.useCount == 0 {
        EraseAndReturn(span);
      }
    }

    /** One turn of the release loop. */
    method Turn(start: nat, ghost rest: seq<nat>) returns (next: nat)
      requires Valid() && Chain(mem.words, start, [start] + rest, 0) && AllOut(Abs(), i, [start] + rest)
      modifies this`free, mem, list`elems, list.head, pages, pages.Lists()`elems, pages.Links()
      ensures Valid() && BucketOk(old(Abs()), i) && Out(old(Abs()), i, start)
      ensures Abs() == ReleaseOne(old(Abs()), i, start) && Chain(mem.words, next, rest, 0)
      ensures pages.Links() <= old(pages.Links()) && OnlyChanged(old(mem.words), mem.words, [start])
    {
      hide CentralCache.Valid, NoDup, Chain, P.Total, BucketOk, Out, AllOut, ReleaseOne, Release, Without, Sound,
           OnlyChanged, CentralCache.ChainAt, P.Obj;
      ValidBucket();
      ghost var b := Abs();
      FirstOut(b, i, start, rest);
      NextInChain(mem.words, start, rest);
      ReleaseOneIs(b, i, start);
      InLinks();
      next := mem.Next(start);
      var span := PutOn(start, rest, next);
      ghost var c := Abs();
      EraseIfDone(span);
      TurnIs(b, i, start, c, Abs());
    }

    /** CentralCache.cpp, lines 83-120, without the locks. */
    method ReleaseListToSpans(first: nat, ghost chain: seq<nat>)
      requires Valid() && Chain(mem.words, first, chain, 0) && AllOut(Abs(), i, chain)
      modifies this`free, mem, list`elems, list.head, pages, pages.Lists()`elems, pages.Links()
      ensures BucketOk(old(Abs()), i) && AllOut(old(Abs()), i, chain)
      ensures Valid() && Abs() == ReleaseAll(old(Abs()), i, chain) && OnlyChanged(old(mem.words), mem.words, chain)
      ensures pages.Links() <= old(pages.Links())
    {
      hide OnlyChanged, Sound, NoDup, P.Total, Out, AllOut, ReleaseOne, PageCache.Apart, PageCache.ListAt,
           PageCache.InFrame, PageCache.Fields;
      ghost var b, rest := Abs(), chain;
      NothingChanged(mem.words, chain);
      var start := first;
      while start != 0
        invariant Valid() && Chain(mem.words, start, rest, 0) && AllOut(Abs(), i, rest)
        invariant BucketOk(b, i) && AllOut(b, i, chain) && ReleaseAll(Abs(), i, rest) == ReleaseAll(b, i, chain)
        invariant pages.Links() <= old(pages.Links()) && OnlyChanged(old(mem.words), mem.words, chain)
        invariant |rest| <= |chain| && rest == chain[|chain| - |rest|..]
        decreases |rest|
      {
        assert rest == [start] + rest[1..];
        ghost var words := mem.words;
        ReleaseOneKeeps(Abs(), i, start, rest[1..]);
        ChangedMore(old(mem.words), words, chain, start);
        start := Turn(start, rest[1..]);
        rest := rest[1..];
      }
      assert |rest| > 0 ==> Link(mem.words, rest, 0, 0);
    }

    /** The search loop of GetOneSpan (CentralCache.cpp, lines 9-16): the first span with a free object, or the
        sentinel. */
    method FindSpan() returns (it: Span)
      requires Valid()
      ensures it == list.head ==> forall s :: s in list.elems ==> s in free && |free[s]| == 0
      ensures it != list.head ==> FirstSome(list.elems, free, it)
    {
      hide Sound, NoDup, P.Total, BucketOk, PageCache.Valid;
      ElemsInUse(Abs(), i);
      ghost var k := 0;
      it := list.Begin();
      while it != list.head
        invariant 0 <= k <= |list.elems| && it == list.Ring()[k + 1]
        invariant k == |list.elems| ==> it == list.head
        invariant forall j :: 0 <= j < k ==> list.elems[j] in free && |free[list.elems[j]]| == 0
        decreases |list.elems| - k
      {
        assert k < |list.elems| && it == list.elems[k] && it in list.elems;
        assert ChainAt(it);
        HeadIsNull(mem.words, it.freeList, free[it]);
        if it.freeList != 0 {
          return;
        }
        assert list.Ring()[k + 1].next == list.Ring()[k + 2];
        it := it.next;
        k := k + 1;
      }
    }

    /** The call of the page cache: it relinks none of this bucket's nodes and touches none of its free lists. */
    method TakeSpan(k: nat, base: nat) returns (span: Span, ghost big: Span, ghost kid: Span)
      requires Separate() && pages.Valid() && list.Valid() && Chained() && list.Nodes() !! pages.Idle()
      requires list.head !in pages.abs.spans
      requires 1 <= k < NPAGES && (FirstFit(pages.abs.lists, k) == NPAGES ==> FreshPages(pages.abs.owned, base))
      modifies pages, pages.Lists()`elems, pages.Idle()`next, pages.Idle()`prev, pages.Idle()`pageId, pages.Idle()`n,
          pages.Idle()`isUse
      ensures Separate() && pages.Valid() && list.Valid() && Chained()
      ensures FreshSpans(old(pages.abs), k, big, base, kid)
      ensures var (st, r) := NewSpan(old(pages.abs), k, big, base, kid);
        span == r && span in st.spans && pages.abs == MarkInUse(st, span)
      ensures forall s :: s in pages.abs.spans && s !in old(pages.abs).spans ==> fresh(s) && s.useCount == 0
    {
      hide Sound, NoDup, P.Total, Chain, NewSpan, FreshSpans, FreshPages, MarkInUse;
      hide PageCache.Apart, PageCache.ListAt, PageCache.InFrame, PageCache.Fields, SpanList.Valid;
      span, big, kid := pages.Acquire(k, base);
    }

    /** Lines 23-26: a new span from the page cache, none of whose rings or free lists is ours yet. */
    method AcquireSpan(base: nat) returns (span: Span, ghost big: Span, ghost kid: Span)
      requires Valid() && |pages.abs.lists| == NPAGES && 1 <= P.SpanPages(i) < NPAGES
      requires FirstFit(pages.abs.lists, P.SpanPages(i)) == NPAGES ==> FreshPages(pages.abs.owned, base)
      modifies pages, pages.Lists()`elems, pages.Idle()`next, pages.Idle()`prev, pages.Idle()`pageId, pages.Idle()`n,
          pages.Idle()`isUse
      ensures Valid() && Took(old(Abs()), i, base, big, kid, span, pages.abs)
      ensures span !in free && span !in list.Nodes() && span.useCount == 0 && (span in old(pages.Idle()) || fresh(span))
    {
      hide Sound, NoDup, P.Total, BucketOk, Chain, NewSpan, FreshSpans, FreshPages, P.Usable, Acquired, PP.PagesMoved;
      hide PageCache.Shape, CentralCache.Valid, SpanList.Valid, CentralCache.Chained;
      ghost var b := Abs();
      Parts();
      ElemsInUse(b, i);
      NodesBusy();
      HeadApart();
      span, big, kid := TakeSpan(P.SpanPages(i), base);
      TookSpan(b, i, base, big, kid, span, pages.abs);
      TookKeeps(b, i, base, big, kid, span, pages.abs);
      assert Rested();
      Assemble();
    }

    lemma HeadApart()
      requires Separate()
      ensures list.head !in pages.abs.spans
    {
    }

    lemma Assemble()
      requires Separate() && pages.Valid() && list.Valid() && BucketOk(Abs(), i) && Chained() && Rested()
      ensures Valid()
    {
    }

    lemma Parts()
      requires Valid()
      ensures Separate() && pages.Valid() && list.Valid() && BucketOk(Abs(), i) && Chained() && Rested()
    {
    }

    /** Lines 30-42: cut the span into objects.  The chains of the other spans are not touched. */
    method CarveSpan(span: Span) returns (head: nat, ghost after: nat)
      requires Valid() && span !in free && Acquired(pages.abs, i, span)
      modifies mem
      ensures Valid() && span in pages.abs.spans
      ensures var objs := P.Objs(pages.abs.spans[span], i);
        && |objs| > 0 && after == Word(old(mem.words), objs[|objs| - 1]) && Chain(mem.words, head, objs, after)
        && OnlyChanged(old(mem.words), mem.words, objs)
    {
      hide Sound, NoDup, P.Total, BucketOk, Chain, P.Obj, PageCache.Apart, PageCache.ListAt, PageCache.InFrame,
           PageCache.Fields;
      ElemsInUse(Abs(), i);
      pages.FieldsOf(span);
      var page, n := span.pageId, span.n;
      SpanBytes(page, n, i);
      head := Carve(mem, page * P.PAGE, n * P.PAGE, P.Size(i));
      ghost var objs := P.Objs(pages.abs.spans[span], i);
      after := Word(old(mem.words), objs[|objs| - 1]);
      forall s | s in free ensures ChainAt(s) {
        assert old(ChainAt(s));
        forall x | x in free[s] ensures x !in objs {
          NotThisSpan(Abs(), i, span, s, x);
        }
        ChainFrame(old(mem.words), mem.words, s.freeList, free[s], 0);
      }
    }

    /** `list.PushFront(span)`: the page cache's own rings share no node with this one. */
    method ListPush(span: Span)
      requires Separate() && pages.Valid() && list.Valid() && span !in list.Nodes()
      requires span in pages.abs.spans && pages.abs.spans[span].isUse
      requires forall s :: s in list.elems ==> s in pages.abs.spans && pages.abs.spans[s].isUse
      modifies list`elems, list.Nodes()`next, list.Nodes()`prev, span`next, span`prev
      ensures pages.Valid() && list.Valid() && list.elems == [span] + old(list.elems)
    {
      hide Sound, NoDup;
      SoundRests(pages.abs, {}, {});
      NotIdle(span);
      forall j | 0 <= j < NPAGES
        ensures pages.InFrame(j) && pages.ListAt(j) && pages.spanLists[j].Nodes() !! list.Nodes() + {span}
      {
        pages.NodesIdle(j);
      }
      list.PushFront(span);
      forall j | 0 <= j < NPAGES ensures pages.InFrame(j) && pages.ListAt(j) {
        assert old(pages.InFrame(j) && pages.ListAt(j) && pages.spanLists[j].Nodes() !! list.Nodes() + {span});
      }
    }

    /** Lines 35 and 46: give the span its chain and put it in the bucket. */
    method AttachSpan(span: Span, head: nat, ghost after: nat)
      requires Valid() && span !in free && span !in list.Nodes() && span.useCount == 0 && Acquired(pages.abs, i, span)
      requires Chain(mem.words, head, P.Objs(pages.abs.spans[span], i), after)
      modifies this`free, span`freeList, span`useCount, list`elems, list.Nodes()`next, list.Nodes()`prev, span`next,
          span`prev
      ensures pages.abs == old(pages.abs) && list.elems == [span] + old(list.elems) && span.freeList == head
      ensures free == old(free)[span := P.Objs(pages.abs.spans[span], i)]
      ensures after == 0 && P.Usable(pages.abs, span, i) ==> Valid()
    {
      hide Sound, NoDup, P.Total, BucketOk, P.Obj, Chain, P.Usable;
      hide PageCache.Apart, PageCache.ListAt, PageCache.InFrame, PageCache.Fields, SpanList.Valid, CentralCache.Valid;
      Parts();
      ElemsInUse(Abs(), i);
      NewBucketOk(Abs(), i, span);
      SetFree(span, head, span.useCount);
      ListPush(span);
      free := free[span := P.Objs(pages.abs.spans[span], i)];
      if after == 0 && P.Usable(pages.abs, span, i) {
        forall s | s in free ensures ChainAt(s) {
          assert s != span ==> old(ChainAt(s));
        }
        Assemble();
      }
    }

    ghost predicate NothingFree()
      reads this, list
    {
      forall s :: s in list.elems && s in free ==> |free[s]| == 0
    }

    /** The system hands over pages it has not handed over before. */
    ghost predicate SystemGivesFresh(base: nat)
      reads this, pages
    {
      |pages.abs.lists| == NPAGES && P.SpanPages(i) < NPAGES
      && (FirstFit(pages.abs.lists, P.SpanPages(i)) == NPAGES ==> FreshPages(pages.abs.owned, base))
    }

    /** The objects of the span that the page cache would hand out next. */
    ghost function NextObjects(base: nat): seq<nat>
      requires SystemGivesFresh(base)
      reads this, pages
    {
      P.Objs(Geo(NextPage(pages.abs, P.SpanPages(i), base), P.SpanPages(i), true), i)
    }

    /** The word of the last of these objects is null, so that they can be cut into a list. */
    ghost predicate FreshSpanIsClean(base: nat)
      reads this, pages, mem
    {
      SystemGivesFresh(base) && LastIsZero(mem.words, NextObjects(base))
    }

    ghost predicate LastIsZero(words: map<nat, nat>, objs: seq<nat>) {
      |objs| > 0 ==> Word(words, objs[|objs| - 1]) == 0
    }

    /** `span` has come in front of the spans there were, with these objects; its chain ends where the word of the last
        of them led before. */
    ghost predicate NewInFront(span: Span, elems: seq<Span>, was: map<Span, seq<nat>>, objs: seq<nat>,
        words: map<nat, nat>)
      reads this, pages, mem, list, span
    {
      && list.elems == [span] + elems && span !in was && free == was[span := objs]
      && span in pages.abs.spans && objs == P.Objs(pages.abs.spans[span], i)
      && |objs| > 0 && Chain(mem.words, span.freeList, objs, Word(words, objs[|objs| - 1]))
    }

    /** Lines 28-46: cut a span from the page cache into objects and put it in front of the others. */
    method CutAndAttach(span: Span)
      requires Valid() && span !in free && span !in list.Nodes() && span.useCount == 0
      requires Acquired(pages.abs, i, span) && P.Usable(pages.abs, span, i)
      modifies this`free, mem, span`freeList, span`useCount, list`elems, list.Nodes()`next, list.Nodes()`prev,
          span`next, span`prev
      ensures pages.abs == old(pages.abs) && span in pages.abs.spans && span in free && |free[span]| > 0
      ensures var objs := P.Objs(pages.abs.spans[span], i);
        && NewInFront(span, old(list.elems), old(free), objs, old(mem.words)) &&
             (Valid() <==> LastIsZero(old(mem.words), objs))
        && list.elems == [span] + old(list.elems) && free == old(free)[span := objs]
      ensures OnlyChanged(old(mem.words), mem.words, P.Objs(pages.abs.spans[span], i))
    {
      hide CentralCache.Valid, Sound, NoDup, P.Total, BucketOk, P.Obj, P.Objs, Chain, P.Usable, OnlyChanged;
      var head;
      ghost var after;
      head, after := CarveSpan(span);
      AttachSpan(span, head, after);
      OnlyIfClean(span, after);
    }

    /** Lines 17-48: a new span, cut and put in front of the others. */
    method MakeSpan(base: nat) returns (span: Span)
      requires Valid() && SystemGivesFresh(base) && list.Nodes() !! pages.Idle()
      modifies this`free, mem, list`elems, list.Nodes()`next, list.Nodes()`prev, pages, pages.Lists()`elems,
          pages.Idle()
      ensures span in free && |free[span]| > 0 && (span in old(pages.Idle()) || fresh(span))
      ensures NewInFront(span, old(list.elems), old(free), old(NextObjects(base)), old(mem.words))
      ensures Valid() <==> old(FreshSpanIsClean(base))
      ensures OutsKept(old(Abs()), Abs(), i, old(mem.words), mem.words)
    {
      hide CentralCache.Valid, Sound, NoDup, P.Total, BucketOk, P.Obj, P.Objs, Chain, NewSpan, MarkInUse, FreshSpans,
           P.SpanPages;
      hide FreshPages, P.Usable, Acquired, NextPage, FirstFit, PageCache.Lists, PageCache.Idle, Took, PP.PagesMoved,
           OutsKept, OnlyChanged, CentralCache.NewInFront, LastIsZero;
      ghost var b, big, kid := Abs(), list.head, list.head;
      Kept();
      SpanPagesOk();
      span, big, kid := AcquireSpan(base);
      TookSpan(b, i, base, big, kid, span, pages.abs);
      TookUsable(b, i, base, big, kid, span, pages.abs);
      ghost var words := mem.words;
      CutAndAttach(span);
      MadeKeeps(b, i, base, big, kid, span, pages.abs, Abs(), words, mem.words);
    }

    lemma SpanPagesOk()
      requires Valid()
      ensures i < P.BUCKETS && 1 <= P.SpanPages(i) < NPAGES
    {
      hide PageCache.Valid, SpanList.Valid, P.SpanPages;
      P.PageCountOk(i);
    }

    /** GetOneSpan (CentralCache.cpp, lines 7-49): a span with a free object, found or newly made.  A new span is
        put in the bucket whatever the word of its last object is; its chain ends where that word leads, and only if
        it is null are the free lists of the bucket right afterwards. */
    method GetOneSpan(base: nat) returns (span: Span)
      requires Valid() && (NothingFree() ==> SystemGivesFresh(base))
      modifies this`free, mem, list`elems, list.head, pages, pages.Lists()`elems, pages.Links()
      ensures span in free && |free[span]| > 0 && (span in old(pages.Links()) || fresh(span))
      ensures !old(NothingFree()) ==> Abs() == old(Abs()) && mem.words == old(mem.words) && Valid()
      ensures !old(NothingFree()) ==> FirstSome(list.elems, free, span)
      ensures old(NothingFree()) ==>
        NewInFront(span, old(list.elems), old(free), old(NextObjects(base)), old(mem.words))
      ensures old(NothingFree()) ==> (Valid() <==> old(FreshSpanIsClean(base)))
      ensures OutsKept(old(Abs()), Abs(), i, old(mem.words), mem.words)
    {
      hide OutsKept, Gone;
      hide CentralCache.Valid, Sound, NoDup, P.Total, BucketOk, P.Obj, P.Objs, Chain, CentralCache.SystemGivesFresh,
           CentralCache.NextObjects, CentralCache.FreshSpanIsClean, CentralCache.NewInFront;
      KeptAlready(Abs(), i, mem.words);
      ValidBucket();
      InLinks();
      span := FindSpan();
      if span != list.head {
        return;
      }
      Busy();
      span := MakeSpan(base);
    }

    /** A chain that does not end in null is no free list. */
    lemma OnlyIfClean(span: Span, after: nat)
      requires span in free && |free[span]| > 0 && Chain(mem.words, span.freeList, free[span], after)
      ensures Valid() ==> after == 0
    {
      hide PageCache.Valid, SpanList.Valid, BucketOk;
      var n := |free[span]|;
      assert Link(mem.words, free[span], n - 1, after);
      if Valid() {
        assert ChainAt(span);
        assert Link(mem.words, free[span], n - 1, 0);
      }
    }

    /** FetchRangeObj (CentralCache.cpp, lines 51-81), without the locks: as many objects as asked for, or all there
        are, from the front of the free list of the first span that has any, or else of a new span; linked and
        closed by null, and now out. */
    method FetchRangeObj(batchNum: nat, base: nat)
        returns (start: nat, end: nat, actualNum: nat, ghost objs: seq<nat>, ghost from: Span)
      requires Valid() && batchNum >= 1 && (NothingFree() ==> FreshSpanIsClean(base))
      modifies this`free, mem, list`elems, list.head, pages, pages.Lists()`elems, pages.Links()
      ensures Valid() && 1 <= actualNum == |objs| <= batchNum && start == objs[0] && end == objs[actualNum - 1]
      ensures Chain(mem.words, start, objs, 0) && AllGone(Abs(), i, objs)
      ensures from in free && free == old(free)[from := free[from]] && forall a :: a in objs ==> From(Abs(), i, from, a)
      ensures !old(NothingFree()) ==>
        && pages.abs == old(pages.abs) && list.elems == old(list.elems)
        && FirstSome(old(list.elems), old(free), from) && old(free)[from] == objs + free[from]
        && actualNum == P.Min(batchNum, |old(free)[from]|)
      ensures old(NothingFree()) ==>
        && list.elems == [from] + old(list.elems) && from !in old(free) && old(NextObjects(base)) == objs + free[from]
        && actualNum == P.Min(batchNum, |old(NextObjects(base))|)
      ensures OutsKept(old(Abs()), Abs(), i, old(mem.words), mem.words)
      ensures forall x :: Gone(old(Abs()), i, x) ==> x !in objs
    {
      hide CentralCache.Valid, Sound, NoDup, P.Total, BucketOk, P.Obj, P.Objs, Chain, CentralCache.SystemGivesFresh,
           CentralCache.NextObjects, AllGone, Gone, From, FirstSome, OutsKept, CentralCache.NothingFree;
      ghost var b0, words0 := Abs(), mem.words;
      var span := GetOneSpan(base);
      ghost var b, words := Abs(), mem.words;
      ValidBucket();
      InLinks();
      start, end, actualNum := FetchFrom(span, batchNum);
      objs := b.free[span][..actualNum];
      BatchOut(b0, b, i, span, actualNum, words0, words, mem.words);
      assert Abs() == b.(free := b.free[span := b.free[span][actualNum..]]);
      from := span;
    }

    ghost predicate ChainedIn(words: map<nat, nat>)
      reads this, free.Keys
    {
      forall s :: s in free ==> Chain(words, s.freeList, free[s], 0) && s.useCount + |free[s]| == P.Total(i)
    }

    /** Nothing in the bucket depends on the word of an object that is out. */
    lemma Survives(x: nat, v: nat)
      requires Valid() && Gone(Abs(), i, x)
      ensures ChainedIn(mem.words[x := v])
    {
      hide BucketOk, P.Total, NoDup, Chain, PageCache.Valid, SpanList.Valid, P.Obj, Gone;
      GoneElsewhere(Abs(), i, x);
      forall s | s in free
        ensures Chain(mem.words[x := v], s.freeList, free[s], 0) && s.useCount + |free[s]| == P.Total(i)
      {
        assert ChainAt(s);
        ChainFrame(mem.words, mem.words[x := v], s.freeList, free[s], 0);
      }
    }

    /** The bucket apart from memory. */
    ghost predicate Framed()
      reads this, pages, list, pages.Lists(), pages.Links(), list.Nodes()
    {
      Separate() && pages.Valid() && list.Valid() && BucketOk(Abs(), i) && Rested()
    }

    lemma IsFramed()
      requires Valid()
      ensures Framed()
    {
      hide PageCache.Valid, SpanList.Valid, BucketOk;
    }

    lemma Whole()
      requires Framed() && ChainedIn(mem.words)
      ensures Valid()
    {
      hide PageCache.Valid, SpanList.Valid, BucketOk;
    }

    lemma Kept()
      requires Valid()
      ensures Separate()
    {
    }

    lemma Busy()
      requires Valid()
      ensures list.Nodes() !! pages.Idle()
    {
      hide Sound, NoDup, P.Total, BucketOk, PageCache.Apart, PageCache.ListAt, PageCache.InFrame, PageCache.Fields;
      ElemsInUse(Abs(), i);
      NodesBusy();
    }
  }

  lemma SpanBytes(page: nat, n: nat, i: nat)
    requires page >= 1 && n == P.SpanPages(i) && i < P.BUCKETS
    ensures page * P.PAGE > 0 && n * P.PAGE > 0
  {
    P.PageCountOk(i);
  }

  lemma NotThisSpan<S>(b: Bucket<S>, i: nat, s: S, r: S, x: nat)
    requires BucketOk(b, i) && s in b.pages.spans && s !in b.free && r in b.free && x in b.free[r]
    ensures x !in P.Objs(b.pages.spans[s], i)
  {
    hide Covers, Listed, Tagged, P.Total, NoDup, Complete;
    assert SpanOk(b, i, r);
    PP.ObjsFacts(b.pages.spans[s], i);
    if x in P.Objs(b.pages.spans[s], i) {
      PP.SpansMeetNowhere(b.pages, s, r, i, i, x);
    }
  }

  lemma NewBucketOk<S>(b: Bucket<S>, i: nat, s: S)
    requires BucketOk(b, i) && s !in b.free && s in b.pages.spans
    ensures P.Usable(b.pages, s, i) ==>
      && BucketOk(Bucket(b.pages, [s] + b.elems, b.free[s := P.Objs(b.pages.spans[s], i)]), i)
      && |P.Objs(b.pages.spans[s], i)| == P.Total(i)
  {
    hide Pages.Inv, P.Obj, P.Total, Complete;
    PP.ObjsFacts(b.pages.spans[s], i);
    if P.Usable(b.pages, s, i) {
      var n := Bucket(b.pages, [s] + b.elems, b.free[s := P.Objs(b.pages.spans[s], i)]);
      assert n.elems[0] == s;
      forall r | r in n.free ensures r in n.elems && SpanOk(n, i, r) {
        assert r != s ==> SpanOk(b, i, r);
      }
    }
  }

  /** A span in use of the right size for bucket i. */
  ghost predicate Acquired<S>(pages: Pages.State<S>, i: nat, s: S) {
    s in pages.spans && pages.spans[s].isUse && pages.spans[s].n == P.SpanPages(i) && pages.spans[s].page >= 1
  }

  /** `pages` is what NewSpan and marking its result `r` as used make of the page cache of `b`. */
  ghost predicate Took<S>(b: Bucket<S>, i: nat, base: nat, big: S, kid: S, r: S, pages: Pages.State<S>) {
    && BucketOk(b, i) && |b.pages.lists| == NPAGES && 1 <= P.SpanPages(i) < NPAGES
    && FreshSpans(b.pages, P.SpanPages(i), big, base, kid)
    && var (st, s) := NewSpan(b.pages, P.SpanPages(i), big, base, kid);
       s == r && r in st.spans && pages == MarkInUse(st, r)
  }

  /** What the new span is: of the right size, at the page NewSpan cuts from, nobody's before. */
  lemma TookSpan<S>(b: Bucket<S>, i: nat, base: nat, big: S, kid: S, r: S, pages: Pages.State<S>)
    requires Took(b, i, base, big, kid, r, pages)
    ensures Acquired(pages, i, r)
    ensures pages.spans[r] == Geo(NextPage(b.pages, P.SpanPages(i), base), P.SpanPages(i), true)
    ensures r !in b.free && (r in b.pages.spans ==> !b.pages.spans[r].isUse)
    ensures PP.PagesMoved(b.pages, pages, r) && Pages.Inv(pages)
  {
    hide Sound, NewSpan, FreshSpans, NoDup, P.Obj, P.Total, SpanOk, Covers, Listed, Tagged, SameTag;
    var k := P.SpanPages(i);
    NewSpanKeeps(b.pages, k, big, base, kid);
    NewSpanUse(b.pages, k, big, base, kid);
    NewSpanPage(b.pages, k, big, base, kid);
    ElemsInUse(b, i);
    PositivePage(pages, r);
  }

  lemma TookUsable<S>(b: Bucket<S>, i: nat, base: nat, big: S, kid: S, r: S, pages: Pages.State<S>)
    requires Took(b, i, base, big, kid, r, pages)
    ensures P.Usable(pages, r, i)
  {
    hide Sound, NewSpan, FreshSpans, NoDup, P.Obj, P.Total, SpanOk;
    TookSpan(b, i, base, big, kid, r, pages);
  }

  lemma TookKeeps<S>(b: Bucket<S>, i: nat, base: nat, big: S, kid: S, r: S, pages: Pages.State<S>)
    requires Took(b, i, base, big, kid, r, pages)
    ensures BucketOk(Bucket(pages, b.elems, b.free), i)
    ensures forall s :: s in pages.spans && !pages.spans[s].isUse ==> s !in b.pages.spans || !b.pages.spans[s].isUse
  {
    hide Sound, NewSpan, FreshSpans, NoDup, P.Obj, P.Total, SpanOk, Acquired;
    TookSpan(b, i, base, big, kid, r, pages);
    var n := Bucket(pages, b.elems, b.free);
    forall s | s in n.free ensures SpanOk(n, i, s) {
      KeptSpanOk(b, i, n, r, s);
    }
  }

  lemma PositivePage<S>(st: Pages.State<S>, s: S)
    requires Pages.Inv(st) && s in st.spans
    ensures st.spans[s].page >= 1
  {
    hide Covers, Listed, Tagged;
  }

  lemma KeptSpanOk<S>(b: Bucket<S>, i: nat, n: Bucket<S>, r: S, s: S)
    requires s in b.free && SpanOk(b, i, s) && n.free == b.free && s != r && PP.PagesMoved(b.pages, n.pages, r)
    ensures SpanOk(n, i, s)
  {
    hide PP.PagesMoved, P.Obj;
    PP.UsableKept(b.pages, n.pages, r, s, i);
  }

  lemma HeadIsNull(words: map<nat, nat>, p: nat, objs: seq<nat>)
    requires Chain(words, p, objs, 0)
    ensures p == 0 <==> |objs| == 0
  {
    assert |objs| > 0 ==> Link(words, objs, 0, 0);
  }

  lemma OthersRested<S>(st: Pages.State<S>, x: S)
    requires Pages.Inv(st) && x in st.spans && st.spans[x].isUse
    ensures Releasing(st, x)
    ensures forall s :: s in Release(st, x).spans && s != x ==> s in st.spans && Release(st, x).spans[s] == st.spans[s]
  {
    hide Sound, Release, InUseKept;
    ReleaseKeeps(st, x);
  }

  lemma ElemsInUse<S>(b: Bucket<S>, i: nat)
    requires BucketOk(b, i)
    ensures forall s :: s in b.elems ==> s in b.free && s in b.pages.spans && b.pages.spans[s].isUse
    ensures i < P.BUCKETS && NoDup(b.elems) && forall s :: s in b.free ==> s in b.elems
  {
    hide Pages.Inv, NoDup, P.Obj, Complete, P.Total;
    forall s | s in b.elems ensures s in b.free && s in b.pages.spans && b.pages.spans[s].isUse {
      assert SpanOk(b, i, s);
    }
  }

  lemma EraseBucketOk<S>(b: Bucket<S>, i: nat, s: S)
    requires BucketOk(b, i) && s in b.free
    ensures Releasing(b.pages, s) && BucketOk(Bucket(Release(b.pages, s), Without(b.elems, s), b.free - {s}), i)
  {
    hide Pages.Inv, P.Obj, P.Usable, P.Total, PP.PagesMoved, Release, SpanOk, Without, NoDup;
    ReleaseMoves(b, i, s);
    WithoutIn(b.elems, s);
    var n := Bucket(Release(b.pages, s), Without(b.elems, s), b.free - {s});
    forall r | r in n.free ensures SpanOk(n, i, r) {
      EraseSpanOk(b, i, s, n.pages, r);
    }
  }

  lemma ReleaseOneIs<S>(b: Bucket<S>, i: nat, a: nat)
    requires BucketOk(b, i) && Out(b, i, a)
    ensures a / P.PAGE in b.pages.tags && b.pages.tags[a / P.PAGE] in b.free
    ensures var s := b.pages.tags[a / P.PAGE];
      && |b.free[s]| + 1 <= P.Total(i)
      && (|b.free[s]| + 1 < P.Total(i) ==> ReleaseOne(b, i, a) == b.(free := b.free[s := [a] + b.free[s]]))
      && (|b.free[s]| + 1 == P.Total(i) ==>
            Releasing(b.pages, s) &&
            ReleaseOne(b, i, a) == Bucket(Release(b.pages, s), Without(b.elems, s), b.free - {s}))
  {
    hide BucketOk, P.Total, Release, Sound;
    OutSpan(b, i, a);
    OutMeansFewer(b, i, a);
    CanRelease(b, i, b.pages.tags[a / P.PAGE]);
  }

  /** Putting the object back and then taking the span out, if it is complete, is one turn of the release loop. */
  lemma TurnIs<S>(b: Bucket<S>, i: nat, a: nat, c: Bucket<S>, n: Bucket<S>)
    requires BucketOk(b, i) && Out(b, i, a) && a / P.PAGE in b.pages.tags && b.pages.tags[a / P.PAGE] in b.free
    requires var s := b.pages.tags[a / P.PAGE];
      && c == b.(free := b.free[s := [a] + b.free[s]]) && |c.free[s]| <= P.Total(i)
      && (|c.free[s]| < P.Total(i) ==> n == c)
      && (|c.free[s]| == P.Total(i) ==>
            Releasing(c.pages, s) && n == Bucket(Release(c.pages, s), Without(c.elems, s), c.free - {s}))
    ensures n == ReleaseOne(b, i, a)
  {
    hide BucketOk, Out, P.Total, Release, Without, Sound, ReleaseOne;
    ReleaseOneIs(b, i, a);
    var s := b.pages.tags[a / P.PAGE];
    assert c.free - {s} == b.free - {s};
  }

  lemma FirstOut<S>(b: Bucket<S>, i: nat, a: nat, rest: seq<nat>)
    requires AllOut(b, i, [a] + rest)
    ensures Out(b, i, a) && a !in rest && a / P.PAGE in b.pages.tags
  {
    hide NoDup;
    RestOfChain(a, rest);
    assert a in [a] + rest;
  }

  lemma NextInChain(words: map<nat, nat>, a: nat, rest: seq<nat>)
    requires Chain(words, a, [a] + rest, 0)
    ensures a != 0 && Chain(words, Word(words, a), rest, 0)
  {
    assert Link(words, [a] + rest, 0, 0);
    ChainSuffix(words, a, [a] + rest, 0, 1);
    assert ([a] + rest)[1..] == rest;
  }

  lemma OneLink(words: map<nat, nat>, a: nat)
    requires a != 0
    ensures Chain(words, a, [a], Word(words, a)) && NoDup([a])
  {
    assert Link(words, [a], 0, Word(words, a));
  }

  lemma PutOk<S>(b: Bucket<S>, i: nat, a: nat)
    requires BucketOk(b, i) && Out(b, i, a)
    ensures var s := b.pages.tags[a / P.PAGE]; BucketOk(b.(free := b.free[s := [a] + b.free[s]]), i)
  {
    hide Pages.Inv, P.Usable, P.Obj, P.Total, NoDup, SpanOk;
    var s := b.pages.tags[a / P.PAGE];
    OutSpan(b, i, a);
    var c := b.(free := b.free[s := [a] + b.free[s]]);
    forall r | r in c.free ensures SpanOk(c, i, r) {
      PutSpanOk(b, i, a, r);
    }
  }

  lemma PutSpanOk<S>(b: Bucket<S>, i: nat, a: nat, r: S)
    requires BucketOk(b, i) && Out(b, i, a) && r in b.free
    ensures var s := b.pages.tags[a / P.PAGE]; SpanOk(b.(free := b.free[s := [a] + b.free[s]]), i, r)
  {
    hide Pages.Inv, P.Usable, P.Obj, P.Total;
    OutMeansFewer(b, i, a);
    assert SpanOk(b, i, r);
  }

  lemma OnlyOwner<S>(b: Bucket<S>, i: nat, a: nat, s: S)
    requires BucketOk(b, i) && Out(b, i, a) && s in b.free && s != b.pages.tags[a / P.PAGE]
    ensures a !in b.free[s]
  {
    hide Covers, Listed, Tagged, P.Obj, P.Total, NoDup, Complete;
    assert SpanOk(b, i, s) && SpanOk(b, i, b.pages.tags[a / P.PAGE]);
    if a in b.free[s] {
      PP.SpansMeetNowhere(b.pages, s, b.pages.tags[a / P.PAGE], i, i, a);
    }
  }

  lemma ChainStart(words: map<nat, nat>, p: nat, objs: seq<nat>)
    requires Chain(words, p, objs, 0) && |objs| > 0
    ensures p == objs[0]
  {
  }

  lemma SpanInUse<S>(b: Bucket<S>, i: nat, s: S)
    requires BucketOk(b, i) && s in b.free
    ensures s in b.pages.spans && b.pages.spans[s].isUse && s in b.elems
  {
    hide Pages.Inv, NoDup, P.Obj, Complete;
    assert SpanOk(b, i, s);
  }

  lemma FetchKeeps<S>(b: Bucket<S>, i: nat, s: S, n: nat)
    requires BucketOk(b, i) && s in b.free && n <= |b.free[s]|
    ensures BucketOk(b.(free := b.free[s := b.free[s][n..]]), i)
  {
    hide Pages.Inv, P.Usable, P.Obj, P.Total;
    var c := b.(free := b.free[s := b.free[s][n..]]);
    forall r | r in c.free ensures SpanOk(c, i, r) {
      assert SpanOk(b, i, r);
    }
  }

  /** A batch cut off the front of a span's free list is out. */
  lemma FetchedGone<S>(b: Bucket<S>, i: nat, s: S, n: nat)
    requires BucketOk(b, i) && s in b.free && n <= |b.free[s]|
    ensures var c := b.(free := b.free[s := b.free[s][n..]]);
      AllGone(c, i, b.free[s][..n]) && forall a :: a in b.free[s][..n] ==> From(c, i, s, a)
  {
    hide Pages.Inv, P.Obj, P.Total;
    assert SpanOk(b, i, s);
    var objs := b.free[s];
    forall a | a in objs[..n] ensures From(b.(free := b.free[s := objs[n..]]), i, s, a) {
      assert a in objs;
      var k :| 0 <= k < n && objs[..n][k] == a;
      assert forall j :: n <= j < |objs| ==> objs[j] != objs[k];
    }
  }

  // ----- nothing is lost or made up by the release loop -----

  ghost predicate HomeIs<S>(b: Bucket<S>, a: nat, s: S) {
    a / P.PAGE in b.pages.tags && b.pages.tags[a / P.PAGE] == s
  }

  /** A span that stays has its own objects of the chain added to its free list, and nothing else. */
  ghost predicate Gained<S>(b: Bucket<S>, n: Bucket<S>, chain: seq<nat>, s: S)
    requires s in b.free && s in n.free
  {
    && s in b.pages.spans && s in n.pages.spans && b.pages.spans[s] == n.pages.spans[s]
    && (forall a :: a in n.free[s] ==> a in b.free[s] || (a in chain && HomeIs(b, a, s)))
    && (forall a :: a in b.free[s] ==> a in n.free[s])
    && (forall a :: a in chain && HomeIs(b, a, s) ==> a in n.free[s])
  }

  /** A span that goes has every one of its objects back: in its free list, or in the chain. */
  ghost predicate Emptied<S>(b: Bucket<S>, i: nat, chain: seq<nat>, s: S)
    requires s in b.free
  {
    s in b.pages.spans
    && forall a :: a in P.Objs(b.pages.spans[s], i) ==> a in b.free[s] || (a in chain && HomeIs(b, a, s))
  }

  ghost predicate Conserved<S>(b: Bucket<S>, n: Bucket<S>, i: nat, chain: seq<nat>) {
    && (forall s :: s in n.free ==> s in b.free && Gained(b, n, chain, s))
    && (forall s :: s in b.free && s !in n.free ==> Emptied(b, i, chain, s))
  }

  /** The tags of the objects still to be given back do not move. */
  ghost predicate SameHomes<S>(b: Bucket<S>, n: Bucket<S>, chain: seq<nat>) {
    forall a :: a in chain ==> a / P.PAGE in b.pages.tags && HomeIs(n, a, b.pages.tags[a / P.PAGE])
  }

  lemma PutConserves<S>(b: Bucket<S>, i: nat, a: nat, rest: seq<nat>)
    requires BucketOk(b, i) && AllOut(b, i, [a] + rest) && Out(b, i, a)
    requires |b.free[b.pages.tags[a / P.PAGE]]| + 1 < P.Total(i)
    ensures Conserved(b, ReleaseOne(b, i, a), i, [a]) && SameHomes(b, ReleaseOne(b, i, a), rest)
  {
    hide Pages.Inv, P.Obj, P.Total, NoDup, P.Objs;
    var n := ReleaseOne(b, i, a);
    forall s | s in n.free ensures s in b.free && Gained(b, n, [a], s) {
      assert SpanOk(b, i, s);
    }
    forall x | x in rest ensures x / P.PAGE in b.pages.tags {
      assert x in [a] + rest;
    }
  }

  lemma EraseConserves<S>(b: Bucket<S>, i: nat, a: nat, rest: seq<nat>)
    requires BucketOk(b, i) && AllOut(b, i, [a] + rest) && Out(b, i, a)
    requires |b.free[b.pages.tags[a / P.PAGE]]| + 1 >= P.Total(i)
    ensures Conserved(b, ReleaseOne(b, i, a), i, [a]) && SameHomes(b, ReleaseOne(b, i, a), rest)
  {
    hide Pages.Inv, P.Obj, P.Usable, P.Total, PP.PagesMoved, Release, SpanOk, Out, Without, NoDup, P.Objs;
    OutSpan(b, i, a);
    var s, n := b.pages.tags[a / P.PAGE], ReleaseOne(b, i, a);
    ReleaseMoves(b, i, s);
    forall r | r in n.free ensures r in b.free && Gained(b, n, [a], r) {
      EraseSpanOk(b, i, s, n.pages, r);
      SpanInUse(b, i, r);
      assert b.pages.tags[a / P.PAGE] != r;
    }
    AllBack(b, i, a);
    RestOfChain(a, rest);
    forall x | x in rest ensures x / P.PAGE in b.pages.tags && HomeIs(n, x, b.pages.tags[x / P.PAGE]) {
      assert x in [a] + rest && a in [a] + rest;
      LastBack(b, i, a, x);
      OutSpan(b, i, x);
      TagStays(b, i, s, n.pages, x);
    }
  }

  lemma TagStays<S>(b: Bucket<S>, i: nat, s: S, pages: Pages.State<S>, x: nat)
    requires Out(b, i, x) && b.pages.tags[x / P.PAGE] != s && SpanOk(b, i, b.pages.tags[x / P.PAGE])
    requires PP.PagesMoved(b.pages, pages, s)
    ensures x / P.PAGE in pages.tags && pages.tags[x / P.PAGE] == b.pages.tags[x / P.PAGE]
  {
    P.ObjPage(b.pages.spans[b.pages.tags[x / P.PAGE]], i, x);
    assert SameTag(b.pages.tags, pages.tags, x / P.PAGE);
  }

  /** When `a` is the last one back, every object of its span is in the free list or is `a`. */
  lemma AllBack<S>(b: Bucket<S>, i: nat, a: nat)
    requires BucketOk(b, i) && Out(b, i, a)
    requires |b.free[b.pages.tags[a / P.PAGE]]| + 1 >= P.Total(i)
    ensures b.pages.tags[a / P.PAGE] in b.free && Emptied(b, i, [a], b.pages.tags[a / P.PAGE])
  {
    hide Pages.Inv, P.Obj, P.Total, Complete;
    var s := b.pages.tags[a / P.PAGE];
    assert SpanOk(b, i, s);
    var g, objs := b.pages.spans[s], [a] + b.free[s];
    PP.ObjsFacts(g, i);
    assert NoDup(objs);
    OutMeansFewer(b, i, a);
    St.Pigeonhole(objs, P.Objs(g, i));
  }

  lemma ConservedTwice<S>(b: Bucket<S>, c: Bucket<S>, n: Bucket<S>, i: nat, a: nat, rest: seq<nat>)
    requires Conserved(b, c, i, [a]) && Conserved(c, n, i, rest) && SameHomes(b, c, rest)
    ensures Conserved(b, n, i, [a] + rest)
  {
    hide P.Objs;
    forall s | s in n.free ensures s in b.free && Gained(b, n, [a] + rest, s) {
      assert s in c.free && Gained(b, c, [a], s) && Gained(c, n, rest, s);
    }
    forall s | s in b.free && s !in n.free ensures Emptied(b, i, [a] + rest, s) {
      if s in c.free {
        assert Gained(b, c, [a], s) && Emptied(c, i, rest, s);
      } else {
        assert Emptied(b, i, [a], s);
      }
    }
  }

  /** The release loop as a whole: every object given back is in its own span's free list afterwards, no free
      list gains anything else, and a span leaves the bucket only with every one of its objects back. */
  lemma {:induction false} ReleaseAllConserves<S>(b: Bucket<S>, i: nat, chain: seq<nat>)
    requires BucketOk(b, i) && AllOut(b, i, chain)
    ensures Conserved(b, ReleaseAll(b, i, chain), i, chain)
    decreases |chain|
  {
    hide BucketOk, AllOut, Out, ReleaseOne, Conserved, SameHomes, P.Total;
    if |chain| == 0 {
      NothingGained(b, i);
      assert chain == [];
    } else {
      var a, rest := chain[0], chain[1..];
      assert [a] + rest == chain;
      ReleaseOneKeeps(b, i, a, rest);
      var c := ReleaseOne(b, i, a);
      OutSpan(b, i, a);
      if |b.free[b.pages.tags[a / P.PAGE]]| + 1 < P.Total(i) {
        PutConserves(b, i, a, rest);
      } else {
        EraseConserves(b, i, a, rest);
      }
      ReleaseAllConserves(c, i, rest);
      ConservedTwice(b, c, ReleaseAll(c, i, rest), i, a, rest);
    }
  }

  lemma NothingGained<S>(b: Bucket<S>, i: nat)
    requires BucketOk(b, i)
    ensures Conserved(b, b, i, [])
  {
    hide Pages.Inv, P.Obj, P.Total, NoDup, P.Objs;
    forall s | s in b.free ensures Gained(b, b, [], s) {
      assert SpanOk(b, i, s);
    }
  }

  /** Taking a batch from a span and giving it back, when the page map leads back to the span, undoes itself: every
      span still in the bucket has the free objects it had before, and one that has gone had all of its objects free
      before. */
  lemma FetchThenRelease<S>(b: Bucket<S>, i: nat, s: S, k: nat)
    requires BucketOk(b, i) && s in b.free && k <= |b.free[s]|
    requires forall a :: a in b.free[s][..k] ==> P.Found(b.pages, a)
    ensures var c, chain := b.(free := b.free[s := b.free[s][k..]]), b.free[s][..k];
      && BucketOk(c, i) && AllOut(c, i, chain)
      && var n := ReleaseAll(c, i, chain);
         && (forall r :: r in n.free ==> r in b.free && forall a :: a in n.free[r] <==> a in b.free[r])
         && (forall r :: r in b.free && r !in n.free ==>
               r in b.pages.spans && forall a :: a in P.Objs(b.pages.spans[r], i) ==> a in b.free[r])
  {
    hide BucketOk, Out, Gone, From, P.Objs, P.Found;
    FetchKeeps(b, i, s, k);
    FetchedGone(b, i, s, k);
    var c, chain := b.(free := b.free[s := b.free[s][k..]]), b.free[s][..k];
    forall a | a in chain ensures Out(c, i, a) {
      FoundIsOut(c, i, a);
    }
    ReleaseAllConserves(c, i, chain);
    var n := ReleaseAll(c, i, chain);
    FromSpan(c, i, s, chain);
    assert b.free[s] == chain + c.free[s];
    forall r | r in n.free ensures r in b.free && forall a :: a in n.free[r] <==> a in b.free[r] {
      assert Gained(c, n, chain, r);
    }
    forall r | r in b.free && r !in n.free
      ensures r in b.pages.spans && forall a :: a in P.Objs(b.pages.spans[r], i) ==> a in b.free[r]
    {
      assert Emptied(c, i, chain, r);
    }
  }

  lemma FromSpan<S>(b: Bucket<S>, i: nat, s: S, chain: seq<nat>)
    requires BucketOk(b, i) && (forall a :: a in chain ==> From(b, i, s, a) && Out(b, i, a))
    ensures forall a :: a in chain ==> HomeIs(b, a, s)
  {
    hide Covers, Listed, Tagged, NoDup, P.Obj, P.Total, SpanOk;
    forall a | a in chain ensures HomeIs(b, a, s) {
      P.ObjPage(b.pages.spans[s], i, a);
      P.ObjPage(b.pages.spans[b.pages.tags[a / P.PAGE]], i, a);
    }
  }

  // ----- objects that are out are left alone -----

  /** Every object that was out is still out, and its word is as it was. */
  ghost predicate OutsKept<S>(b: Bucket<S>, n: Bucket<S>, i: nat, v: map<nat, nat>, w: map<nat, nat>) {
    forall x :: Gone(b, i, x) ==> Gone(n, i, x) && Word(w, x) == Word(v, x)
  }

  lemma KeptAlready<S>(b: Bucket<S>, i: nat, w: map<nat, nat>)
    ensures OutsKept(b, b, i, w, w)
  {
  }

  lemma KeptTwice<S>(b: Bucket<S>, c: Bucket<S>, n: Bucket<S>, i: nat, u: map<nat, nat>, v: map<nat, nat>,
      w: map<nat, nat>)
    requires OutsKept(b, c, i, u, v) && OutsKept(c, n, i, v, w)
    ensures OutsKept(b, n, i, u, w)
  {
  }

  /** A batch taken off the front of span `s`, after whatever has led from `b0` to `b`. */
  lemma BatchOut<S>(b0: Bucket<S>, b: Bucket<S>, i: nat, s: S, n: nat, u: map<nat, nat>, v: map<nat, nat>,
      w: map<nat, nat>)
    requires BucketOk(b, i) && s in b.free && 1 <= n <= |b.free[s]| && OutsKept(b0, b, i, u, v)
    requires w == v[b.free[s][n - 1] := 0]
    ensures var c, objs := b.(free := b.free[s := b.free[s][n..]]), b.free[s][..n];
      && AllGone(c, i, objs) && (forall a :: a in objs ==> From(c, i, s, a)) && OutsKept(b0, c, i, u, w)
      && b.free[s] == objs + b.free[s][n..] && forall x :: Gone(b0, i, x) ==> x !in objs
  {
    hide BucketOk, Gone, AllGone, From;
    FetchedGone(b, i, s, n);
    FetchKeepsOuts(b, i, s, n, v);
    KeptTwice(b0, b, b.(free := b.free[s := b.free[s][n..]]), i, u, v, w);
  }

  /** The page cache moving other spans does not matter to an object that is out. */
  lemma GoneMoved<S>(b: Bucket<S>, i: nat, r: S, pages: Pages.State<S>, x: nat)
    requires BucketOk(b, i) && PP.PagesMoved(b.pages, pages, r) && r !in b.free && Gone(b, i, x)
    ensures Gone(Bucket(pages, b.elems, b.free), i, x)
  {
    hide Pages.Inv, P.Obj, P.Total, NoDup, SameTag;
    var s :| s in b.free && From(b, i, s, x);
    assert SpanOk(b, i, s);
    assert From(Bucket(pages, b.elems, b.free), i, s, x);
  }

  /** An object that is out is in no free list, and lies in no span but its own. */
  lemma GoneElsewhere<S>(b: Bucket<S>, i: nat, x: nat)
    requires BucketOk(b, i) && Gone(b, i, x)
    ensures forall r :: r in b.free ==> x !in b.free[r]
    ensures forall r :: r in b.pages.spans && r !in b.free ==> x !in P.Objs(b.pages.spans[r], i)
  {
    hide Covers, Listed, Tagged, P.Total, NoDup, P.Obj, P.Objs;
    var s :| s in b.free && From(b, i, s, x);
    forall r | r in b.free ensures x !in b.free[r] {
      assert SpanOk(b, i, r);
      if x in b.free[r] {
        PP.SpansMeetNowhere(b.pages, s, r, i, i, x);
      }
    }
    forall r | r in b.pages.spans && r !in b.free ensures x !in P.Objs(b.pages.spans[r], i) {
      PP.ObjsFacts(b.pages.spans[r], i);
      if x in P.Objs(b.pages.spans[r], i) {
        PP.SpansMeetNowhere(b.pages, s, r, i, i, x);
      }
    }
  }

  /** Taking a new span, cutting it and putting it in the bucket. */
  lemma MadeKeeps<S>(b: Bucket<S>, i: nat, base: nat, big: S, kid: S, r: S, pages: Pages.State<S>, n: Bucket<S>,
                     v: map<nat, nat>, w: map<nat, nat>)
    requires Took(b, i, base, big, kid, r, pages) && r in pages.spans
    requires n == Bucket(pages, [r] + b.elems, b.free[r := P.Objs(pages.spans[r], i)])
    requires OnlyChanged(v, w, P.Objs(pages.spans[r], i))
    ensures OutsKept(b, n, i, v, w)
  {
    hide Took, Gone, PP.PagesMoved, P.Objs, Acquired, BucketOk;
    TookSpan(b, i, base, big, kid, r, pages);
    TookKeeps(b, i, base, big, kid, r, pages);
    TookBucket(b, i, base, big, kid, r, pages);
    var c := Bucket(pages, b.elems, b.free);
    forall x | Gone(b, i, x) ensures Gone(n, i, x) && Word(w, x) == Word(v, x) {
      GoneMoved(b, i, r, pages, x);
      GoneElsewhere(c, i, x);
      GoneAttached(c, i, r, P.Objs(pages.spans[r], i), x);
    }
  }

  lemma TookBucket<S>(b: Bucket<S>, i: nat, base: nat, big: S, kid: S, r: S, pages: Pages.State<S>)
    requires Took(b, i, base, big, kid, r, pages)
    ensures BucketOk(b, i)
  {
  }

  lemma GoneAttached<S>(b: Bucket<S>, i: nat, r: S, objs: seq<nat>, x: nat)
    requires Gone(b, i, x) && r !in b.free
    ensures Gone(Bucket(b.pages, [r] + b.elems, b.free[r := objs]), i, x)
  {
    var s :| s in b.free && From(b, i, s, x);
    assert From(Bucket(b.pages, [r] + b.elems, b.free[r := objs]), i, s, x);
  }

  /** Fetching a batch touches none of the objects that were out before. */
  lemma FetchKeepsOuts<S>(b: Bucket<S>, i: nat, s: S, n: nat, v: map<nat, nat>)
    requires BucketOk(b, i) && s in b.free && 1 <= n <= |b.free[s]|
    ensures OutsKept(b, b.(free := b.free[s := b.free[s][n..]]), i, v, v[b.free[s][n - 1] := 0])
    ensures forall x :: Gone(b, i, x) ==> x !in b.free[s][..n]
  {
    hide BucketOk, P.Obj;
    var c := b.(free := b.free[s := b.free[s][n..]]);
    forall x | Gone(b, i, x) ensures Gone(c, i, x) && x !in b.free[s] {
      GoneElsewhere(b, i, x);
      var r :| r in b.free && From(b, i, r, x);
      assert From(c, i, r, x);
    }
    assert b.free[s][n - 1] in b.free[s];
  }

  /** Releasing a chain leaves the objects out that are not in it. */
  lemma {:induction false} ReleaseKeepsOut<S>(b: Bucket<S>, i: nat, chain: seq<nat>, x: nat)
    requires BucketOk(b, i) && AllOut(b, i, chain) && Gone(b, i, x) && x !in chain
    ensures Gone(ReleaseAll(b, i, chain), i, x)
    decreases |chain|
  {
    hide BucketOk, Out, Gone, ReleaseOne, P.Total;
    if |chain| > 0 {
      var a, rest := chain[0], chain[1..];
      assert [a] + rest == chain;
      ReleaseOneKeeps(b, i, a, rest);
      OneKeepsOut(b, i, a, x);
      ReleaseKeepsOut(ReleaseOne(b, i, a), i, rest, x);
    }
  }

  lemma OneKeepsOut<S>(b: Bucket<S>, i: nat, a: nat, x: nat)
    requires BucketOk(b, i) && Out(b, i, a) && Gone(b, i, x) && x != a
    ensures Gone(ReleaseOne(b, i, a), i, x)
  {
    hide Pages.Inv, P.Obj, P.Total, P.Objs, NoDup, SameTag, Release, Sound, Without, Out;
    ReleaseOneIs(b, i, a);
    var s, r, n := b.pages.tags[a / P.PAGE], SpanOf(b, i, x), ReleaseOne(b, i, a);
    assert SpanOk(b, i, r);
    if |b.free[s]| + 1 >= P.Total(i) {
      AllBack(b, i, a);
      PP.ObjsFacts(b.pages.spans[s], i);
      ReleaseMoves(b, i, s);
      assert r != s;
    }
    assert From(n, i, r, x);
  }

  ghost function SpanOf<S>(b: Bucket<S>, i: nat, x: nat): (s: S)
    requires Gone(b, i, x)
    ensures From(b, i, s, x)
  {
    var s :| s in b.free && From(b, i, s, x);
    s
  }
}
