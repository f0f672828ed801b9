/** The page cache on real span records, lists and a page map.  Each method is tied to the
    function of module Pages that says what it does to the abstract state. */
module PageCaches {
  import opened Pages
  import opened Spans

  const PAGE_SHIFT: nat := 12
  const PAGE_SIZE: nat := 4096

  class PageCache {
    const spanLists: seq<SpanList>
    var idSpanMap: map<nat, Span>
    ghost var abs: State<Span>

    ghost function Lists(): set<SpanList> { set l | l in spanLists }

    ghost function Links(): set<Span>
      reads this
    {
      (set l | l in spanLists :: l.head) + abs.spans.Keys
    }

    /** The nodes the page cache may relink: sentinels and free spans. */
    ghost function Idle(): set<Span>
      reads this
    {
      (set l | l in spanLists :: l.head) + (set s | s in abs.spans && !abs.spans[s].isUse)
    }

    /** The lists, their sentinels and their members are all separate. */
    ghost predicate Apart()
      reads this
    {
      && |spanLists| == |abs.lists| == NPAGES
      && (forall i, j :: 0 <= i < j < NPAGES ==> spanLists[i] != spanLists[j] && spanLists[i].head != spanLists[j].head)
      && (forall i :: 0 <= i < NPAGES ==> spanLists[i].head !in abs.spans)
      && (forall i, s :: 0 <= i < NPAGES && s in abs.lists[i] ==> s in abs.spans)
      && (forall i, j, s :: 0 <= i < NPAGES && 0 <= j < NPAGES && s in abs.lists[i] && s in abs.lists[j] ==> i == j)
    }

    ghost predicate ListAt(i: nat)
      requires i < |spanLists| && i < |abs.lists|
      reads this, spanLists[i], spanLists[i].Nodes()`next, spanLists[i].Nodes()`prev
    {
      spanLists[i].elems == abs.lists[i] && spanLists[i].Valid()
    }

    ghost predicate Fields()
      reads this, abs.spans.Keys`pageId, abs.spans.Keys`n, abs.spans.Keys`isUse
    {
      forall s :: s in abs.spans ==> abs.spans[s] == Geo(s.pageId, s.n, s.isUse)
    }

    /** `abs` describes the records, the rings and the map. */
    ghost predicate Shape()
      reads this, Lists(), Links()`next, Links()`prev, abs.spans.Keys`pageId, abs.spans.Keys`n, abs.spans.Keys`isUse
    {
      && Apart() && Fields() && idSpanMap == abs.tags
      && forall i :: 0 <= i < NPAGES ==> InFrame(i) && ListAt(i)
    }

    ghost predicate InFrame(i: nat)
      requires i < |spanLists|
      reads this, Lists()
    {
      spanLists[i] in Lists() && spanLists[i].Nodes() <= Links()
    }

    ghost predicate Valid()
      reads this, Lists(), Links()`next, Links()`prev, abs.spans.Keys`pageId, abs.spans.Keys`n, abs.spans.Keys`isUse
    {
      Shape() && Inv(abs)
    }

    lemma NodesIdle(i: nat)
      requires Shape() && Resting(abs) && i < NPAGES
      ensures i < |spanLists| && i < |abs.lists| && InFrame(i) && ListAt(i) && spanLists[i].Nodes() <= Idle()
    {
      assert InFrame(i) && ListAt(i);
    }

    /** `spanLists[i].PushFront(s)` */
    method ListPush(i: nat, s: Span)
      requires Shape() && i < NPAGES && s in abs.spans
      requires Resting(abs) && forall j :: 0 <= j < NPAGES ==> s !in abs.lists[j]
      modifies this`abs, Lists()`elems, Idle()`next, Idle()`prev, s`next, s`prev
      ensures Shape() && abs == PushFront(old(abs), i, s)
    {
      hide Resting, NoDup, SpanList.Valid;
      NodesIdle(i);
      ghost var st := PushFront(abs, i, s);
      forall j, t | 0 <= j < NPAGES && t in st.lists[j] ensures t in abs.lists[j] || (j == i && t == s) {
        assert j != i ==> st.lists[j] == abs.lists[j];
      }
      spanLists[i].PushFront(s);
      abs := st;
      forall j | 0 <= j < NPAGES ensures InFrame(j) && ListAt(j) {
        assert old(InFrame(j) && ListAt(j));
        assert j != i ==> old(spanLists[j].Nodes()) !! old(spanLists[i].Nodes());
      }
    }

    lemma OnlyFewer(i: nat, s: Span)
      requires Shape() && i < NPAGES && s in abs.lists[i]
      ensures forall j, t :: 0 <= j < NPAGES && t in abs.lists[i := Without(abs.lists[i], s)][j] ==> t in abs.lists[j]
    {
      assert ListAt(i);
      forall j, t | 0 <= j < NPAGES && t in abs.lists[i := Without(abs.lists[i], s)][j] ensures t in abs.lists[j] {
        StillListed(abs.lists, i, s, j, t);
      }
    }

    /** `spanLists[i].Erase(s)` */
    method ListErase(i: nat, s: Span)
      requires Shape() && i < NPAGES && s in abs.lists[i] && Resting(abs)
      modifies this`abs, Lists()`elems, Idle()`next, Idle()`prev
      ensures Shape() && abs == old(abs).(lists := old(abs).lists[i := Without(old(abs).lists[i], s)])
    {
      hide Resting, NoDup, SpanList.Valid;
      NodesIdle(i);
      OnlyFewer(i, s);
      spanLists[i].Erase(s);
      abs := abs.(lists := abs.lists[i := Without(abs.lists[i], s)]);
      forall j | 0 <= j < NPAGES ensures InFrame(j) && ListAt(j) {
        assert old(InFrame(j) && ListAt(j));
        assert j != i ==> old(spanLists[j].Nodes()) !! old(spanLists[i].Nodes());
      }
    }

    /** `spanLists[i].PopFront()` */
    method ListPop(i: nat) returns (s: Span)
      requires Shape() && i < NPAGES && |abs.lists[i]| > 0 && Resting(abs)
      modifies this`abs, Lists()`elems, Idle()`next, Idle()`prev
      ensures Shape() && s == old(abs).lists[i][0] && abs == PopFront(old(abs), i)
    {
      hide Resting, NoDup, SpanList.Valid;
      NodesIdle(i);
      s := spanLists[i].PopFront();
      abs := PopFront(abs, i);
      forall j | 0 <= j < NPAGES ensures InFrame(j) && ListAt(j) {
        assert old(InFrame(j) && ListAt(j));
        assert j != i ==> old(spanLists[j].Nodes()) !! old(spanLists[i].Nodes());
      }
    }

    constructor ()
      ensures Valid() && abs == Empty() && fresh(Lists()) && fresh(Links())
    {
      var ls: seq<SpanList> := [];
      while |ls| < NPAGES
        invariant |ls| <= NPAGES
        invariant forall i :: 0 <= i < |ls| ==> fresh(ls[i]) && fresh(ls[i].head) && ls[i].Valid() && ls[i].elems == []
        invariant forall i, j :: 0 <= i < j < |ls| ==> ls[i] != ls[j] && ls[i].head != ls[j].head
      {
        var l := new SpanList();
        ls := ls + [l];
      }
      spanLists := ls;
      idSpanMap := map[];
      abs := Empty();
      new;
      EmptyIsSound<Span>();
    }

    /** The span a page's entry leads to; PageCache.cpp, lines 50-59, asserts that there is one. */
    method MapObjectToSpan(obj: nat) returns (s: Span?)
      requires Valid()
      ensures s == if obj / PAGE_SIZE in abs.tags then abs.tags[obj / PAGE_SIZE] else null
    {
      var id := obj / PAGE_SIZE;
      if id in idSpanMap {
        s := idSpanMap[id];
      } else {
        s := null;
      }
    }

    /** Ask whether `spanLists[i]` is empty. */
    method ListEmpty(i: nat) returns (b: bool)
      requires Shape() && i < NPAGES
      ensures Shape() && (b <==> |abs.lists[i]| == 0)
    {
      assert InFrame(i) && ListAt(i);
      b := spanLists[i].Empty();
    }

    /** `new Span` with its page range filled in. */
    method Make(page: nat, n: nat) returns (s: Span)
      requires Shape()
      modifies this`abs
      ensures Shape() && fresh(s) && abs == old(abs).(spans := old(abs).spans[s := Geo(page, n, false)])
      ensures s.useCount == 0
    {
      s := new Span();
      s.pageId := page;
      s.n := n;
      assert s !in abs.spans;
      abs := abs.(spans := abs.spans[s := Geo(page, n, false)]);
      forall j | 0 <= j < NPAGES ensures InFrame(j) && ListAt(j) {
        assert old(InFrame(j) && ListAt(j));
      }
    }

    /** Assign the page range of a live span. */
    method Resize(s: Span, page: nat, n: nat)
      requires Shape() && s in abs.spans
      modifies this`abs, s`pageId, s`n
      ensures Shape() && abs == old(abs).(spans := old(abs).spans[s := Geo(page, n, old(abs).spans[s].isUse)])
    {
      s.pageId := page;
      s.n := n;
      abs := abs.(spans := abs.spans[s := Geo(page, n, s.isUse)]);
      forall j | 0 <= j < NPAGES ensures InFrame(j) && ListAt(j) {
        assert old(InFrame(j) && ListAt(j));
      }
    }

    /** Assign `_isUse` of a live span. */
    method SetUse(s: Span, use: bool)
      requires Shape() && s in abs.spans
      modifies this`abs, s`isUse
      ensures Shape() && abs == old(abs).(spans := old(abs).spans[s := old(abs).spans[s].(isUse := use)])
    {
      s.isUse := use;
      abs := abs.(spans := abs.spans[s := abs.spans[s].(isUse := use)]);
      forall j | 0 <= j < NPAGES ensures InFrame(j) && ListAt(j) {
        assert old(InFrame(j) && ListAt(j));
      }
    }

    /** Assign the fields the page cache does not look at. */
    method SetObjects(s: Span, head: nat, count: nat)
      requires Shape()
      modifies s`freeList, s`useCount
      ensures Shape() && s.freeList == head && s.useCount == count
    {
      s.freeList := head;
      s.useCount := count;
      forall j | 0 <= j < NPAGES ensures InFrame(j) && ListAt(j) {
        assert old(InFrame(j) && ListAt(j));
      }
    }

    /** Null the links of a span that hangs on none of the page cache's lists. */
    method ClearLinks(s: Span)
      requires Shape() && s !in Idle() && Resting(abs)
      modifies s`next, s`prev
      ensures Shape()
    {
      s.next := null;
      s.prev := null;
      forall j | 0 <= j < NPAGES ensures InFrame(j) && ListAt(j) {
        assert old(InFrame(j) && ListAt(j));
        NotANode(j, s);
      }
    }

    lemma NotANode(j: nat, s: Span)
      requires Apart() && Resting(abs) && j < NPAGES && spanLists[j].elems == abs.lists[j] && s !in Idle()
      ensures s !in spanLists[j].Nodes()
    {
    }

    /** `_idSpanMap[p] = s` */
    method MapPage(p: nat, s: Span)
      requires Shape()
      modifies this`abs, this`idSpanMap
      ensures Shape() && abs == old(abs).(tags := old(abs).tags[p := s])
    {
      idSpanMap := idSpanMap[p := s];
      abs := abs.(tags := idSpanMap);
      forall j | 0 <= j < NPAGES ensures InFrame(j) && ListAt(j) {
        assert old(InFrame(j) && ListAt(j));
      }
    }

    /** Map pages lo .. lo+k-1 to `s`. */
    method MapRange(lo: nat, k: nat, s: Span)
      requires Shape()
      modifies this`abs, this`idSpanMap
      ensures Shape() && abs == old(abs).(tags := TagAll(old(abs).tags, lo, k, s))
    {
      ghost var st := abs;
      TagNone(st.tags, lo, s);
      for i := 0 to k
        invariant Shape() && abs == st.(tags := TagAll(st.tags, lo, i, s))
      {
        TagOneMore(st.tags, lo, i, s);
        MapPage(lo + i, s);
      }
    }

    /** The records of the cut: a new span for the head, the rest back on the list of its new size. */
    method CutRecords(nSpan: Span, page: nat, n: nat, k: nat) returns (kSpan: Span)
      requires Shape() && nSpan in abs.spans && 0 < k < n < NPAGES
      requires nSpan.pageId == page && nSpan.n == n
      requires Resting(abs) && !abs.spans[nSpan].isUse && forall j :: 0 <= j < NPAGES ==> nSpan !in abs.lists[j]
      modifies this`abs, Lists()`elems, Idle()`next, Idle()`prev, nSpan`pageId, nSpan`n
      ensures Shape() && kSpan !in old(abs).spans && fresh(kSpan) && kSpan.useCount == 0
      ensures abs == old(abs).(spans := abs.spans, lists := old(abs).lists[n - k := [nSpan] + old(abs).lists[n - k]])
      ensures abs.spans ==
        old(abs).spans[nSpan := Geo(page + k, n - k, old(abs).spans[nSpan].isUse)][kSpan := Geo(page, k, false)]
    {
      kSpan := Make(page, k);
      hide Apart, ListAt, InFrame, Fields;
      Resize(nSpan, page + k, n - k);
      ListPush(n - k, nSpan);
    }

    lemma FieldsOf(s: Span)
      requires Shape() && s in abs.spans
      ensures abs.spans[s] == Geo(s.pageId, s.n, s.isUse) && |spanLists| == |abs.lists| == NPAGES
    {
      hide Apart, ListAt, InFrame;
      assert |spanLists| == |abs.lists| == NPAGES by { Sizes(); }
    }

    lemma Sizes()
      requires Shape()
      ensures |spanLists| == |abs.lists| == NPAGES
    {
    }

    /** Cut k pages off the head of `nSpan`, which has just been popped (PageCache.cpp, lines 15-35). */
    method Cut(nSpan: Span, k: nat) returns (kSpan: Span)
      requires Shape() && nSpan in abs.spans && 0 < k < abs.spans[nSpan].n < NPAGES
      requires Resting(abs) && !abs.spans[nSpan].isUse && forall j :: 0 <= j < NPAGES ==> nSpan !in abs.lists[j]
      modifies this`abs, this`idSpanMap, Lists()`elems, Idle()`next, Idle()`prev, nSpan`pageId, nSpan`n
      ensures Shape() && kSpan !in old(abs).spans && fresh(kSpan) && kSpan.useCount == 0
      ensures abs == Split(old(abs), nSpan, k, kSpan)
    {
      hide Shape, Split, TagAll;
      FieldsOf(nSpan);
      var page, n := nSpan.pageId, nSpan.n;
      kSpan := CutRecords(nSpan, page, n, k);
      SplitIs(old(abs), nSpan, k, kSpan);
      MapPage(page + k, nSpan);
      MapPage(page + k + (n - k) - 1, nSpan);
      MapRange(page, k, kSpan);
    }

    ghost method Own(base: nat)
      requires Shape()
      modifies this`abs
      ensures Shape() && abs == old(abs).(owned := old(abs).owned + PagesOf(Geo(base, NPAGES - 1, false)))
    {
      abs := abs.(owned := abs.owned + PagesOf(Geo(base, NPAGES - 1, false)));
      forall j | 0 <= j < NPAGES ensures InFrame(j) && ListAt(j) {
        assert old(InFrame(j) && ListAt(j));
      }
    }

    /** Get 128 more pages, starting at page `base`, from the system (PageCache.cpp, lines 41-46). */
    method Grow(base: nat) returns (bigSpan: Span)
      requires Valid() && FreshPages(abs.owned, base)
      modifies this`abs, Lists()`elems, Idle()`next, Idle()`prev
      ensures Valid() && fresh(bigSpan) && bigSpan.useCount == 0 && bigSpan !in old(abs).spans
      ensures abs == Refill(old(abs), bigSpan, base)
    {
      Unlisted(abs);
      bigSpan := Make(base, NPAGES - 1);
      Own(base);
      ListPush(NPAGES - 1, bigSpan);
      RefillKeeps(old(abs), bigSpan, base);
      hide Sound, Apart, ListAt, InFrame, Fields;
    }

    /** Pop a span off list `i`, the first that is not empty, and cut k pages off it. */
    method PopAndCut(k: nat, i: nat) returns (span: Span)
      requires Valid() && 1 <= k < i < NPAGES && |abs.lists[i]| > 0
      requires forall m :: k <= m < i ==> |abs.lists[m]| == 0
      modifies this, Lists()`elems, Idle()`next, Idle()`prev, Idle()`pageId, Idle()`n
      ensures Shape() && span !in old(abs).spans && fresh(span) && span.useCount == 0
      ensures FirstFit(old(abs).lists, k) == i && (abs, span) == Take(old(abs), k, span)
      ensures forall s :: s in abs.spans ==> s in old(abs).spans || s == span
    {
      ghost var st := abs;
      FitsAt(st.lists, k, i);
      PopKeeps(st, i);
      var nSpan := ListPop(i);
      NotListed(abs, nSpan);
      span := Cut(nSpan, k);
      hide Sound, Shape;
    }

    /** PageCache.cpp, lines 5-48.  `base` is the page the system would return.  `big` and `kid` are the
        span records the call allocated, where it did. */
    method NewSpan(k: nat, base: nat) returns (span: Span, ghost big: Span, ghost kid: Span)
      requires Valid() && 1 <= k < NPAGES
      requires FirstFit(abs.lists, k) == NPAGES ==> FreshPages(abs.owned, base)
      modifies this, Lists()`elems, Idle()`next, Idle()`prev, Idle()`pageId, Idle()`n
      ensures Shape() && FreshSpans(old(abs), k, big, base, kid)
      ensures (abs, span) == Pages.NewSpan(old(abs), k, big, base, kid)
      ensures forall s :: s in abs.spans && s !in old(abs).spans ==> fresh(s) && s.useCount == 0
      decreases FirstFit(abs.lists, k)
    {
      hide Sound, FreshPages, Apart, ListAt, InFrame, Fields, Split;
      Sized(abs);
      SoundRests(abs, {}, {});
      ghost var st := abs;
      var e := ListEmpty(k);
      if !e {
        span := ListPop(k);
        big, kid := span, span;
        return;
      }
      var i := k + 1;
      while i < NPAGES
        invariant k < i <= NPAGES && Valid() && abs == st
        invariant forall m :: k <= m < i ==> |st.lists[m]| == 0
      {
        e := ListEmpty(i);
        if !e {
          span := PopAndCut(k, i);
          big, kid := span, span;
          return;
        }
        i := i + 1;
      }
      assert FirstFit(st.lists, k) == NPAGES;
      big := Grow(base);
      RefillFits(st, k, big, base);
      ghost var b;
      span, b, kid := NewSpan(k, base);
    }

    /** The critical section of CentralCache.cpp, lines 23-26: NewSpan, then mark the span as in use. */
    method Acquire(k: nat, base: nat) returns (span: Span, ghost big: Span, ghost kid: Span)
      requires Valid() && 1 <= k < NPAGES
      requires FirstFit(abs.lists, k) == NPAGES ==> FreshPages(abs.owned, base)
      modifies this, Lists()`elems, Idle()`next, Idle()`prev, Idle()`pageId, Idle()`n, Idle()`isUse
      ensures Valid() && FreshSpans(old(abs), k, big, base, kid)
      ensures var (st, r) := Pages.NewSpan(old(abs), k, big, base, kid);
        span == r && span in st.spans && abs == MarkInUse(st, span)
      ensures forall s :: s in abs.spans && s !in old(abs).spans ==> fresh(s) && s.useCount == 0
    {
      hide Sound, Apart, ListAt, InFrame, Fields, Pages.NewSpan;
      Sized(abs);
      span, big, kid := NewSpan(k, base);
      NewSpanKeeps(old(abs), k, big, base, kid);
      NewSpanUse(old(abs), k, big, base, kid);
      SetUse(span, true);
    }

    /** `delete s` */
    ghost method Forget(s: Span)
      requires Shape() && forall j :: 0 <= j < NPAGES ==> s !in abs.lists[j]
      modifies this`abs
      ensures Shape() && abs == old(abs).(spans := old(abs).spans - {s})
    {
      abs := abs.(spans := abs.spans - {s});
      forall j | 0 <= j < NPAGES ensures InFrame(j) && ListAt(j) {
        assert old(InFrame(j) && ListAt(j));
      }
    }

    method SwallowRecords(span: Span, y: Span, page: nat)
      requires Shape() && span in abs.spans && y in abs.spans && span != y
      requires Listed(abs.spans, abs.lists, {}) && abs.spans[y].n < NPAGES && y in abs.lists[abs.spans[y].n]
      modifies this`abs, span`pageId, span`n, Lists()`elems, Idle()`next, Idle()`prev
      ensures Shape() && forall j :: 0 <= j < NPAGES ==> y !in abs.lists[j]
      ensures var st, m := old(abs), old(abs).spans[y].n;
        abs == State(st.spans[span := Geo(page, st.spans[span].n + m, st.spans[span].isUse)],
                     st.lists[m := Without(st.lists[m], y)], st.tags, st.owned)
    {
      hide Listed, Apart, ListAt, InFrame, Fields, Without;
      ErasedEverywhere(abs, y);
      ListedRests(abs, {});
      FieldsOf(span);
      FieldsOf(y);
      var m := y.n;
      Resize(span, page, span.n + y.n);
      ListErase(m, y);
    }

    /** The shared tail of both merging loops: grow `span` to cover `y`, take `y` off its list, delete it. */
    method Swallow(span: Span, y: Span, page: nat)
      requires Shape() && Mergeable(abs, span, y, page)
      modifies this`abs, span`pageId, span`n, Lists()`elems, Idle()`next, Idle()`prev
      ensures Shape() && abs == Absorb(old(abs), span, y, page)
    {
      hide Mergeable, Shape, Absorb, Without, Listed;
      MergeableFacts(abs, span, y, page);
      AbsorbIs(abs, span, y, page);
      SwallowRecords(span, y, page);
      Forget(y);
    }

    /** One turn of the backward loop (PageCache.cpp, lines 64-89); false when the loop breaks. */
    method TryBack(span: Span) returns (merged: bool)
      requires Shape() && Releasing(abs, span)
      modifies this`abs, span`pageId, span`n, Lists()`elems, Idle()`next, Idle()`prev
      ensures Shape() && Releasing(abs, span)
      ensures merged ==> CanBack(old(abs), span) && abs == BackOnce(old(abs), span)
      ensures !merged ==> !CanBack(abs, span) && abs == old(abs)
      ensures Idle() <= old(Idle())
    {
      hide Sound, CanBack, BackOnce, Mergeable, Absorb, Apart, ListAt, InFrame, Merged;
      BackFacts(abs, span);
      var prevId: nat := span.pageId - 1;
      if prevId !in idSpanMap {
        return false;
      }
      var prevSpan := idSpanMap[prevId];
      if prevSpan.isUse {
        return false;
      }
      if span.n + prevSpan.n > NPAGES - 1 {
        return false;
      }
      Swallow(span, prevSpan, prevSpan.pageId);
      MergedIdle(old(abs), abs, span);
      merged := true;
    }

    /** One turn of the forward loop (PageCache.cpp, lines 93-117). */
    method TryForward(span: Span) returns (merged: bool)
      requires Shape() && Releasing(abs, span)
      modifies this`abs, span`pageId, span`n, Lists()`elems, Idle()`next, Idle()`prev
      ensures Shape() && Releasing(abs, span)
      ensures merged ==> CanForward(old(abs), span) && abs == ForwardOnce(old(abs), span)
      ensures !merged ==> !CanForward(abs, span) && abs == old(abs)
      ensures Idle() <= old(Idle())
    {
      hide Sound, CanForward, ForwardOnce, Mergeable, Absorb, Apart, ListAt, InFrame, Merged;
      ForwardFacts(abs, span);
      var postId := span.pageId + span.n;
      if postId !in idSpanMap {
        return false;
      }
      var postSpan := idSpanMap[postId];
      if postSpan.isUse {
        return false;
      }
      if span.n + postSpan.n > NPAGES - 1 {
        return false;
      }
      Swallow(span, postSpan, span.pageId);
      MergedIdle(old(abs), abs, span);
      merged := true;
    }

    /** The loop of PageCache.cpp, lines 63-90. */
    method BackLoop(span: Span)
      requires Shape() && Releasing(abs, span)
      modifies this`abs, span`pageId, span`n, Lists()`elems, Idle()`next, Idle()`prev
      ensures Shape() && Releasing(abs, span) && abs == MergeBack(old(abs), span)
      ensures abs.spans.Keys <= old(abs).spans.Keys && Idle() <= old(Idle())
    {
      hide Sound, Shape, CanBack, BackOnce;
      var merged := true;
      while merged
        invariant Shape() && Releasing(abs, span) && abs.spans.Keys <= old(abs).spans.Keys && Idle() <= old(Idle())
        invariant MergeBack(abs, span) == MergeBack(old(abs), span)
        invariant merged || !CanBack(abs, span)
        decreases merged, |abs.spans|
      {
        merged := TryBack(span);
      }
    }

    /** The loop of PageCache.cpp, lines 92-118. */
    method ForwardLoop(span: Span)
      requires Shape() && Releasing(abs, span)
      modifies this`abs, span`pageId, span`n, Lists()`elems, Idle()`next, Idle()`prev
      ensures Shape() && Releasing(abs, span) && abs == MergeForward(old(abs), span)
      ensures abs.spans.Keys <= old(abs).spans.Keys && Idle() <= old(Idle())
    {
      hide Sound, Shape, CanForward, ForwardOnce;
      var merged := true;
      while merged
        invariant Shape() && Releasing(abs, span) && abs.spans.Keys <= old(abs).spans.Keys && Idle() <= old(Idle())
        invariant MergeForward(abs, span) == MergeForward(old(abs), span)
        invariant merged || !CanForward(abs, span)
        decreases merged, |abs.spans|
      {
        merged := TryForward(span);
      }
    }

    /** PageCache.cpp, lines 119-122. */
    method FinishRelease(span: Span)
      requires Shape() && Releasing(abs, span)
      modifies this, span`isUse, span`next, span`prev, Lists()`elems, Idle()`next, Idle()`prev
      ensures Shape() && abs == Finish(old(abs), span)
    {
      hide Sound, Apart, ListAt, InFrame, Fields;
      ReleasingUnlisted(abs, span);
      SoundRests(abs, {}, {span});
      FieldsOf(span);
      Basics(abs, span);
      var page, n := span.pageId, span.n;
      ListPush(n, span);
      SetUse(span, false);
      MapPage(page, span);
      MapPage(page + n - 1, span);
    }

    /** PageCache.cpp, lines 61-123. */
    method ReleaseSpanToPageCache(span: Span)
      requires Valid() && span in abs.spans && abs.spans[span].isUse
      modifies this, Lists()`elems, Idle()`next, Idle()`prev
      modifies span`pageId, span`n, span`isUse, span`next, span`prev
      ensures Releasing(old(abs), span)
      ensures Valid() && abs == Release(old(abs), span)
      ensures abs.spans.Keys <= old(abs).spans.Keys
    {
      hide Sound, Shape, MergeBack, MergeForward, Finish, CanBack, CanForward;
      StartRelease(abs, span);
      ReleaseKeeps(abs, span);
      BackLoop(span);
      ForwardLoop(span);
      FinishRelease(span);
    }
  }

  lemma MergedIdle<S>(a: State<S>, b: State<S>, x: S)
    requires Merged(a, b, x) && Releasing(b, x)
    ensures forall s :: s in b.spans && !b.spans[s].isUse ==> s in a.spans && !a.spans[s].isUse
  {
    hide Sound;
  }

  /** Everything on a list is a live span that is not in use. */
  ghost predicate Resting<S>(st: State<S>) {
    forall i, s :: 0 <= i < |st.lists| && s in st.lists[i] ==> s in st.spans && !st.spans[s].isUse
  }

  lemma ListedRests<S>(st: State<S>, loose: set<S>)
    requires Listed(st.spans, st.lists, loose)
    ensures Resting(st)
  {
    hide NoDup;
  }

  lemma SoundRests<S>(st: State<S>, loose: set<S>, moving: set<S>)
    requires Sound(st, loose, moving)
    ensures Resting(st)
  {
    hide Disjoint, Covers, Tagged, NoDup;
  }

  lemma ReleasingUnlisted<S>(st: State<S>, x: S)
    requires Releasing(st, x)
    ensures forall j :: 0 <= j < NPAGES ==> x !in st.lists[j]
  {
    hide Disjoint, Covers, Tagged;
  }

  lemma BackFacts<S>(st: State<S>, x: S)
    requires Releasing(st, x)
    ensures x in st.spans && 1 <= st.spans[x].page
    ensures var at: nat := st.spans[x].page - 1;
      if at !in st.tags then !CanBack(st, x)
      else
        var y := st.tags[at];
        && y in st.spans && y != x
        && (CanBack(st, x) <==> !st.spans[y].isUse && st.spans[x].n + st.spans[y].n <= NPAGES - 1)
        && |st.lists| == NPAGES && st.spans[y].n < NPAGES
        && (CanBack(st, x) ==>
              Mergeable(st, x, y, st.spans[y].page) && BackOnce(st, x) == Absorb(st, x, y, st.spans[y].page))
  {
    hide Sound, Merged, Absorb;
    Basics(st, x);
    if (st.spans[x].page - 1) as nat in st.tags {
      BackNeighbour(st, x);
    }
  }

  lemma ForwardFacts<S>(st: State<S>, x: S)
    requires Releasing(st, x)
    ensures x in st.spans
    ensures var at := st.spans[x].page + st.spans[x].n;
      if at !in st.tags then !CanForward(st, x)
      else
        var y := st.tags[at];
        && y in st.spans && y != x
        && (CanForward(st, x) <==> !st.spans[y].isUse && st.spans[x].n + st.spans[y].n <= NPAGES - 1)
        && |st.lists| == NPAGES && st.spans[y].n < NPAGES
        && (CanForward(st, x) ==>
              Mergeable(st, x, y, st.spans[x].page) && ForwardOnce(st, x) == Absorb(st, x, y, st.spans[x].page))
  {
    hide Sound, Merged, Absorb;
    Basics(st, x);
    if st.spans[x].page + st.spans[x].n in st.tags {
      ForwardNeighbour(st, x);
    }
  }

  lemma AbsorbIs<S>(st: State<S>, x: S, y: S, page: nat)
    requires x in st.spans && y in st.spans && x != y && |st.lists| == NPAGES && st.spans[y].n < NPAGES
    ensures var m := st.spans[y].n;
      Absorb(st, x, y, page) == State(
        st.spans[x := Geo(page, st.spans[x].n + m, st.spans[x].isUse)] - {y},
        st.lists[m := Without(st.lists[m], y)], st.tags, st.owned)
  {
    var g := Geo(page, st.spans[x].n + st.spans[y].n, st.spans[x].isUse);
    assert (st.spans - {y})[x := g] == st.spans[x := g] - {y};
  }

  lemma MergeableFacts<S>(st: State<S>, x: S, y: S, page: nat)
    requires Mergeable(st, x, y, page)
    ensures Listed(st.spans, st.lists, {})
    ensures x in st.spans && y in st.spans && x != y && |st.lists| == NPAGES
    ensures 1 <= st.spans[y].n < NPAGES && y in st.lists[st.spans[y].n]
  {
  }

  /** Once erased from the list of its page count, a span hangs on no list at all. */
  lemma ErasedEverywhere<S>(st: State<S>, y: S)
    requires Listed(st.spans, st.lists, {}) && y in st.spans && st.spans[y].n < NPAGES
    ensures var m := st.spans[y].n;
      var lists := st.lists[m := Without(st.lists[m], y)];
      forall j :: 0 <= j < NPAGES ==> y !in lists[j]
  {
    var m := st.spans[y].n;
    var lists := st.lists[m := Without(st.lists[m], y)];
    forall j | 0 <= j < NPAGES ensures y !in lists[j] {
      if y in lists[j] {
        StillListed(st.lists, m, y, j, y);
      }
    }
  }

  lemma FitsAt<S>(lists: seq<seq<S>>, k: nat, i: nat)
    requires k < i < NPAGES == |lists| && |lists[i]| > 0
    requires forall m :: k <= m < i ==> |lists[m]| == 0
    ensures FirstFit(lists, k) == i && FirstFit(lists, k + 1) == i
  {
  }

  lemma Unlisted<S>(st: State<S>)
    requires Inv(st)
    ensures forall j, s :: 0 <= j < NPAGES && s in st.lists[j] ==> s in st.spans
  {
    hide Disjoint, Covers, Tagged;
  }

  lemma NotListed<S>(st: State<S>, s: S)
    requires Sound(st, {s}, {})
    ensures forall j :: 0 <= j < NPAGES ==> s !in st.lists[j]
  {
    hide Disjoint, Covers, Tagged;
  }

  lemma SplitIs<S>(st: State<S>, s: S, k: nat, kid: S)
    requires s in st.spans && 0 < k < st.spans[s].n < NPAGES == |st.lists|
    ensures var g := st.spans[s];
      var m := g.n - k;
      Split(st, s, k, kid) == State(
        st.spans[s := Geo(g.page + k, m, g.isUse)][kid := Geo(g.page, k, false)],
        st.lists[m := [s] + st.lists[m]],
        TagAll(st.tags[g.page + k := s][g.page + k + m - 1 := s], g.page, k, kid),
        st.owned)
  {
  }

  lemma TagOneMore<S>(tags: map<nat, S>, lo: nat, i: nat, s: S)
    ensures TagAll(tags, lo, i + 1, s) == TagAll(tags, lo, i, s)[lo + i := s]
  {
    assert Geo(lo, i + 1, false).Has(lo + i);
  }

  lemma TagNone<S>(tags: map<nat, S>, lo: nat, s: S)
    ensures TagAll(tags, lo, 0, s) == tags
  {
  }
}
