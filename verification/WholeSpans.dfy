/** The largest bucket: its spans are 128 pages, taken whole, and their pages are not entered in the page map. */
module WholeSpans {
  import opened Pages
  import opened Pools
  import SC = SizeClass

  const LARGEST: nat := BUCKETS - 1

  /** Only the bucket of 256K objects asks for 128 pages. */
  lemma OnlyLargestTakesWhole(i: nat)
    requires i < BUCKETS
    ensures SpanPages(i) == NPAGES - 1 <==> i == LARGEST
  {
    hide SC.NumMoveSize, SC.NumMovePage, Size;
    SizesBelow(i);
    if i == LARGEST {
      TwoOfThem(Size(i));
    } else {
      LessThanTwice(Size(i));
      SC.BatchFillsPages(Size(i));
    }
  }

  lemma SizesBelow(i: nat)
    requires i < BUCKETS
    ensures if i == LARGEST then Size(i) == SC.MAX_BYTES else 8 <= Size(i) <= SC.MAX_BYTES - 8192
    ensures SpanPages(i) == SC.NumMovePage(Size(i))
  {
  }

  lemma TwoOfThem(size: nat)
    requires size == SC.MAX_BYTES
    ensures SC.NumMoveSize(size) == 2 && SC.NumMovePage(size) == NPAGES - 1
  {
  }

  lemma LessThanTwice(size: nat)
    requires 8 <= size <= SC.MAX_BYTES - 8192
    ensures SC.NumMoveSize(size) * size < 2 * SC.MAX_BYTES - 8192
  {
    SC.DivideLaw(SC.MAX_BYTES, size);
    var q := SC.MAX_BYTES / size;
    assert q > 512 ==> 512 * size <= q * size;
  }

  /** When the page cache has to obtain the pages, the span it returns has no entry for the page of any of its
      objects, so the release loop, which looks the page up to find the span an object came from, finds none. */
  lemma LargestNotFound<S>(m: Pool<S>, big: S, base: nat, kid: S, a: nat)
    requires Good(m) && |m.pages.lists| == NPAGES && FirstFit(m.pages.lists, NPAGES - 1) == NPAGES
    requires Pages.Inv(m.pages) && FreshSpans(m.pages, NPAGES - 1, big, base, kid)
    requires Obj(Geo(base, NPAGES - 1, true), LARGEST, a)
    ensures var (st, r) := NewSpan(m.pages, NPAGES - 1, big, base, kid);
      && r in st.spans && MarkInUse(st, r).spans[r] == Geo(base, NPAGES - 1, true)
      && a / PAGE !in MarkInUse(st, r).tags && !Found(MarkInUse(st, r), a)
  {
    hide Good, Sound, NewSpan, FreshSpans, Obj;
    WholeSpanUnmapped(m.pages, big, base, kid);
    ObjPage(Geo(base, NPAGES - 1, true), LARGEST, a);
  }
}
