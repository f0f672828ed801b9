/** When the memory of two objects of the pool overlaps. */
module Overlap {
  import opened Pages
  import opened Stores
  import opened Pools
  import SC = SizeClass
  import Ch = Chains

  /** Spans of bucket i are cut without an object running over the end. */
  predicate Fits(i: nat) { SpanPages(i) * PAGE % Size(i) == 0 }

  /** The buckets up to 512 bytes and those above 64K fit; the 528-byte bucket does not. */
  lemma WhichFit(i: nat)
    requires i < BUCKETS
    ensures Size(i) <= 512 || Size(i) > 64 * 1024 ==> Fits(i)
    ensures Size(i) == 528 ==> !Fits(i)
  {
    hide SC.NumMovePage;
    if Size(i) <= 512 {
      SC.SmallClassesFit(Size(i));
      SC.MultipleOfLaw(512, Size(i));
    } else if Size(i) > 64 * 1024 {
      SC.LargeClassesFit(Size(i));
      SC.MultipleOfLaw(SC.NumMoveSize(Size(i)), Size(i));
    } else if Size(i) == 528 {
      SC.ClassThatDoesNotFit();
    }
  }

  // ----- how far an object can run over -----

  lemma LessTimes(k: nat, n: nat, size: nat)
    requires k * size < n * size
    ensures k < n && (k + 1) * size <= n * size
  {
    assert k >= n ==> k * size >= n * size;
    var d := n - k;
    assert n * size == k * size + d * size && (k + 1) * size == k * size + size;
    assert d >= 1 ==> d * size >= size;
  }

  /** An object of a bucket that fits ends inside its span; of any other it ends less than a page behind it. */
  lemma ObjectEnds(g: Geo, i: nat, a: nat)
    requires i < BUCKETS && g.n == SpanPages(i) && Obj(g, i, a)
    ensures a + Size(i) < (g.page + g.n + 1) * PAGE
    ensures Fits(i) ==> a + Size(i) <= (g.page + g.n) * PAGE
  {
    hide SC.NumMoveSize, SC.NumMovePage, Size, SpanPages;
    SizesAre(i);
    var base, size := g.page * PAGE, Size(i);
    SC.BatchFillsPages(size);
    var k := (a - base) / size;
    Quotient(a - base, size);
    LessTimes(k, SC.NumMoveSize(size), size);
    if Fits(i) {
      PageCountOk(i);
      Ch.ObjectsFit(base, g.n * PAGE, size);
    }
  }

  lemma Quotient(x: nat, size: nat)
    requires size > 0 && x % size == 0
    ensures x == x / size * size && x + size == (x / size + 1) * size
  {
    SC.DivideLaw(x, size);
    SC.ModIs(x, size, x / size, x % size);
    assert (x / size + 1) * size == x / size * size + size;
  }

  lemma SizesAre(i: nat)
    requires i < BUCKETS
    ensures 8 <= Size(i) <= SC.MAX_BYTES && SpanPages(i) == SC.NumMovePage(Size(i))
  {
    SC.BucketsOnto(i);
  }

  /** A bucket that does not fit: some object runs into whatever lies behind the span. */
  lemma SomeRunsOver(g: Geo, i: nat) returns (a: nat)
    requires i < BUCKETS && g.n == SpanPages(i) && !Fits(i)
    ensures Obj(g, i, a) && a + Size(i) > (g.page + g.n) * PAGE
  {
    hide Size, SpanPages, Ch.ObjectAt;
    a := Ch.LastRunsOver(g.page * PAGE, g.n * PAGE, Size(i));
  }

  lemma FirstObject(g: Geo, i: nat)
    requires g.n > 0
    ensures Obj(g, i, g.page * PAGE)
  {
  }

  // ----- two objects of a pool -----

  /** Span r begins where span s ends. */
  predicate Behind<S>(m: Pool<S>, s: S, r: S) {
    && s in m.carved && r in m.carved && s in m.pages.spans && r in m.pages.spans
    && m.pages.spans[r].page == m.pages.spans[s].page + m.pages.spans[s].n
  }

  ghost predicate Clear<S>(m: Pool<S>, a: nat, b: nat) {
    a in m.owner && b in m.owner && m.owner[a] in m.carved && m.owner[b] in m.carved
    && Ch.Apart(a, Size(m.carved[m.owner[a]].cls), b, Size(m.carved[m.owner[b]].cls))
  }

  /** What is known about the object a: its span and its bucket. */
  lemma OwnerFacts<S>(m: Pool<S>, a: nat)
    requires Good(m) && a in m.owner
    ensures var s := m.owner[a];
      && s in m.carved && s in m.pages.spans && m.carved[s].cls < BUCKETS
      && m.pages.spans[s].n == SpanPages(m.carved[s].cls) && Obj(m.pages.spans[s], m.carved[s].cls, a)
  {
    hide Pages.Inv, Arranged, Domain, Counts, Roles, Threads, Locks, PlaceFits, Obj, SpanPages;
    assert OwnerOk(m, a);
    assert Usable(m.pages, m.owner[a], m.carved[m.owner[a]].cls);
  }

  lemma SpanOrder<S>(pages: Pages.State<S>, s: S, r: S)
    requires Pages.Inv(pages) && s in pages.spans && r in pages.spans && s != r
    ensures var (g, h) := (pages.spans[s], pages.spans[r]); g.page + g.n <= h.page || h.page + h.n <= g.page
  {
    hide Covers, Listed, Tagged;
  }

  /** Two objects of different spans overlap only if one span does not fit and the other one is right behind it. */
  lemma ApartUnlessBehind<S>(m: Pool<S>, a: nat, b: nat)
    requires Good(m) && a in m.owner && b in m.owner && m.owner[a] != m.owner[b]
    requires Behind(m, m.owner[a], m.owner[b]) ==> m.owner[a] in m.carved && Fits(m.carved[m.owner[a]].cls)
    requires Behind(m, m.owner[b], m.owner[a]) ==> m.owner[b] in m.carved && Fits(m.carved[m.owner[b]].cls)
    ensures Clear(m, a, b)
  {
    hide Good, Size, SpanPages, Fits;
    OwnerFacts(m, a);
    OwnerFacts(m, b);
    GoodPages(m);
    var s, r := m.owner[a], m.owner[b];
    SpanOrder(m.pages, s, r);
    var (g, h) := (m.pages.spans[s], m.pages.spans[r]);
    if g.page + g.n <= h.page {
      OneBefore(g, m.carved[s].cls, a, h, m.carved[r].cls, b);
    } else {
      OneBefore(h, m.carved[r].cls, b, g, m.carved[s].cls, a);
    }
  }

  lemma GoodPages<S>(m: Pool<S>)
    requires Good(m)
    ensures Pages.Inv(m.pages)
  {
    hide Pages.Inv, Arranged, Domain, Spans, Counts, Roles, Threads, Owners, Locks;
  }

  lemma OneBefore(g: Geo, i: nat, a: nat, h: Geo, j: nat, b: nat)
    requires i < BUCKETS && g.n == SpanPages(i) && Obj(g, i, a) && Obj(h, j, b) && g.page + g.n <= h.page
    requires h.page == g.page + g.n ==> Fits(i)
    ensures a + Size(i) <= b
  {
    hide Size, SpanPages, Fits;
    ObjectEnds(g, i, a);
    assert h.page > g.page + g.n ==> h.page >= g.page + g.n + 1;
    PagesUp(g.page + g.n, h.page);
  }

  lemma PagesUp(p: nat, q: nat)
    requires p <= q
    ensures p * PAGE <= q * PAGE && (p < q ==> (p + 1) * PAGE <= q * PAGE)
  {
  }

  /** A span that does not fit, with another one right behind it: two objects overlap. */
  lemma BehindOverlaps<S>(m: Pool<S>, s: S, r: S) returns (a: nat, b: nat)
    requires Good(m) && Behind(m, s, r) && !Fits(m.carved[s].cls)
    ensures a in m.owner && b in m.owner && m.owner[a] == s && m.owner[b] == r && s != r && a != b && !Clear(m, a, b)
  {
    hide Pages.Inv, Arranged, Domain, Counts, Roles, Threads, Locks, OwnerOk, Obj, Size, SpanPages, Fits;
    var (g, h) := (m.pages.spans[s], m.pages.spans[r]);
    var i, j := m.carved[s].cls, m.carved[r].cls;
    assert Usable(m.pages, s, i) && Usable(m.pages, r, j);
    PageCountOk(i);
    PageCountOk(j);
    a := SomeRunsOver(g, i);
    b := h.page * PAGE;
    FirstObject(h, j);
    ObjPage(g, i, a);
    ObjectBefore(g, i, a);
  }

  lemma ObjectBefore(g: Geo, i: nat, a: nat)
    requires Obj(g, i, a)
    ensures a < (g.page + g.n) * PAGE
  {
  }

  /** No two objects of the pool overlap exactly if every span that does not fit has no other span of objects right
      behind it.  Nothing in the pool sees to that. */
  lemma ObjectsApartExactly<S>(m: Pool<S>)
    requires Good(m)
    ensures (forall a, b :: a in m.owner && b in m.owner && a != b ==> Clear(m, a, b)) <==>
      (forall s, r :: Behind(m, s, r) ==> Fits(m.carved[s].cls))
  {
    hide Good, Fits, Clear;
    if forall a, b :: a in m.owner && b in m.owner && a != b ==> Clear(m, a, b) {
      forall s, r | Behind(m, s, r) ensures Fits(m.carved[s].cls) {
        if !Fits(m.carved[s].cls) {
          var a, b := BehindOverlaps(m, s, r);
        }
      }
    }
    if forall s, r :: Behind(m, s, r) ==> Fits(m.carved[s].cls) {
      forall a, b | a in m.owner && b in m.owner && a != b ensures Clear(m, a, b) {
        if m.owner[a] == m.owner[b] {
          SameSpan(m, a, b);
        } else {
          ApartUnlessBehind(m, a, b);
        }
      }
    }
  }

  lemma SameSpan<S>(m: Pool<S>, a: nat, b: nat)
    requires Good(m) && a in m.owner && b in m.owner && a != b && m.owner[a] == m.owner[b]
    ensures Clear(m, a, b)
  {
    hide Good, Size, SpanPages;
    OwnerFacts(m, a);
    OwnerFacts(m, b);
    var s := m.owner[a];
    var (g, i) := (m.pages.spans[s], m.carved[s].cls);
    Ch.ObjectsApart(g.page * PAGE, g.n * PAGE, Size(i), a, b);
  }

  /** So objects of buckets that fit never overlap, wherever they are: with callers, cached or in flight. */
  lemma FittingObjectsApart<S>(m: Pool<S>, a: nat, b: nat)
    requires Good(m) && a in m.owner && b in m.owner && a != b
    requires m.owner[a] in m.carved && Fits(m.carved[m.owner[a]].cls)
    requires m.owner[b] in m.carved && Fits(m.carved[m.owner[b]].cls)
    ensures Clear(m, a, b)
  {
    hide Good, Fits, Clear;
    if m.owner[a] == m.owner[b] {
      SameSpan(m, a, b);
    } else {
      ApartUnlessBehind(m, a, b);
    }
  }
}
