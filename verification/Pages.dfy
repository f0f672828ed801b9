/** The page cache on values: which spans are alive, which free list each one hangs on,
    and the map from page numbers to spans.  `S` stands for the address of a span record. */
module Pages {

  const NPAGES: nat := 129

  /** The fields of a span record that the page cache looks at. */
  datatype Geo = Geo(page: nat, n: nat, isUse: bool) {
    predicate Has(p: nat) { page <= p < page + n }
    function Last(): int { page + n - 1 }
  }

  /** `tags` is the page map; it may still name spans that were deleted.
      `owned` is the set of pages obtained from the system so far. */
  datatype State<S(==)> = State(spans: map<S, Geo>, lists: seq<seq<S>>, tags: map<nat, S>, owned: set<nat>)

  ghost function Empty<S>(): State<S> {
    State(map[], seq(NPAGES, _ => []), map[], {})
  }

  // ----- the invariant -----

  ghost predicate NoDup<S>(xs: seq<S>) {
    forall i, j :: 0 <= i < j < |xs| ==> xs[i] != xs[j]
  }

  /** Ranges are 1..128 pages long, never contain page 0, and do not overlap. */
  ghost predicate Disjoint<S>(spans: map<S, Geo>) {
    && (forall s :: s in spans ==> 1 <= spans[s].n < NPAGES && 1 <= spans[s].page)
    && (forall s, t :: s in spans && t in spans && s != t ==>
          spans[s].page + spans[s].n <= spans[t].page || spans[t].page + spans[t].n <= spans[s].page)
  }

  ghost predicate Inside<S>(spans: map<S, Geo>, owned: set<nat>) {
    forall s, p :: s in spans && spans[s].Has(p) ==> p in owned
  }

  ghost predicate Held<S>(spans: map<S, Geo>, p: nat) {
    exists s :: s in spans && spans[s].Has(p)
  }

  /** The spans cover exactly the pages obtained from the system. */
  ghost predicate Covers<S>(spans: map<S, Geo>, owned: set<nat>) {
    Inside(spans, owned) && forall p :: p in owned ==> Held(spans, p)
  }

  lemma Holds<S>(spans: map<S, Geo>, s: S, p: nat)
    requires s in spans && spans[s].Has(p)
    ensures Held(spans, p)
  {
  }

  /** Every free span that is not in `loose` is on the list of its page count, once, and on no other list. */
  ghost predicate Listed<S>(spans: map<S, Geo>, lists: seq<seq<S>>, loose: set<S>) {
    && |lists| == NPAGES
    && (forall i :: 0 <= i < NPAGES ==> NoDup(lists[i]))
    && (forall i, s :: 0 <= i < NPAGES && s in lists[i] ==>
          s in spans && spans[s].n == i && !spans[s].isUse && s !in loose)
    && (forall s :: s in spans && !spans[s].isUse && s !in loose ==> spans[s].n < NPAGES && s in lists[spans[s].n])
  }

  ghost predicate Untagged(tags: set<nat>, g: Geo) {
    forall p :: g.Has(p) ==> p !in tags
  }

  /** First and last page name the span itself; only a whole 128-page span may instead have no entry at all. */
  ghost predicate Tagged<S>(tags: map<nat, S>, s: S, g: Geo) {
    || (g.page in tags && tags[g.page] == s && g.Last() in tags && tags[g.Last()] == s)
    || (g.n == NPAGES - 1 && Untagged(tags.Keys, g))
  }

  /** Every page of the span names the span. */
  ghost predicate Complete<S>(tags: map<nat, S>, s: S, g: Geo) {
    forall p :: g.Has(p) ==> p in tags && tags[p] == s
  }

  /** `loose`: free spans that hang on no list.  `moving`: spans whose tags are being changed. */
  ghost predicate Sound<S>(st: State<S>, loose: set<S>, moving: set<S>) {
    && Disjoint(st.spans)
    && Covers(st.spans, st.owned)
    && Listed(st.spans, st.lists, loose)
    && st.tags.Keys <= st.owned
    && (forall s :: s in st.spans && s !in moving ==> Tagged(st.tags, s, st.spans[s]))
  }

  ghost predicate Inv<S>(st: State<S>) { Sound(st, {}, {}) }

  // ----- NewSpan -----

  /** The first non-empty list at or after `i`, or NPAGES. */
  function FirstFit<S>(lists: seq<seq<S>>, i: nat): (j: nat)
    requires i <= NPAGES == |lists|
    ensures i <= j <= NPAGES
    ensures forall m :: i <= m < j ==> |lists[m]| == 0
    ensures j < NPAGES ==> |lists[j]| > 0
    decreases NPAGES - i
  {
    if i == NPAGES || |lists[i]| > 0 then i else FirstFit(lists, i + 1)
  }

  function PagesOf(g: Geo): set<nat> { set p: nat | g.page <= p < g.page + g.n && g.Has(p) }

  function TagAll<S>(tags: map<nat, S>, lo: nat, n: nat, s: S): map<nat, S> {
    tags + map p: nat | lo <= p < lo + n && Geo(lo, n, false).Has(p) :: s
  }

  function TagEnds<S>(tags: map<nat, S>, s: S, g: Geo): map<nat, S>
    requires 1 <= g.n
  {
    tags[g.page := s][g.Last() := s]
  }

  function PopFront<S>(st: State<S>, i: nat): State<S>
    requires i < |st.lists| && |st.lists[i]| > 0
  {
    st.(lists := st.lists[i := st.lists[i][1..]])
  }

  function PushFront<S>(st: State<S>, i: nat, s: S): State<S>
    requires i < |st.lists|
  {
    st.(lists := st.lists[i := [s] + st.lists[i]])
  }

  /** Cut `k` pages off the head of span `s`, which has just been popped, as the new span `kid`. */
  function Split<S>(st: State<S>, s: S, k: nat, kid: S): State<S>
    requires s in st.spans && 0 < k < st.spans[s].n < NPAGES == |st.lists|
  {
    var g := st.spans[s];
    var rest := Geo(g.page + k, g.n - k, g.isUse);
    var st1 := st.(spans := st.spans[s := rest][kid := Geo(g.page, k, false)]);
    var st2 := PushFront(st1, rest.n, s);
    st2.(tags := TagAll(TagEnds(st.tags, s, rest), g.page, k, kid))
  }

  /** The pop or split of a list that is known to exist. */
  ghost function Take<S>(st: State<S>, k: nat, kid: S): (State<S>, S)
    requires Inv(st) && 1 <= k < NPAGES && FirstFit(st.lists, k) < NPAGES
  {
    if |st.lists[k]| > 0 then
      (PopFront(st, k), st.lists[k][0])
    else
      var i := FirstFit(st.lists, k + 1);
      var s := st.lists[i][0];
      assert s in st.lists[i];
      (Split(PopFront(st, i), s, k, kid), kid)
  }

  /** What the system allocator promises: 128 pages, none of them page 0, none handed out before. */
  ghost predicate FreshPages(owned: set<nat>, base: nat) {
    1 <= base && forall p :: base <= p < base + (NPAGES - 1) ==> p !in owned
  }

  function Refill<S>(st: State<S>, big: S, base: nat): State<S>
    requires |st.lists| == NPAGES
  {
    var g := Geo(base, NPAGES - 1, false);
    PushFront(st.(spans := st.spans[big := g], owned := st.owned + PagesOf(g)), NPAGES - 1, big)
  }

  /** Whatever NewSpan really obtains, spans from `new` and pages from the system, is fresh. */
  ghost predicate FreshSpans<S>(st: State<S>, k: nat, big: S, base: nat, kid: S)
    requires |st.lists| == NPAGES && k < NPAGES
  {
    && (FirstFit(st.lists, k) == NPAGES ==> big !in st.spans && FreshPages(st.owned, base))
    && (|st.lists[k]| == 0 && k < NPAGES - 1 ==>
          kid !in st.spans && (FirstFit(st.lists, k) == NPAGES ==> kid != big))
  }

  /** `big` and `kid` are the addresses the two possible `new Span` return, `base` the pages the system returns. */
  ghost function NewSpan<S>(st: State<S>, k: nat, big: S, base: nat, kid: S): (State<S>, S)
    requires Inv(st) && 1 <= k < NPAGES
    requires FreshSpans(st, k, big, base, kid)
  {
    if FirstFit(st.lists, k) < NPAGES then Take(st, k, kid)
    else
      RefillKeeps(st, big, base);
      RefillFits(st, k, big, base);
      Take(Refill(st, big, base), k, kid)
  }

  function MarkInUse<S>(st: State<S>, s: S): State<S>
    requires s in st.spans
  {
    st.(spans := st.spans[s := st.spans[s].(isUse := true)])
  }

  lemma RefillFits<S>(st: State<S>, k: nat, big: S, base: nat)
    requires |st.lists| == NPAGES && 1 <= k < NPAGES
    ensures FirstFit(Refill(st, big, base).lists, k) < NPAGES
    ensures FirstFit(st.lists, k) == NPAGES ==> FirstFit(Refill(st, big, base).lists, k) == NPAGES - 1
  {
    var j := FirstFit(Refill(st, big, base).lists, k);
    assert Refill(st, big, base).lists[NPAGES - 1][0] == big;
  }

  lemma RefillApart<S>(st: State<S>, big: S, base: nat)
    requires Disjoint(st.spans) && Inside(st.spans, st.owned) && |st.lists| == NPAGES
    requires big !in st.spans && FreshPages(st.owned, base)
    ensures Disjoint(Refill(st, big, base).spans)
  {
    forall s | s in st.spans
      ensures st.spans[s].page + st.spans[s].n <= base || base + (NPAGES - 1) <= st.spans[s].page
    {
      var h := st.spans[s];
      var p := if h.page >= base then h.page else base;
      assert h.Has(p) ==> p in st.owned;
    }
  }

  lemma RefillCovers<S>(st: State<S>, big: S, base: nat)
    requires Disjoint(st.spans) && Covers(st.spans, st.owned) && |st.lists| == NPAGES
    requires big !in st.spans && FreshPages(st.owned, base)
    ensures Disjoint(Refill(st, big, base).spans) && Covers(Refill(st, big, base).spans, Refill(st, big, base).owned)
  {
    hide Disjoint, FreshPages;
    var r := Refill(st, big, base);
    RefillApart(st, big, base);
    forall s, p | s in r.spans && r.spans[s].Has(p) ensures p in r.owned {
      assert s != big ==> st.spans[s].Has(p);
    }
    forall p | p in r.owned ensures Held(r.spans, p) {
      if p in st.owned {
        assert Held(st.spans, p);
        var s :| s in st.spans && st.spans[s].Has(p);
        Holds(r.spans, s, p);
      } else {
        Holds(r.spans, big, p);
      }
    }
  }

  lemma RefillListed<S>(st: State<S>, big: S, base: nat)
    requires Listed(st.spans, st.lists, {}) && big !in st.spans
    ensures Listed(Refill(st, big, base).spans, Refill(st, big, base).lists, {})
  {
    var r := Refill(st, big, base);
    var m := NPAGES - 1;
    assert big !in st.lists[m];
    assert r.lists[m] == [big] + st.lists[m];
    forall t | t in r.spans && !r.spans[t].isUse
      ensures r.spans[t].n < NPAGES && t in r.lists[r.spans[t].n]
    {
      if t == big {
        assert r.lists[m][0] == big;
      } else {
        assert t in st.lists[st.spans[t].n];
      }
    }
  }

  lemma RefillKeeps<S>(st: State<S>, big: S, base: nat)
    requires Inv(st) && big !in st.spans && FreshPages(st.owned, base)
    ensures Inv(Refill(st, big, base))
  {
    RefillCovers(st, big, base);
    RefillListed(st, big, base);
    var r := Refill(st, big, base);
    assert Untagged(r.tags.Keys, r.spans[big]);
    hide Disjoint, Covers, Listed;
  }

  // ----- NewSpan keeps the invariant -----

  lemma PopListed<S>(spans: map<S, Geo>, lists: seq<seq<S>>, i: nat)
    requires Listed(spans, lists, {}) && 1 <= i < NPAGES && |lists[i]| > 0
    ensures Listed(spans, lists[i := lists[i][1..]], {lists[i][0]})
  {
    var s := lists[i][0];
    var r := lists[i := lists[i][1..]];
    forall t | t in spans && !spans[t].isUse && t != s
      ensures spans[t].n < NPAGES && t in r[spans[t].n]
    {
      assert t in lists[spans[t].n];
    }
  }

  lemma PopKeeps<S>(st: State<S>, i: nat)
    requires Inv(st) && 1 <= i < NPAGES && |st.lists[i]| > 0
    ensures st.lists[i][0] in st.spans && st.spans[st.lists[i][0]].n == i && !st.spans[st.lists[i][0]].isUse
    ensures Sound(PopFront(st, i), {st.lists[i][0]}, {})
  {
    assert st.lists[i][0] in st.lists[i];
    PopListed(st.spans, st.lists, i);
    hide Disjoint, Covers, Tagged;
  }

  /** Cutting a span in two: the ranges, without the lists and the map. */
  function Halved<S>(spans: map<S, Geo>, s: S, k: nat, kid: S): map<S, Geo>
    requires s in spans && 0 < k < spans[s].n
  {
    spans[s := Geo(spans[s].page + k, spans[s].n - k, spans[s].isUse)][kid := Geo(spans[s].page, k, false)]
  }

  lemma HalvedApart<S>(spans: map<S, Geo>, s: S, k: nat, kid: S)
    requires Disjoint(spans) && s in spans && kid !in spans && 0 < k < spans[s].n
    ensures Disjoint(Halved(spans, s, k, kid))
  {
  }

  lemma HalvedInside<S>(spans: map<S, Geo>, owned: set<nat>, s: S, k: nat, kid: S)
    requires Inside(spans, owned) && s in spans && kid !in spans && 0 < k < spans[s].n
    ensures Inside(Halved(spans, s, k, kid), owned)
  {
    var r := Halved(spans, s, k, kid);
    forall t, p | t in r && r[t].Has(p) ensures p in owned {
      assert t == s || t == kid ==> spans[s].Has(p);
    }
  }

  lemma HalvedHeld<S>(spans: map<S, Geo>, s: S, k: nat, kid: S, p: nat)
    requires Held(spans, p) && s in spans && kid !in spans && 0 < k < spans[s].n
    ensures Held(Halved(spans, s, k, kid), p)
  {
    var t :| t in spans && spans[t].Has(p);
    Holds(Halved(spans, s, k, kid), if t != s then t else if p < spans[s].page + k then kid else s, p);
  }

  lemma SplitDisjoint<S>(st: State<S>, s: S, k: nat, kid: S)
    requires Disjoint(st.spans) && Covers(st.spans, st.owned) && |st.lists| == NPAGES
    requires s in st.spans && kid !in st.spans && 0 < k < st.spans[s].n < NPAGES
    ensures Disjoint(Split(st, s, k, kid).spans) && Covers(Split(st, s, k, kid).spans, st.owned)
  {
    hide Disjoint, Inside, Held, Halved;
    HalvedApart(st.spans, s, k, kid);
    HalvedInside(st.spans, st.owned, s, k, kid);
    forall p | p in st.owned ensures Held(Halved(st.spans, s, k, kid), p) {
      HalvedHeld(st.spans, s, k, kid, p);
    }
    SplitIsHalved(st, s, k, kid);
  }

  lemma SplitIsHalved<S>(st: State<S>, s: S, k: nat, kid: S)
    requires s in st.spans && 0 < k < st.spans[s].n < NPAGES == |st.lists|
    ensures Split(st, s, k, kid).spans == Halved(st.spans, s, k, kid)
  {
  }

  lemma SplitListed<S>(st: State<S>, s: S, k: nat, kid: S)
    requires Sound(st, {s}, {}) && s in st.spans && kid !in st.spans && 0 < k < st.spans[s].n && !st.spans[s].isUse
    ensures Listed(Split(st, s, k, kid).spans, Split(st, s, k, kid).lists, {kid})
  {
    var r := Split(st, s, k, kid);
    var m := st.spans[s].n - k;
    assert s !in st.lists[m];
    assert r.lists[m] == [s] + st.lists[m];
    forall t | t in r.spans && !r.spans[t].isUse && t != kid
      ensures r.spans[t].n < NPAGES && t in r.lists[r.spans[t].n]
    {
      if t == s {
        assert r.lists[m][0] == s;
      } else {
        assert t in st.lists[st.spans[t].n];
      }
    }
  }

  /** Pages outside the span keep their entries; the new span has all of its own. */
  lemma SplitTags<S>(st: State<S>, s: S, k: nat, kid: S)
    requires s in st.spans && 0 < k < st.spans[s].n < NPAGES == |st.lists|
    ensures var st', g := Split(st, s, k, kid), st.spans[s];
      && (forall p :: !g.Has(p) ==> SameTag(st.tags, st'.tags, p))
      && Complete(st'.tags, kid, Geo(g.page, k, false))
      && Tagged(st'.tags, s, Geo(g.page + k, g.n - k, g.isUse))
  {
    var g := st.spans[s];
    forall p | g.page <= p < g.page + k
      ensures p in Split(st, s, k, kid).tags && Split(st, s, k, kid).tags[p] == kid
    {
      assert Geo(g.page, k, false).Has(p);
    }
  }

  lemma TaggedFrame<S>(a: map<nat, S>, b: map<nat, S>, s: S, g: Geo)
    requires Tagged(a, s, g) && 1 <= g.n
    requires forall p :: g.Has(p) ==> SameTag(a, b, p)
    ensures Tagged(b, s, g)
  {
    assert g.Has(g.page) && g.Has(g.Last());
  }

  lemma SplitTagged<S>(st: State<S>, s: S, k: nat, kid: S)
    requires Disjoint(st.spans) && Inside(st.spans, st.owned) && st.tags.Keys <= st.owned
    requires forall t :: t in st.spans ==> Tagged(st.tags, t, st.spans[t])
    requires s in st.spans && kid !in st.spans && 0 < k < st.spans[s].n && |st.lists| == NPAGES
    ensures var st' := Split(st, s, k, kid);
      st'.tags.Keys <= st.owned && forall t :: t in st'.spans ==> Tagged(st'.tags, t, st'.spans[t])
  {
    var st', g := Split(st, s, k, kid), st.spans[s];
    SplitTags(st, s, k, kid);
    forall p | p in st'.tags ensures p in st.owned {
      if !g.Has(p) {
        assert SameTag(st.tags, st'.tags, p);
      }
    }
    var kg := Geo(g.page, k, false);
    assert Tagged(st'.tags, kid, kg) by {
      assert kg.Has(kg.page) && kg.Has(kg.Last());
    }
    forall t | t in st'.spans && t != s && t != kid ensures Tagged(st'.tags, t, st'.spans[t]) {
      forall p | st.spans[t].Has(p) ensures SameTag(st.tags, st'.tags, p) {
        assert !g.Has(p);
      }
      TaggedFrame(st.tags, st'.tags, t, st.spans[t]);
    }
  }

  ghost predicate SameTag<S>(a: map<nat, S>, b: map<nat, S>, p: nat) {
    (p in a <==> p in b) && (p in a ==> a[p] == b[p])
  }

  /** Spans in use, other than `x`, are still there with the same pages and the same page-map entries. */
  ghost predicate InUseKept<S>(a: State<S>, b: State<S>, x: set<S>) {
    forall t :: t in a.spans && a.spans[t].isUse && t !in x ==>
      && t in b.spans && b.spans[t] == a.spans[t]
      && forall p :: a.spans[t].Has(p) ==> SameTag(a.tags, b.tags, p)
  }

  lemma SplitInUse<S>(st: State<S>, s: S, k: nat, kid: S)
    requires Disjoint(st.spans) && s in st.spans && kid !in st.spans && 0 < k < st.spans[s].n
    requires |st.lists| == NPAGES && !st.spans[s].isUse
    ensures InUseKept(st, Split(st, s, k, kid), {})
  {
    SplitTags(st, s, k, kid);
    forall t, p | t in st.spans && st.spans[t].isUse && st.spans[t].Has(p)
      ensures SameTag(st.tags, Split(st, s, k, kid).tags, p)
    {
      assert !st.spans[s].Has(p);
    }
  }

  lemma SplitKeeps<S>(st: State<S>, s: S, k: nat, kid: S)
    requires Sound(st, {s}, {}) && s in st.spans && !st.spans[s].isUse && kid !in st.spans && 0 < k < st.spans[s].n
    ensures Sound(Split(st, s, k, kid), {kid}, {}) && InUseKept(st, Split(st, s, k, kid), {})
  {
    SplitDisjoint(st, s, k, kid);
    SplitListed(st, s, k, kid);
    SplitTagged(st, s, k, kid);
    SplitInUse(st, s, k, kid);
  }

  lemma TakeKeeps<S>(st: State<S>, k: nat, kid: S)
    requires Inv(st) && 1 <= k < NPAGES && FirstFit(st.lists, k) < NPAGES && (|st.lists[k]| == 0 ==> kid !in st.spans)
    ensures var (st', r) := Take(st, k, kid);
      && r in st'.spans && st'.spans[r].n == k && !st'.spans[r].isUse
      && Sound(st', {r}, {}) && InUseKept(st, st', {})
  {
    if |st.lists[k]| > 0 {
      PopKeeps(st, k);
    } else {
      var i := FirstFit(st.lists, k + 1);
      PopKeeps(st, i);
      SplitKeeps(PopFront(st, i), st.lists[i][0], k, kid);
    }
  }

  lemma Sized<S>(st: State<S>)
    requires Inv(st)
    ensures |st.lists| == NPAGES
  {
  }

  lemma KeptByRefill<S>(st: State<S>, big: S, base: nat, st': State<S>)
    requires |st.lists| == NPAGES && big !in st.spans && InUseKept(Refill(st, big, base), st', {})
    ensures InUseKept(st, st', {})
  {
    var st1 := Refill(st, big, base);
    assert st1.tags == st.tags && forall t :: t in st.spans ==> t in st1.spans && st1.spans[t] == st.spans[t];
  }

  lemma KeptByMark<S>(st: State<S>, st': State<S>, r: S)
    requires InUseKept(st, st', {}) && r in st'.spans && !st'.spans[r].isUse
    ensures InUseKept(st, MarkInUse(st', r), {})
  {
  }

  lemma RefillTake<S>(st: State<S>, k: nat, big: S, base: nat, kid: S)
    requires Inv(st) && 1 <= k < NPAGES && FreshSpans(st, k, big, base, kid) && FirstFit(st.lists, k) == NPAGES
    ensures var (st', r) := NewSpan(st, k, big, base, kid);
      && r in st'.spans && st'.spans[r].n == k && !st'.spans[r].isUse
      && Sound(st', {r}, {}) && InUseKept(st, st', {})
  {
    hide Sound, Take, FreshPages, InUseKept;
    Sized(st);
    RefillKeeps(st, big, base);
    RefillFits(st, k, big, base);
    var st1 := Refill(st, big, base);
    assert k < NPAGES - 1 ==> kid !in st1.spans;
    assert k == NPAGES - 1 ==> |st1.lists[k]| > 0;
    TakeKeeps(st1, k, kid);
    KeptByRefill(st, big, base, Take(st1, k, kid).0);
  }

  /** NewSpan hands out a live span of exactly k pages that hangs on no list; everything in use is untouched. */
  lemma NewSpanKeeps<S>(st: State<S>, k: nat, big: S, base: nat, kid: S)
    requires Inv(st) && 1 <= k < NPAGES
    requires FreshSpans(st, k, big, base, kid)
    ensures var (st', r) := NewSpan(st, k, big, base, kid);
      && r in st'.spans && st'.spans[r].n == k && !st'.spans[r].isUse
      && Sound(st', {r}, {}) && Inv(MarkInUse(st', r)) && InUseKept(st, MarkInUse(st', r), {})
  {
    hide Sound, Take, FreshPages, Refill, MarkInUse, InUseKept;
    Sized(st);
    var (st', r) := NewSpan(st, k, big, base, kid);
    if FirstFit(st.lists, k) < NPAGES {
      TakeKeeps(st, k, kid);
    } else {
      RefillTake(st, k, big, base, kid);
    }
    MarkKeeps(st', r);
    KeptByMark(st, st', r);
  }

  lemma MarkKeeps<S>(st: State<S>, s: S)
    requires Sound(st, {s}, {}) && s in st.spans && !st.spans[s].isUse
    ensures Inv(MarkInUse(st, s))
  {
    var r := MarkInUse(st, s);
    SameRangesCover(st.spans, r.spans, st.owned);
    forall t | t in r.spans ensures Tagged(r.tags, t, r.spans[t]) {
      SameRangeTagged(st.tags, t, st.spans[t], r.spans[t]);
    }
    assert Listed(r.spans, r.lists, {}) by {
      hide Disjoint, Covers, Tagged;
    }
    assert Disjoint(r.spans) by {
      hide Listed, Covers, Tagged;
    }
    hide Disjoint, Covers, Listed, Tagged;
  }

  lemma SameRangesCover<S>(a: map<S, Geo>, b: map<S, Geo>, owned: set<nat>)
    requires Covers(a, owned) && a.Keys == b.Keys
    requires forall s :: s in a ==> b[s].page == a[s].page && b[s].n == a[s].n
    ensures Covers(b, owned)
  {
    forall s, p | s in b && b[s].Has(p) ensures p in owned {
      assert s in a && a[s].Has(p);
    }
    forall p | p in owned ensures Held(b, p) {
      assert Held(a, p);
      var s :| s in a && a[s].Has(p);
      Holds(b, s, p);
    }
  }

  lemma SameRangeTagged<S>(tags: map<nat, S>, s: S, g: Geo, h: Geo)
    requires Tagged(tags, s, g) && g.page == h.page && g.n == h.n
    ensures Tagged(tags, s, h)
  {
    if Untagged(tags.Keys, g) {
      forall p | h.Has(p) ensures p !in tags {
        assert g.Has(p);
      }
    }
  }

  // ----- what NewSpan picks -----

  /** `r` is the first `k` pages of the free span `s`: all of it, or a new span with the rest still free. */
  ghost predicate CutFrom<S>(st: State<S>, s: S, k: nat, st': State<S>, r: S) {
    && s in st.spans && !st.spans[s].isUse && st.spans[s].n >= k
    && var g := st.spans[s];
       if g.n == k then r == s && st'.spans == st.spans
       else st'.spans == st.spans[s := Geo(g.page + k, g.n - k, false)][r := Geo(g.page, k, false)]
  }

  ghost predicate SmallestFree<S>(spans: map<S, Geo>, s: S, k: nat)
    requires s in spans
  {
    forall t :: t in spans && !spans[t].isUse && spans[t].n >= k ==> spans[s].n <= spans[t].n
  }

  lemma FitIsSmallest<S>(spans: map<S, Geo>, lists: seq<seq<S>>, k: nat, s: S)
    requires Listed(spans, lists, {}) && k < NPAGES && s in spans && spans[s].n == FirstFit(lists, k)
    ensures SmallestFree(spans, s, k)
  {
    forall t | t in spans && !spans[t].isUse && spans[t].n >= k
      ensures spans[s].n <= spans[t].n
    {
      assert t in lists[spans[t].n];
    }
  }

  lemma FrontOf<S>(spans: map<S, Geo>, lists: seq<seq<S>>, i: nat)
    requires Listed(spans, lists, {}) && i < NPAGES && |lists[i]| > 0
    ensures lists[i][0] in spans && spans[lists[i][0]].n == i && !spans[lists[i][0]].isUse
  {
    assert lists[i][0] in lists[i];
  }

  lemma TakeBestFit<S>(st: State<S>, k: nat, kid: S) returns (s: S)
    requires Inv(st) && 1 <= k < NPAGES && FirstFit(st.lists, k) < NPAGES && (|st.lists[k]| == 0 ==> kid !in st.spans)
    ensures CutFrom(st, s, k, Take(st, k, kid).0, Take(st, k, kid).1) && SmallestFree(st.spans, s, k)
    ensures st.spans[s].n == FirstFit(st.lists, k) && s == st.lists[st.spans[s].n][0]
  {
    var i := FirstFit(st.lists, k);
    s := st.lists[i][0];
    FrontOf(st.spans, st.lists, i);
    FitIsSmallest(st.spans, st.lists, k, s);
    assert |st.lists[k]| == 0 ==> i == FirstFit(st.lists, k + 1) by {
      hide Sound, SmallestFree;
    }
    hide Sound, SmallestFree, FirstFit;
  }

  /** NewSpan cuts the head off a smallest free span that is large enough; it asks the system
      for 128 more pages exactly when there is none. */
  lemma NewSpanBestFit<S>(st: State<S>, k: nat, big: S, base: nat, kid: S)
    requires Inv(st) && 1 <= k < NPAGES
    requires FreshSpans(st, k, big, base, kid)
    ensures var (st', r) := NewSpan(st, k, big, base, kid);
      if exists t :: t in st.spans && !st.spans[t].isUse && st.spans[t].n >= k
      then st'.owned == st.owned && exists s :: CutFrom(st, s, k, st', r) && SmallestFree(st.spans, s, k)
      else
        && st'.owned == st.owned + PagesOf(Geo(base, NPAGES - 1, false))
        && CutFrom(Refill(st, big, base), big, k, st', r)
  {
    hide Sound, Take, FreshPages, SmallestFree, CutFrom;
    Sized(st);
    SomethingFits(st, k);
    if FirstFit(st.lists, k) < NPAGES {
      var s := TakeBestFit(st, k, kid);
      TakeOwned(st, k, kid);
    } else {
      RefillKeeps(st, big, base);
      RefillFits(st, k, big, base);
      RefilledFront(st, big, base);
      TakeOwned(Refill(st, big, base), k, kid);
      var s := TakeBestFit(Refill(st, big, base), k, kid);
    }
  }

  /** A list from k on has a span exactly if some free span is large enough. */
  lemma SomethingFits<S>(st: State<S>, k: nat)
    requires Inv(st) && k < NPAGES == |st.lists|
    ensures FirstFit(st.lists, k) < NPAGES <==> exists t :: t in st.spans && !st.spans[t].isUse && st.spans[t].n >= k
  {
    hide Disjoint, Covers, Tagged, NoDup;
    var i := FirstFit(st.lists, k);
    if i < NPAGES {
      var s := st.lists[i][0];
      assert s in st.lists[i];
      assert s in st.spans && !st.spans[s].isUse && st.spans[s].n == i;
    } else {
      forall t | t in st.spans && !st.spans[t].isUse ensures st.spans[t].n < k {
        assert t in st.lists[st.spans[t].n];
      }
    }
  }

  lemma RefilledFront<S>(st: State<S>, big: S, base: nat)
    requires |st.lists| == NPAGES
    ensures |Refill(st, big, base).lists| == NPAGES && Refill(st, big, base).lists[NPAGES - 1][0] == big
    ensures Refill(st, big, base).owned == st.owned + PagesOf(Geo(base, NPAGES - 1, false))
  {
  }

  lemma CutUse<S>(st: State<S>, s: S, k: nat, st': State<S>, r: S)
    requires CutFrom(st, s, k, st', r) && (r in st.spans ==> r == s)
    ensures r in st.spans ==> !st.spans[r].isUse
    ensures forall t :: t in st'.spans && st'.spans[t].isUse ==> t in st.spans && st.spans[t].isUse && t != r
  {
  }

  lemma TakeUse<S>(st: State<S>, k: nat, kid: S)
    requires Inv(st) && 1 <= k < NPAGES && FirstFit(st.lists, k) < NPAGES && (|st.lists[k]| == 0 ==> kid !in st.spans)
    ensures var (st', r) := Take(st, k, kid);
      && (r in st.spans ==> !st.spans[r].isUse)
      && forall t :: t in st'.spans && st'.spans[t].isUse ==> t in st.spans && st.spans[t].isUse && t != r
  {
    hide Sound, SmallestFree, CutFrom, Split;
    var s := TakeBestFit(st, k, kid);
    CutUse(st, s, k, Take(st, k, kid).0, Take(st, k, kid).1);
  }

  /** Where the span that NewSpan will return starts. */
  function NextPage<S>(st: State<S>, k: nat, base: nat): nat
    requires |st.lists| == NPAGES && k < NPAGES
  {
    var i := FirstFit(st.lists, k);
    if i < NPAGES && st.lists[i][0] in st.spans then st.spans[st.lists[i][0]].page else base
  }

  lemma NewSpanPage<S>(st: State<S>, k: nat, big: S, base: nat, kid: S)
    requires Inv(st) && 1 <= k < NPAGES && |st.lists| == NPAGES && FreshSpans(st, k, big, base, kid)
    ensures var (st', r) := NewSpan(st, k, big, base, kid);
      r in st'.spans && st'.spans[r].page == NextPage(st, k, base)
  {
    hide Sound, Take, FreshPages, SmallestFree;
    if FirstFit(st.lists, k) < NPAGES {
      var s := TakeBestFit(st, k, kid);
    } else {
      RefillKeeps(st, big, base);
      RefillFits(st, k, big, base);
      RefillFits(st, k, big, base);
      var s := TakeBestFit(Refill(st, big, base), k, kid);
    }
  }

  /** Pages come from the system only when no free span is large enough, 128 at a time. */
  lemma NewSpanOwned<S>(st: State<S>, k: nat, big: S, base: nat, kid: S)
    requires Inv(st) && 1 <= k < NPAGES && |st.lists| == NPAGES && FreshSpans(st, k, big, base, kid)
    ensures NewSpan(st, k, big, base, kid).0.owned ==
      st.owned + if FirstFit(st.lists, k) == NPAGES then PagesOf(Geo(base, NPAGES - 1, false)) else {}
  {
    hide Sound, FreshPages, Split;
    if FirstFit(st.lists, k) < NPAGES {
      TakeOwned(st, k, kid);
    } else {
      RefillKeeps(st, big, base);
      RefillFits(st, k, big, base);
      TakeOwned(Refill(st, big, base), k, kid);
    }
  }

  lemma TakeOwned<S>(st: State<S>, k: nat, kid: S)
    requires Inv(st) && 1 <= k < NPAGES && |st.lists| == NPAGES && FirstFit(st.lists, k) < NPAGES
    ensures Take(st, k, kid).0.owned == st.owned
  {
    hide Disjoint, Covers, Tagged;
  }

  /** A request for 128 pages that the system has to serve returns a span none of whose pages is in the map. */
  lemma WholeSpanUnmapped<S>(st: State<S>, big: S, base: nat, kid: S)
    requires Inv(st) && |st.lists| == NPAGES && FirstFit(st.lists, NPAGES - 1) == NPAGES
    requires FreshSpans(st, NPAGES - 1, big, base, kid)
    ensures var (st', r) := NewSpan(st, NPAGES - 1, big, base, kid);
      && r == big && big in st'.spans && st'.spans[big] == Geo(base, NPAGES - 1, false)
      && forall p :: st'.spans[big].Has(p) ==> p !in st'.tags
  {
    hide Disjoint, Covers, Tagged, NoDup;
    RefillKeeps(st, big, base);
    RefillFits(st, NPAGES - 1, big, base);
    RefilledFront(st, big, base);
  }

  /** The span NewSpan returns was not in use before, and no other span becomes used. */
  lemma NewSpanUse<S>(st: State<S>, k: nat, big: S, base: nat, kid: S)
    requires Inv(st) && 1 <= k < NPAGES && FreshSpans(st, k, big, base, kid)
    ensures var (st', r) := NewSpan(st, k, big, base, kid);
      && (r in st.spans ==> !st.spans[r].isUse)
      && forall t :: t in st'.spans && st'.spans[t].isUse ==> t in st.spans && st.spans[t].isUse && t != r
  {
    hide Sound, Take, FreshPages;
    Sized(st);
    if FirstFit(st.lists, k) < NPAGES {
      TakeUse(st, k, kid);
    } else {
      RefillKeeps(st, big, base);
      RefillFits(st, k, big, base);
      TakeUse(Refill(st, big, base), k, kid);
    }
  }

  /** After NewSpan every page leads back to the span it returned, exactly when that span was newly
      cut, or came off its list with every page already leading to it. */
  lemma NewSpanComplete<S>(st: State<S>, k: nat, big: S, base: nat, kid: S)
    requires Inv(st) && 1 <= k < NPAGES
    requires FreshSpans(st, k, big, base, kid)
    ensures var (st', r) := NewSpan(st, k, big, base, kid);
      r in st'.spans &&
      (Complete(st'.tags, r, st'.spans[r]) <==>
        if |st.lists[k]| == 0 then k < NPAGES - 1
        else st.lists[k][0] in st.spans && Complete(st.tags, st.lists[k][0], st.spans[st.lists[k][0]]))
  {
    var (st', r) := NewSpan(st, k, big, base, kid);
    if |st.lists[k]| > 0 {
      PopKeeps(st, k);
    } else {
      var st1 := if FirstFit(st.lists, k) < NPAGES then st else Refill(st, big, base);
      if FirstFit(st.lists, k) == NPAGES {
        RefillKeeps(st, big, base);
        RefillFits(st, k, big, base);
      }
      if k < NPAGES - 1 {
        var i := FirstFit(st1.lists, k + 1);
        PopKeeps(st1, i);
        SplitTags(PopFront(st1, i), st1.lists[i][0], k, kid);
      } else {
        assert st'.spans[r].Has(base);
      }
    }
  }

  /** One- and two-page requests are always complete: the two boundary tags are the whole span. */
  lemma SmallSpansComplete<S>(st: State<S>, k: nat, big: S, base: nat, kid: S)
    requires Inv(st) && 1 <= k <= 2
    requires FreshSpans(st, k, big, base, kid)
    ensures var (st', r) := NewSpan(st, k, big, base, kid); r in st'.spans && Complete(st'.tags, r, st'.spans[r])
  {
    hide Disjoint, Covers, Listed, NewSpan, FreshSpans, Tagged, Complete;
    NewSpanComplete(st, k, big, base, kid);
    ListsThere(st);
    if |st.lists[k]| > 0 {
      PopKeeps(st, k);
      EndsAreAll(st.tags, st.lists[k][0], st.spans[st.lists[k][0]]);
    }
  }

  lemma ListsThere<S>(st: State<S>)
    requires Inv(st)
    ensures |st.lists| == NPAGES
  {
    hide Disjoint, Covers, Tagged;
  }

  lemma EndsAreAll<S>(tags: map<nat, S>, s: S, g: Geo)
    requires Tagged(tags, s, g) && 1 <= g.n <= 2
    ensures Complete(tags, s, g)
  {
  }

  // ----- ReleaseSpanToPageCache -----

  /** `xs` without the (first) occurrence of `x`: what erasing a list node leaves. */
  function Without<S(==)>(xs: seq<S>, x: S): (r: seq<S>) {
    if |xs| == 0 then [] else if xs[0] == x then xs[1..] else [xs[0]] + Without(xs[1..], x)
  }

  lemma {:induction false} WithoutMembers<S>(xs: seq<S>, x: S)
    requires NoDup(xs)
    ensures NoDup(Without(xs, x)) && forall y :: y in Without(xs, x) <==> y in xs && y != x
  {
    if |xs| > 0 && xs[0] != x {
      WithoutMembers(xs[1..], x);
      assert xs == [xs[0]] + xs[1..];
      var w := Without(xs[1..], x);
      assert xs[0] !in w;
    } else if |xs| > 0 {
      assert xs == [xs[0]] + xs[1..];
      assert forall y :: y in xs[1..] ==> y != x;
    }
  }

  lemma StillListed<S>(lists: seq<seq<S>>, m: nat, y: S, i: nat, t: S)
    requires m < |lists| && i < |lists| && NoDup(lists[m]) && t in lists[m := Without(lists[m], y)][i]
    ensures t in lists[i] && (i == m ==> t != y)
  {
    WithoutMembers(lists[m], y);
  }

  ghost predicate Releasing<S>(st: State<S>, x: S) {
    Sound(st, {}, {x}) && x in st.spans && st.spans[x].isUse
  }

  /** Merge `y` into `x`: `x` gets both ranges, `y` leaves its list and is deleted. */
  ghost function Absorb<S>(st: State<S>, x: S, y: S, page: nat): State<S>
    requires x in st.spans && y in st.spans && |st.lists| == NPAGES && st.spans[y].n < NPAGES
  {
    var g := Geo(page, st.spans[x].n + st.spans[y].n, st.spans[x].isUse);
    var m := st.spans[y].n;
    st.(spans := (st.spans - {y})[x := g], lists := st.lists[m := Without(st.lists[m], y)])
  }

  /** The page before a span, when mapped at all, is mapped to the live span that ends there;
      if that span is free it is on the list of its page count. */
  lemma BackNeighbour<S>(st: State<S>, x: S)
    requires Releasing(st, x) && (st.spans[x].page - 1) as nat in st.tags
    ensures var y := st.tags[st.spans[x].page - 1];
      && y in st.spans && y != x && st.spans[y].page + st.spans[y].n == st.spans[x].page
      && (!st.spans[y].isUse ==> y in st.lists[st.spans[y].n])
  {
    var p: nat := st.spans[x].page - 1;
    assert Held(st.spans, p);
    var t :| t in st.spans && st.spans[t].Has(p);
    assert Tagged(st.tags, t, st.spans[t]);
  }

  /** The same for the page after a span. */
  lemma ForwardNeighbour<S>(st: State<S>, x: S)
    requires Releasing(st, x) && st.spans[x].page + st.spans[x].n in st.tags
    ensures var y := st.tags[st.spans[x].page + st.spans[x].n];
      && y in st.spans && y != x && st.spans[y].page == st.spans[x].page + st.spans[x].n
      && (!st.spans[y].isUse ==> y in st.lists[st.spans[y].n])
  {
    var p := st.spans[x].page + st.spans[x].n;
    assert Held(st.spans, p);
    var t :| t in st.spans && st.spans[t].Has(p);
    assert Tagged(st.tags, t, st.spans[t]);
  }

  ghost predicate Adjoin(g: Geo, h: Geo, page: nat) {
    || (page == h.page && page + h.n == g.page)
    || (page == g.page && page + g.n == h.page)
  }

  ghost predicate Mergeable<S>(st: State<S>, x: S, y: S, page: nat) {
    && Releasing(st, x) && y in st.spans && y != x && !st.spans[y].isUse
    && st.spans[x].n + st.spans[y].n < NPAGES && Adjoin(st.spans[x], st.spans[y], page)
  }

  lemma AbsorbDisjoint<S>(st: State<S>, x: S, y: S, page: nat)
    requires Disjoint(st.spans) && |st.lists| == NPAGES && x in st.spans && y in st.spans && x != y
    requires st.spans[x].n + st.spans[y].n < NPAGES && Adjoin(st.spans[x], st.spans[y], page)
    ensures Disjoint(Absorb(st, x, y, page).spans)
  {
  }

  lemma AbsorbCovers<S>(st: State<S>, x: S, y: S, page: nat)
    requires Covers(st.spans, st.owned) && |st.lists| == NPAGES && x in st.spans && y in st.spans && x != y
    requires st.spans[x].n + st.spans[y].n < NPAGES && Adjoin(st.spans[x], st.spans[y], page)
    ensures Covers(Absorb(st, x, y, page).spans, st.owned)
  {
    var spans := Absorb(st, x, y, page).spans;
    forall t, p | t in spans && spans[t].Has(p) ensures p in st.owned {
      if t == x {
        assert st.spans[x].Has(p) || st.spans[y].Has(p);
      } else {
        assert st.spans[t].Has(p);
      }
    }
    forall p | p in st.owned ensures Held(spans, p) {
      assert Held(st.spans, p);
      var t :| t in st.spans && st.spans[t].Has(p);
      Holds(spans, if t == y then x else t, p);
    }
  }

  lemma AbsorbListed<S>(st: State<S>, x: S, y: S, page: nat)
    requires Mergeable(st, x, y, page)
    ensures Listed(Absorb(st, x, y, page).spans, Absorb(st, x, y, page).lists, {})
  {
    var st' := Absorb(st, x, y, page);
    var m := st.spans[y].n;
    WithoutMembers(st.lists[m], y);
    forall i, t | 0 <= i < NPAGES && t in st'.lists[i]
      ensures t in st'.spans && st'.spans[t].n == i && !st'.spans[t].isUse
    {
      StillListed(st.lists, m, y, i, t);
    }
    forall t | t in st'.spans && !st'.spans[t].isUse
      ensures st'.spans[t].n < NPAGES && t in st'.lists[st'.spans[t].n]
    {
      assert t in st.lists[st.spans[t].n];
    }
  }

  lemma AbsorbKeeps<S>(st: State<S>, x: S, y: S, page: nat)
    requires Mergeable(st, x, y, page)
    ensures Releasing(Absorb(st, x, y, page), x)
  {
    AbsorbDisjoint(st, x, y, page);
    AbsorbCovers(st, x, y, page);
    AbsorbListed(st, x, y, page);
    forall t | t in Absorb(st, x, y, page).spans && t != x
      ensures Tagged(st.tags, t, Absorb(st, x, y, page).spans[t])
    {
      assert Tagged(st.tags, t, st.spans[t]);
    }
  }

  lemma FewerSpans<S>(spans: map<S, Geo>, x: S, y: S, g: Geo)
    requires x in spans && y in spans && x != y
    ensures |(spans - {y})[x := g]| < |spans|
  {
    assert (spans - {y})[x := g].Keys == spans.Keys - {y};
  }

  /** What merging into `x` leaves alone: the page map, the pages owned, and every span but the
      free ones it swallows.  `x` keeps its pages. */
  ghost predicate Merged<S>(a: State<S>, b: State<S>, x: S) {
    && x in a.spans && x in b.spans
    && b.tags == a.tags && b.owned == a.owned && b.spans.Keys <= a.spans.Keys
    && (forall t :: t in b.spans && t != x ==> b.spans[t] == a.spans[t])
    && (forall t :: t in a.spans && a.spans[t].isUse ==> t in b.spans)
    && b.spans[x].page <= a.spans[x].page
    && a.spans[x].page + a.spans[x].n <= b.spans[x].page + b.spans[x].n
  }

  lemma AbsorbMerges<S>(st: State<S>, x: S, y: S, page: nat)
    requires Mergeable(st, x, y, page)
    ensures Releasing(Absorb(st, x, y, page), x) && Merged(st, Absorb(st, x, y, page), x)
    ensures |Absorb(st, x, y, page).spans| < |st.spans|
  {
    hide Disjoint, Covers, Listed, Tagged, Merged, Adjoin, Absorb;
    MergeSizes(st, x, y, page);
    AbsorbKeeps(st, x, y, page);
    AbsorbIsMerged(st, x, y, page);
  }

  lemma MergeSizes<S>(st: State<S>, x: S, y: S, page: nat)
    requires Mergeable(st, x, y, page)
    ensures |st.lists| == NPAGES && 1 <= st.spans[x].n && 1 <= st.spans[y].n < NPAGES
  {
    hide Covers, Tagged, NoDup;
  }

  lemma AbsorbIsMerged<S>(st: State<S>, x: S, y: S, page: nat)
    requires x in st.spans && y in st.spans && x != y && !st.spans[y].isUse && |st.lists| == NPAGES
    requires st.spans[y].n < NPAGES
    requires Adjoin(st.spans[x], st.spans[y], page)
    ensures Merged(st, Absorb(st, x, y, page), x) && |Absorb(st, x, y, page).spans| < |st.spans|
  {
    FewerSpans(st.spans, x, y, Absorb(st, x, y, page).spans[x]);
  }

  ghost predicate CanBack<S>(st: State<S>, x: S)
    requires Releasing(st, x)
  {
    var g := st.spans[x];
    (g.page - 1) as nat in st.tags &&
    (BackNeighbour(st, x);
     var y := st.tags[g.page - 1];
     !st.spans[y].isUse && g.n + st.spans[y].n <= NPAGES - 1)
  }

  ghost predicate CanForward<S>(st: State<S>, x: S)
    requires Releasing(st, x)
  {
    var g := st.spans[x];
    g.page + g.n in st.tags &&
    (ForwardNeighbour(st, x);
     var y := st.tags[g.page + g.n];
     !st.spans[y].isUse && g.n + st.spans[y].n <= NPAGES - 1)
  }

  /** One turn of the loop that merges with the span before. */
  ghost function BackOnce<S>(st: State<S>, x: S): (r: State<S>)
    requires Releasing(st, x) && CanBack(st, x)
    ensures Releasing(r, x) && Merged(st, r, x) && |r.spans| < |st.spans|
  {
    BackNeighbour(st, x);
    var y := st.tags[st.spans[x].page - 1];
    AbsorbMerges(st, x, y, st.spans[y].page);
    Absorb(st, x, y, st.spans[y].page)
  }

  /** One turn of the loop that merges with the span after. */
  ghost function ForwardOnce<S>(st: State<S>, x: S): (r: State<S>)
    requires Releasing(st, x) && CanForward(st, x)
    ensures Releasing(r, x) && Merged(st, r, x) && |r.spans| < |st.spans|
    ensures r.spans[x].page == st.spans[x].page
    ensures CanBack(r, x) ==> CanBack(st, x)
  {
    ForwardNeighbour(st, x);
    var y := st.tags[st.spans[x].page + st.spans[x].n];
    AbsorbMerges(st, x, y, st.spans[x].page);
    BackStaysStuck(st, x, y);
    Absorb(st, x, y, st.spans[x].page)
  }

  ghost function MergeBack<S>(st: State<S>, x: S): State<S>
    requires Releasing(st, x)
    decreases |st.spans|
  {
    hide Sound;
    if CanBack(st, x) then MergeBack(BackOnce(st, x), x) else st
  }

  ghost function MergeForward<S>(st: State<S>, x: S): State<S>
    requires Releasing(st, x)
    decreases |st.spans|
  {
    hide Sound;
    if CanForward(st, x) then MergeForward(ForwardOnce(st, x), x) else st
  }

  lemma {:induction false} MergeBackKeeps<S>(st: State<S>, x: S)
    requires Releasing(st, x)
    ensures Releasing(MergeBack(st, x), x) && Merged(st, MergeBack(st, x), x) && !CanBack(MergeBack(st, x), x)
    decreases |st.spans|
  {
    hide Sound, CanBack, BackOnce;
    if CanBack(st, x) {
      MergeBackKeeps(BackOnce(st, x), x);
    }
  }

  lemma {:induction false} MergeForwardKeeps<S>(st: State<S>, x: S)
    requires Releasing(st, x)
    ensures Releasing(MergeForward(st, x), x) && Merged(st, MergeForward(st, x), x)
    ensures !CanForward(MergeForward(st, x), x)
    ensures CanBack(MergeForward(st, x), x) ==> CanBack(st, x)
    decreases |st.spans|
  {
    hide Sound, CanBack, CanForward, ForwardOnce;
    if CanForward(st, x) {
      MergeForwardKeeps(ForwardOnce(st, x), x);
    }
  }

  /** The refusal to merge backwards survives a forward merge: the count only grows. */
  lemma BackStaysStuck<S>(st: State<S>, x: S, y: S)
    requires Releasing(st, x) && y in st.spans && st.spans[y].n < NPAGES == |st.lists|
    requires st.spans[y].page == st.spans[x].page + st.spans[x].n
    requires Releasing(Absorb(st, x, y, st.spans[x].page), x)
    ensures CanBack(Absorb(st, x, y, st.spans[x].page), x) ==> CanBack(st, x)
  {
    hide Sound;
    var st' := Absorb(st, x, y, st.spans[x].page);
    if CanBack(st', x) {
      BackNeighbour(st', x);
      BackNeighbour(st, x);
    }
  }

  /** Put the merged span on its list, mark it free and write its boundary tags. */
  ghost function Finish<S>(st: State<S>, x: S): State<S>
    requires Releasing(st, x)
  {
    var g := st.spans[x];
    PushFront(st, g.n, x).(spans := st.spans[x := g.(isUse := false)], tags := TagEnds(st.tags, x, g))
  }

  lemma FinishListed<S>(st: State<S>, x: S)
    requires Releasing(st, x)
    ensures Listed(Finish(st, x).spans, Finish(st, x).lists, {})
  {
    var r := Finish(st, x);
    var m := st.spans[x].n;
    assert x !in st.lists[m];
    assert r.lists[m] == [x] + st.lists[m];
    forall t | t in r.spans && !r.spans[t].isUse
      ensures r.spans[t].n < NPAGES && t in r.lists[r.spans[t].n]
    {
      if t == x {
        assert r.lists[m][0] == x;
      } else {
        assert t in st.lists[st.spans[t].n];
      }
    }
  }

  /** Only pages of `x` get new entries, and its first and last page get `x`. */
  lemma FinishWrites<S>(st: State<S>, x: S)
    requires Releasing(st, x)
    ensures forall p :: !st.spans[x].Has(p) ==> SameTag(st.tags, Finish(st, x).tags, p)
    ensures Tagged(Finish(st, x).tags, x, Finish(st, x).spans[x])
    ensures Finish(st, x).tags.Keys <= st.owned
  {
    hide Listed, Held;
    var g := st.spans[x];
    assert g.Has(g.page) && g.Has(g.Last());
  }

  lemma FinishTagged<S>(st: State<S>, x: S, t: S)
    requires Releasing(st, x) && t in st.spans && t != x
    ensures Tagged(Finish(st, x).tags, t, st.spans[t])
  {
    FinishWrites(st, x);
    hide Covers, Listed, Held, Finish;
    forall p | st.spans[t].Has(p) ensures SameTag(st.tags, Finish(st, x).tags, p) {
      assert !st.spans[x].Has(p);
    }
    TaggedFrame(st.tags, Finish(st, x).tags, t, st.spans[t]);
  }

  lemma FinishCovers<S>(st: State<S>, x: S)
    requires Releasing(st, x)
    ensures Disjoint(Finish(st, x).spans) && Covers(Finish(st, x).spans, st.owned) && Finish(st, x).owned == st.owned
  {
    hide Listed, Covers, Held, Inside;
    SameRangesCover(st.spans, Finish(st, x).spans, st.owned);
  }

  lemma FinishAllTagged<S>(st: State<S>, x: S)
    requires Releasing(st, x)
    ensures forall t :: t in Finish(st, x).spans ==> Tagged(Finish(st, x).tags, t, Finish(st, x).spans[t])
  {
    hide Disjoint, Covers, Listed, Tagged;
    FinishWrites(st, x);
    forall t | t in Finish(st, x).spans && t != x ensures Tagged(Finish(st, x).tags, t, Finish(st, x).spans[t]) {
      FinishTagged(st, x, t);
    }
  }

  lemma FinishKeeps<S>(st: State<S>, x: S)
    requires Releasing(st, x)
    ensures Inv(Finish(st, x))
  {
    hide Disjoint, Covers, Listed, Tagged, Finish;
    FinishCovers(st, x);
    FinishListed(st, x);
    FinishWrites(st, x);
    FinishAllTagged(st, x);
  }

  lemma StartRelease<S>(st: State<S>, x: S)
    requires Inv(st) && x in st.spans && st.spans[x].isUse
    ensures Releasing(st, x)
  {
    hide Disjoint, Covers, Listed, Tagged;
  }

  ghost function MergeBoth<S>(st: State<S>, x: S): State<S>
    requires Releasing(st, x)
  {
    hide Sound;
    MergeBackKeeps(st, x);
    MergeForward(MergeBack(st, x), x)
  }

  lemma MergeBothKeeps<S>(st: State<S>, x: S)
    requires Releasing(st, x)
    ensures var r := MergeBoth(st, x);
      Releasing(r, x) && Merged(st, r, x) && !CanBack(r, x) && !CanForward(r, x)
  {
    hide Sound, CanBack, CanForward, MergeBack, MergeForward;
    MergeBackKeeps(st, x);
    MergeForwardKeeps(MergeBack(st, x), x);
  }

  /** ReleaseSpanToPageCache. */
  ghost function Release<S>(st: State<S>, x: S): State<S>
    requires Releasing(st, x)
  {
    hide Sound;
    MergeBothKeeps(st, x);
    Finish(MergeBoth(st, x), x)
  }

  lemma FinishInUse<S>(st: State<S>, mid: State<S>, x: S)
    requires Releasing(mid, x) && Merged(st, mid, x)
    ensures InUseKept(st, Finish(mid, x), {x})
  {
    FinishWrites(mid, x);
    hide Covers, Listed, Tagged;
    forall t, p | t in st.spans && st.spans[t].isUse && t != x && st.spans[t].Has(p)
      ensures SameTag(st.tags, Finish(mid, x).tags, p)
    {
      assert mid.spans[t] == st.spans[t];
      assert !mid.spans[x].Has(p);
    }
  }

  /** Releasing keeps the invariant, gives every page of `x` back to one free span, and touches no
      other span in use. */
  lemma ReleaseKeeps<S>(st: State<S>, x: S)
    requires Inv(st) && x in st.spans && st.spans[x].isUse
    ensures Releasing(st, x)
    ensures var st' := Release(st, x);
      && Inv(st') && st'.owned == st.owned && InUseKept(st, st', {x})
      && st'.spans.Keys <= st.spans.Keys
      && x in st'.spans && !st'.spans[x].isUse && st'.spans[x].n <= NPAGES - 1
      && (forall p :: st.spans[x].Has(p) ==> st'.spans[x].Has(p))
      && (forall t :: t in st'.spans && t != x ==> st'.spans[t] == st.spans[t])
  {
    StartRelease(st, x);
    MergeBothKeeps(st, x);
    var mid := MergeBoth(st, x);
    FinishKeeps(mid, x);
    FinishInUse(st, mid, x);
    assert mid.spans[x].n <= NPAGES - 1 by { Basics(mid, x); }
    hide Sound, MergeBoth, CanBack, CanForward, InUseKept;
  }

  lemma Basics<S>(st: State<S>, x: S)
    requires Releasing(st, x)
    ensures 1 <= st.spans[x].page && 1 <= st.spans[x].n <= NPAGES - 1 && |st.lists| == NPAGES
    ensures forall y :: y in st.spans ==> 1 <= st.spans[y].n < NPAGES
  {
    hide Covers, Tagged;
  }

  /** No free span touching `x` could still be merged with it. */
  ghost predicate LocallyMaximal<S>(spans: map<S, Geo>, x: S) {
    && x in spans
    && forall t :: t in spans && t != x && !spans[t].isUse
         && (spans[t].page + spans[t].n == spans[x].page || spans[x].page + spans[x].n == spans[t].page)
         ==> spans[x].n + spans[t].n > NPAGES - 1
  }

  lemma StuckMaximal<S>(st: State<S>, x: S)
    requires Releasing(st, x) && !CanBack(st, x) && !CanForward(st, x)
    ensures LocallyMaximal(st.spans, x)
  {
    hide Covers, Listed;
    forall t | t in st.spans && t != x && !st.spans[t].isUse
      && (st.spans[t].page + st.spans[t].n == st.spans[x].page || st.spans[x].page + st.spans[x].n == st.spans[t].page)
      ensures st.spans[x].n + st.spans[t].n > NPAGES - 1
    {
      assert Tagged(st.tags, t, st.spans[t]);
    }
  }

  /** After a release no free neighbour of the merged span, tagged or not, would still fit with it. */
  lemma ReleaseMaximal<S>(st: State<S>, x: S)
    requires Inv(st) && x in st.spans && st.spans[x].isUse
    ensures Releasing(st, x) && LocallyMaximal(Release(st, x).spans, x)
  {
    StartRelease(st, x);
    MergeBothKeeps(st, x);
    StuckMaximal(MergeBoth(st, x), x);
    hide Sound, MergeBoth, CanBack, CanForward;
  }

  // ----- every run -----

  /** The two operations the central cache performs under the page lock. */
  datatype CacheStep<S> =
    | Ask(k: nat, big: S, base: nat, kid: S)
    | Return(x: S)

  ghost predicate Enabled<S>(st: State<S>, step: CacheStep<S>) {
    match step
    case Ask(k, big, base, kid) =>
      1 <= k < NPAGES && |st.lists| == NPAGES && FreshSpans(st, k, big, base, kid)
    case Return(x) =>
      x in st.spans && st.spans[x].isUse
  }

  ghost function Apply<S>(st: State<S>, step: CacheStep<S>): State<S>
    requires Inv(st) && Enabled(st, step)
  {
    match step
    case Ask(k, big, base, kid) =>
      NewSpanKeeps(st, k, big, base, kid);
      var (st', r) := NewSpan(st, k, big, base, kid);
      MarkInUse(st', r)
    case Return(x) =>
      StartRelease(st, x);
      Release(st, x)
  }

  lemma ApplyKeeps<S>(st: State<S>, step: CacheStep<S>)
    requires Inv(st) && Enabled(st, step)
    ensures Inv(Apply(st, step))
  {
    hide Sound, NewSpan, Release;
    match step
    case Ask(k, big, base, kid) => NewSpanKeeps(st, k, big, base, kid);
    case Return(x) => ReleaseKeeps(st, x);
  }

  /** `b` is what is left after `steps`, every one of which was allowed where it was taken. */
  ghost predicate Run<S>(a: State<S>, steps: seq<CacheStep<S>>, b: State<S>)
    requires Inv(a)
    decreases |steps|
  {
    if |steps| == 0 then a == b
    else
      Enabled(a, steps[0]) && (ApplyKeeps(a, steps[0]); Run(Apply(a, steps[0]), steps[1..], b))
  }

  lemma EmptyIsSound<S>()
    ensures Inv(Empty<S>())
  {
  }

  lemma {:induction false} RunKeeps<S>(a: State<S>, steps: seq<CacheStep<S>>, b: State<S>)
    requires Inv(a) && Run(a, steps, b)
    ensures Inv(b)
    decreases |steps|
  {
    hide Sound, Apply;
    if |steps| > 0 {
      ApplyKeeps(a, steps[0]);
      RunKeeps(Apply(a, steps[0]), steps[1..], b);
    }
  }

  ghost predicate HeldOnce<S>(spans: map<S, Geo>, p: nat) {
    exists s :: s in spans && spans[s].Has(p) && forall t :: t in spans && spans[t].Has(p) ==> t == s
  }

  lemma HeldByOne<S>(spans: map<S, Geo>, owned: set<nat>, p: nat)
    requires Disjoint(spans) && Covers(spans, owned) && p in owned
    ensures HeldOnce(spans, p)
  {
    assert Held(spans, p);
    var s :| s in spans && spans[s].Has(p);
    assert forall t :: t in spans && spans[t].Has(p) ==> t == s;
  }

  lemma ListedExactly<S>(spans: map<S, Geo>, lists: seq<seq<S>>, i: nat, s: S)
    requires Listed(spans, lists, {}) && i < NPAGES
    ensures s in lists[i] <==> s in spans && !spans[s].isUse && spans[s].n == i
  {
  }

  /** After any run from the empty cache: each page obtained from the system lies in exactly one span and
      no span holds any other page; the list of i-page spans holds exactly the free spans of i pages, once each. */
  lemma RunPartition<S>(steps: seq<CacheStep<S>>, b: State<S>)
    requires (EmptyIsSound<S>(); Run(Empty(), steps, b))
    ensures forall p :: p in b.owned ==> HeldOnce(b.spans, p)
    ensures forall s, p :: s in b.spans && b.spans[s].Has(p) ==> p in b.owned
    ensures |b.lists| == NPAGES
    ensures forall i, s :: 0 <= i < NPAGES ==>
      (s in b.lists[i] <==> s in b.spans && !b.spans[s].isUse && b.spans[s].n == i)
    ensures forall i :: 0 <= i < NPAGES ==> NoDup(b.lists[i])
  {
    EmptyIsSound<S>();
    RunKeeps(Empty(), steps, b);
    forall p | p in b.owned ensures HeldOnce(b.spans, p) {
      HeldByOne(b.spans, b.owned, p);
    }
    forall i, s | 0 <= i < NPAGES
      ensures s in b.lists[i] <==> s in b.spans && !b.spans[s].isUse && b.spans[s].n == i
    {
      ListedExactly(b.spans, b.lists, i, s);
    }
    hide Disjoint, Tagged, NoDup, Held, HeldOnce, Run;
  }

  /** A span in use that every page leads back to stays that way through any allowed step but its own release. */
  lemma CompleteStays<S>(st: State<S>, step: CacheStep<S>, x: S)
    requires Inv(st) && Enabled(st, step) && x in st.spans && st.spans[x].isUse
    requires Complete(st.tags, x, st.spans[x]) && step != Return(x)
    ensures var st' := Apply(st, step);
      x in st'.spans && st'.spans[x] == st.spans[x] && Complete(st'.tags, x, st'.spans[x])
  {
    hide Sound, Apply, Complete, SameTag;
    StepKeepsUsed(st, step);
    CompleteKept(st, Apply(st, step), if step.Return? then {step.x} else {}, x);
  }

  lemma StepKeepsUsed<S>(st: State<S>, step: CacheStep<S>)
    requires Inv(st) && Enabled(st, step)
    ensures InUseKept(st, Apply(st, step), if step.Return? then {step.x} else {})
  {
    hide Sound, NewSpan, Release, InUseKept;
    match step
    case Ask(k, big, base, kid) => NewSpanKeeps(st, k, big, base, kid);
    case Return(y) => ReleaseKeeps(st, y);
  }

  lemma CompleteKept<S>(a: State<S>, b: State<S>, but: set<S>, x: S)
    requires InUseKept(a, b, but) && x in a.spans && a.spans[x].isUse && x !in but && Complete(a.tags, x, a.spans[x])
    ensures x in b.spans && b.spans[x] == a.spans[x] && Complete(b.tags, x, b.spans[x])
  {
    forall p | a.spans[x].Has(p) ensures p in b.tags && b.tags[p] == x {
      assert SameTag(a.tags, b.tags, p);
    }
  }

  // ----- where looking up the owner of a page goes wrong -----

  ghost predicate OnlyList(lists: seq<seq<nat>>, i: nat, s: nat) {
    && i < |lists| == NPAGES && lists[i] == [s]
    && forall j :: 0 <= j < NPAGES && j != i ==> |lists[j]| == 0
  }

  ghost predicate Looks(st: State<nat>, spans: map<nat, Geo>, tags: map<nat, nat>, base: nat, i: nat, s: nat) {
    st.spans == spans && st.tags == tags && st.owned == PagesOf(Geo(base, NPAGES - 1, false)) &&
      OnlyList(st.lists, i, s)
  }

  /** 128 pages just obtained, no page mapped. */
  ghost predicate FreshWhole(st: State<nat>, base: nat) {
    Looks(st, map[0 := Geo(base, NPAGES - 1, false)], map[], base, NPAGES - 1, 0)
  }

  /** One page taken from them: span 1 in use, span 0 holds the other 127. */
  ghost predicate OneTaken(st: State<nat>, base: nat) {
    Looks(st, map[0 := Geo(base + 1, NPAGES - 2, false), 1 := Geo(base, 1, true)],
          map[base := 1, base + 1 := 0, base + NPAGES - 2 := 0], base, NPAGES - 2, 0)
  }

  /** The page given back: span 0 was merged into span 1 and deleted, but page base+1 still names it. */
  ghost predicate OneReturned(st: State<nat>, base: nat) {
    Looks(st, map[1 := Geo(base, NPAGES - 1, false)],
          map[base := 1, base + 1 := 0, base + NPAGES - 2 := 1], base, NPAGES - 1, 1)
  }

  lemma SplitFresh(st: State<nat>, base: nat)
    requires FreshWhole(st, base)
    ensures OneTaken(MarkInUse(Split(PopFront(st, NPAGES - 1), 0, 1, 1), 1), base)
  {
    var r := Split(PopFront(st, NPAGES - 1), 0, 1, 1);
    var m := map p: nat | base <= p < base + 1 && Geo(base, 1, false).Has(p) :: 1 as nat;
    assert m.Keys == {base};
    assert r.lists[NPAGES - 2] == [0];
  }

  lemma TakeFresh(st: State<nat>, base: nat)
    requires Inv(st) && FreshWhole(st, base)
    ensures FirstFit(st.lists, 1) < NPAGES && Take(st, 1, 1) == (Split(PopFront(st, NPAGES - 1), 0, 1, 1), 1)
  {
    hide Sound, Split;
    assert FirstFit(st.lists, 1) == NPAGES - 1;
    assert FirstFit(st.lists, 2) == NPAGES - 1;
  }

  lemma FirstRefill(base: nat) returns (r: State<nat>)
    requires 1 <= base
    ensures r == Refill(Empty<nat>(), 0, base) && Inv(r) && FreshWhole(r, base)
  {
    EmptyIsSound<nat>();
    r := Refill(Empty<nat>(), 0, base);
    RefillKeeps(Empty<nat>(), 0, base);
    hide Sound;
  }

  lemma NothingFits(k: nat)
    requires k < NPAGES
    ensures |Empty<nat>().lists| == NPAGES && FirstFit(Empty<nat>().lists, k) == NPAGES && |Empty<nat>().lists[k]| == 0
  {
  }

  lemma TakeOne(base: nat)
    requires 1 <= base
    ensures Inv(Empty<nat>()) && Enabled(Empty<nat>(), Ask(1, 0, base, 1))
    ensures OneTaken(Apply(Empty<nat>(), Ask(1, 0, base, 1)), base)
  {
    hide Sound, Split, PopFront, Refill, MarkInUse, Take, FreshWhole, OneTaken;
    EmptyIsSound<nat>();
    var r := FirstRefill(base);
    TakeFresh(r, base);
    SplitFresh(r, base);
    NothingFits(1);
  }

  ghost predicate OneMerged(st: State<nat>, base: nat) {
    && st.spans == map[1 := Geo(base, NPAGES - 1, true)]
    && st.tags == map[base := 1, base + 1 := 0, base + NPAGES - 2 := 0]
    && st.owned == PagesOf(Geo(base, NPAGES - 1, false))
    && |st.lists| == NPAGES && forall j :: 0 <= j < NPAGES ==> |st.lists[j]| == 0
  }

  lemma MergeOne(base: nat, st: State<nat>)
    requires 1 <= base && Releasing(st, 1) && OneTaken(st, base)
    ensures !CanBack(st, 1) && CanForward(st, 1) && OneMerged(ForwardOnce(st, 1), base)
  {
    hide Sound, Mergeable, Merged;
  }

  lemma MergeNoMore(base: nat, st: State<nat>)
    requires 1 <= base && Releasing(st, 1) && OneMerged(st, base)
    ensures MergeForward(st, 1) == st && OneReturned(Finish(st, 1), base)
  {
    hide Sound;
    assert !CanForward(st, 1);
    var f := Finish(st, 1);
    assert f.lists[NPAGES - 1] == [1];
    assert f.tags == map[base := 1, base + 1 := 0, base + NPAGES - 2 := 1];
  }

  lemma ReturnOne(base: nat, st: State<nat>)
    requires 1 <= base && Inv(st) && OneTaken(st, base)
    ensures Enabled(st, Return(1)) && OneReturned(Apply(st, Return(1)), base)
  {
    StartRelease(st, 1);
    MergeOne(base, st);
    var m := ForwardOnce(st, 1);
    MergeNoMore(base, m);
    hide Sound, Merged, ForwardOnce, CanBack, CanForward, OneReturned, OneMerged, Finish;
  }

  lemma TakeWhole(base: nat, st: State<nat>)
    requires 1 <= base && Inv(st) && OneReturned(st, base)
    ensures Enabled(st, Ask(NPAGES - 1, 2, base + NPAGES, 3))
    ensures var b := Apply(st, Ask(NPAGES - 1, 2, base + NPAGES, 3));
      b.spans == map[1 := Geo(base, NPAGES - 1, true)] && base + 1 in b.tags && b.tags[base + 1] == 0
  {
    hide Sound;
  }

  lemma NoSteps<S>(a: State<S>)
    requires Inv(a)
    ensures Run(a, [], a)
  {
  }

  lemma OneStep<S>(a: State<S>, step: CacheStep<S>, rest: seq<CacheStep<S>>, b: State<S>)
    requires Inv(a) && Enabled(a, step) && (ApplyKeeps(a, step); Run(Apply(a, step), rest, b))
    ensures Run(a, [step] + rest, b)
  {
    hide Sound, Enabled, Apply;
    assert ([step] + rest)[1..] == rest;
  }

  lemma RunThree<S>(s0: State<S>, a0: CacheStep<S>, a1: CacheStep<S>, a2: CacheStep<S>)
    requires Inv(s0) && Enabled(s0, a0)
    requires (ApplyKeeps(s0, a0); Enabled(Apply(s0, a0), a1))
    requires (ApplyKeeps(s0, a0); ApplyKeeps(Apply(s0, a0), a1); Enabled(Apply(Apply(s0, a0), a1), a2))
    ensures Inv(Apply(s0, a0)) && Inv(Apply(Apply(s0, a0), a1))
    ensures Run(s0, [a0, a1, a2], Apply(Apply(Apply(s0, a0), a1), a2))
  {
    hide Sound, Enabled, Apply, Run;
    ApplyKeeps(s0, a0);
    var s1 := Apply(s0, a0);
    ApplyKeeps(s1, a1);
    var s2 := Apply(s1, a1);
    ApplyKeeps(s2, a2);
    var s3 := Apply(s2, a2);
    NoSteps(s3);
    OneStep(s2, a2, [], s3);
    assert [a2] + [] == [a2];
    OneStep(s1, a1, [a2], s3);
    assert [a1] + [a2] == [a1, a2];
    OneStep(s0, a0, [a1, a2], s3);
    assert [a0] + [a1, a2] == [a0, a1, a2];
  }

  /** A run of three calls after which page base+1 of a span in use leads to a deleted span:
      take one page, give it back (it swallows the 127-page rest), take 128 pages. */
  lemma StaleInteriorTag(base: nat) returns (b: State<nat>)
    requires 1 <= base
    ensures (EmptyIsSound<nat>();
             Run(Empty(), [Ask(1, 0, base, 1), Return(1), Ask(NPAGES - 1, 2, base + NPAGES, 3)], b))
    ensures b.spans == map[1 := Geo(base, NPAGES - 1, true)]
    ensures base + 1 in b.tags && b.tags[base + 1] == 0
  {
    var s0, a0, a1, a2 := Empty<nat>(), Ask(1, 0, base, 1), Return(1), Ask(NPAGES - 1, 2, base + NPAGES, 3);
    TakeOne(base);
    ApplyKeeps(s0, a0);
    var s1 := Apply(s0, a0);
    ReturnOne(base, s1);
    ApplyKeeps(s1, a1);
    var s2 := Apply(s1, a1);
    TakeWhole(base, s2);
    b := Apply(s2, a2);
    RunThree(s0, a0, a1, a2);
    hide *;
  }

  // ----- two spans next to each other -----

  /** k pages taken off the head of 128 fresh ones. */
  ghost predicate HeadTaken(st: State<nat>, base: nat, k: nat) {
    && k < NPAGES - 1 && OnlyList(st.lists, NPAGES - 1 - k, 0)
    && st.spans == map[0 := Geo(base + k, NPAGES - 1 - k, false), 1 := Geo(base, k, true)]
  }

  lemma SplitHead(st: State<nat>, base: nat, k: nat)
    requires FreshWhole(st, base) && 1 <= k < NPAGES - 1
    ensures 1 in Split(PopFront(st, NPAGES - 1), 0, k, 1).spans
    ensures HeadTaken(MarkInUse(Split(PopFront(st, NPAGES - 1), 0, k, 1), 1), base, k)
  {
    var r := Split(PopFront(st, NPAGES - 1), 0, k, 1);
    assert r.lists[NPAGES - 1 - k] == [0];
  }

  lemma TakeHead(st: State<nat>, base: nat, k: nat)
    requires Inv(st) && FreshWhole(st, base) && 1 <= k < NPAGES - 1
    ensures FirstFit(st.lists, k) < NPAGES && Take(st, k, 1) == (Split(PopFront(st, NPAGES - 1), 0, k, 1), 1)
  {
    hide Sound, Split;
    assert FirstFit(st.lists, k) == NPAGES - 1;
    assert FirstFit(st.lists, k + 1) == NPAGES - 1;
  }

  /** The first request of a new page cache: the span returned is at the head of the pages obtained. */
  lemma FirstRequest(base: nat, k: nat)
    requires 1 <= base && 1 <= k < NPAGES - 1
    ensures Inv(Empty<nat>()) && |Empty<nat>().lists| == NPAGES && FreshSpans(Empty<nat>(), k, 0, base, 1)
    ensures FirstFit(Empty<nat>().lists, k) == NPAGES && |Empty<nat>().lists[k]| == 0
    ensures var (st, s) := NewSpan(Empty<nat>(), k, 0, base, 1);
      s == 1 && 1 in st.spans && HeadTaken(MarkInUse(st, 1), base, k)
  {
    hide Sound, Split, PopFront, Refill, MarkInUse, Take, FreshWhole, HeadTaken;
    EmptyIsSound<nat>();
    var r := FirstRefill(base);
    NothingFits(k);
    TakeHead(r, base, k);
    SplitHead(r, base, k);
  }

  /** The next request, for one page: its span begins where the first one ends. */
  lemma NextRequest(st: State<nat>, base: nat, k: nat)
    requires Inv(st) && HeadTaken(st, base, k) && 1 <= k < NPAGES - 2
    ensures |st.lists| == NPAGES && FreshSpans(st, 1, 2, base, 2) && |st.lists[1]| == 0
    ensures FirstFit(st.lists, 1) == NPAGES - 1 - k
    ensures var (n, s) := NewSpan(st, 1, 2, base, 2);
      && s == 2 && 2 in n.spans && n.spans[2].page == base + k && n.spans[2].n == 1
      && 1 in n.spans && n.spans[1] == Geo(base, k, true)
  {
    hide Sound;
    var i := NPAGES - 1 - k;
    assert |st.lists[i]| > 0;
    assert FirstFit(st.lists, 1) == i && FirstFit(st.lists, 2) == i;
  }
}
