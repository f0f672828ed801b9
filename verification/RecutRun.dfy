/** A run of the pool after which a span is cut again and the new free list runs in a circle. */
module RecutRun {
  import opened Pages
  import opened Stores
  import opened Pools
  import opened PoolProofs
  import opened PoolMemory
  import opened PoolTheorems
  import opened Overlap
  import opened OverlapRun
  import opened Lookups
  import opened Recarving
  import SC = SizeClass
  import Ch = Chains

  // ----- the page cache -----

  /** 128 pages from page 1 on, free and in one span. */
  ghost predicate WholeFree(st: Pages.State<nat>) {
    OnlyList(st.lists, NPAGES - 1, 1) && st.spans == map[1 := Geo(1, NPAGES - 1, false)]
  }

  lemma HeadOwned(st: Pages.State<nat>, k: nat)
    requires Inv(st) && HeadTaken(st, 1, k) && 1 <= k
    ensures forall p :: p in st.owned <==> 1 <= p < NPAGES
  {
    hide Disjoint, Listed, Tagged;
    forall p ensures p in st.owned <==> 1 <= p < NPAGES {
      if p in st.owned {
        assert Pages.Held(st.spans, p);
      }
      if 1 <= p < NPAGES {
        assert if p < 1 + k then st.spans[1].Has(p) else st.spans[0].Has(p);
      }
    }
  }

  /** The rest behind the head has been merged into it. */
  lemma Gone(spans: map<nat, Geo>, k: nat)
    requires Disjoint(spans) && LocallyMaximal(spans, 1) && !spans[1].isUse
    requires spans[1].page == 1 && k <= spans[1].n && k < NPAGES - 1
    ensures 0 in spans ==> spans[0] != Geo(1 + k, NPAGES - 1 - k, false)
  {
  }

  /** Span 1 keeps the pages it had and gets no page that was not obtained. */
  lemma Spread(spans: map<nat, Geo>, owned: set<nat>, k: nat)
    requires Pages.Inside(spans, owned) && 1 in spans && 1 <= k <= NPAGES - 1
    requires (forall p :: p in owned ==> 1 <= p < NPAGES)
    requires forall p :: 1 <= p < 1 + k ==> spans[1].Has(p)
    ensures spans[1].page == 1 && k <= spans[1].n <= NPAGES - 1
  {
    var g := spans[1];
    assert spans[1].Has(1) && spans[1].Has(k);
    assert spans[1].Has(g.page) && spans[1].Has(g.page + g.n - 1);
    assert g.page in owned && g.page + g.n - 1 in owned;
  }

  lemma MergedWhole(st: Pages.State<nat>, k: nat, r: Pages.State<nat>)
    requires Inv(st) && HeadTaken(st, 1, k) && 1 <= k && Inv(r) && r.owned == st.owned
    requires r.spans.Keys <= st.spans.Keys && 1 in r.spans && (0 in r.spans ==> r.spans[0] == st.spans[0])
    requires !r.spans[1].isUse && LocallyMaximal(r.spans, 1) && forall p :: st.spans[1].Has(p) ==> r.spans[1].Has(p)
    ensures r.spans == map[1 := Geo(1, NPAGES - 1, false)]
  {
    hide Listed, Tagged, Disjoint, LocallyMaximal;
    HeadOwned(st, k);
    forall p | 1 <= p < 1 + k ensures r.spans[1].Has(p) {
      assert st.spans[1].Has(p);
    }
    Spread(r.spans, r.owned, k);
    Gone(r.spans, k);
    LastHeld(r.spans, r.owned);
  }

  lemma LastHeld(spans: map<nat, Geo>, owned: set<nat>)
    requires Covers(spans, owned) && spans.Keys == {1} && NPAGES - 1 in owned && spans[1].page == 1
    requires spans[1].n <= NPAGES - 1
    ensures spans[1].n == NPAGES - 1
  {
    assert Pages.Held(spans, NPAGES - 1);
  }

  lemma SomeMember(xs: seq<nat>)
    ensures |xs| > 0 ==> exists s :: s in xs
  {
    assert |xs| > 0 ==> xs[0] in xs;
  }

  lemma SameMember(xs: seq<nat>)
    requires NoDup(xs)
    ensures |xs| > 1 ==> exists s, t :: s in xs && t in xs && s != t
    ensures forall s :: |xs| == 1 && s in xs ==> xs == [s]
  {
    assert |xs| > 1 ==> xs[0] in xs && xs[1] in xs;
  }

  lemma OnlyWhole(st: Pages.State<nat>)
    requires Inv(st) && st.spans == map[1 := Geo(1, NPAGES - 1, false)]
    ensures WholeFree(st)
  {
    hide Disjoint, Covers, Tagged;
    forall j, s | 0 <= j < NPAGES ensures s in st.lists[j] <==> s == 1 && j == NPAGES - 1 {
      ListedExactly(st.spans, st.lists, j, s);
    }
    forall j | 0 <= j < NPAGES && j != NPAGES - 1 ensures |st.lists[j]| == 0 {
      SomeMember(st.lists[j]);
    }
    SomeMember(st.lists[NPAGES - 1]);
    SameMember(st.lists[NPAGES - 1]);
    assert 1 in st.lists[NPAGES - 1];
  }

  /** The head given back: all 128 pages are one free span again. */
  lemma HeadReturned(st: Pages.State<nat>, k: nat)
    requires Inv(st) && HeadTaken(st, 1, k) && 1 <= k
    ensures Releasing(st, 1) && Inv(Release(st, 1)) && WholeFree(Release(st, 1))
  {
    hide Sound, Release, LocallyMaximal;
    ReleaseKeeps(st, 1);
    ReleaseMaximal(st, 1);
    MergedWhole(st, k, Release(st, 1));
    OnlyWhole(Release(st, 1));
  }

  /** The next request of the same page count gets the same pages. */
  lemma HeadAgain(st: Pages.State<nat>, k: nat)
    requires Inv(st) && WholeFree(st) && 1 <= k < NPAGES - 1
    ensures |st.lists| == NPAGES && FreshSpans(st, k, 2, 1, 2)
    ensures var (s, r) := NewSpan(st, k, 2, 1, 2);
      r == 2 && 2 in s.spans && s.spans[2] == Geo(1, k, false)
  {
    hide Sound;
    assert |st.lists[NPAGES - 1]| > 0;
    assert FirstFit(st.lists, k) == NPAGES - 1 && FirstFit(st.lists, k + 1) == NPAGES - 1;
  }

  /** Span 1 has the first 124 pages, and each of them leads back to it. */
  ghost predicate HasHead(st: Pages.State<nat>) { HeadTaken(st, 1, 124) && Complete(st.tags, 1, Geo(1, 124, true)) }

  lemma HeadComplete()
    ensures Inv(Empty<nat>()) && |Empty<nat>().lists| == NPAGES && FreshSpans(Empty<nat>(), 124, 0, 1, 1)
    ensures var (st, r) := NewSpan(Empty<nat>(), 124, 0, 1, 1);
      r == 1 && 1 in st.spans && HasHead(MarkInUse(st, 1))
  {
    hide Sound, NewSpan, FreshSpans, HeadTaken;
    FirstRequest(1, 124);
    NewSpanComplete(Empty<nat>(), 124, 0, 1, 1);
    var (st, r) := NewSpan(Empty<nat>(), 124, 0, 1, 1);
    HeadIs(MarkInUse(st, 1), 1, 124);
    forall p | Geo(1, 124, true).Has(p) ensures p in st.tags && st.tags[p] == 1 {
      assert st.spans[1].Has(p);
    }
  }

  // ----- two threads, one bucket, one span -----

  /** The bucket of 248K objects: two of them fill a span of 124 pages. */
  const I: nat := BUCKETS - 2
  const FIRST: nat := 4096
  const SECOND: nat := 258048

  lemma HeadHere(st: Pages.State<nat>)
    requires HasHead(st)
    ensures HeadTaken(st, 1, 124) && 1 in st.spans && st.spans[1] == Geo(1, 124, true)
    ensures Found(st, FIRST) && Found(st, SECOND)
  {
    assert st.spans[1].Has(1) && st.spans[1].Has(63);
    assert FIRST / PAGE == 1 && SECOND / PAGE == 63;
  }

  lemma TwoFill()
    ensures I < BUCKETS && Size(I) == 253952 && SC.NumMoveSize(Size(I)) == 2 && SpanPages(I) == 124
    ensures forall use :: Objs(Geo(1, 124, use), I) == [FIRST, SECOND]
  {
    Ch.TwoObjects(FIRST, 253952);
  }

  /** What there is to see of a thread: where it is, and limit, list and chain for the bucket. */
  datatype Look = Look(pc: Pc<nat>, max: nat, list: seq<nat>, flight: seq<nat>)

  /** Threads 0 and 1, the bucket, span 1 if it is cut, and what callers hold. */
  datatype Shot = Shot(k: Look, l: Look, bucket: seq<nat>, locked: bool, cut: bool, use: int, free: seq<nat>,
                       held: map<nat, nat>)
  {
    function Of(t: nat): Look { if t == 0 then k else l }
    function With(t: nat, look: Look): Shot { if t == 0 then this.(k := look) else this.(l := look) }
  }

  ghost predicate Sees(m: Pool<nat>, t: nat, look: Look) {
    && t in m.threads && m.threads[t].pc == look.pc && |m.threads[t].maxSize| == BUCKETS &&
         m.threads[t].maxSize[I] == look.max
    && InThread(t, I) in m.store.at && m.store.at[InThread(t, I)] == look.list
    && InFlight(t) in m.store.at && m.store.at[InFlight(t)] == look.flight
  }

  ghost predicate Shows(m: Pool<nat>, s: Shot) { Good(m) && Seen(m, s) }

  ghost predicate Seen(m: Pool<nat>, s: Shot) { Sees(m, 0, s.k) && Sees(m, 1, s.l) && Rest(m, s) }

  ghost predicate Rest(m: Pool<nat>, s: Shot) {
    && |m.buckets| == BUCKETS && m.buckets[I] == s.bucket && (I in m.locks <==> s.locked) && m.store.held == s.held
    && (if s.cut then m.carved == map[1 := Info(I, s.use)] && InSpan(1) in m.store.at && m.store.at[InSpan(1)] == s.free
        else m.carved == map[])
  }

  /** The other threads and their lists are as they were. */
  ghost predicate Beside(m: Pool<nat>, n: Pool<nat>, t: nat) {
    && (forall u :: u in m.threads && u != t ==> u in n.threads && n.threads[u] == m.threads[u])
    && (forall p :: p in m.store.at && p != InFlight(t) && p != InThread(t, I) && p != InSpan(1) ==>
          p in n.store.at && n.store.at[p] == m.store.at[p])
  }

  lemma Together(m: Pool<nat>, s: Shot, t: nat, n: Pool<nat>, look: Look, r: Shot)
    requires Seen(m, s) && t <= 1 && Beside(m, n, t) && Sees(n, t, look) && Rest(n, r) && r.k == s.k && r.l == s.l
    ensures Seen(n, r.With(t, look))
  {
  }

  lemma MissSeen(m: Pool<nat>, s: Shot, t: nat)
    requires Seen(m, s) && t <= 1 && SC.NumMoveSize(Size(I)) == 2
    ensures t in m.threads && I < |m.threads[t].maxSize|
    ensures var k, n := s.Of(t), DoMiss(m, t, I);
      && n.pages == m.pages
      && Seen(n, s.With(t, k.(pc := WantSpan(I, Min(k.max, 2)), max := if k.max <= 2 then k.max + 1 else k.max)))
  {
    hide Beside, Size, SC.NumMoveSize;
    var k := s.Of(t);
    MissSees(m, t, k);
    var look := k.(pc := WantSpan(I, Min(k.max, 2)), max := if k.max <= 2 then k.max + 1 else k.max);
    Together(m, s, t, DoMiss(m, t, I), look, s);
  }

  lemma MissSees(m: Pool<nat>, t: nat, k: Look)
    requires Sees(m, t, k) && SC.NumMoveSize(Size(I)) == 2
    ensures var n := DoMiss(m, t, I);
      && Sees(n, t, k.(pc := WantSpan(I, Min(k.max, 2)), max := if k.max <= 2 then k.max + 1 else k.max))
      && Beside(m, n, t)
  {
    hide Size, SC.NumMoveSize;
  }

  lemma MissStep(m: Pool<nat>, s: Shot, t: nat)
    requires Shows(m, s) && t <= 1 && s.Of(t).pc.Idle? && s.Of(t).list == []
    ensures CanTake(m, Miss(t, Size(I)))
    ensures var k, n := s.Of(t), Next(m, Miss(t, Size(I)));
      && n.pages == m.pages
      && Shows(n, s.With(t, k.(pc := WantSpan(I, Min(k.max, 2)), max := if k.max <= 2 then k.max + 1 else k.max)))
  {
    hide Pages.Inv, Arranged, Domain, Spans, Counts, Roles, Owners, Threads, Locks, Size, SC.NumMoveSize, Seen, Sees,
         DoMiss;
    LookAt(m, s, t);
    TwoFill();
    SizeOfBucket(I);
    Facts(m, t);
    MissSeen(m, s, t);
    NextKeeps(m, Miss(t, Size(I)));
  }

  lemma FindNothing(m: Pool<nat>, s: Shot, t: nat)
    requires Shows(m, s) && t <= 1 && s.Of(t).pc.WantSpan? && s.Of(t).pc.i == I && s.bucket == [] && !s.locked
    ensures CanTake(m, Find(t))
    ensures var n := Next(m, Find(t));
      n.pages == m.pages && Shows(n, s.With(t, s.Of(t).(pc := NoSpan(I, s.Of(t).pc.batch))))
  {
    hide Pages.Inv, Arranged, Domain, Spans, Counts, Roles, Owners, Threads, Locks, IsFirstFree, Seen, Sees;
    LookAt(m, s, t);
    Facts(m, t);
    NothingFree(m, I);
    PcSeen(m, s, t, NoSpan(I, s.Of(t).pc.batch));
    NextKeeps(m, Find(t));
  }

  lemma PcSeen(m: Pool<nat>, s: Shot, t: nat, pc: Pc<nat>)
    requires Seen(m, s) && t <= 1
    ensures t in m.threads
    ensures var n := SetPc(m, t, pc); Seen(n, s.With(t, s.Of(t).(pc := pc))) && n.pages == m.pages
  {
    hide Beside;
    PcSees(m, t, s.Of(t), pc);
    Together(m, s, t, SetPc(m, t, pc), s.Of(t).(pc := pc), s);
  }

  lemma PcSees(m: Pool<nat>, t: nat, k: Look, pc: Pc<nat>)
    requires Sees(m, t, k)
    ensures Sees(SetPc(m, t, pc), t, k.(pc := pc)) && Beside(m, SetPc(m, t, pc), t)
  {
  }

  lemma OtherPages(m: Pool<nat>, s: Shot, pages: Pages.State<nat>, role: map<nat, Role>)
    requires Seen(m, s)
    ensures Seen(m.(pages := pages, role := role), s)
  {
  }

  lemma FetchSees(m: Pool<nat>, t: nat, k: Look, a: nat, rest: seq<nat>)
    requires Sees(m, t, k) && k.flight == [] && 1 in m.carved && InSpan(1) in m.store.at
    requires m.store.at[InSpan(1)] == [a] + rest
    ensures var n := DoFetch(m, t, I, 1, 1);
      && Sees(n, t, k.(pc := Fetched(I), flight := [a])) && Beside(m, n, t)
      && InSpan(1) in n.store.at && n.store.at[InSpan(1)] == rest && n.store.held == m.store.held
  {
  }

  lemma FetchSeen(m: Pool<nat>, s: Shot, t: nat, a: nat, rest: seq<nat>)
    requires Seen(m, s) && t <= 1 && s.cut && s.free == [a] + rest && s.Of(t).flight == []
    ensures Seen(DoFetch(m, t, I, 1, 1),
      s.With(t, s.Of(t).(pc := Fetched(I), flight := [a])).(use := s.use + 1, free := rest))
  {
    hide Sees, Beside, MoveFront;
    There(m, t, s.Of(t));
    FetchSees(m, t, s.Of(t), a, rest);
    Together(m, s, t, DoFetch(m, t, I, 1, 1), s.Of(t).(pc := Fetched(I), flight := [a]),
      s.(use := s.use + 1, free := rest));
  }

  lemma There(m: Pool<nat>, t: nat, k: Look)
    requires Sees(m, t, k)
    ensures t in m.threads && InThread(t, I) in m.store.at && InFlight(t) in m.store.at
    ensures |m.threads[t].maxSize| == BUCKETS
    ensures m.store.at[InThread(t, I)] == k.list && m.store.at[InFlight(t)] == k.flight
    ensures m.threads[t].maxSize[I] == k.max
    ensures m.threads[t].pc == k.pc
  {
  }

  lemma FindStep(m: Pool<nat>, s: Shot, t: nat, a: nat)
    requires Shows(m, s) && t <= 1 && s.Of(t).pc == WantSpan(I, 1) && s.bucket == [1] && !s.locked && s.cut
    requires s.free == [a]
    requires s.Of(t).flight == []
    ensures CanTake(m, Find(t))
    ensures var n := Next(m, Find(t));
      && n.pages == m.pages
      && Shows(n, s.With(t, s.Of(t).(pc := Fetched(I), flight := [a])).(use := s.use + 1, free := []))
  {
    hide Pages.Inv, Arranged, Domain, Spans, Counts, Roles, Owners, Threads, Locks, DoFetch, Seen, Sees;
    LookAt(m, s, t);
    Facts(m, t);
    assert IsFirstFree(m, I, 0);
    assert SomeFree(m, I);
    assert IsFirstFree(m, I, FirstFree(m, I));
    FetchSeen(m, s, t, a, []);
    FetchBuckets(m, t);
    NextKeeps(m, Find(t));
  }

  lemma AttachSeen(m: Pool<nat>, s: Shot, t: nat, a: nat, b: nat)
    requires Seen(m, s) && t <= 1 && s.cut && s.free == [a, b] && s.Of(t).flight == [] && s.bucket == []
    ensures Seen(DoAttach(m, t, I, 1, 1),
                 s.With(t, s.Of(t).(pc := Fetched(I), flight := [a])).(use := s.use + 1, free := [b], bucket := [1]))
  {
    hide DoFetch;
    FetchSeen(m, s, t, a, [b]);
    FetchBuckets(m, t);
  }

  lemma FetchBuckets(m: Pool<nat>, t: nat)
    requires t in m.threads && 1 in m.carved && InSpan(1) in m.store.at && InFlight(t) in m.store.at
    ensures DoFetch(m, t, I, 1, 1).buckets == m.buckets && DoFetch(m, t, I, 1, 1).pages == m.pages
  {
  }

  lemma AttachStep(m: Pool<nat>, s: Shot, t: nat, a: nat, b: nat)
    requires Shows(m, s) && t <= 1 && s.Of(t).pc == SpanReady(I, 1, 1) && s.bucket == [] && !s.locked && s.cut
    requires s.free == [a, b]
    requires s.Of(t).flight == []
    ensures CanTake(m, Attach(t))
    ensures var n := Next(m, Attach(t));
      && n.pages == m.pages
      && Shows(n, s.With(t, s.Of(t).(pc := Fetched(I), flight := [a])).(use := s.use + 1, free := [b], bucket := [1]))
  {
    hide Pages.Inv, Arranged, Domain, Spans, Counts, Roles, Owners, Threads, Locks, DoFetch;
    Facts(m, t);
    ReadyFacts(m, t);
    AttachSeen(m, s, t, a, b);
    FetchBuckets(m, t);
    NextKeeps(m, Attach(t));
  }

  lemma DeliverSees(m: Pool<nat>, t: nat, k: Look, a: nat)
    requires Sees(m, t, k) && k.flight == [a] && k.list == [] && I < |m.threads[t].size|
    ensures var n := DoDeliver(m, t, I);
      && Sees(n, t, k.(pc := Idle, flight := [])) && Beside(m, n, t) && n.store.held == m.store.held[a := I]
      && (InSpan(1) in m.store.at ==> InSpan(1) in n.store.at && n.store.at[InSpan(1)] == m.store.at[InSpan(1)])
  {
  }

  lemma DeliverSeen(m: Pool<nat>, s: Shot, t: nat, a: nat)
    requires Seen(m, s) && t <= 1 && s.Of(t).flight == [a] && s.Of(t).list == [] && t in m.threads
    requires I < |m.threads[t].size|
    ensures InFlight(t) in m.store.at && |m.store.at[InFlight(t)]| > 0 && InThread(t, I) in m.store.at
    ensures var n := DoDeliver(m, t, I);
      n.pages == m.pages && Seen(n, s.With(t, s.Of(t).(pc := Idle, flight := [])).(held := s.held[a := I]))
  {
    hide Sees, Beside, MoveFront, ToHeld;
    There(m, t, s.Of(t));
    DeliverSees(m, t, s.Of(t), a);
    Together(m, s, t, DoDeliver(m, t, I), s.Of(t).(pc := Idle, flight := []), s.(held := s.held[a := I]));
  }

  lemma DeliverStep(m: Pool<nat>, s: Shot, t: nat, a: nat)
    requires Shows(m, s) && t <= 1 && s.Of(t).pc == Fetched(I) && s.Of(t).flight == [a] && s.Of(t).list == []
    ensures CanTake(m, Deliver(t))
    ensures var n := Next(m, Deliver(t));
      n.pages == m.pages && Shows(n, s.With(t, s.Of(t).(pc := Idle, flight := [])).(held := s.held[a := I]))
  {
    hide Pages.Inv, Arranged, Domain, Spans, Counts, Roles, Owners, Threads, Locks, DoDeliver;
    Facts(m, t);
    FetchedFacts(m, t);
    DeliverSeen(m, s, t, a);
    NextKeeps(m, Deliver(t));
  }

  lemma KeepSees(m: Pool<nat>, t: nat, k: Look, a: nat)
    requires Sees(m, t, k) && k.pc.Idle? && I < |m.threads[t].size| && m.threads[t].size[I] == |k.list|
    requires |k.list| + 1 < k.max
    ensures var n := DoFree(m, t, a, I);
      && Sees(n, t, k.(list := [a] + k.list)) && Beside(m, n, t) && n.store.held == m.store.held - {a}
      && (InSpan(1) in m.store.at ==> InSpan(1) in n.store.at && n.store.at[InSpan(1)] == m.store.at[InSpan(1)])
  {
  }

  lemma SpillSees(m: Pool<nat>, t: nat, k: Look, a: nat)
    requires Sees(m, t, k) && k.flight == [] && I < |m.threads[t].size| && m.threads[t].size[I] == |k.list|
    requires |k.list| + 1 == k.max
    ensures var n := DoFree(m, t, a, I);
      && Sees(n, t, k.(pc := WantRelease(I), list := [], flight := [a] + k.list)) && Beside(m, n, t)
      && n.store.held == m.store.held - {a}
      && (InSpan(1) in m.store.at ==> InSpan(1) in n.store.at && n.store.at[InSpan(1)] == m.store.at[InSpan(1)])
  {
    assert ([a] + k.list)[..k.max] == [a] + k.list;
  }

  lemma FreeRest(m: Pool<nat>, t: nat, a: nat)
    requires t in m.threads && InThread(t, I) in m.store.at && InFlight(t) in m.store.at
    requires |m.threads[t].maxSize| == BUCKETS
    requires I < |m.threads[t].size| && m.threads[t].size[I] == |m.store.at[InThread(t, I)]|
    ensures var n := DoFree(m, t, a, I);
      n.pages == m.pages && n.buckets == m.buckets && n.carved == m.carved && n.locks == m.locks
  {
    hide MoveFront, FromHeld;
    PushedSize(m.store, a, InThread(t, I));
  }

  lemma FreeSeen(m: Pool<nat>, s: Shot, t: nat, a: nat)
    requires Seen(m, s) && t <= 1 && s.Of(t).flight == [] && s.Of(t).pc.Idle?
    requires t in m.threads && I < |m.threads[t].size| && m.threads[t].size[I] == |s.Of(t).list|
    ensures InThread(t, I) in m.store.at && InFlight(t) in m.store.at && |m.threads[t].maxSize| == BUCKETS
    ensures m.store.at[InThread(t, I)] == s.Of(t).list
    ensures var k, n := s.Of(t), DoFree(m, t, a, I);
      && n.pages == m.pages
      && (|k.list| + 1 < k.max ==> Seen(n, s.With(t, k.(list := [a] + k.list)).(held := s.held - {a})))
      && (|k.list| + 1 == k.max ==>
            Seen(n, s.With(t, k.(pc := WantRelease(I), list := [], flight := [a] + k.list)).(held := s.held - {a})))
  {
    hide Sees, Beside, DoFree;
    var k := s.Of(t);
    There(m, t, k);
    FreeRest(m, t, a);
    var n := DoFree(m, t, a, I);
    if |k.list| + 1 < k.max {
      KeepSees(m, t, k, a);
      Together(m, s, t, n, k.(list := [a] + k.list), s.(held := s.held - {a}));
    } else if |k.list| + 1 == k.max {
      SpillSees(m, t, k, a);
      Together(m, s, t, n, k.(pc := WantRelease(I), list := [], flight := [a] + k.list), s.(held := s.held - {a}));
    }
  }

  lemma FreeStep(m: Pool<nat>, s: Shot, t: nat, a: nat)
    requires Shows(m, s) && t <= 1 && s.Of(t).pc.Idle? && a in s.held && s.held[a] == I && s.Of(t).flight == []
    ensures CanTake(m, Free(t, a, Size(I)))
    ensures var k, n := s.Of(t), Next(m, Free(t, a, Size(I)));
      && n.pages == m.pages
      && (|k.list| + 1 < k.max ==> Shows(n, s.With(t, k.(list := [a] + k.list)).(held := s.held - {a})))
      && (|k.list| + 1 == k.max ==>
            Shows(n, s.With(t, k.(pc := WantRelease(I), list := [], flight := [a] + k.list)).(held := s.held - {a})))
  {
    hide Pages.Inv, Arranged, Domain, Spans, Counts, Roles, Owners, Threads, Locks, Size, DoFree;
    SizeOfBucket(I);
    Facts(m, t);
    FreeSeen(m, s, t, a);
    NextKeeps(m, Free(t, a, Size(I)));
  }

  lemma LockStep(m: Pool<nat>, s: Shot, t: nat)
    requires Shows(m, s) && t <= 1 && s.Of(t).pc == WantRelease(I) && !s.locked
    ensures CanTake(m, Lock(t))
    ensures var n := Next(m, Lock(t));
      n.pages == m.pages && Shows(n, s.With(t, s.Of(t).(pc := Draining(I))).(locked := true))
  {
    hide Pages.Inv, Arranged, Domain, Spans, Counts, Roles, Owners, Threads, Locks, Seen, Sees, SetPc;
    LookAt(m, s, t);
    Facts(m, t);
    PcSeen(m, s, t, Draining(I));
    LockSeen(SetPc(m, t, Draining(I)), s.With(t, s.Of(t).(pc := Draining(I))), m.locks[I := t]);
    SameLocks(m, t, Draining(I));
    NextKeeps(m, Lock(t));
  }

  lemma LockSeen(m: Pool<nat>, s: Shot, locks: map<nat, nat>)
    requires Seen(m, s) && I in locks
    ensures Seen(m.(locks := locks), s.(locked := true))
  {
  }

  lemma SameLocks(m: Pool<nat>, t: nat, pc: Pc<nat>)
    requires t in m.threads
    ensures SetPc(m, t, pc).locks == m.locks
  {
  }

  lemma BackSees(m: Pool<nat>, t: nat, k: Look, a: nat, rest: seq<nat>)
    requires Sees(m, t, k) && k.flight == [a] + rest && 1 in m.carved && InSpan(1) in m.store.at
    ensures var n := DoPutBack(m, t, 1);
      && Sees(n, t, k.(flight := rest)) && Beside(m, n, t) && n.store.held == m.store.held
      && InSpan(1) in n.store.at && n.store.at[InSpan(1)] == [a] + m.store.at[InSpan(1)]
  {
    assert m.store.at[InFlight(t)][..1] == [a];
  }

  lemma BackSeen(m: Pool<nat>, s: Shot, t: nat, a: nat, rest: seq<nat>)
    requires Seen(m, s) && t <= 1 && s.Of(t).flight == [a] + rest && s.cut && s.use >= 1
    ensures 1 in m.carved && InSpan(1) in m.store.at && InFlight(t) in m.store.at && |m.store.at[InFlight(t)]| > 0
    ensures var n := DoPutBack(m, t, 1);
      && n.pages == m.pages && Seen(n, s.With(t, s.Of(t).(flight := rest)).(use := s.use - 1, free := [a] + s.free))
      && n.threads == m.threads
  {
    hide Sees, Beside, MoveFront;
    There(m, t, s.Of(t));
    BackSees(m, t, s.Of(t), a, rest);
    Together(m, s, t, DoPutBack(m, t, 1), s.Of(t).(flight := rest), s.(use := s.use - 1, free := [a] + s.free));
  }

  lemma EraseSees(m: Pool<nat>, t: nat, k: Look)
    requires Sees(m, t, k) && I < |m.buckets| && InSpan(1) in m.store.at
    ensures var n := DoErase(m, t, I, 1);
      Sees(n, t, k.(pc := Returning(I, 1))) && Beside(m, n, t) && n.store.held == m.store.held
  {
  }

  lemma EraseSeen(m: Pool<nat>, s: Shot, t: nat)
    requires Seen(m, s) && t <= 1 && s.cut && s.bucket == [1]
    ensures t in m.threads && InSpan(1) in m.store.at
    ensures var n := DoErase(m, t, I, 1);
      && n.pages == m.pages
      && Seen(n, s.With(t, s.Of(t).(pc := Returning(I, 1))).(locked := false, bucket := [], cut := false))
  {
    hide Sees, Beside, DropPlace;
    There(m, t, s.Of(t));
    EraseSees(m, t, s.Of(t));
    assert Without([1], 1) == [];
    Together(m, s, t, DoErase(m, t, I, 1), s.Of(t).(pc := Returning(I, 1)),
      s.(locked := false, bucket := [], cut := false));
  }

  lemma DrainSeen(m: Pool<nat>, s: Shot, t: nat, a: nat, rest: seq<nat>)
    requires Seen(m, s) && t <= 1 && s.Of(t).flight == [a] + rest && s.cut && s.bucket == [1] && s.use >= 1
    ensures t in m.threads && 1 in m.carved && InSpan(1) in m.store.at && InFlight(t) in m.store.at
    ensures |m.store.at[InFlight(t)]| > 0
    ensures var n, back := DoDrain(m, t, I, 1),
      s.With(t, s.Of(t).(flight := rest)).(use := s.use - 1, free := [a] + s.free);
      && n.pages == m.pages
      && (s.use > 1 ==> Seen(n, back))
      && (s.use == 1 ==>
            Seen(n, back.With(t, back.Of(t).(pc := Returning(I, 1))).(locked := false, bucket := [], cut := false)))
  {
    hide Sees, DoPutBack, DoErase;
    There(m, t, s.Of(t));
    BackSeen(m, s, t, a, rest);
    EraseSeen(DoPutBack(m, t, 1), s.With(t, s.Of(t).(flight := rest)).(use := s.use - 1, free := [a] + s.free), t);
  }

  lemma DrainStep(m: Pool<nat>, s: Shot, t: nat, a: nat, rest: seq<nat>)
    requires Shows(m, s) && t <= 1 && s.Of(t).pc == Draining(I) && s.Of(t).flight == [a] + rest && s.cut
    requires s.bucket == [1] && s.use >= 1
    requires Found(m.pages, a)
    ensures CanTake(m, Drain(t))
    ensures var n, back := Next(m, Drain(t)),
      s.With(t, s.Of(t).(flight := rest)).(use := s.use - 1, free := [a] + s.free);
      && n.pages == m.pages
      && (s.use > 1 ==> Shows(n, back))
      && (s.use == 1 ==>
            Shows(n, back.With(t, back.Of(t).(pc := Returning(I, 1))).(locked := false, bucket := [], cut := false)))
  {
    hide Pages.Inv, Arranged, Domain, Spans, Counts, Roles, Owners, Threads, Locks, DoDrain, Seen, Sees;
    LookAt(m, s, t);
    Facts(m, t);
    NextKeeps(m, Drain(t));
    var b, r := DrainFacts(m, t);
    DrainSeen(m, s, t, a, rest);
  }

  lemma LookAt(m: Pool<nat>, s: Shot, t: nat)
    requires Seen(m, s) && t <= 1
    ensures Sees(m, t, s.Of(t)) && t in m.threads && m.threads[t].pc == s.Of(t).pc && InThread(t, I) in m.store.at
    ensures InFlight(t) in m.store.at && m.store.at[InFlight(t)] == s.Of(t).flight
    ensures m.store.at[InThread(t, I)] == s.Of(t).list
    ensures I in m.locks <==> s.locked
    ensures |m.buckets| == BUCKETS && m.buckets[I] == s.bucket && m.store.held == s.held
    ensures s.cut ==> m.carved == map[1 := Info(I, s.use)] && InSpan(1) in m.store.at && m.store.at[InSpan(1)] == s.free
  {
  }

  lemma GiveBackStep(m: Pool<nat>, s: Shot, t: nat)
    requires Shows(m, s) && t <= 1 && s.Of(t).pc == Returning(I, 1)
    ensures CanTake(m, Step.GiveBack(t)) && Releasing(m.pages, 1)
    ensures var n := Next(m, Step.GiveBack(t));
      n.pages == Release(m.pages, 1) && Shows(n, s.With(t, s.Of(t).(pc := WantRelease(I))))
  {
    hide Pages.Inv, Arranged, Domain, Spans, Counts, Roles, Owners, Threads, Locks, Release, Seen, Sees;
    LookAt(m, s, t);
    Facts(m, t);
    ReturningFacts(m, t);
    PcSeen(m, s, t, WantRelease(I));
    var n := SetPc(m, t, WantRelease(I));
    OtherPages(n, s.With(t, s.Of(t).(pc := WantRelease(I))), Release(m.pages, 1), m.role - {1});
    NextKeeps(m, Step.GiveBack(t));
  }

  lemma AcquireSeen(m: Pool<nat>, s: Shot, t: nat, pages: Pages.State<nat>, r: nat)
    requires Seen(m, s) && t <= 1 && s.Of(t).pc.NoSpan?
    ensures t in m.threads
    ensures Seen(DoAcquire(m, t, I, s.Of(t).pc.batch, pages, r),
      s.With(t, s.Of(t).(pc := HaveSpan(I, s.Of(t).pc.batch, r))))
  {
    hide Seen;
    var pc := HaveSpan(I, s.Of(t).pc.batch, r);
    PcSeen(m, s, t, pc);
    OtherPages(SetPc(m, t, pc), s.With(t, s.Of(t).(pc := pc)), pages, m.role[r := Private(t)]);
  }

  lemma AcquireStep(m: Pool<nat>, s: Shot, t: nat, big: nat, base: nat, kid: nat)
    requires Shows(m, s) && t <= 1 && s.Of(t).pc.NoSpan? && s.Of(t).pc.i == I
    requires Inv(m.pages) && |m.pages.lists| == NPAGES && FreshSpans(m.pages, 124, big, base, kid)
    ensures CanTake(m, Step.Acquire(t, big, base, kid))
    ensures var n, (st, r) := Next(m, Step.Acquire(t, big, base, kid)), NewSpan(m.pages, 124, big, base, kid);
      && r in st.spans && n.pages == MarkInUse(st, r)
      && Shows(n, s.With(t, s.Of(t).(pc := HaveSpan(I, s.Of(t).pc.batch, r))))
  {
    hide Pages.Inv, Arranged, Domain, Spans, Counts, Roles, Owners, Threads, Locks, NewSpan, FreshSpans, DoAcquire,
         Seen, Sees;
    LookAt(m, s, t);
    TwoFill();
    Facts(m, t);
    PagesFacts(m, I);
    NewSpanKeeps(m.pages, 124, big, base, kid);
    NextKeeps(m, Step.Acquire(t, big, base, kid));
    var (st, r) := NewSpan(m.pages, 124, big, base, kid);
    AcquireSeen(m, s, t, MarkInUse(st, r), r);
    AcquirePages(m, t, s.Of(t).pc.batch, MarkInUse(st, r), r);
  }

  lemma AcquirePages(m: Pool<nat>, t: nat, batch: nat, pages: Pages.State<nat>, r: nat)
    requires t in m.threads
    ensures DoAcquire(m, t, I, batch, pages, r).pages == pages
  {
  }

  lemma CarveSees(m: Pool<nat>, t: nat, k: Look)
    requires Sees(m, t, k) && 1 in m.pages.spans
    ensures var n := DoCarve(m, t, I, 1, 1);
      && Sees(n, t, k.(pc := SpanReady(I, 1, 1))) && Beside(m, n, t)
      && InSpan(1) in n.store.at && n.store.at[InSpan(1)] == Objs(m.pages.spans[1], I) && n.store.held == m.store.held
  {
    hide Objs;
  }

  lemma CarveSeen(m: Pool<nat>, s: Shot, t: nat)
    requires Seen(m, s) && t <= 1 && !s.cut && 1 in m.pages.spans && m.pages.spans[1] == Geo(1, 124, true)
    ensures t in m.threads
    ensures var n := DoCarve(m, t, I, 1, 1);
      && n.pages == m.pages
      && Seen(n, s.With(t, s.Of(t).(pc := SpanReady(I, 1, 1))).(cut := true, use := 0, free := [FIRST, SECOND]))
  {
    hide Sees, Beside, Objs, NewPlace;
    There(m, t, s.Of(t));
    TwoFill();
    CarveSees(m, t, s.Of(t));
    Together(m, s, t, DoCarve(m, t, I, 1, 1), s.Of(t).(pc := SpanReady(I, 1, 1)),
      s.(cut := true, use := 0, free := [FIRST, SECOND]));
  }

  lemma CarveStep(m: Pool<nat>, s: Shot, t: nat)
    requires Shows(m, s) && t <= 1 && s.Of(t).pc == HaveSpan(I, 1, 1) && !s.cut
    requires 1 in m.pages.spans && m.pages.spans[1] == Geo(1, 124, true)
    ensures CanTake(m, Step.Carve(t)) && ToCarve(m, t) == [FIRST, SECOND]
    ensures var n := Next(m, Step.Carve(t));
      && n.pages == m.pages
      && Shows(n, s.With(t, s.Of(t).(pc := SpanReady(I, 1, 1))).(cut := true, use := 0, free := [FIRST, SECOND]))
  {
    hide Pages.Inv, Arranged, Domain, Spans, Counts, Roles, Owners, Threads, Locks, Objs, DoCarve, Seen, Sees;
    LookAt(m, s, t);
    TwoFill();
    Facts(m, t);
    HaveFacts(m, t);
    CarveSeen(m, s, t);
    NextKeeps(m, Step.Carve(t));
  }

  // ----- the run -----

  /** One more step of a run from the start. */
  lemma Take(before: seq<Act<nat>>, x: Machine<nat>, step: Step<nat>) returns (y: Machine<nat>, acts: seq<Act<nat>>)
    requires Right(Start<nat>()) && Goes(Start(), before, x) && Right(x) && Allowed(x, Do(step))
    ensures CanTake(x.pool, step) && y == After(x, Do(step)) && y.pool == Next(x.pool, step) && Right(y)
    ensures Goes(Start(), acts, y)
  {
    hide Good, Threaded, Within, Goes, CanTake, StepWords, Next, ToCarve;
    AfterKeeps(x, Do(step));
    OneMore(Start(), before, x, Do(step));
    y, acts := After(x, Do(step)), before + [Do(step)];
  }

  lemma MayTake(x: Machine<nat>, step: Step<nat>)
    requires Good(x.pool) && CanTake(x.pool, step) && !step.Carve?
    ensures Allowed(x, Do(step))
  {
    hide Good, CanTake;
  }

  const NEW: Look := Look(Idle, 1, [], [])

  function TwoNew(): Shot { Shot(NEW, NEW, [], false, false, 0, [], map[]) }

  lemma SpawnSees(m: Pool<nat>, t: nat)
    requires Good(m) && t !in m.threads
    ensures Sees(DoSpawn(m, t), t, NEW) && Beside(m, DoSpawn(m, t), t) && DoSpawn(m, t).store.held == m.store.held
  {
    hide Pages.Inv, Arranged, Spans, Counts, Roles, Threads, Owners, Locks;
    NewPlacesAreNew(m, t);
  }

  lemma Opening() returns (x: Machine<nat>, acts: seq<Act<nat>>)
    ensures Right(Start<nat>()) && Goes(Start(), acts, x) && Right(x) && Shows(x.pool, TwoNew())
    ensures x.pool.pages == Empty<nat>()
  {
    hide Good, Threaded, Within, Goes, DoSpawn, Sees, Beside;
    StartIsRight<nat>();
    StartFacts();
    var x0 := Start<nat>();
    NoActs(x0);
    SpawnAllowed(x0, 0);
    SpawnSees(x0.pool, 0);
    SpawnFacts(x0.pool, 0);
    WhoIsThere(x0.pool, 0);
    var x1, acts1 := Take([], x0, Spawn(0));
    SpawnAllowed(x1, 1);
    SpawnSees(x1.pool, 1);
    SpawnFacts(x1.pool, 1);
    x, acts := Take(acts1, x1, Spawn(1));
    StillSees(x1.pool, x.pool, 1, 0, NEW);
    NothingHeld();
  }

  lemma NothingHeld()
    ensures Start<nat>().pool.store.held == map[]
  {
  }

  lemma StillSees(m: Pool<nat>, n: Pool<nat>, t: nat, u: nat, k: Look)
    requires Sees(m, u, k) && Beside(m, n, t) && u != t
    ensures Sees(n, u, k)
  {
  }

  /** Thread 0 gets the span of pages 1 to 124 and cuts it. */
  lemma CutFirst() returns (x: Machine<nat>, acts: seq<Act<nat>>)
    ensures Right(Start<nat>()) && Goes(Start(), acts, x) && Right(x) && HasHead(x.pool.pages)
    ensures Shows(x.pool, TwoNew().(k := Look(SpanReady(I, 1, 1), 2, [], []), cut := true, free := [FIRST, SECOND]))
  {
    hide Good, Threaded, Within, Goes, CanTake, Next, Seen, Size, Allowed, After, NewSpan, FreshSpans, HasHead,
         ToCarve;
    var x0, acts0 := Opening();
    MissStep(x0.pool, TwoNew(), 0);
    MayTake(x0, Miss(0, Size(I)));
    var x1, acts1 := Take(acts0, x0, Miss(0, Size(I)));
    var s1 := TwoNew().(k := NEW.(pc := WantSpan(I, 1), max := 2));
    FindNothing(x1.pool, s1, 0);
    MayTake(x1, Find(0));
    var x2, acts2 := Take(acts1, x1, Find(0));
    var s2 := s1.(k := s1.k.(pc := NoSpan(I, 1)));
    HeadComplete();
    AcquireStep(x2.pool, s2, 0, 0, 1, 1);
    var take := Step.Acquire(0, 0, 1, 1);
    MayTake(x2, take);
    var x3, acts3 := Take(acts2, x2, take);
    var s3 := s2.(k := s2.k.(pc := HaveSpan(I, 1, 1)));
    HeadHere(x3.pool.pages);
    CanCutFresh(x2, s2);
    CarveStep(x3.pool, s3, 0);
    x, acts := Take(acts3, x3, Step.Carve(0));
  }

  lemma CanCutFresh(x: Machine<nat>, s: Shot)
    requires Right(x) && Shows(x.pool, s) && s.k.pc == NoSpan(I, 1) && x.pool.pages == Empty<nat>()
    requires Allowed(x, Do(Step.Acquire(0, 0, 1, 1)))
    ensures Right(After(x, Do(Step.Acquire(0, 0, 1, 1))))
    ensures Allowed(After(x, Do(Step.Acquire(0, 0, 1, 1))), Do(Step.Carve(0)))
  {
    hide Good, Threaded, Within, Allowed, After, Seen;
    LookAt(x.pool, s, 0);
    TwoFill();
    NothingFits(124);
    FreshSpanCanBeCut(x, 0, 0, 1, 1);
  }

  const READY: Look := Look(Idle, 2, [], [])

  function BothOut(): Shot { Shot(READY, READY, [1], false, true, 2, [], map[FIRST := I, SECOND := I]) }

  /** Both objects are handed out, one to each thread. */
  lemma HandOut() returns (x: Machine<nat>, acts: seq<Act<nat>>)
    ensures Right(Start<nat>()) && Goes(Start(), acts, x) && Right(x) && HasHead(x.pool.pages)
    ensures Shows(x.pool, BothOut())
  {
    hide Good, Threaded, Within, Goes, CanTake, Next, Seen, Size, Allowed, After, HasHead;
    var x0, acts0 := CutFirst();
    var s0 := TwoNew().(k := Look(SpanReady(I, 1, 1), 2, [], []), cut := true, free := [FIRST, SECOND]);
    AttachStep(x0.pool, s0, 0, FIRST, SECOND);
    MayTake(x0, Attach(0));
    var x1, acts1 := Take(acts0, x0, Attach(0));
    var s1 := s0.(k := Look(Fetched(I), 2, [], [FIRST]), use := 1, free := [SECOND], bucket := [1]);
    DeliverStep(x1.pool, s1, 0, FIRST);
    MayTake(x1, Deliver(0));
    var x2, acts2 := Take(acts1, x1, Deliver(0));
    var s2 := s1.(k := READY, held := map[FIRST := I]);
    MissStep(x2.pool, s2, 1);
    MayTake(x2, Miss(1, Size(I)));
    var x3, acts3 := Take(acts2, x2, Miss(1, Size(I)));
    var s3 := s2.(l := Look(WantSpan(I, 1), 2, [], []));
    FindStep(x3.pool, s3, 1, SECOND);
    MayTake(x3, Find(1));
    var x4, acts4 := Take(acts3, x3, Find(1));
    var s4 := s3.(l := Look(Fetched(I), 2, [], [SECOND]), use := 2, free := []);
    DeliverStep(x4.pool, s4, 1, SECOND);
    MayTake(x4, Deliver(1));
    x, acts := Take(acts4, x4, Deliver(1));
  }

  function OneBack(): Shot { Shot(Look(Draining(I), 2, [], [SECOND]), READY, [1], true, true, 1, [FIRST], map[]) }

  /** Thread 0 gives both back, the first one first. */
  lemma PutFirstBack() returns (x: Machine<nat>, acts: seq<Act<nat>>)
    ensures Right(Start<nat>()) && Goes(Start(), acts, x) && Right(x) && HasHead(x.pool.pages)
    ensures Shows(x.pool, OneBack())
  {
    hide Good, Threaded, Within, Goes, CanTake, Next, Seen, Size, Allowed, After, HasHead;
    var x0, acts0 := HandOut();
    FreeStep(x0.pool, BothOut(), 0, SECOND);
    MayTake(x0, Free(0, SECOND, Size(I)));
    var x1, acts1 := Take(acts0, x0, Free(0, SECOND, Size(I)));
    var s1 := BothOut().(k := READY.(list := [SECOND]), held := map[FIRST := I]);
    assert BothOut().held - {SECOND} == s1.held && [SECOND] + READY.list == s1.k.list;
    FreeStep(x1.pool, s1, 0, FIRST);
    MayTake(x1, Free(0, FIRST, Size(I)));
    var x2, acts2 := Take(acts1, x1, Free(0, FIRST, Size(I)));
    var s2 := s1.(k := Look(WantRelease(I), 2, [], [FIRST, SECOND]), held := map[]);
    assert s1.held - {FIRST} == s2.held && [FIRST] + s1.k.list == s2.k.flight == [FIRST] + [SECOND];
    LockStep(x2.pool, s2, 0);
    MayTake(x2, Lock(0));
    var x3, acts3 := Take(acts2, x2, Lock(0));
    var s3 := s2.(k := s2.k.(pc := Draining(I)), locked := true);
    HeadHere(x3.pool.pages);
    DrainStep(x3.pool, s3, 0, FIRST, [SECOND]);
    assert [FIRST] + s3.free == OneBack().free;
    MayTake(x3, Drain(0));
    x, acts := Take(acts3, x3, Drain(0));
  }

  function AllBack(): Shot {
    Shot(Look(Returning(I, 1), 2, [], []), READY, [], false, false, 0, [SECOND, FIRST], map[])
  }

  lemma NothingUsed(x: Machine<nat>, p: nat)
    requires Right(x) && x.pool.carved == map[]
    ensures Goes(x, [], x) && Rests(x, [], p)
  {
  }

  lemma RestsLonger(x: Machine<nat>, step: Step<nat>, rest: seq<Act<nat>>, z: Machine<nat>, p: nat)
    requires Right(x) && x.pool.carved == map[] && Allowed(x, Do(step))
    requires (AfterKeeps(x, Do(step)); Goes(After(x, Do(step)), rest, z) && Rests(After(x, Do(step)), rest, p))
    ensures Goes(x, [Do(step)] + rest, z) && Rests(x, [Do(step)] + rest, p)
  {
    hide Good, Threaded, Within, Allowed, After;
    AfterKeeps(x, Do(step));
    assert ([Do(step)] + rest)[1..] == rest;
  }

  lemma NothingCut(m: Pool<nat>, s: Shot)
    requires Seen(m, s) && !s.cut
    ensures m.carved == map[]
  {
  }

  /** Thread 1 comes for the span that thread 0 is about to return. */
  lemma ComesBack(before: seq<Act<nat>>, y: Machine<nat>)
      returns (z: Machine<nat>, acts: seq<Act<nat>>, more: seq<Act<nat>>)
    requires Right(Start<nat>()) && Goes(Start(), before, y) && Right(y) && HasHead(y.pool.pages)
    requires Shows(y.pool, AllBack())
    ensures Goes(Start(), acts, z) && Right(z) && Goes(y, more, z) && Rests(y, more, SECOND)
    ensures CanTake(z.pool, Step.Carve(1)) && ToCarve(z.pool, 1) == [FIRST, SECOND]
  {
    hide Good, Threaded, Within, Goes, CanTake, Next, Seen, Size, Allowed, After, NewSpan, FreshSpans, HasHead,
         WholeFree, ToCarve, Rests, Sound, Release;
    NothingCut(y.pool, AllBack());
    GiveBackStep(y.pool, AllBack(), 0);
    GoodPages(y.pool);
    HeadHere(y.pool.pages);
    HeadReturned(y.pool.pages, 124);
    MayTake(y, Step.GiveBack(0));
    var y1, acts1 := Take(before, y, Step.GiveBack(0));
    var s1 := AllBack().(k := Look(WantRelease(I), 2, [], []));
    NothingCut(y1.pool, s1);
    MissStep(y1.pool, s1, 1);
    MayTake(y1, Miss(1, Size(I)));
    var y2, acts2 := Take(acts1, y1, Miss(1, Size(I)));
    var s2 := s1.(l := Look(WantSpan(I, 2), 3, [], []));
    NothingCut(y2.pool, s2);
    FindNothing(y2.pool, s2, 1);
    MayTake(y2, Find(1));
    var y3, acts3 := Take(acts2, y2, Find(1));
    var s3 := s2.(l := s2.l.(pc := NoSpan(I, 2)));
    NothingCut(y3.pool, s3);
    HeadAgain(y3.pool.pages, 124);
    AcquireStep(y3.pool, s3, 1, 2, 1, 2);
    var take := Step.Acquire(1, 2, 1, 2);
    MayTake(y3, take);
    z, acts := Take(acts3, y3, take);
    var s4 := s3.(l := s3.l.(pc := HaveSpan(I, 2, 2)));
    NothingCut(z.pool, s4);
    SamePages(z.pool, s4);
    NothingUsed(z, SECOND);
    RestsLonger(y3, take, [], z, SECOND);
    RestsLonger(y2, Find(1), [Do(take)] + [], z, SECOND);
    RestsLonger(y1, Miss(1, Size(I)), [Do(Find(1))] + ([Do(take)] + []), z, SECOND);
    more := [Do(Step.GiveBack(0))] + ([Do(Miss(1, Size(I)))] + ([Do(Find(1))] + ([Do(take)] + [])));
    RestsLonger(y, Step.GiveBack(0), [Do(Miss(1, Size(I)))] + ([Do(Find(1))] + ([Do(take)] + [])), z, SECOND);
  }

  lemma SamePages(m: Pool<nat>, s: Shot)
    requires Shows(m, s) && s.l.pc == HaveSpan(I, 2, 2) && 2 in m.pages.spans && m.pages.spans[2] == Geo(1, 124, true)
    ensures CanTake(m, Step.Carve(1)) && ToCarve(m, 1) == [FIRST, SECOND]
  {
    hide Pages.Inv, Arranged, Domain, Spans, Counts, Roles, Owners, Threads, Locks, Objs, Seen, Sees;
    LookAt(m, s, 1);
    CanCut(m, 1);
    TwoFill();
  }

  /** Where the last of the two objects comes back. */
  lemma LastComesBack(x: Machine<nat>)
    requires Right(x) && Shows(x.pool, OneBack()) && HasHead(x.pool.pages)
    ensures Allowed(x, Do(Drain(0))) && Empties(x, 0, 1) && FullList(x, 0, 1) == [SECOND, FIRST]
    ensures ObjectsOf(x.pool, 1) == [FIRST, SECOND] && x.pool.pages.spans[1] == Geo(1, 124, true)
    ensures Right(After(x, Do(Drain(0)))) && Shows(After(x, Do(Drain(0))).pool, AllBack())
    ensures After(x, Do(Drain(0))).pool.pages == x.pool.pages
  {
    hide Good, Threaded, Within, Seen, Sees, Objs, CanTake, Next;
    LookAt(x.pool, OneBack(), 0);
    HeadHere(x.pool.pages);
    TwoFill();
    DrainStep(x.pool, OneBack(), 0, SECOND, []);
    assert [SECOND] + OneBack().free == AllBack().free;
    AfterKeeps(x, Do(Drain(0)));
    NothingCut(Next(x.pool, Drain(0)), AllBack());
  }

  /** A reachable state in which the code cuts a span and this model does not: the list would run in a circle, and
      the walk that has seen both objects comes to the first one a second time. */
  lemma CutInCircle() returns (acts: seq<Act<nat>>, z: Machine<nat>)
    ensures Reachable(acts, z) && Right(z) && CanTake(z.pool, Step.Carve(1)) && !Allowed(z, Do(Step.Carve(1)))
    ensures var objs := ToCarve(z.pool, 1);
      var w := CutWords(z.words, objs, |objs|);
      && objs == [FIRST, SECOND] && (forall ys :: !Ch.Chain(w, FIRST, ys, 0))
      && exists j :: 0 <= j < 2 && Ch.Visit(w, FIRST, j) == Ch.Visit(w, FIRST, 2)
  {
    hide Good, Threaded, Within, Goes, CanTake, Seen, Allowed, After, HasHead, ToCarve, Rests, Empties, FullList,
         ObjectsOf, Next, CutWords;
    var x, acts0 := PutFirstBack();
    LastComesBack(x);
    var y, acts1 := Take(acts0, x, Drain(0));
    var more;
    z, acts, more := ComesBack(acts1, y);
    CutsAgainHere(x, y, more, z);
    CutAgainExactly(x, 0, 1, more, z, 1);
  }

  lemma CutsAgainHere(x: Machine<nat>, y: Machine<nat>, acts: seq<Act<nat>>, z: Machine<nat>)
    requires Right(x) && Empties(x, 0, 1) && y == After(x, Do(Drain(0))) && Right(y) && Right(z) && Goes(y, acts, z)
    requires Rests(y, acts, SECOND)
    requires CanTake(z.pool, Step.Carve(1)) && ToCarve(z.pool, 1) == [FIRST, SECOND]
    requires x.pool.pages.spans[1] == Geo(1, 124, true)
    ensures CutsAgain(x, 0, 1, acts, z, 1)
  {
    hide Good, Threaded, Within, Goes, CanTake, Allowed, After, ToCarve, Rests;
  }
}
