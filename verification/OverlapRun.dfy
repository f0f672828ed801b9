/** For every bucket whose objects do not fit its spans, a run after which two objects share memory. */
module OverlapRun {
  import opened Pages
  import opened Stores
  import opened Pools
  import opened PoolProofs
  import opened PoolMemory
  import opened PoolTheorems
  import opened Overlap
  import SC = SizeClass
  import Ch = Chains

  // ----- putting runs together -----

  lemma NoActs<S>(x: Machine<S>)
    requires Right(x)
    ensures Goes(x, [], x)
  {
  }

  lemma {:induction false} OneMore<S>(x: Machine<S>, acts: seq<Act<S>>, y: Machine<S>, act: Act<S>)
    requires Right(x) && Goes(x, acts, y) && Right(y) && Allowed(y, act)
    ensures Goes(x, acts + [act], After(y, act))
    decreases |acts|
  {
    hide Good, Threaded, Within, Allowed, After;
    AfterKeeps(y, act);
    if |acts| == 0 {
      assert acts + [act] == [act] && [act][1..] == [];
      NoActs(After(y, act));
    } else {
      AfterKeeps(x, acts[0]);
      OneMore(After(x, acts[0]), acts[1..], y, act);
      assert (acts + [act])[1..] == acts[1..] + [act];
    }
  }

  // ----- a thread gets a span -----

  /** Thread t is idle with nothing of bucket i in its cache, and the bucket has no span and no lock. */
  ghost predicate Wants<S>(m: Pool<S>, t: nat, i: nat) {
    && Good(m) && i < BUCKETS == |m.buckets| && t in m.threads && m.threads[t].pc.Idle?
    && InThread(t, i) in m.store.at && |m.store.at[InThread(t, i)]| == 0
    && m.buckets[i] == [] && i !in m.locks
  }

  /** What two pools have in common when only thread t has moved and only its program counter has changed. */
  ghost predicate OnlyPc<S>(m: Pool<S>, n: Pool<S>, t: nat) {
    && n.buckets == m.buckets && n.locks == m.locks && n.store == m.store && n.carved == m.carved
    && t in n.threads && n.threads.Keys == m.threads.Keys && forall u :: u in m.threads && u != t ==>
         n.threads[u] == m.threads[u]
  }

  lemma MissAndFind<S>(x: Machine<S>, t: nat, size: nat) returns (y: Machine<S>, acts: seq<Act<S>>)
    requires Right(x) && ValidSize(size) && Wants(x.pool, t, Bucket(size))
    ensures Right(y) && acts == [Do(Miss(t, size)), Do(Find(t))] && Goes(x, acts, y)
    ensures OnlyPc(x.pool, y.pool, t) && y.pool.pages == x.pool.pages && y.words == x.words
    ensures y.pool.threads[t].pc.NoSpan? && y.pool.threads[t].pc.i == Bucket(size)
  {
    hide Pages.Inv, Arranged, Domain, Spans, Counts, Roles, Owners, Threads, Locks, Threaded, Within, IsFirstFree,
         SC.NumMoveSize;
    var miss, find := Do(Miss(t, size)), Do(Find(t));
    Facts(x.pool, t);
    assert Allowed(x, miss);
    AfterKeeps(x, miss);
    var z := After(x, miss);
    Facts(z.pool, t);
    assert Allowed(z, find);
    AfterKeeps(z, find);
    y := After(z, find);
    NothingFree(z.pool, Bucket(size));
    acts := [miss, find];
    GoesTwo(x, miss, find);
  }

  lemma NothingFree<S>(m: Pool<S>, i: nat)
    requires i < |m.buckets| && m.buckets[i] == []
    ensures !SomeFree(m, i)
  {
  }

  lemma GoesTwo<S>(x: Machine<S>, a: Act<S>, b: Act<S>)
    requires Right(x) && Allowed(x, a) && (AfterKeeps(x, a); Allowed(After(x, a), b))
    ensures Right(After(x, a)) && Goes(x, [a, b], After(After(x, a), b))
  {
    hide Good, Threaded, Within, Allowed, After, Goes;
    AfterKeeps(x, a);
    NoActs(x);
    OneMore(x, [], x, a);
    assert [] + [a] == [a];
    OneMore(x, [a], After(x, a), b);
    assert [a] + [b] == [a, b];
  }

  /** Thread t, which found no span, will get one from the page cache whose pages hold no words yet. */
  ghost predicate WillGet<S>(x: Machine<S>, t: nat, i: nat, big: S, base: nat, kid: S) {
    && Right(x) && i < BUCKETS && t in x.pool.threads && x.pool.threads[t].pc.NoSpan? && x.pool.threads[t].pc.i == i
    && Pages.Inv(x.pool.pages) && |x.pool.pages.lists| == NPAGES && 1 <= SpanPages(i) < NPAGES
    && FreshSpans(x.pool.pages, SpanPages(i), big, base, kid)
    && var (st, r) := NewSpan(x.pool.pages, SpanPages(i), big, base, kid);
       r in st.spans && forall p: nat :: st.spans[r].Has(p / PAGE) ==> Ch.Word(x.words, p) == 0
  }

  /** Thread t has cut the span r for bucket i; nothing else has moved. */
  ghost predicate Got<S>(m: Pool<S>, n: Pool<S>, t: nat, i: nat, r: S, pages: Pages.State<S>) {
    && n.pages == pages && n.buckets == m.buckets && n.locks == m.locks
    && n.carved == m.carved[r := Info(i, 0)] && r in pages.spans
    && n.threads.Keys == m.threads.Keys && (forall u :: u in m.threads && u != t ==> n.threads[u] == m.threads[u])
    && (forall p :: p in m.store.at && p != InSpan(r) ==> p in n.store.at && n.store.at[p] == m.store.at[p])
  }

  lemma AcquireFacts<S>(m: Pool<S>, t: nat, i: nat, big: S, base: nat, kid: S)
    requires Good(m) && CanTake(m, Step.Acquire(t, big, base, kid)) && t in m.threads && m.threads[t].pc.NoSpan?
    requires m.threads[t].pc.i == i
    requires Pages.Inv(m.pages) && |m.pages.lists| == NPAGES && 1 <= SpanPages(i) < NPAGES
    requires FreshSpans(m.pages, SpanPages(i), big, base, kid)
    ensures var (st, r) := NewSpan(m.pages, SpanPages(i), big, base, kid);
      var n := NextAcquire(m, t, big, base, kid);
      && r in st.spans && n.pages == MarkInUse(st, r) && OnlyPc(m, n, t)
      && n.threads[t].pc.HaveSpan? && n.threads[t].pc.i == i && n.threads[t].pc.s == r
  {
    hide Arranged, Domain, Spans, Counts, Roles, Threads, Owners, Locks, Sound, NewSpan, FreshSpans;
    Facts(m, t);
    PagesFacts(m, i);
    NewSpanKeeps(m.pages, SpanPages(i), big, base, kid);
  }

  lemma CutFacts<S>(m: Pool<S>, t: nat)
    requires Good(m) && CanTake(m, Step.Carve(t)) && t in m.threads && m.threads[t].pc.HaveSpan?
    ensures var n, r, i := NextCarve(m, t), m.threads[t].pc.s, m.threads[t].pc.i;
      && Got(m, n, t, i, r, m.pages) && r !in m.carved
      && ToCarve(m, t) == Objs(m.pages.spans[r], i)
      && forall a :: a in ToCarve(m, t) ==> m.pages.spans[r].Has(a / PAGE)
  {
    hide Pages.Inv, Arranged, Domain, Spans, Counts, Roles, Threads, Owners, Locks, Objs, Obj, CutWords;
    HaveFacts(m, t);
    CarveObjects(m, t);
    var r, i := m.threads[t].pc.s, m.threads[t].pc.i;
    ObjsFacts(m.pages.spans[r], i);
    forall a | a in ToCarve(m, t) ensures m.pages.spans[r].Has(a / PAGE) {
      ObjPage(m.pages.spans[r], i, a);
    }
  }

  lemma AcquireAndCut<S>(x: Machine<S>, t: nat, i: nat, big: S, base: nat, kid: S)
      returns (y: Machine<S>, a: Act<S>, b: Act<S>)
    requires WillGet(x, t, i, big, base, kid)
    ensures Allowed(x, a) && (AfterKeeps(x, a); Allowed(After(x, a), b)) && y == After(After(x, a), b) && Right(y)
    ensures var (st, r) := NewSpan(x.pool.pages, SpanPages(i), big, base, kid);
      && r in st.spans && Got(x.pool, y.pool, t, i, r, MarkInUse(st, r)) && r !in x.pool.carved
      && forall p: nat :: !st.spans[r].Has(p / PAGE) ==> Ch.Word(y.words, p) == Ch.Word(x.words, p)
  {
    hide Good, Threaded, Within, NewSpan, FreshSpans, CutWords, ToCarve, NextAcquire, NextCarve;
    a, b := Do(Step.Acquire(t, big, base, kid)), Do(Step.Carve(t));
    CanAcquire(x.pool, t, i, big, base, kid);
    AfterKeeps(x, a);
    AcquireFacts(x.pool, t, i, big, base, kid);
    var z := After(x, a);
    CanCut(z.pool, t);
    CutFacts(z.pool, t);
    var objs := ToCarve(z.pool, t);
    assert objs[|objs| - 1] in objs;
    AfterKeeps(z, b);
    y := After(z, b);
    CutTouches(x.words, objs, |objs|);
  }

  lemma CanAcquire<S>(m: Pool<S>, t: nat, i: nat, big: S, base: nat, kid: S)
    requires Good(m) && t in m.threads && m.threads[t].pc.NoSpan? && m.threads[t].pc.i == i < BUCKETS
    requires |m.pages.lists| == NPAGES && SpanPages(i) < NPAGES
    requires FreshSpans(m.pages, SpanPages(i), big, base, kid)
    ensures CanTake(m, Step.Acquire(t, big, base, kid))
  {
    hide Pages.Inv, Arranged, Domain, Spans, Counts, Roles, Threads, Owners, Locks, FreshSpans;
    Facts(m, t);
  }

  lemma CanCut<S>(m: Pool<S>, t: nat)
    requires Good(m) && t in m.threads && m.threads[t].pc.HaveSpan?
    ensures CanTake(m, Step.Carve(t))
  {
    hide Pages.Inv, Arranged, Domain, Spans, Counts, Roles, Threads, Owners, Locks;
    Facts(m, t);
  }

  // ----- the run -----

  lemma CanSpawn<S>(m: Pool<S>, t: nat)
    requires Good(m) && t !in m.threads
    ensures CanTake(m, Spawn(t))
  {
    hide Good;
  }

  lemma SpawnFacts<S>(m: Pool<S>, t: nat)
    requires Good(m) && t !in m.threads
    ensures var n := DoSpawn(m, t);
      && n.pages == m.pages && n.buckets == m.buckets && n.locks == m.locks && n.carved == m.carved
      && t in n.threads && n.threads[t].pc.Idle? &&
           (forall u :: u in m.threads ==> u in n.threads && n.threads[u] == m.threads[u])
      && (forall i :: 0 <= i < BUCKETS ==> InThread(t, i) in n.store.at && n.store.at[InThread(t, i)] == [])
      && (forall p :: p in m.store.at ==> p in n.store.at && n.store.at[p] == m.store.at[p])
  {
    hide Pages.Inv, Arranged, Spans, Counts, Roles, Threads, Owners, Locks;
    NewPlacesAreNew(m, t);
  }

  /** Two idle threads on an empty pool. */
  ghost predicate TwoIdle(x: Machine<nat>) {
    && Right(x) && x.pool.pages == Empty<nat>() && x.pool.carved == map[] && x.words == map[]
    && forall i :: 0 <= i < BUCKETS ==> Wants(x.pool, 0, i) && Wants(x.pool, 1, i)
  }

  lemma TwoThreads() returns (x: Machine<nat>, acts: seq<Act<nat>>)
    ensures Right(Start<nat>()) && Goes(Start(), acts, x) && TwoIdle(x)
  {
    hide Good, Threaded, Within, DoSpawn;
    StartIsRight<nat>();
    var x0 := Start<nat>();
    StartFacts();
    CanSpawn(x0.pool, 0);
    AfterKeeps(x0, Do(Spawn(0)));
    SpawnFacts(x0.pool, 0);
    var x1 := After(x0, Do(Spawn(0)));
    OnlyOne(x0.pool, x1.pool);
    CanSpawn(x1.pool, 1);
    AfterKeeps(x1, Do(Spawn(1)));
    SpawnFacts(x1.pool, 1);
    x := After(x1, Do(Spawn(1)));
    acts := [Do(Spawn(0)), Do(Spawn(1))];
    GoesTwo(x0, Do(Spawn(0)), Do(Spawn(1)));
  }

  lemma OnlyOne(m: Pool<nat>, n: Pool<nat>)
    requires n == DoSpawn(m, 0) && m.threads == map[]
    ensures 1 !in n.threads
  {
  }

  lemma StartFacts()
    ensures var m := Start<nat>().pool;
      && m.pages == Empty<nat>() && m.carved == map[] && m.locks == map[] && m.threads == map[] &&
           Start<nat>().words == map[]
      && |m.buckets| == BUCKETS && forall i :: 0 <= i < BUCKETS ==> m.buckets[i] == []
  {
  }

  lemma TwoMore<S>(x: Machine<S>, acts: seq<Act<S>>, y: Machine<S>, a: Act<S>, b: Act<S>) returns (more: seq<Act<S>>)
    requires Right(x) && Goes(x, acts, y) && Right(y) && Allowed(y, a) && (AfterKeeps(y, a); Allowed(After(y, a), b))
    ensures Right(After(y, a)) && Goes(x, more, After(After(y, a), b))
  {
    hide Good, Threaded, Within, Allowed, After, Goes;
    AfterKeeps(y, a);
    OneMore(x, acts, y, a);
    OneMore(x, acts + [a], After(y, a), b);
    more := acts + [a] + [b];
  }

  lemma GoesAct<S>(x: Machine<S>, a: Act<S>, b: Act<S>, y: Machine<S>)
    requires Right(x) && Goes(x, [a, b], y)
    ensures Allowed(x, a) && (AfterKeeps(x, a); Allowed(After(x, a), b) && y == After(After(x, a), b))
  {
    hide Good, Threaded, Within, Allowed, After;
    AfterKeeps(x, a);
    assert [a, b][1..] == [b] && [b][1..] == [];
    assert Goes(After(x, a), [b], y);
  }

  /** Thread t, idle, takes a span for bucket i from the page cache and cuts it. */
  lemma TakeSpan(start: Machine<nat>, before: seq<Act<nat>>, x: Machine<nat>, t: nat, i: nat, big: nat, base: nat,
      kid: nat)
    returns (y: Machine<nat>, acts: seq<Act<nat>>)
    requires Right(start) && Goes(start, before, x) && Right(x) && i < BUCKETS && Wants(x.pool, t, i)
    requires Pages.Inv(x.pool.pages) && |x.pool.pages.lists| == NPAGES && 1 <= SpanPages(i) < NPAGES
    requires FreshSpans(x.pool.pages, SpanPages(i), big, base, kid)
    requires var (st, r) := NewSpan(x.pool.pages, SpanPages(i), big, base, kid);
      r in st.spans && forall p: nat :: st.spans[r].Has(p / PAGE) ==> Ch.Word(x.words, p) == 0
    ensures Right(y) && Goes(start, acts, y)
    ensures var (st, r) := NewSpan(x.pool.pages, SpanPages(i), big, base, kid);
      && r in st.spans && Got(x.pool, y.pool, t, i, r, MarkInUse(st, r)) && r !in x.pool.carved
      && forall p: nat :: !st.spans[r].Has(p / PAGE) ==> Ch.Word(y.words, p) == Ch.Word(x.words, p)
  {
    hide Good, Threaded, Within, NewSpan, FreshSpans, Allowed, After, Goes, Size;
    SizeOfBucket(i);
    var z, two := MissAndFind(x, t, Size(i));
    GoesAct(x, two[0], two[1], z);
    var mid := TwoMore(start, before, x, two[0], two[1]);
    var a, b;
    y, a, b := AcquireAndCut(z, t, i, big, base, kid);
    acts := TwoMore(start, mid, z, a, b);
  }

  lemma SizeOfBucket(i: nat)
    requires i < BUCKETS
    ensures ValidSize(Size(i)) && Bucket(Size(i)) == i
  {
    SC.BucketsOnto(i);
  }

  lemma FirstBucket()
    ensures SpanPages(0) == 1 && Fits(0)
  {
    assert Size(0) == 8;
    SC.SmallClassesFit(8);
  }

  /** Buckets that do not fit have spans of at most 64 pages. */
  lemma MisfitPages(i: nat)
    requires i < BUCKETS && !Fits(i)
    ensures 1 <= SpanPages(i) <= 64
  {
    hide Size, SC.NumMovePage, SC.NumMoveSize, Fits;
    WhichFit(i);
    PageCountOk(i);
    SizesAre(i);
    SC.BatchFillsPages(Size(i));
    BatchUpTo(Size(i));
  }

  lemma BatchUpTo(size: nat)
    requires 8 <= size <= 64 * 1024
    ensures SC.NumMoveSize(size) * size <= SC.MAX_BYTES
  {
    SC.DivideLaw(SC.MAX_BYTES, size);
    var q := SC.MAX_BYTES / size;
    assert q > 512 ==> 512 * size <= q * size;
    assert q < 2 ==> (q + 1) * size <= 2 * size;
    assert (q + 1) * size == q * size + size;
  }

  lemma FirstTaken(start: Machine<nat>, before: seq<Act<nat>>, x: Machine<nat>, i: nat)
    returns (y: Machine<nat>, acts: seq<Act<nat>>)
    requires Right(start) && Goes(start, before, x) && TwoIdle(x) && i < BUCKETS && 1 <= SpanPages(i) <= 64
    ensures Right(y) && Goes(start, acts, y) && HeadTaken(y.pool.pages, 1, SpanPages(i))
    ensures 1 in y.pool.carved && y.pool.carved[1] == Info(i, 0) && 2 !in y.pool.carved && Wants(y.pool, 1, 0)
    ensures forall p: nat :: p / PAGE >= 1 + SpanPages(i) ==> Ch.Word(y.words, p) == 0
  {
    hide Good, Threaded, Within, Goes, Sound, NewSpan, FreshSpans, HeadTaken, Wants, Got, FirstFit, SpanPages,
         TwoIdle;
    var k := SpanPages(i);
    IdleFacts(x, i);
    FirstRequest(1, k);
    y, acts := TakeSpan(start, before, x, 0, i, 0, 1, 1);
    var n := MarkInUse(NewSpan(x.pool.pages, k, 0, 1, 1).0, 1);
    HeadIs(n, 1, k);
    GotFacts(x.pool, y.pool, 0, i, 1, n);
    StillWants(x.pool, y.pool, 0, i, 1, n);
  }

  lemma IdleFacts(x: Machine<nat>, i: nat)
    requires TwoIdle(x) && i < BUCKETS
    ensures Right(x) && x.pool.pages == Empty<nat>() && x.pool.carved == map[] && x.words == map[]
    ensures Wants(x.pool, 0, i) && Wants(x.pool, 1, 0)
  {
    hide Good, Threaded, Within, Wants;
  }

  lemma GotFacts(m: Pool<nat>, n: Pool<nat>, t: nat, i: nat, r: nat, pages: Pages.State<nat>)
    requires Got(m, n, t, i, r, pages)
    ensures n.pages == pages && n.carved == m.carved[r := Info(i, 0)] && r in pages.spans
  {
  }

  lemma HeadIs(st: Pages.State<nat>, base: nat, k: nat)
    requires HeadTaken(st, base, k)
    ensures 1 in st.spans && st.spans[1] == Geo(base, k, true)
  {
  }

  lemma StillWants(m: Pool<nat>, n: Pool<nat>, t: nat, i: nat, r: nat, pages: Pages.State<nat>)
    requires Wants(m, 1, 0) && Got(m, n, t, i, r, pages) && t != 1 && Good(n)
    ensures Wants(n, 1, 0)
  {
    hide Good;
  }

  /** For every bucket that does not fit there is a run after which an object of that bucket and another object of the
      pool share memory: one thread takes a span for the bucket, another one a page that lies right behind. */
  lemma MisfitsOverlap(i: nat) returns (acts: seq<Act<nat>>, x: Machine<nat>, a: nat, b: nat)
    requires i < BUCKETS && !Fits(i)
    ensures Reachable(acts, x) && Right(x) && a in x.pool.owner && b in x.pool.owner && a != b && !Clear(x.pool, a, b)
    ensures a < b && x.pool.owner[a] in x.pool.carved && x.pool.carved[x.pool.owner[a]].cls == i
  {
    hide Good, Threaded, Within, Goes, Sound, NewSpan, FreshSpans, Fits, HeadTaken, Clear, Wants, Size, SpanPages;
    MisfitPages(i);
    FirstBucket();
    var k := SpanPages(i);
    var x0, acts0 := TwoThreads();
    var y, acts1 := FirstTaken(Start(), acts0, x0, i);
    GoodPages(y.pool);
    NextRequest(y.pool.pages, 1, k);
    x, acts := TakeSpan(Start(), acts1, y, 1, 0, 2, 1, 2);
    a, b := BehindOverlaps(x.pool, 1, 2);
    InFront(x.pool, a, b);
  }

  lemma InFront(m: Pool<nat>, a: nat, b: nat)
    requires Good(m) && a in m.owner && b in m.owner && Behind(m, m.owner[a], m.owner[b])
    ensures a < b
  {
    hide Good, SpanPages;
    OwnerFacts(m, a);
    OwnerFacts(m, b);
    var g := m.pages.spans[m.owner[a]];
    ObjectBefore(g, m.carved[m.owner[a]].cls, a);
  }

  /** Object a of bucket i reaches into the object b behind it. */
  ghost predicate ReachesInto(x: Machine<nat>, i: nat, a: nat, b: nat)
    requires i < BUCKETS
  {
    && a in x.pool.owner && b in x.pool.owner && x.pool.owner[a] in x.pool.carved
    && x.pool.carved[x.pool.owner[a]].cls == i && a < b < a + Size(i)
  }

  /** The objects of a bucket stay clear of everything behind them, in every reachable state, exactly if its size
      divides the bytes of its spans. */
  lemma StaysClearExactly(i: nat)
    requires i < BUCKETS
    ensures Fits(i) <==> forall acts, x, a, b :: Reachable(acts, x) ==> !ReachesInto(x, i, a, b)
  {
    hide Reachable, Fits, Good, Threaded, Within, Size;
    if Fits(i) {
      forall acts, x, a, b | Reachable(acts, x) ensures !ReachesInto(x, i, a, b) {
        if ReachesInto(x, i, a, b) {
          ReachableIsRight(acts, x);
          FittingStaysClear(x.pool, i, a, b);
        }
      }
    } else {
      var acts, x, a, b := MisfitsOverlap(i);
      NotClear(x.pool, i, a, b);
      assert ReachesInto(x, i, a, b);
    }
  }

  lemma NotClear(m: Pool<nat>, i: nat, a: nat, b: nat)
    requires Good(m) && a in m.owner && b in m.owner && a < b && !Clear(m, a, b)
    requires i < BUCKETS && m.owner[a] in m.carved && m.carved[m.owner[a]].cls == i
    ensures b < a + Size(i)
  {
    hide Good, Size, SpanPages;
    OwnerFacts(m, b);
  }

  lemma FittingStaysClear(m: Pool<nat>, i: nat, a: nat, b: nat)
    requires Good(m) && i < BUCKETS && Fits(i) && a in m.owner && b in m.owner && a < b
    requires m.owner[a] in m.carved && m.carved[m.owner[a]].cls == i
    ensures a + Size(i) <= b
  {
    hide Good, Size, SpanPages, Fits;
    OwnerFacts(m, a);
    OwnerFacts(m, b);
    GoodPages(m);
    var s, r := m.owner[a], m.owner[b];
    var (g, h) := (m.pages.spans[s], m.pages.spans[r]);
    if s == r {
      SameSpan(m, a, b);
    } else {
      SpanOrder(m.pages, s, r);
      ObjectBefore(h, m.carved[r].cls, b);
      PagesLess(h.page + h.n, g.page);
      assert g.page + g.n <= h.page;
      OneBefore(g, i, a, h, m.carved[r].cls, b);
    }
  }

  lemma PagesLess(p: nat, q: nat)
    ensures p <= q ==> p * PAGE <= q * PAGE
  {
  }
}
