/** When the page map leads from every object of a span back to the span: which requests are safe in every state
    that can be reached, and what can happen to all others. */
module Lookups {
  import opened Pages
  import opened Stores
  import opened Pools
  import opened PoolProofs
  import opened PoolMemory
  import opened PoolTheorems
  import opened OverlapRun
  import SC = SizeClass
  import Ch = Chains

  // ----- chipping pages off 128 fresh ones -----

  /** Pages have been taken off the head of 128 fresh ones, n in all: what is left is one free span, and only its
      first and last page are in the map. */
  ghost predicate Chipped(st: Pages.State<nat>, base: nat, n: nat) {
    && 1 <= n < NPAGES - 1 && OnlyList(st.lists, NPAGES - 1 - n, 0)
    && 0 in st.spans && st.spans[0] == Geo(base + n, NPAGES - 1 - n, false)
    && (forall s :: s in st.spans ==> s <= n)
    && forall p :: base + n < p < base + NPAGES - 2 ==> p !in st.tags
  }

  lemma CutChips(st: Pages.State<nat>, base: nat, n: nat, k: nat, kid: nat)
    requires |st.lists| == NPAGES && n + k < NPAGES - 1 && 1 <= k && OnlyList(st.lists, NPAGES - 1 - n, 0)
    requires 0 in st.spans && st.spans[0] == Geo(base + n, NPAGES - 1 - n, false)
    requires 1 <= kid <= n + k && forall s :: s in st.spans ==> s <= n
    requires forall p :: base + n < p < base + NPAGES - 2 ==> p !in st.tags
    ensures var r := Split(PopFront(st, NPAGES - 1 - n), 0, k, kid);
      kid in r.spans && Chipped(MarkInUse(r, kid), base, n + k)
  {
    var r := Split(PopFront(st, NPAGES - 1 - n), 0, k, kid);
    assert r.lists[NPAGES - 1 - n - k] == [0];
  }

  lemma FirstChip(base: nat, k: nat)
    requires 1 <= base && 1 <= k < NPAGES - 1
    ensures Inv(Empty<nat>()) && Pages.Enabled(Empty<nat>(), Ask(k, 0, base, 1))
    ensures |Empty<nat>().lists| == NPAGES && FreshSpans(Empty<nat>(), k, 0, base, 1) && |Empty<nat>().lists[k]| == 0
    ensures var (st, r) := NewSpan(Empty<nat>(), k, 0, base, 1);
      r == 1 && 1 in st.spans && Chipped(MarkInUse(st, 1), base, k)
  {
    hide Sound, Split, PopFront, Refill, MarkInUse, Take, Chipped;
    EmptyIsSound<nat>();
    var r := FirstRefill(base);
    NothingFits(k);
    TakeHead(r, base, k);
    CutChips(r, base, 0, k, 1);
  }

  lemma NextChip(st: Pages.State<nat>, base: nat, n: nat)
    requires Inv(st) && Chipped(st, base, n) && n < NPAGES - 2
    ensures |st.lists| == NPAGES && |st.lists[1]| == 0 && FreshSpans(st, 1, 0, base, n + 1)
    ensures var (s, r) := NewSpan(st, 1, 0, base, n + 1);
      r == n + 1 && r in s.spans && Chipped(MarkInUse(s, r), base, n + 1)
  {
    hide Sound, Split, PopFront, MarkInUse;
    var i := NPAGES - 1 - n;
    assert |st.lists[i]| > 0;
    assert FirstFit(st.lists, 1) == i && FirstFit(st.lists, 2) == i;
    CutChips(st, base, n, 1, n + 1);
  }

  /** What is left after n pages have been taken is handed out whole to a request of just that many, and none of its
      inner pages leads back to it. */
  lemma RestIsHollow(st: Pages.State<nat>, base: nat, n: nat)
    requires Inv(st) && Chipped(st, base, n)
    ensures var k := NPAGES - 1 - n;
      && |st.lists| == NPAGES && FreshSpans(st, k, 0, base, n + 1)
      && var (s, r) := NewSpan(st, k, 0, base, n + 1);
         && r in s.spans && s.spans[r] == Geo(base + n, k, false)
         && forall p :: base + n < p < base + NPAGES - 2 ==> p !in s.tags
    ensures n <= NPAGES - 4 ==> !WillBeComplete(st, NPAGES - 1 - n)
  {
    hide Sound;
    if n <= NPAGES - 4 {
      assert st.spans[0].Has(base + n + 1);
    }
  }

  // ----- the page cache alone -----

  /** The page cache will hand out a span all of whose pages lead back to it: it will cut a new one, or the
      one at the front of the list already has complete entries (see NewSpanComplete). */
  ghost predicate WillBeComplete<S>(pages: Pages.State<S>, k: nat)
    requires k < |pages.lists|
  {
    if |pages.lists[k]| == 0 then k < NPAGES - 1
    else pages.lists[k][0] in pages.spans && Complete(pages.tags, pages.lists[k][0], pages.spans[pages.lists[k][0]])
  }

  ghost predicate CanReach(steps: seq<CacheStep<nat>>, b: Pages.State<nat>) {
    EmptyIsSound<nat>();
    Run(Empty(), steps, b)
  }

  lemma SmallIsComplete<S>(st: Pages.State<S>, k: nat)
    requires Inv(st) && 1 <= k <= 2
    ensures |st.lists| == NPAGES && WillBeComplete(st, k)
  {
    hide Disjoint, Covers, Tagged, Complete, NoDup;
    Sized(st);
    if |st.lists[k]| > 0 {
      PopKeeps(st, k);
      assert Tagged(st.tags, st.lists[k][0], st.spans[st.lists[k][0]]);
      EndsAreAll(st.tags, st.lists[k][0], st.spans[st.lists[k][0]]);
    }
  }

  lemma LeftHollow(k: nat) returns (steps: seq<CacheStep<nat>>, b: Pages.State<nat>)
    requires 3 <= k < NPAGES
    ensures CanReach(steps, b) && |b.lists| == NPAGES && !WillBeComplete(b, k)
  {
    hide Sound, Pages.Apply, Pages.Enabled, Chipped;
    var s0, n := Empty<nat>(), NPAGES - 1 - k;
    EmptyIsSound<nat>();
    if n == 0 {
      steps, b := [], s0;
    } else {
      FirstChip(1, n);
      var ask := Ask(n, 0, 1, 1);
      ApplyKeeps(s0, ask);
      b := Pages.Apply(s0, ask);
      AskIs(s0, n, 0, 1, 1);
      RestIsHollow(b, 1, n);
      NoSteps(b);
      OneStep(s0, ask, [], b);
      steps := [ask] + [];
    }
  }

  lemma AskIs(st: Pages.State<nat>, k: nat, big: nat, base: nat, kid: nat)
    requires Inv(st) && Pages.Enabled(st, Ask(k, big, base, kid))
    ensures var (s, r) := NewSpan(st, k, big, base, kid);
      r in s.spans && Pages.Apply(st, Ask(k, big, base, kid)) == MarkInUse(s, r)
  {
    hide Sound, NewSpan;
    NewSpanKeeps(st, k, big, base, kid);
  }

  /** A request for k pages gets a span that every page leads back to, whatever was asked for and given back before,
      exactly if k is at most 2. */
  lemma CompleteExactly(k: nat)
    requires 1 <= k < NPAGES
    ensures k <= 2 <==> forall steps, b :: CanReach(steps, b) ==> |b.lists| == NPAGES && WillBeComplete(b, k)
  {
    hide Sound, Run, WillBeComplete;
    if k <= 2 {
      forall steps, b | CanReach(steps, b) ensures |b.lists| == NPAGES && WillBeComplete(b, k) {
        EmptyIsSound<nat>();
        RunKeeps(Empty<nat>(), steps, b);
        SmallIsComplete(b, k);
      }
    } else {
      var steps, b := LeftHollow(k);
    }
  }

  // ----- the whole pool -----

  /** Only the buckets of 8 and of 16 bytes use spans of one and of two pages. */
  lemma SmallSpans(i: nat)
    requires i < BUCKETS
    ensures SpanPages(i) <= 2 <==> i <= 1
  {
    hide SC.NumMoveSize, SC.NumMovePage, Size;
    SizeAtLeast(i);
    SC.BatchFillsPages(Size(i));
    ManyOrLarge(Size(i));
  }

  lemma SizeAtLeast(i: nat)
    requires i < BUCKETS
    ensures 8 <= Size(i) <= SC.MAX_BYTES && SpanPages(i) == SC.NumMovePage(Size(i))
    ensures i == 0 ==> Size(i) == 8
    ensures i == 1 ==> Size(i) == 16
    ensures i >= 2 ==> Size(i) >= 24
  {
  }

  lemma ManyOrLarge(size: nat)
    requires 8 <= size <= SC.MAX_BYTES
    ensures size <= 512 ==> SC.NumMoveSize(size) == 512
    ensures size > 512 ==> SC.NumMoveSize(size) * size >= 16384
  {
    if size <= 512 {
      Fills(size);
    } else {
      hide SC.NumMoveSize;
      FillsHalf(size);
    }
  }

  lemma Fills(size: nat)
    requires 8 <= size <= 512
    ensures SC.MAX_BYTES / size >= 512
  {
    SC.DivideLaw(SC.MAX_BYTES, size);
    var q := SC.MAX_BYTES / size;
    assert (q + 1) * size == q * size + size;
    assert q + 1 <= 512 ==> (q + 1) * size <= 512 * size;
  }

  lemma FillsHalf(size: nat)
    requires 512 < size <= SC.MAX_BYTES
    ensures SC.NumMoveSize(size) * size >= 16384
  {
    SC.DivideLaw(SC.MAX_BYTES, size);
    var q, n := SC.MAX_BYTES / size, SC.NumMoveSize(size);
    assert (q + 1) * size == q * size + size;
    if n == q {
      assert q * size >= 2 * size;
    } else if n == 2 {
      assert q + 1 <= 2 ==> (q + 1) * size <= 2 * size;
    } else {
      assert 512 * size >= 512 * 512;
    }
  }

  /** Some object of the bucket starts on an inner page of its span. */
  lemma InnerObject(i: nat, g: Geo) returns (a: nat)
    requires i < BUCKETS && 3 <= SpanPages(i) == g.n && g.page >= 1
    ensures Obj(g, i, a) && g.page < a / PAGE < g.page + g.n - 1
  {
    hide SC.NumMoveSize, SC.NumMovePage, Size;
    var size, k := Size(i), SpanPages(i);
    SizeAtLeast(i);
    SC.BatchFillsPages(size);
    SC.BatchBytes(size);
    var q := (PAGE + size - 1) / size;
    SC.DivideLaw(PAGE + size - 1, size);
    a := g.page * PAGE + q * size;
    Ch.MultipleOf(q, size);
    assert PAGE <= q * size < PAGE + size;
    assert 2 * size < (k + 1) * PAGE;
    assert q * size < (k - 1) * PAGE by {
      if size > PAGE {
        OnlyOneFits(q, size);
      }
    }
    assert (g.page + 1) * PAGE <= a < (g.page + k - 1) * PAGE;
    assert g.n * PAGE == k * PAGE && a - g.page * PAGE == q * size;
  }

  lemma OnlyOneFits(q: nat, size: nat)
    requires PAGE < size && q * size < PAGE + size
    ensures q <= 1
  {
    assert q >= 2 ==> q * size >= 2 * size;
  }

  /** n threads have taken a page each and have not cut it yet; thread 0 has done nothing. */
  ghost predicate PagesTaken(x: Machine<nat>, n: nat) {
    && Right(x) && x.words == map[] && (if n == 0 then x.pool.pages == Empty<nat>() else Chipped(x.pool.pages, 1, n))
    && (forall t: nat :: t in x.pool.threads <==> t <= n)
    && forall i :: 0 <= i < BUCKETS ==> Wants(x.pool, 0, i)
  }

  lemma NoneTaken() returns (x: Machine<nat>, acts: seq<Act<nat>>)
    ensures Right(Start<nat>()) && Goes(Start(), acts, x) && PagesTaken(x, 0)
  {
    hide Good, Threaded, Within, DoSpawn, Goes, Allowed, Wants;
    StartIsRight<nat>();
    var x0 := Start<nat>();
    StartFacts();
    SpawnAllowed(x0, 0);
    AfterKeeps(x0, Do(Spawn(0)));
    x := After(x0, Do(Spawn(0)));
    NoActs(x0);
    OneMore(x0, [], x0, Do(Spawn(0)));
    acts := [] + [Do(Spawn(0))];
    WhoIsThere(x0.pool, 0);
    FirstWants(x0.pool);
  }

  lemma FirstWants(m: Pool<nat>)
    requires Good(m) && m.threads == map[] && m.locks == map[] && Good(DoSpawn(m, 0))
    requires |m.buckets| == BUCKETS && forall i :: 0 <= i < BUCKETS ==> m.buckets[i] == []
    ensures DoSpawn(m, 0).pages == m.pages && forall i :: 0 <= i < BUCKETS ==> Wants(DoSpawn(m, 0), 0, i)
  {
    hide Good, DoSpawn;
    SpawnFacts(m, 0);
  }

  lemma SpawnAllowed<S>(x: Machine<S>, t: nat)
    requires Good(x.pool) && t !in x.pool.threads
    ensures Allowed(x, Do(Spawn(t))) && After(x, Do(Spawn(t))) == Machine(DoSpawn(x.pool, t), x.words)
  {
    hide Good, DoSpawn;
  }

  lemma WhoIsThere<S>(m: Pool<S>, t: nat)
    ensures forall u: nat :: u in DoSpawn(m, t).threads <==> u == t || u in m.threads
  {
  }

  lemma StillWanted<S>(m: Pool<S>, n: Pool<S>, t: nat)
    requires (forall i :: 0 <= i < BUCKETS ==> Wants(m, t, i)) && Good(n) && n.buckets == m.buckets
    requires n.locks == m.locks
    requires t in n.threads && t in m.threads && n.threads[t] == m.threads[t]
    requires forall p :: p in m.store.at ==> p in n.store.at && n.store.at[p] == m.store.at[p]
    ensures forall i :: 0 <= i < BUCKETS ==> Wants(n, t, i)
  {
    hide Good;
    forall i | 0 <= i < BUCKETS ensures Wants(n, t, i) {
      assert Wants(m, t, i);
    }
  }

  lemma NewWants<S>(m: Pool<S>, t: nat)
    requires Good(m) && t !in m.threads && Good(DoSpawn(m, t)) && Wants(m, 0, 0)
    ensures Wants(DoSpawn(m, t), t, 0)
  {
    hide Good, DoSpawn;
    SpawnFacts(m, t);
  }

  /** The next page that is asked for is there, and its entry will be complete. */
  lemma PageThere(x: Machine<nat>, n: nat)
    requires PagesTaken(x, n) && n < NPAGES - 2
    ensures var st := x.pool.pages;
      && Inv(st) && |st.lists| == NPAGES && FreshSpans(st, 1, 0, 1, n + 1)
      && var (s, r) := NewSpan(st, 1, 0, 1, n + 1);
         r in s.spans && Chipped(MarkInUse(s, r), 1, n + 1)
  {
    hide Sound, Arranged, Domain, Spans, Counts, Roles, Threads, Owners, Locks, Threaded, Within, Wants, NewSpan,
         FreshSpans, Chipped;
    if n == 0 {
      FirstChip(1, 1);
    } else {
      NextChip(x.pool.pages, 1, n);
    }
  }

  /** A new thread comes, finds nothing in bucket 0 and takes a page. */
  lemma TakePage(start: Machine<nat>, before: seq<Act<nat>>, x: Machine<nat>, n: nat)
      returns (y: Machine<nat>, acts: seq<Act<nat>>)
    requires Right(start) && Goes(start, before, x) && PagesTaken(x, n) && n < NPAGES - 2
    ensures Goes(start, acts, y) && PagesTaken(y, n + 1)
  {
    hide Good, Threaded, Within, DoSpawn, Goes, Allowed, After, Wants, Chipped, NewSpan, FreshSpans, SpanPages, Size;
    var t := n + 1;
    var x1, mid := NewThread(start, before, x, n);
    SizeOfBucket(0);
    FirstBucket();
    PageThere(x, n);
    var x2, two := MissAndFind(x1, t, Size(0));
    GoesAct(x1, two[0], two[1], x2);
    mid := TwoMore(start, mid, x1, two[0], two[1]);
    CanAcquire(x2.pool, t, 0, 0, 1, t);
    var take := Do(Step.Acquire(t, 0, 1, t));
    AcquireAllowed(x2, t, 0, 1, t);
    AfterKeeps(x2, take);
    AcquireFacts(x2.pool, t, 0, 0, 1, t);
    OneMore(start, mid, x2, take);
    y := After(x2, take);
    acts := mid + [take];
    StillWanted(x1.pool, x2.pool, 0);
    StillWanted(x2.pool, y.pool, 0);
  }

  lemma AcquireAllowed<S>(x: Machine<S>, t: nat, big: S, base: nat, kid: S)
    requires Good(x.pool) && CanTake(x.pool, Step.Acquire(t, big, base, kid))
    ensures var take := Do(Step.Acquire(t, big, base, kid));
      Allowed(x, take) && After(x, take) == Machine(NextAcquire(x.pool, t, big, base, kid), x.words)
  {
    hide Good, NextAcquire, CanTake;
  }

  lemma NewThread(start: Machine<nat>, before: seq<Act<nat>>, x: Machine<nat>, n: nat)
      returns (y: Machine<nat>, acts: seq<Act<nat>>)
    requires Right(start) && Goes(start, before, x) && PagesTaken(x, n)
    ensures Goes(start, acts, y) && Right(y) && y.words == map[] && y.pool.pages == x.pool.pages
    ensures Wants(y.pool, n + 1, 0)
    ensures forall t: nat :: t in y.pool.threads <==> t <= n + 1
    ensures forall i :: 0 <= i < BUCKETS ==> Wants(y.pool, 0, i)
  {
    hide Good, Threaded, Within, DoSpawn, Goes, Allowed, After, Wants, Chipped;
    var t := n + 1;
    SpawnAllowed(x, t);
    AfterKeeps(x, Do(Spawn(t)));
    SpawnFacts(x.pool, t);
    WhoIsThere(x.pool, t);
    OneMore(start, before, x, Do(Spawn(t)));
    y := After(x, Do(Spawn(t)));
    acts := before + [Do(Spawn(t))];
    StillWanted(x.pool, y.pool, 0);
    NewWants(x.pool, t);
  }

  lemma {:induction false} TakePages(n: nat) returns (x: Machine<nat>, acts: seq<Act<nat>>)
    requires n <= NPAGES - 2
    ensures Right(Start<nat>()) && Goes(Start(), acts, x) && PagesTaken(x, n)
  {
    hide Right, Goes, PagesTaken, Start;
    StartIsRight<nat>();
    if n == 0 {
      x, acts := NoneTaken();
    } else {
      var y, before := TakePages(n - 1);
      x, acts := TakePage(Start(), before, y, n - 1);
    }
  }

  // ----- objects that cannot be given back -----

  /** In a reachable state object `a` of bucket i is somewhere, and the page map does not lead from its page to its
      span. */
  ghost predicate Lost<S>(x: Machine<S>, i: nat, a: nat) {
    && a in x.pool.owner && x.pool.owner[a] in x.pool.carved && x.pool.carved[x.pool.owner[a]].cls == i
    && !Found(x.pool.pages, a)
  }

  lemma NeverLost<S>(x: Machine<S>, i: nat, a: nat)
    requires Right(x) && i < BUCKETS && SpanPages(i) <= 2
    ensures !Lost(x, i, a)
  {
    hide Arranged, Domain, Counts, Roles, Threads, Locks, Threaded, Within, SpanPages, Covers, Listed, Obj, PlaceFits;
    var m := x.pool;
    if a in m.owner && m.owner[a] in m.carved && m.carved[m.owner[a]].cls == i {
      assert OwnerOk(m, a);
      var s := m.owner[a];
      assert Usable(m.pages, s, i);
      ObjPage(m.pages.spans[s], i, a);
      EndsAreAll(m.pages.tags, s, m.pages.spans[s]);
    }
  }

  lemma TakenIsLost(x: Machine<nat>, i: nat, r: nat, a: nat)
    requires Right(x) && i < BUCKETS && r in x.pool.carved && x.pool.carved[r].cls == i && r in x.pool.pages.spans
    requires Obj(x.pool.pages.spans[r], i, a) && a / PAGE !in x.pool.pages.tags
    ensures Lost(x, i, a)
  {
    hide Pages.Inv, Arranged, Domain, Spans, Counts, Roles, Threads, Locks, Threaded, Within, OwnerOk, Obj;
  }

  /** The span thread 0 will get when all pages but those it asks for have been taken. */
  lemma GetsTheRest(x: Machine<nat>, n: nat, i: nat)
    requires PagesTaken(x, n) && i < BUCKETS && n + SpanPages(i) == NPAGES - 1 && n <= NPAGES - 4
    ensures var k, st := SpanPages(i), x.pool.pages;
      && Inv(st) && |st.lists| == NPAGES && FreshSpans(st, k, 0, 1, n + 1)
      && var (s, r) := NewSpan(st, k, 0, 1, n + 1);
         && r in s.spans && s.spans[r] == Geo(1 + n, k, false)
         && forall p :: 1 + n < p < NPAGES - 1 ==> p !in s.tags
  {
    hide Sound, Arranged, Domain, Spans, Counts, Roles, Threads, Owners, Locks, Threaded, Within, NewSpan, FreshSpans,
         Chipped, SpanPages, Wants;
    if n == 0 {
      WholeAtStart();
    } else {
      RestIsHollow(x.pool.pages, 1, n);
    }
  }

  lemma WholeAtStart()
    ensures var st := Empty<nat>();
      && Inv(st) && |st.lists| == NPAGES && FreshSpans(st, NPAGES - 1, 0, 1, 1)
      && var (s, r) := NewSpan(st, NPAGES - 1, 0, 1, 1);
         r in s.spans && s.spans[r] == Geo(1, NPAGES - 1, false) && forall p :: 1 <= p < NPAGES ==> p !in s.tags
  {
    hide Sound, NewSpan;
    EmptyIsSound<nat>();
    NothingFits(NPAGES - 1);
    WholeSpanUnmapped(Empty<nat>(), 0, 1, 1);
    var (s, r) := NewSpan(Empty<nat>(), NPAGES - 1, 0, 1, 1);
    forall p | 1 <= p < NPAGES ensures p !in s.tags {
      assert s.spans[r].Has(p);
    }
  }

  /** For every bucket whose spans have more than two pages, a run after which one of its objects cannot be given
      back: all pages but those of one span are taken one by one, and then a thread takes and cuts the rest. */
  lemma SomeAreLost(i: nat) returns (acts: seq<Act<nat>>, x: Machine<nat>, a: nat)
    requires i < BUCKETS && SpanPages(i) >= 3
    ensures Reachable(acts, x) && Right(x) && Lost(x, i, a)
  {
    hide Good, Threaded, Within, Goes, Allowed, After, Wants, Chipped, SpanPages, Size, Lost, Obj, NewSpan,
         FreshSpans;
    PageCountOk(i);
    var k := SpanPages(i);
    var n := NPAGES - 1 - k;
    var y, before := TakePages(n);
    GetsTheRest(y, n, i);
    NothingWritten(y);
    x, acts := TakeSpan(Start(), before, y, 0, i, 0, 1, n + 1);
    var g := Geo(1 + n, k, false);
    a := InnerObject(i, g);
    var (s, r) := NewSpan(y.pool.pages, k, 0, 1, n + 1);
    SameObjects(g, MarkInUse(s, r).spans[r], i, a);
    TakenIsLost(x, i, r, a);
  }

  lemma NothingWritten(x: Machine<nat>)
    requires x.words == map[]
    ensures forall p :: Ch.Word(x.words, p) == 0
  {
  }

  lemma SameObjects(g: Geo, h: Geo, i: nat, a: nat)
    requires Obj(g, i, a) && g.page == h.page && g.n == h.n
    ensures Obj(h, i, a)
  {
  }

  /** The map leads from the page of an object to its owner, or the object is not found at all. */
  lemma FoundIsOwner<S>(m: Pool<S>, a: nat)
    requires Good(m) && a in m.owner
    ensures a / PAGE in m.pages.tags && m.pages.tags[a / PAGE] == m.owner[a] <==> Found(m.pages, a)
    ensures m.owner[a] in m.pages.spans && m.pages.spans[m.owner[a]].isUse && m.pages.spans[m.owner[a]].Has(a / PAGE)
  {
    hide Arranged, Domain, Counts, Roles, Threads, Locks, Covers, Listed, Tagged, PlaceFits;
    assert OwnerOk(m, a);
    ObjPage(m.pages.spans[m.owner[a]], m.carved[m.owner[a]].cls, a);
  }

  lemma PagesStay<S>(m: Pool<S>, step: Step<S>)
    requires Good(m) && CanTake(m, step) && !step.Acquire? && !step.GiveBack?
    ensures Next(m, step).pages == m.pages
  {
    hide Pages.Inv, Arranged, Domain, Spans, Counts, Roles, Threads, Owners, Locks, MoveFront, FromHeld, NewPlace,
         DropPlace, FirstFree, SomeFree;
  }

  lemma MovedTag<S>(m: Pool<S>, n: Pool<S>, x: S, a: nat)
    requires Good(m) && Good(n) && PagesMoved(m.pages, n.pages, x) && a in m.owner && a in n.owner
    requires n.owner[a] == m.owner[a] != x
    ensures Found(n.pages, a) <==> Found(m.pages, a)
  {
    hide Good, Found;
    FoundIsOwner(m, a);
    FoundIsOwner(n, a);
    assert SameTag(m.pages.tags, n.pages.tags, a / PAGE);
  }

  /** No step changes whether an object is found, as long as its span is not given back. */
  lemma FoundStays<S>(m: Pool<S>, step: Step<S>, a: nat)
    requires Good(m) && CanTake(m, step) && a in m.owner && a in Next(m, step).owner
    requires Next(m, step).owner[a] == m.owner[a]
    ensures Found(Next(m, step).pages, a) <==> Found(m.pages, a)
  {
    hide Pages.Inv, Arranged, Domain, Spans, Counts, Roles, Threads, Owners, Locks, Found, NextAcquire, NextGiveBack,
         PagesMoved;
    NextKeeps(m, step);
    FoundIsOwner(m, a);
    if step.Acquire? {
      var s := AcquireMoves(m, step.t, step.big, step.base, step.kid);
      MovedTag(m, NextAcquire(m, step.t, step.big, step.base, step.kid), s, a);
    } else if step.GiveBack? {
      var s := GiveBackMoves(m, step.t);
      OwnerIsCarved(m, a);
      MovedTag(m, NextGiveBack(m, step.t), s, a);
    } else {
      PagesStay(m, step);
    }
  }

  lemma OwnerIsCarved<S>(m: Pool<S>, a: nat)
    requires Owners(m) && a in m.owner
    ensures m.owner[a] in m.carved
  {
    assert OwnerOk(m, a);
  }

  /** Every object of a bucket, wherever it is, can be given back in every reachable state exactly if the spans of
      the bucket have at most two pages. */
  lemma FoundExactly(i: nat)
    requires i < BUCKETS
    ensures SpanPages(i) <= 2 <==> forall acts, x: Machine<nat>, a :: Reachable(acts, x) ==> !Lost(x, i, a)
  {
    hide Reachable, Lost, SpanPages, Right;
    if SpanPages(i) <= 2 {
      forall acts, x: Machine<nat>, a | Reachable(acts, x) ensures !Lost(x, i, a) {
        ReachableIsRight(acts, x);
        NeverLost(x, i, a);
      }
    } else {
      var acts, x, a := SomeAreLost(i);
    }
  }
}
