/** The memory pool of High_Concurrent_Memory_Pool (ThreadCache.cpp, CentralCache.cpp, PageCache.cpp) as a transition
    system.  One step is what the C++ code does between two lock operations: work a thread does on its own
    cache, a segment under one bucket lock (the release loop is cut into one step per object, holding the lock in
    between), or one under the page lock.  Lists are sequences here; PoolMemory chains them through memory. */
module Pools {
  import opened Pages
  import opened Stores
  import SC = SizeClass
  import Ch = Chains

  const BUCKETS: nat := SC.NFREE_LIST
  const PAGE: nat := SC.PAGE_SIZE

  /** A span cut into objects: its bucket and `_useCount`. */
  datatype Info = Info(cls: nat, use: int)

  /** What a thread is in the middle of. */
  datatype Pc<S> =
    | Idle
    | WantSpan(i: nat, batch: nat)        // about to lock bucket i to fetch a batch
    | NoSpan(i: nat, batch: nat)          // found nothing, bucket unlocked, about to take the page lock
    | HaveSpan(i: nat, batch: nat, s: S)  // got a span, about to carve it
    | SpanReady(i: nat, batch: nat, s: S) // carved, about to lock the bucket again
    | Fetched(i: nat)                     // a batch in hand, bucket unlocked
    | WantRelease(i: nat)                 // a chain to give back, about to lock the bucket
    | Draining(i: nat)                    // giving it back, bucket locked
    | Returning(i: nat, s: S)             // bucket unlocked, about to return span s to the page cache

  datatype Thread<S> = Thread(size: seq<nat>, maxSize: seq<nat>, pc: Pc<S>)

  /** What a span in use is used for. */
  datatype Role = Bucketed(i: nat) | Private(t: nat)

  /** `owner` and `role` are bookkeeping: no step looks at them. */
  datatype Pool<S(==)> = Pool(
    pages: Pages.State<S>,
    buckets: seq<seq<S>>,
    carved: map<S, Info>,
    threads: map<nat, Thread<S>>,
    locks: map<nat, nat>,
    store: Store<S>,
    owner: map<nat, S>,
    role: map<S, Role>)

  ghost function Initial<S>(): Pool<S> {
    Pool(Empty(), seq(BUCKETS, _ => []), map[], map[], map[], Store(map[], map[], map[]), map[], map[])
  }

  // ----- sizes -----

  function Size(i: nat): (r: nat)
    ensures r > 0
  {
    if i < BUCKETS then SC.ClassSize(i) else 1
  }

  function SpanPages(i: nat): nat { SC.NumMovePage(Size(i)) }

  /** How many objects are carved from a span of bucket i. */
  function Total(i: nat): nat { Ch.Count(SpanPages(i) * PAGE, Size(i)) }

  ghost predicate Obj(g: Geo, i: nat, a: nat) {
    Ch.ObjectAt(g.page * PAGE, g.n * PAGE, Size(i), a)
  }

  function Objs(g: Geo, i: nat): seq<nat> { Ch.Objects(g.page * PAGE, g.n * PAGE, Size(i)) }

  // ----- the steps -----

  datatype Step<S> =
    | Spawn(t: nat)
    | Hit(t: nat, size: nat)
    | Miss(t: nat, size: nat)
    | Find(t: nat)
    | Acquire(t: nat, big: S, base: nat, kid: S)
    | Carve(t: nat)
    | Attach(t: nat)
    | Deliver(t: nat)
    | Free(t: nat, a: nat, size: nat)
    | Lock(t: nat)
    | Drain(t: nat)
    | Unlock(t: nat)
    | GiveBack(t: nat)

  function SetPc<S>(m: Pool<S>, t: nat, pc: Pc<S>): Pool<S>
    requires t in m.threads
  {
    m.(threads := m.threads[t := m.threads[t].(pc := pc)])
  }

  function ThreadPlaces<S(==)>(t: nat): map<Place<S>, seq<nat>> {
    map p: Place<S> | p in Places<S>(t) :: []
  }

  function Places<S(==)>(t: nat): set<Place<S>> {
    {InFlight(t)} + set i | 0 <= i < BUCKETS :: InThread(t, i)
  }

  /** The first use of the pool by a thread: an empty thread cache. */
  function DoSpawn<S>(m: Pool<S>, t: nat): Pool<S> {
    m.(threads := m.threads[t := Thread(seq(BUCKETS, _ => 0), seq(BUCKETS, _ => 1), Idle)],
       store := m.store.(at := m.store.at + ThreadPlaces(t)))
  }

  /** Allocate from the thread's own list. */
  function DoHit<S>(m: Pool<S>, t: nat, i: nat): Pool<S>
    requires t in m.threads && InThread(t, i) in m.store.at && |m.store.at[InThread(t, i)]| > 0
    requires i < |m.threads[t].size| && m.threads[t].size[i] > 0
  {
    var th := m.threads[t];
    m.(store := ToHeld(m.store, InThread(t, i), i),
       threads := m.threads[t := th.(size := th.size[i := th.size[i] - 1])])
  }

  function Min(a: nat, b: nat): (r: nat)
    ensures r <= a && r <= b && (r == a || r == b)
  {
    if a < b then a else b
  }

  /** Allocate with an empty list: choose the batch, grow the limit. */
  function DoMiss<S>(m: Pool<S>, t: nat, i: nat): Pool<S>
    requires t in m.threads && i < |m.threads[t].maxSize|
  {
    var th := m.threads[t];
    var batch := Min(th.maxSize[i], SC.NumMoveSize(Size(i)));
    var max := if th.maxSize[i] == batch then th.maxSize[i] + 1 else th.maxSize[i];
    m.(threads := m.threads[t := th.(maxSize := th.maxSize[i := max], pc := WantSpan(i, batch))])
  }

  /** The first span of the bucket whose free list is not empty. */
  ghost predicate IsFirstFree<S>(m: Pool<S>, i: nat, k: nat)
    requires i < |m.buckets|
  {
    && k < |m.buckets[i]|
    && Available(m, m.buckets[i][k])
    && forall j :: 0 <= j < k ==> !Available(m, m.buckets[i][j])
  }

  ghost predicate SomeFree<S>(m: Pool<S>, i: nat)
    requires i < |m.buckets|
  {
    exists k: nat :: IsFirstFree(m, i, k)
  }

  ghost function FirstFree<S>(m: Pool<S>, i: nat): (k: nat)
    requires i < |m.buckets| && SomeFree(m, i)
    ensures IsFirstFree(m, i, k)
  {
    var k: nat :| IsFirstFree(m, i, k);
    k
  }

  ghost predicate Available<S>(m: Pool<S>, s: S) {
    InSpan(s) in m.store.at && |m.store.at[InSpan(s)]| > 0
  }

  /** `FetchRangeObj` from span s on: as many objects as asked for and available. */
  function DoFetch<S>(m: Pool<S>, t: nat, i: nat, batch: nat, s: S): Pool<S>
    requires t in m.threads && s in m.carved && InSpan(s) in m.store.at && InFlight(t) in m.store.at
  {
    var n := Min(batch, |m.store.at[InSpan(s)]|);
    SetPc(m, t, Fetched(i)).(
      store := MoveFront(m.store, InSpan(s), n, InFlight(t)),
      carved := m.carved[s := m.carved[s].(use := m.carved[s].use + n)])
  }

  function DoAcquire<S>(m: Pool<S>, t: nat, i: nat, batch: nat, pages: Pages.State<S>, s: S): Pool<S>
    requires t in m.threads
  {
    SetPc(m, t, HaveSpan(i, batch, s)).(pages := pages, role := m.role[s := Private(t)])
  }

  function DoCarve<S>(m: Pool<S>, t: nat, i: nat, batch: nat, s: S): Pool<S>
    requires t in m.threads && s in m.pages.spans
  {
    var objs := Objs(m.pages.spans[s], i);
    SetPc(m, t, SpanReady(i, batch, s)).(
      carved := m.carved[s := Info(i, 0)],
      store := NewPlace(m.store, InSpan(s), objs),
      owner := m.owner + map a: nat | a in objs :: s)
  }

  function DoAttach<S>(m: Pool<S>, t: nat, i: nat, batch: nat, s: S): Pool<S>
    requires t in m.threads && s in m.carved && InSpan(s) in m.store.at && InFlight(t) in m.store.at && i < |m.buckets|
  {
    DoFetch(m, t, i, batch, s).(buckets := m.buckets[i := [s] + m.buckets[i]], role := m.role[s := Bucketed(i)])
  }

  /** Hand the first fetched object to the caller, keep the others. */
  function DoDeliver<S>(m: Pool<S>, t: nat, i: nat): Pool<S>
    requires t in m.threads && InFlight(t) in m.store.at && InThread(t, i) in m.store.at
    requires |m.store.at[InFlight(t)]| > 0 && i < |m.threads[t].size|
  {
    var th := m.threads[t];
    var n := |m.store.at[InFlight(t)]| - 1;
    m.(store := MoveFront(ToHeld(m.store, InFlight(t), i), InFlight(t), n, InThread(t, i)),
       threads := m.threads[t := th.(size := th.size[i := th.size[i] + n], pc := Idle)])
  }

  function DoFree<S>(m: Pool<S>, t: nat, a: nat, i: nat): Pool<S>
    requires t in m.threads && InThread(t, i) in m.store.at && InFlight(t) in m.store.at
    requires i < |m.threads[t].size| && i < |m.threads[t].maxSize|
    requires m.threads[t].size[i] == |m.store.at[InThread(t, i)]|
  {
    var th := m.threads[t];
    var store := FromHeld(m.store, a, InThread(t, i));
    var size := th.size[i] + 1;
    var max := th.maxSize[i];
    if size >= max then
      m.(store := MoveFront(store, InThread(t, i), max, InFlight(t)),
         threads := m.threads[t := th.(size := th.size[i := size - max], pc := WantRelease(i))])
    else
      m.(store := store, threads := m.threads[t := th.(size := th.size[i := size])])
  }

  function DoLock<S>(m: Pool<S>, t: nat, i: nat): Pool<S>
    requires t in m.threads
  {
    SetPc(m, t, Draining(i)).(locks := m.locks[i := t])
  }

  function DoUnlock<S>(m: Pool<S>, t: nat, i: nat, pc: Pc<S>): Pool<S>
    requires t in m.threads
  {
    SetPc(m, t, pc).(locks := m.locks - {i})
  }

  /** One turn of the release loop: the first object of the chain goes back to span s. */
  function DoPutBack<S>(m: Pool<S>, t: nat, s: S): Pool<S>
    requires InFlight(t) in m.store.at && |m.store.at[InFlight(t)]| > 0 && InSpan(s) in m.store.at && s in m.carved
  {
    m.(store := MoveFront(m.store, InFlight(t), 1, InSpan(s)),
       carved := m.carved[s := m.carved[s].(use := m.carved[s].use - 1)])
  }

  /** All objects are back: the span leaves the bucket, its free list is dropped, the bucket is unlocked. */
  function DoErase<S>(m: Pool<S>, t: nat, i: nat, s: S): Pool<S>
    requires t in m.threads && i < |m.buckets| && InSpan(s) in m.store.at
  {
    DoUnlock(m, t, i, Returning(i, s)).(
      buckets := m.buckets[i := Without(m.buckets[i], s)],
      carved := m.carved - {s},
      store := DropPlace(m.store, InSpan(s)),
      owner := m.owner - (set a | a in m.store.at[InSpan(s)]),
      role := m.role[s := Private(t)])
  }

  function DoDrain<S>(m: Pool<S>, t: nat, i: nat, s: S): Pool<S>
    requires t in m.threads && i < |m.buckets| && s in m.carved && InSpan(s) in m.store.at
    requires InFlight(t) in m.store.at && |m.store.at[InFlight(t)]| > 0
  {
    var m1 := DoPutBack(m, t, s);
    if m1.carved[s].use == 0 then DoErase(m1, t, i, s) else m1
  }

  function DoGiveBack<S>(m: Pool<S>, t: nat, i: nat, s: S, pages: Pages.State<S>): Pool<S>
    requires t in m.threads
  {
    SetPc(m, t, WantRelease(i)).(pages := pages, role := m.role - {s})
  }

  // ----- the invariant -----

  predicate WithSpan<S>(pc: Pc<S>) { pc.HaveSpan? || pc.SpanReady? || pc.Returning? }

  predicate Fetching<S>(pc: Pc<S>) { pc.WantSpan? || pc.NoSpan? || pc.HaveSpan? || pc.SpanReady? }

  /** `at` has an entry for every list there is, and for nothing else. */
  ghost predicate Domain<S>(m: Pool<S>) {
    && (forall p :: p in m.store.at ==> InDomain(m, p))
    && (forall s :: s in m.carved ==> InSpan(s) in m.store.at)
    && (forall t :: t in m.threads ==> InFlight(t) in m.store.at)
    && (forall t, i :: t in m.threads && 0 <= i < BUCKETS ==> InThread(t, i) in m.store.at)
  }

  ghost predicate InDomain<S>(m: Pool<S>, p: Place<S>) {
    match p
    case InSpan(s) => s in m.carved
    case InThread(t, i) => t in m.threads && i < BUCKETS
    case InFlight(t) => t in m.threads
    case Held => false
  }

  /** A span in use of the right size for bucket i. */
  ghost predicate Usable<S>(pages: Pages.State<S>, s: S, i: nat) {
    i < BUCKETS && s in pages.spans && pages.spans[s].isUse && pages.spans[s].n == SpanPages(i)
  }

  ghost predicate Spans<S>(m: Pool<S>) {
    && (forall s :: s in m.carved ==> Usable(m.pages, s, m.carved[s].cls))
    && (forall t :: t in m.threads && m.threads[t].pc.HaveSpan? ==>
         Usable(m.pages, m.threads[t].pc.s, m.threads[t].pc.i))
  }

  /** Use count plus free objects is the number carved; a span stays in its bucket only while some object is out. */
  ghost predicate Counts<S>(m: Pool<S>) {
    forall s :: s in m.carved ==> CountOk(m, s)
  }

  ghost predicate CountOk<S>(m: Pool<S>, s: S)
    requires s in m.carved
  {
    && InSpan(s) in m.store.at && 0 <= m.carved[s].use
    && m.carved[s].use + |m.store.at[InSpan(s)]| == Total(m.carved[s].cls)
    && (s in m.role && m.role[s].Bucketed? ==> m.carved[s].use >= 1)
    && (s in m.role && m.role[s].Private? ==> m.carved[s].use == 0)
  }

  ghost predicate RoleOk<S>(m: Pool<S>, s: S)
    requires s in m.role && |m.buckets| == BUCKETS
  {
    match m.role[s]
    case Bucketed(i) => i < BUCKETS && s in m.buckets[i] && s in m.carved && m.carved[s].cls == i
    case Private(t) =>
      && t in m.threads && WithSpan(m.threads[t].pc) && m.threads[t].pc.s == s
      && (s in m.carved <==> m.threads[t].pc.SpanReady?)
      && (s in m.carved ==> m.carved[s].cls == m.threads[t].pc.i)
  }

  /** Every span in use is in exactly one bucket, once, or in the hands of exactly one thread. */
  ghost predicate Roles<S>(m: Pool<S>) {
    && |m.buckets| == BUCKETS
    && (forall s :: s in m.role ==> s in m.pages.spans && m.pages.spans[s].isUse)
    && (forall s :: s in m.pages.spans && m.pages.spans[s].isUse ==> s in m.role)
    && (forall s :: s in m.role ==> RoleOk(m, s))
    && (forall s :: s in m.carved ==> s in m.role)
    && (forall i :: 0 <= i < BUCKETS ==> NoDup(m.buckets[i]))
    && (forall i, s :: 0 <= i < BUCKETS && s in m.buckets[i] ==> s in m.role && m.role[s] == Bucketed(i))
    && (forall t :: t in m.threads && WithSpan(m.threads[t].pc) ==>
          m.threads[t].pc.s in m.role && m.role[m.threads[t].pc.s] == Private(t))
  }

  ghost predicate ListOk<S>(m: Pool<S>, t: nat, i: nat)
    requires t in m.threads
  {
    var th := m.threads[t];
    && i < |th.size| == |th.maxSize| && InThread(t, i) in m.store.at
    && th.size[i] == |m.store.at[InThread(t, i)]| && th.size[i] < th.maxSize[i] <= SC.NumMoveSize(Size(i)) + 1
  }

  ghost predicate PcOk<S>(m: Pool<S>, t: nat)
    requires t in m.threads
  {
    var th := m.threads[t];
    && InFlight(t) in m.store.at && |th.size| == |th.maxSize| == BUCKETS
    && (th.pc.Idle? || Fetching(th.pc) ==> |m.store.at[InFlight(t)]| == 0)
    && (!th.pc.Idle? ==> th.pc.i < BUCKETS)
    && (Fetching(th.pc) ==> 1 <= th.pc.batch < th.maxSize[th.pc.i] && th.pc.batch <= SC.NumMoveSize(Size(th.pc.i)))
    && (Fetching(th.pc) || th.pc.Fetched? ==> th.size[th.pc.i] == 0)
    && (th.pc.Fetched? ==> 1 <= |m.store.at[InFlight(t)]| < th.maxSize[th.pc.i])
  }

  /** The recorded size of each list is its length and stays below the limit; batches stay within it too. */
  ghost predicate Threads<S>(m: Pool<S>) {
    && (forall t :: t in m.threads ==> PcOk(m, t))
    && (forall t, i :: t in m.threads && 0 <= i < BUCKETS ==> ListOk(m, t, i))
  }

  ghost predicate PlaceFits<S>(m: Pool<S>, a: nat, s: S, i: nat)
    requires a in m.store.where
  {
    match m.store.where[a]
    case InSpan(r) => r == s
    case InThread(t, j) => j == i
    case InFlight(t) => t in m.threads && !m.threads[t].pc.Idle? && m.threads[t].pc.i == i
    case Held => a in m.store.held && m.store.held[a] == i
  }

  ghost predicate OwnerOk<S>(m: Pool<S>, a: nat)
    requires a in m.owner && a in m.store.where
  {
    var s := m.owner[a];
    s in m.carved && s in m.pages.spans && Obj(m.pages.spans[s], m.carved[s].cls, a) &&
      PlaceFits(m, a, s, m.carved[s].cls)
  }

  /** The objects that are anywhere are those of the carved spans, each in a place for its own bucket. */
  ghost predicate Owners<S>(m: Pool<S>) {
    && m.owner.Keys == m.store.where.Keys
    && (forall a :: a in m.owner ==> OwnerOk(m, a))
    && (forall s, a: nat :: s in m.carved && s in m.pages.spans && Obj(m.pages.spans[s], m.carved[s].cls, a) ==>
          a in m.owner && m.owner[a] == s)
  }

  /** A bucket is locked exactly while one thread drains a chain into it. */
  ghost predicate Locks<S>(m: Pool<S>) {
    && (forall i :: i in m.locks ==> m.locks[i] in m.threads && m.threads[m.locks[i]].pc == Draining(i))
    && (forall t :: t in m.threads && m.threads[t].pc.Draining? ==>
          m.threads[t].pc.i in m.locks && m.locks[m.threads[t].pc.i] == t)
  }

  ghost predicate Good<S>(m: Pool<S>) {
    && Pages.Inv(m.pages) && Arranged(m.store) && Domain(m) && Spans(m) && Counts(m) && Roles(m)
    && Threads(m) && Owners(m) && Locks(m)
  }

  lemma InitialIsSound<S>()
    ensures Good(Initial<S>())
  {
    EmptyIsSound<S>();
  }

  // ----- when a step may be taken, and what it does -----

  lemma Facts<S>(m: Pool<S>, t: nat)
    requires Good(m) && t in m.threads
    ensures |m.buckets| == BUCKETS && |m.threads[t].size| == |m.threads[t].maxSize| == BUCKETS
    ensures InFlight(t) in m.store.at && (!m.threads[t].pc.Idle? ==> m.threads[t].pc.i < BUCKETS)
    ensures forall i :: 0 <= i < BUCKETS ==>
      InThread(t, i) in m.store.at && m.threads[t].size[i] == |m.store.at[InThread(t, i)]|
  {
    hide Spans, Counts, RoleOk, Owners, Locks, Domain, Arranged, Pages.Inv;
    assert PcOk(m, t);
    forall i | 0 <= i < BUCKETS
      ensures InThread(t, i) in m.store.at && m.threads[t].size[i] == |m.store.at[InThread(t, i)]|
    {
      assert ListOk(m, t, i);
    }
  }

  predicate ValidSize(size: nat) { 1 <= size <= SC.MAX_BYTES }

  function Bucket(size: nat): (i: nat)
    requires ValidSize(size)
    ensures i < BUCKETS
  {
    SC.BucketOfSize(size);
    SC.Index(size)
  }

  /** The page map leads from the page of object `a` to the span that page lies in.  Otherwise the release loop has
      a null or dangling pointer in its hands, and there is no step (see Lookups for when that can happen). */
  ghost predicate Found<S>(pages: Pages.State<S>, a: nat) {
    a / PAGE in pages.tags && pages.tags[a / PAGE] in pages.spans && pages.spans[pages.tags[a / PAGE]].Has(a / PAGE)
  }

  lemma PageCountOk(i: nat)
    requires i < BUCKETS
    ensures 1 <= SpanPages(i) < NPAGES && Total(i) > 0
  {
    SC.BucketsOnto(i);
    SC.PagesForBatch(Size(i));
    Ch.ObjectsAre(0, SpanPages(i) * PAGE, Size(i));
  }

  ghost predicate CanTake<S>(m: Pool<S>, step: Step<S>)
    requires Good(m)
  {
    hide Good;
    if step.Spawn? then step.t !in m.threads
    else
      step.t in m.threads && (Facts(m, step.t);
        var pc, flight := m.threads[step.t].pc, m.store.at[InFlight(step.t)];
        match step
        case Hit(t, size) => pc.Idle? && ValidSize(size) && |m.store.at[InThread(t, Bucket(size))]| > 0
        case Miss(t, size) => pc.Idle? && ValidSize(size) && |m.store.at[InThread(t, Bucket(size))]| == 0
        case Find(t) => pc.WantSpan? && pc.i !in m.locks
        case Acquire(t, big, base, kid) =>
          pc.NoSpan? && (PagesFacts(m, pc.i); FreshSpans(m.pages, SpanPages(pc.i), big, base, kid))
        case Carve(t) => pc.HaveSpan?
        case Attach(t) => pc.SpanReady? && pc.i !in m.locks
        case Deliver(t) => pc.Fetched?
        case Free(t, a, size) => pc.Idle? && ValidSize(size) && a in m.store.held && m.store.held[a] == Bucket(size)
        case Lock(t) => pc.WantRelease? && pc.i !in m.locks
        case Drain(t) => pc.Draining? && |flight| > 0 && Found(m.pages, flight[0])
        case Unlock(t) => pc.Draining? && |flight| == 0
        case GiveBack(t) => pc.Returning?)
  }

  lemma PagesFacts<S>(m: Pool<S>, i: nat)
    requires Good(m) && i < BUCKETS
    ensures Pages.Inv(m.pages) && |m.pages.lists| == NPAGES && 1 <= SpanPages(i) < NPAGES
  {
    hide Arranged, Domain, Spans, Counts, Roles, Threads, Owners, Locks, Sound;
    Sized(m.pages);
    PageCountOk(i);
  }

  lemma ObjPage(g: Geo, i: nat, a: nat)
    requires Obj(g, i, a)
    ensures g.Has(a / PAGE) && a >= g.page * PAGE
  {
    assert a < (g.page + g.n) * PAGE;
  }

  /** When the map leads to the span the page lies in, the release loop finds the right span: the owner of the
      object. */
  lemma Lookup<S>(m: Pool<S>, a: nat)
    requires Good(m) && a in m.store.where && Found(m.pages, a)
    ensures a in m.owner && a / PAGE in m.pages.tags && m.pages.tags[a / PAGE] == m.owner[a]
    ensures m.owner[a] in m.carved && InSpan(m.owner[a]) in m.store.at
  {
    hide Arranged, Counts, Roles, Threads, Locks, InDomain, PlaceFits, Covers, Listed, Tagged;
    assert OwnerOk(m, a);
    var s := m.owner[a];
    ObjPage(m.pages.spans[s], m.carved[s].cls, a);
  }

  lemma FlightFacts<S>(m: Pool<S>, t: nat)
    requires Good(m) && t in m.threads && InFlight(t) in m.store.at && |m.store.at[InFlight(t)]| > 0
    ensures m.store.at[InFlight(t)][0] in m.store.where && m.store.where[m.store.at[InFlight(t)][0]] == InFlight(t)
  {
    hide Pages.Inv, Domain, Spans, Counts, Roles, Threads, Owners, Locks;
    assert Placed(m.store.where, m.store.at[InFlight(t)], InFlight(t));
    assert m.store.at[InFlight(t)][0] in m.store.at[InFlight(t)];
  }

  /** A span ready to be attached has all its objects. */
  lemma ReadyFacts<S>(m: Pool<S>, t: nat)
    requires Good(m) && t in m.threads && m.threads[t].pc.SpanReady?
    ensures var s, i := m.threads[t].pc.s, m.threads[t].pc.i;
      && i < BUCKETS && s in m.carved && InSpan(s) in m.store.at && s in m.role && m.role[s] == Private(t)
      && m.carved[s] == Info(i, 0) && |m.store.at[InSpan(s)]| == Total(i) > 0
  {
    hide Pages.Inv, Arranged, Domain, Spans, Owners, Locks, ListOk;
    var s, i := m.threads[t].pc.s, m.threads[t].pc.i;
    assert PcOk(m, t) && RoleOk(m, s) && CountOk(m, s);
    PageCountOk(i);
  }

  lemma FoundFacts<S>(m: Pool<S>, i: nat, k: nat)
    requires Good(m) && i < BUCKETS == |m.buckets| && IsFirstFree(m, i, k)
    ensures k < |m.buckets[i]|
    ensures var s := m.buckets[i][k];
      s in m.carved && s in m.role && m.role[s] == Bucketed(i) && m.carved[s].cls == i && InSpan(s) in m.store.at
  {
    hide Pages.Inv, Arranged, Domain, Spans, Counts, Threads, Owners, Locks;
    var s := m.buckets[i][k];
    assert s in m.buckets[i];
    assert RoleOk(m, s);
  }

  lemma HaveFacts<S>(m: Pool<S>, t: nat)
    requires Good(m) && t in m.threads && m.threads[t].pc.HaveSpan?
    ensures var s, i := m.threads[t].pc.s, m.threads[t].pc.i;
      && Usable(m.pages, s, i) && s in m.role && m.role[s] == Private(t) && s !in m.carved
  {
    hide Pages.Inv, Arranged, Domain, Counts, Threads, Owners, Locks;
    assert RoleOk(m, m.threads[t].pc.s);
  }

  lemma FetchedFacts<S>(m: Pool<S>, t: nat)
    requires Good(m) && t in m.threads && m.threads[t].pc.Fetched?
    ensures InFlight(t) in m.store.at && |m.store.at[InFlight(t)]| > 0
  {
    hide Pages.Inv, Arranged, Domain, Spans, Counts, Roles, Owners, Locks, ListOk;
    assert PcOk(m, t);
  }

  lemma ReturningFacts<S>(m: Pool<S>, t: nat)
    requires Good(m) && t in m.threads && m.threads[t].pc.Returning?
    ensures var s := m.threads[t].pc.s;
      && s in m.role && m.role[s] == Private(t) && s !in m.carved && Releasing(m.pages, s)
  {
    hide Arranged, Domain, Spans, Counts, Threads, Owners, Locks, Sound;
    var s := m.threads[t].pc.s;
    assert RoleOk(m, s);
    StartRelease(m.pages, s);
  }

  ghost function NextFind<S>(m: Pool<S>, t: nat): Pool<S>
    requires Good(m) && CanTake(m, Find(t))
  {
    hide Good, IsFirstFree, SomeFree, FirstFree;
    Facts(m, t);
    var pc := m.threads[t].pc;
    if SomeFree(m, pc.i) then
      var k := FirstFree(m, pc.i);
      FoundFacts(m, pc.i, k);
      DoFetch(m, t, pc.i, pc.batch, m.buckets[pc.i][k])
    else SetPc(m, t, NoSpan(pc.i, pc.batch))
  }

  ghost function NextAcquire<S>(m: Pool<S>, t: nat, big: S, base: nat, kid: S): Pool<S>
    requires Good(m) && CanTake(m, Step.Acquire(t, big, base, kid))
  {
    hide Good, Sound;
    Facts(m, t);
    var pc := m.threads[t].pc;
    PagesFacts(m, pc.i);
    NewSpanKeeps(m.pages, SpanPages(pc.i), big, base, kid);
    var (pages, s) := NewSpan(m.pages, SpanPages(pc.i), big, base, kid);
    DoAcquire(m, t, pc.i, pc.batch, MarkInUse(pages, s), s)
  }

  ghost function NextAttach<S>(m: Pool<S>, t: nat): Pool<S>
    requires Good(m) && CanTake(m, Attach(t))
  {
    hide Good;
    Facts(m, t);
    ReadyFacts(m, t);
    var pc := m.threads[t].pc;
    DoAttach(m, t, pc.i, pc.batch, pc.s)
  }

  ghost function NextDrain<S>(m: Pool<S>, t: nat): Pool<S>
    requires Good(m) && CanTake(m, Drain(t))
  {
    hide Good;
    Facts(m, t);
    FlightFacts(m, t);
    var a := m.store.at[InFlight(t)][0];
    Lookup(m, a);
    DoDrain(m, t, m.threads[t].pc.i, m.pages.tags[a / PAGE])
  }

  ghost function NextGiveBack<S>(m: Pool<S>, t: nat): Pool<S>
    requires Good(m) && CanTake(m, Step.GiveBack(t))
  {
    hide Good, Sound;
    Facts(m, t);
    ReturningFacts(m, t);
    var pc := m.threads[t].pc;
    DoGiveBack(m, t, pc.i, pc.s, Release(m.pages, pc.s))
  }

  ghost function NextHit<S>(m: Pool<S>, t: nat, size: nat): Pool<S>
    requires Good(m) && CanTake(m, Hit(t, size))
  {
    hide Good;
    Facts(m, t);
    DoHit(m, t, Bucket(size))
  }

  ghost function NextMiss<S>(m: Pool<S>, t: nat, size: nat): Pool<S>
    requires Good(m) && CanTake(m, Miss(t, size))
  {
    hide Good;
    Facts(m, t);
    DoMiss(m, t, Bucket(size))
  }

  ghost function NextCarve<S>(m: Pool<S>, t: nat): Pool<S>
    requires Good(m) && CanTake(m, Step.Carve(t))
  {
    hide Good;
    HaveFacts(m, t);
    var pc := m.threads[t].pc;
    DoCarve(m, t, pc.i, pc.batch, pc.s)
  }

  ghost function NextDeliver<S>(m: Pool<S>, t: nat): Pool<S>
    requires Good(m) && CanTake(m, Deliver(t))
  {
    hide Good;
    Facts(m, t);
    FetchedFacts(m, t);
    DoDeliver(m, t, m.threads[t].pc.i)
  }

  ghost function NextFree<S>(m: Pool<S>, t: nat, a: nat, size: nat): Pool<S>
    requires Good(m) && CanTake(m, Free(t, a, size))
  {
    hide Good;
    Facts(m, t);
    DoFree(m, t, a, Bucket(size))
  }

  /** What each step does. */
  ghost function Next<S>(m: Pool<S>, step: Step<S>): Pool<S>
    requires Good(m) && CanTake(m, step)
  {
    hide Good;
    match step
    case Spawn(t) => DoSpawn(m, t)
    case Hit(t, size) => NextHit(m, t, size)
    case Miss(t, size) => NextMiss(m, t, size)
    case Find(t) => NextFind(m, t)
    case Acquire(t, big, base, kid) => NextAcquire(m, t, big, base, kid)
    case Carve(t) => NextCarve(m, t)
    case Attach(t) => NextAttach(m, t)
    case Deliver(t) => NextDeliver(m, t)
    case Free(t, a, size) => NextFree(m, t, a, size)
    case Lock(t) => DoLock(m, t, m.threads[t].pc.i)
    case Drain(t) => NextDrain(m, t)
    case Unlock(t) => DoUnlock(m, t, m.threads[t].pc.i, Idle)
    case GiveBack(t) => NextGiveBack(m, t)
  }
}
