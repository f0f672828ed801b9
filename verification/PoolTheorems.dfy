/** What the invariant of the pool means for its callers, in every reachable state and interleaving. */
module PoolTheorems {
  import opened Pages
  import opened Stores
  import opened Pools
  import opened PoolProofs
  import opened PoolMemory
  import SC = SizeClass
  import Ch = Chains

  /** `x` comes from the empty pool on untouched memory. */
  ghost predicate Reachable<S>(acts: seq<Act<S>>, x: Machine<S>) {
    StartIsRight<S>();
    Goes(Start(), acts, x)
  }

  lemma ReachableIsRight<S>(acts: seq<Act<S>>, x: Machine<S>)
    requires Reachable(acts, x)
    ensures Right(x)
  {
    hide Right, Start, Allowed, After;
    StartIsRight<S>();
    GoesKeeps(Start(), acts, x);
  }

  // ----- exclusive ownership -----

  /** Every object cut from a span is in exactly one place: with a caller, or at one position of one list. */
  ghost predicate Exclusive<S>(st: Store<S>) {
    && (forall p, i, q, j ::
          p in st.at && q in st.at && 0 <= i < |st.at[p]| && 0 <= j < |st.at[q]| && st.at[p][i] == st.at[q][j] ==>
          p == q && i == j)
    && (forall p, i :: p in st.at && 0 <= i < |st.at[p]| ==> st.at[p][i] !in st.held)
  }

  ghost predicate Somewhere<S>(st: Store<S>, a: nat) {
    a in st.held || exists p :: p in st.at && a in st.at[p]
  }

  lemma ArrangedIsExclusive<S>(st: Store<S>)
    requires Arranged(st)
    ensures Exclusive(st)
  {
    hide Arranged;
    forall p, i, q, j | p in st.at && q in st.at && 0 <= i < |st.at[p]| && 0 <= j < |st.at[q]| &&
      st.at[p][i] == st.at[q][j]
      ensures p == q && i == j
    {
      OnePlace(st, p, i, q, j);
    }
    forall p, i | p in st.at && 0 <= i < |st.at[p]| ensures st.at[p][i] !in st.held {
      if st.at[p][i] in st.held {
        HeldIsNowhereElse(st, st.at[p][i], p);
      }
    }
  }

  lemma KnownIsSomewhere<S>(st: Store<S>, a: nat)
    requires Arranged(st) && a in st.where
    ensures Somewhere(st, a)
  {
    assert Located(st, a);
  }

  /** Following the words from the head of a list to null gives its objects, and nothing else does. */
  ghost predicate InMemory<S>(x: Machine<S>) {
    forall p, ys :: p in x.pool.store.at ==>
      (Ch.Chain(x.words, Head(x.pool.store.at[p]), ys, 0) <==> ys == x.pool.store.at[p])
  }

  lemma ThreadedIsExact<S>(x: Machine<S>)
    requires Threaded(x.words, x.pool.store.at)
    ensures InMemory(x)
  {
    hide Ch.Chain;
    forall p, ys | p in x.pool.store.at
      ensures Ch.Chain(x.words, Head(x.pool.store.at[p]), ys, 0) <==> ys == x.pool.store.at[p]
    {
      if Ch.Chain(x.words, Head(x.pool.store.at[p]), ys, 0) {
        Ch.ChainUnique(x.words, Head(x.pool.store.at[p]), ys, x.pool.store.at[p]);
      }
    }
  }

  /** In every reachable state the lists are what memory says, each object cut from a span is at one position of one
      list or with one caller, and none has been lost. */
  lemma ExclusiveOwnership<S>(acts: seq<Act<S>>, x: Machine<S>)
    requires Reachable(acts, x)
    ensures InMemory(x) && Exclusive(x.pool.store)
    ensures forall s, a: nat ::
      s in x.pool.carved && s in x.pool.pages.spans && Obj(x.pool.pages.spans[s], x.pool.carved[s].cls, a) ==>
      Somewhere(x.pool.store, a)
  {
    hide Reachable, Pages.Inv, Domain, Spans, Counts, Roles, Threads, Locks, Arranged, OwnerOk, Somewhere, Obj,
         InMemory, Threaded;
    ReachableIsRight(acts, x);
    ThreadedIsExact(x);
    ArrangedIsExclusive(x.pool.store);
    var m := x.pool;
    forall s, a: nat | s in m.carved && s in m.pages.spans && Obj(m.pages.spans[s], m.carved[s].cls, a)
      ensures Somewhere(m.store, a)
    {
      KnownIsSomewhere(m.store, a);
    }
  }

  /** The object a step hands to its caller, if it hands one out. */
  ghost predicate HandsOut<S>(m: Pool<S>, step: Step<S>, a: nat)
    requires Good(m) && CanTake(m, step)
  {
    match step
    case Hit(t, size) =>
      InThread(t, Bucket(size)) in m.store.at && |m.store.at[InThread(t, Bucket(size))]| > 0 &&
        a == m.store.at[InThread(t, Bucket(size))][0]
    case Deliver(t) => InFlight(t) in m.store.at && |m.store.at[InFlight(t)]| > 0 && a == m.store.at[InFlight(t)][0]
    case _ => false
  }

  /** No object is handed out while a caller holds it, whoever asks. */
  lemma NotHandedOutTwice<S>(acts: seq<Act<S>>, x: Machine<S>, step: Step<S>, a: nat)
    requires Reachable(acts, x) && (ReachableIsRight(acts, x); Allowed(x, Do(step)) && HandsOut(x.pool, step, a))
    ensures Right(x) && a !in x.pool.store.held && a in After(x, Do(step)).pool.store.held
    ensures After(x, Do(step)).pool.store.held.Keys == x.pool.store.held.Keys + {a}
  {
    hide Reachable, Pages.Inv, Domain, Spans, Counts, Roles, Threads, Owners, Locks, Arranged, Threaded, Within,
         StepWords;
    ReachableIsRight(acts, x);
    Facts(x.pool, step.t);
    if a in x.pool.store.held {
      HeldIsNowhereElse(x.pool.store, a, if step.Hit? then InThread(step.t, Bucket(step.size)) else InFlight(step.t));
    }
  }

  // ----- use counts -----

  /** In every reachable state the use count of a span and the length of its chain in memory add up to the number of
      objects cut from it. */
  lemma UseCounts<S>(acts: seq<Act<S>>, x: Machine<S>, s: S, ys: seq<nat>)
    requires Reachable(acts, x) && s in x.pool.carved
    ensures InSpan(s) in x.pool.store.at
    ensures Ch.Chain(x.words, Head(x.pool.store.at[InSpan(s)]), ys, 0) ==>
      x.pool.carved[s].use + |ys| == Total(x.pool.carved[s].cls) && x.pool.carved[s].use >= 0
  {
    hide Reachable, Pages.Inv, Domain, Spans, Roles, Threads, Locks, Arranged, Owners, InMemory, Threaded, Total,
         Ch.Chain, Within;
    ReachableIsRight(acts, x);
    assert CountOk(x.pool, s);
    ThreadedIsExact(x);
    ExactAt(x, InSpan(s), ys);
  }

  lemma ExactAt<S>(x: Machine<S>, p: Place<S>, ys: seq<nat>)
    requires InMemory(x) && p in x.pool.store.at
    ensures Ch.Chain(x.words, Head(x.pool.store.at[p]), ys, 0) <==> ys == x.pool.store.at[p]
  {
  }

  /** A drain step that brings a use count to zero has brought the last object back: the list of the span is
      complete, nothing of it is left in the chain still to be released, and after the step none of its objects
      is anywhere. */
  lemma LastObjectBack<S>(acts: seq<Act<S>>, x: Machine<S>, t: nat, s: S)
    requires Reachable(acts, x) && (ReachableIsRight(acts, x); Allowed(x, Do(Drain(t))))
    requires s in x.pool.carved && (ReachableIsRight(acts, x); s !in After(x, Do(Drain(t))).pool.carved)
    ensures Right(x) && s in x.pool.pages.spans && x.pool.carved[s].use == 1
    ensures InFlight(t) in x.pool.store.at && |x.pool.store.at[InFlight(t)]| > 0
    ensures forall a :: a in x.pool.store.at[InFlight(t)][1..] ==> a in x.pool.owner && x.pool.owner[a] != s
    ensures var n := After(x, Do(Drain(t))).pool;
      && (forall a: nat :: Obj(x.pool.pages.spans[s], x.pool.carved[s].cls, a) ==> a !in n.store.where)
      && t in n.threads && n.threads[t].pc == Returning(x.pool.threads[t].pc.i, s)
  {
    hide Reachable, Threaded, Within, StepWords, Good;
    ReachableIsRight(acts, x);
    DrainEmpties(x.pool, t, x.pool.threads[t].pc.i, s, After(x, Do(Drain(t))).pool);
  }

  lemma DrainEmpties<S>(m: Pool<S>, t: nat, i: nat, s: S, n: Pool<S>)
    requires Good(m) && CanTake(m, Drain(t)) && n == Next(m, Drain(t))
    requires t in m.threads && m.threads[t].pc == Draining(i) && s in m.carved && s !in n.carved
    ensures s in m.pages.spans && m.carved[s].use == 1
    ensures InFlight(t) in m.store.at && |m.store.at[InFlight(t)]| > 0
    ensures forall x :: x in m.store.at[InFlight(t)][1..] ==> x in m.owner && m.owner[x] != s
    ensures forall x: nat :: Obj(m.pages.spans[s], m.carved[s].cls, x) ==> x !in n.store.where
    ensures t in n.threads && n.threads[t].pc == Returning(i, s)
  {
    hide Pages.Inv, Arranged, Domain, Spans, Counts, Roles, Threads, Owners, Locks, CountOk, Total, Obj;
    Facts(m, t);
    var a, r := DrainFacts(m, t);
    PutKeeps(m, t, r);
    PutCounts(m, t, r);
    var m1 := DoPutBack(m, t, r);
    SpanContents(m1, r);
    PutStore(m, t, r);
    RestInFlight(m, t, r);
    forall x | x in m.store.at[InFlight(t)][1..] ensures x in m.owner && m.owner[x] != s {
      if m.owner[x] == s {
        OwnerObj(m, x);
      }
    }
  }

  lemma OwnerObj<S>(m: Pool<S>, a: nat)
    requires Good(m) && a in m.owner
    ensures m.owner[a] in m.carved && m.owner[a] in m.pages.spans
    ensures Obj(m.pages.spans[m.owner[a]], m.carved[m.owner[a]].cls, a)
  {
    hide Pages.Inv, Arranged, Domain, Spans, Counts, Roles, Threads, Locks, PlaceFits;
    assert OwnerOk(m, a);
  }

  lemma RestInFlight<S>(m: Pool<S>, t: nat, s: S)
    requires Puttable(m, t, s)
    ensures var n := DoPutBack(m, t, s);
      forall x :: x in m.store.at[InFlight(t)][1..] ==> x in m.owner && x !in n.store.at[InSpan(s)]
  {
    hide Pages.Inv, Arranged, Domain, Spans, Counts, Roles, Threads, Locks, OwnerOk;
    PutStore(m, t, s);
    ListedIsKnown(m.store, InFlight(t));
    var n := DoPutBack(m, t, s);
    ListedIsKnown(n.store, InFlight(t));
    ListedIsKnown(n.store, InSpan(s));
    assert n.store.at[InFlight(t)] == m.store.at[InFlight(t)][1..];
    assert forall x :: x in m.store.at[InFlight(t)][1..] ==> x in m.store.at[InFlight(t)];
  }

  /** The span a thread returns to the page cache has no object anywhere. */
  lemma ReturnedSpanIsEmpty<S>(m: Pool<S>, t: nat, i: nat, s: S, a: nat)
    requires Good(m) && t in m.threads && m.threads[t].pc == Returning(i, s) && a in m.store.where
    ensures s in m.pages.spans && !m.pages.spans[s].Has(a / PAGE)
  {
    hide Pages.Inv, Arranged, Domain, Spans, Counts, Threads, Owners, Locks, RoleOk, Obj;
    ReturningFacts(m, t);
    KnownIsOwned(m, a);
    OwnerObj(m, a);
    var r := m.owner[a];
    ObjPage(m.pages.spans[r], m.carved[r].cls, a);
    SeparateSpans(m.pages, s, r, a / PAGE);
  }

  lemma KnownIsOwned<S>(m: Pool<S>, a: nat)
    requires Good(m) && a in m.store.where
    ensures a in m.owner
  {
    hide Pages.Inv, Arranged, Domain, Spans, Counts, Roles, Threads, Locks, OwnerOk;
  }

  lemma SeparateSpans<S>(pages: Pages.State<S>, s: S, r: S, p: nat)
    requires Pages.Inv(pages) && s in pages.spans && r in pages.spans && s != r && pages.spans[r].Has(p)
    ensures !pages.spans[s].Has(p)
  {
    hide Covers, Listed, Tagged;
  }

  /** The release loop gets shorter by one object per turn, and no other thread touches its chain. */
  lemma DrainShortens<S>(m: Pool<S>, t: nat)
    requires Good(m) && CanTake(m, Drain(t))
    ensures InFlight(t) in m.store.at && InFlight(t) in Next(m, Drain(t)).store.at
    ensures |Next(m, Drain(t)).store.at[InFlight(t)]| == |m.store.at[InFlight(t)]| - 1
  {
    hide Pages.Inv, Arranged, Domain, Spans, Counts, Roles, Threads, Owners, Locks, Relocate;
    Facts(m, t);
    var a, s := DrainFacts(m, t);
  }

  /** A bucket is drained by one thread at a time. */
  lemma OneDrainer<S>(m: Pool<S>, t: nat, u: nat)
    requires Good(m) && t in m.threads && u in m.threads
    requires m.threads[t].pc.Draining? && m.threads[u].pc == m.threads[t].pc
    ensures t == u
  {
    hide Pages.Inv, Arranged, Domain, Spans, Counts, Roles, Threads, Owners;
  }

  // ----- bounds on the thread caches -----

  /** Each list is as long as recorded, below its limit, and never caches more than twice the largest size. */
  lemma ThreadCacheBound<S>(acts: seq<Act<S>>, x: Machine<S>, t: nat, i: nat)
    requires Reachable(acts, x) && t in x.pool.threads && i < BUCKETS
    ensures CacheBounded(x.pool, t, i)
  {
    hide Reachable, Good, Threaded, Within, CacheBounded;
    ReachableIsRight(acts, x);
    BoundOfGood(x.pool, t, i);
  }

  ghost predicate CacheBounded<S>(m: Pool<S>, t: nat, i: nat)
    requires t in m.threads && i < BUCKETS
  {
    && |m.threads[t].size| == |m.threads[t].maxSize| == BUCKETS && InThread(t, i) in m.store.at
    && m.threads[t].size[i] == |m.store.at[InThread(t, i)]|
    && m.threads[t].size[i] < m.threads[t].maxSize[i] <= SC.NumMoveSize(Size(i)) + 1
    && m.threads[t].size[i] * Size(i) <= 2 * SC.MAX_BYTES
  }

  lemma BoundOfGood<S>(m: Pool<S>, t: nat, i: nat)
    requires Good(m) && t in m.threads && i < BUCKETS
    ensures CacheBounded(m, t, i)
  {
    hide Pages.Inv, Arranged, Domain, Spans, Counts, Roles, Threads, Owners, Locks, SC.NumMoveSize, SC.ClassSize;
    ThreadsOk(m, t);
    assert ListOk(m, t, i);
    SC.BucketsOnto(i);
    SC.BatchBytes(Size(i));
    Times(m.threads[t].size[i], SC.NumMoveSize(Size(i)), Size(i));
  }

  lemma Times(a: nat, b: nat, c: nat)
    requires a <= b
    ensures a * c <= b * c
  {
    var d := b - a;
    assert b * c == a * c + d * c;
  }
}
