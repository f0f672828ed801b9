/** One bucket of the pool is a bucket of the central cache: the steps under its lock are the loops on real spans. */
module BucketView {
  import opened Pages
  import opened Stores
  import opened Pools
  import opened PoolProofs
  import CC = CentralCaches

  /** What the central cache of bucket i sees of the pool. */
  ghost function View<S>(m: Pool<S>, i: nat): CC.Bucket<S>
    requires i < |m.buckets|
  {
    CC.Bucket(m.pages, m.buckets[i],
              map s | s in m.carved && s in m.buckets[i] && InSpan(s) in m.store.at :: m.store.at[InSpan(s)])
  }

  lemma SpanOkInView<S>(m: Pool<S>, i: nat, s: S)
    requires Good(m) && i < BUCKETS == |m.buckets| && s in View(m, i).free
    ensures CC.SpanOk(View(m, i), i, s)
  {
    hide Pages.Inv, Arranged, Domain, Threads, Owners, Locks, Obj, Total, ListOk, PcOk;
    assert s in m.role && m.role[s] == Bucketed(i);
    assert RoleOk(m, s) && CountOk(m, s);
    SpanContents(m, s);
    NoDupOf(m.store, InSpan(s));
  }

  lemma NoDupOf<S>(st: Store<S>, p: Place<S>)
    requires Arranged(st) && p in st.at
    ensures NoDup(st.at[p])
  {
    assert Placed(st.where, st.at[p], p);
  }

  /** In a sound pool every bucket is a sound bucket of the central cache. */
  lemma ViewOk<S>(m: Pool<S>, i: nat)
    requires Good(m) && i < BUCKETS == |m.buckets|
    ensures CC.BucketOk(View(m, i), i)
  {
    hide Pages.Inv, Arranged, Spans, Counts, Threads, Owners, Locks, NoDup, CC.SpanOk;
    forall s | s in m.buckets[i] ensures s in View(m, i).free {
      assert s in m.role && RoleOk(m, s);
    }
    forall s | s in View(m, i).free ensures CC.SpanOk(View(m, i), i, s) {
      SpanOkInView(m, i, s);
    }
  }

  /** Fetching a batch takes it off the front of the span's free list and changes nothing else of the bucket. */
  lemma FetchIsFetch<S>(m: Pool<S>, t: nat, i: nat, batch: nat, s: S)
    requires CanFetch(m, t, i, batch, s) && i < |m.buckets| && s in m.buckets[i]
    ensures s in View(m, i).free
    ensures var b, n := View(m, i), Min(batch, |m.store.at[InSpan(s)]|);
      View(DoFetch(m, t, i, batch, s), i) == b.(free := b.free[s := b.free[s][n..]])
  {
    hide Good, Relocate;
    var n := Min(batch, |m.store.at[InSpan(s)]|);
    var b, c := View(m, i), View(DoFetch(m, t, i, batch, s), i);
    MoveHeld(m.store, InSpan(s), n, InFlight(t));
    assert c.free.Keys == b.free.Keys;
    assert c.free == b.free[s := b.free[s][n..]];
  }

  /** The chain a thread drains into a bucket is out, and the release loop of the central cache accepts it exactly
      if the page map leads from each object to its span. */
  lemma FlightIsOut<S>(m: Pool<S>, t: nat)
    requires Good(m) && t in m.threads && m.threads[t].pc.Draining?
    ensures var i := m.threads[t].pc.i;
      && i < BUCKETS == |m.buckets| && InFlight(t) in m.store.at
      && var b, chain := View(m, i), m.store.at[InFlight(t)];
         CC.AllGone(b, i, chain) && (CC.AllOut(b, i, chain) <==> forall a :: a in chain ==> Found(m.pages, a))
  {
    hide Pages.Inv, Arranged, Domain, Spans, Counts, Roles, Threads, Owners, Locks, CC.Out, CC.Gone, CC.BucketOk,
         Found;
    Facts(m, t);
    var b, i := View(m, m.threads[t].pc.i), m.threads[t].pc.i;
    NoDupOf(m.store, InFlight(t));
    ViewOk(m, i);
    forall a | a in m.store.at[InFlight(t)] ensures CC.Gone(b, i, a) && (CC.Out(b, i, a) <==> Found(m.pages, a)) {
      OneGone(m, t, a);
      CC.FoundIsOut(b, i, a);
    }
  }

  lemma OneGone<S>(m: Pool<S>, t: nat, a: nat)
    requires Good(m) && t in m.threads && m.threads[t].pc.Draining? && InFlight(t) in m.store.at
    requires a in m.store.at[InFlight(t)]
    requires m.threads[t].pc.i < BUCKETS == |m.buckets|
    ensures CC.Gone(View(m, m.threads[t].pc.i), m.threads[t].pc.i, a)
  {
    hide Pages.Inv, Arranged, Domain, Spans, Counts, Threads, Locks, Obj, Total;
    ListedIsKnown(m.store, InFlight(t));
    var s, i := m.owner[a], m.threads[t].pc.i;
    assert OwnerOk(m, a);
    CarvedUsable(m, s);
    CarvedListed(m, s);
    assert s in m.role && RoleOk(m, s);
    ListedIsKnown(m.store, InSpan(s));
    if m.role[s].Private? {
      PrivateHasAll(m, s, a);
    }
    assert CC.From(View(m, i), i, s, a);
  }

  lemma CarvedListed<S>(m: Pool<S>, s: S)
    requires Domain(m) && s in m.carved
    ensures InSpan(s) in m.store.at
  {
  }

  lemma CarvedUsable<S>(m: Pool<S>, s: S)
    requires Spans(m) && s in m.carved
    ensures s in m.pages.spans && m.pages.spans[s].isUse
  {
  }

  /** A span in a thread's hands has all its objects, so none of them is in a chain. */
  lemma PrivateHasAll<S>(m: Pool<S>, s: S, a: nat)
    requires Good(m) && s in m.carved && s in m.role && m.role[s].Private? && a in m.owner && m.owner[a] == s
    requires InSpan(s) in m.store.at
    ensures a in m.store.at[InSpan(s)]
  {
    hide Pages.Inv, Arranged, Domain, Roles, Threads, Locks, Obj, Total;
    assert CountOk(m, s);
    SpanContents(m, s);
    assert a in m.store.where;
    assert OwnerOk(m, a);
  }

  /** A drain step is one turn of the release loop; the page cache takes an emptied span back in a later step. */
  lemma DrainIsReleaseOne<S>(m: Pool<S>, t: nat)
    requires Good(m) && CanTake(m, Drain(t)) && t in m.threads && m.threads[t].pc.Draining?
    ensures var i, n := m.threads[t].pc.i, NextDrain(m, t);
      && i < BUCKETS == |m.buckets| == |n.buckets| && InFlight(t) in m.store.at && |m.store.at[InFlight(t)]| > 0
      && var a := m.store.at[InFlight(t)][0];
         && CC.BucketOk(View(m, i), i) && CC.Out(View(m, i), i, a)
         && var r := CC.ReleaseOne(View(m, i), i, a);
            && View(n, i).elems == r.elems && View(n, i).free == r.free && n.pages == m.pages
            && (if n.threads[t].pc.Returning?
                then Releasing(m.pages, n.threads[t].pc.s) && r.pages == Release(m.pages, n.threads[t].pc.s)
                else r.pages == m.pages)
  {
    hide Pages.Inv, Arranged, Domain, Spans, Counts, Roles, Threads, Owners, Locks, Total, Release, CC.Out, CC.Gone,
         CC.BucketOk, Found, CC.ReleaseOne, Sound, Without, NoDup;
    Facts(m, t);
    var a, s := DrainFacts(m, t);
    var i := m.threads[t].pc.i;
    ViewOk(m, i);
    OneGone(m, t, a);
    CC.FoundIsOut(View(m, i), i, a);
    CC.ReleaseOneIs(View(m, i), i, a);
    InView(m, i, s);
    PutStore(m, t, s);
    PutCounts(m, t, s);
    PutView(m, t, s);
    var m1 := DoPutBack(m, t, s);
    if m1.carved[s].use == 0 {
      BucketNoDup(m, i);
      EraseView(m1, t, i, s);
    }
  }

  lemma BucketNoDup<S>(m: Pool<S>, i: nat)
    requires Good(m) && i < BUCKETS == |m.buckets|
    ensures NoDup(m.buckets[i])
  {
    hide Pages.Inv, Arranged, Domain, Spans, Counts, Threads, Owners, Locks;
  }

  lemma InView<S>(m: Pool<S>, i: nat, s: S)
    requires Good(m) && i < BUCKETS == |m.buckets| && s in m.carved && s in m.role && m.role[s] == Bucketed(i)
    ensures s in View(m, i).free && s in m.buckets[i] && m.carved[s].cls == i
  {
    hide Pages.Inv, Arranged, Spans, Counts, Threads, Owners, Locks;
    assert RoleOk(m, s);
  }

  lemma PutView<S>(m: Pool<S>, t: nat, s: S)
    requires Puttable(m, t, s) && m.threads[t].pc.i < |m.buckets| && s in m.buckets[m.threads[t].pc.i]
    ensures var i, n := m.threads[t].pc.i, DoPutBack(m, t, s);
      View(n, i) == View(m, i).(free := View(m, i).free[s := [m.store.at[InFlight(t)][0]] + m.store.at[InSpan(s)]])
  {
    hide Good, Relocate;
    PutStore(m, t, s);
    var i, n := m.threads[t].pc.i, DoPutBack(m, t, s);
    assert View(n, i).free == View(m, i).free[s := [m.store.at[InFlight(t)][0]] + m.store.at[InSpan(s)]];
  }

  lemma EraseView<S>(m: Pool<S>, t: nat, i: nat, s: S)
    requires t in m.threads && i < |m.buckets| && InSpan(s) in m.store.at && s in m.carved && NoDup(m.buckets[i])
    ensures var n := DoErase(m, t, i, s);
      && |n.buckets| == |m.buckets| && n.pages == m.pages && t in n.threads && n.threads[t].pc == Returning(i, s)
      && View(n, i).elems == Without(m.buckets[i], s) && View(n, i).free == View(m, i).free - {s}
  {
    hide Without, NoDup;
    var n := DoErase(m, t, i, s);
    CC.WithoutIn(m.buckets[i], s);
    var b, c := View(m, i), View(n, i);
    forall r ensures r in c.free <==> r in b.free && r != s {
    }
    assert c.free == b.free - {s};
  }
}
