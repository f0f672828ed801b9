/** Every step of the pool keeps its invariant. */
module PoolProofs {
  import opened Pages
  import opened Stores
  import opened Pools
  import SC = SizeClass
  import Ch = Chains

  // ----- steps that leave pages, buckets and roles alone -----

  /** The spans and what is carved from them are as they were. */
  ghost predicate SameSpans<S>(m: Pool<S>, n: Pool<S>) {
    && n.pages == m.pages && n.owner == m.owner
    && n.carved.Keys == m.carved.Keys && forall s :: s in m.carved ==> n.carved[s].cls == m.carved[s].cls
  }

  /** No list and no thread appears or disappears. */
  ghost predicate SameKeys<S>(m: Pool<S>, n: Pool<S>) {
    n.carved.Keys == m.carved.Keys && n.store.at.Keys == m.store.at.Keys && n.threads.Keys == m.threads.Keys
  }

  /** Only thread t moves, and it holds no span before or after. */
  ghost predicate Mild<S>(m: Pool<S>, n: Pool<S>, t: nat) {
    && t in m.threads && n.buckets == m.buckets && n.role == m.role && SameSpans(m, n) && SameKeys(m, n)
    && (forall u :: u in m.threads && u != t ==> n.threads[u] == m.threads[u])
    && !WithSpan(m.threads[t].pc) && !WithSpan(n.threads[t].pc)
  }

  lemma DomainKept<S>(m: Pool<S>, n: Pool<S>)
    requires Domain(m) && SameKeys(m, n)
    ensures Domain(n)
  {
    forall p | p in n.store.at ensures InDomain(n, p) {
      assert InDomain(m, p);
    }
  }

  lemma MildSpans<S>(m: Pool<S>, n: Pool<S>, t: nat)
    requires Spans(m) && Mild(m, n, t)
    ensures Spans(n)
  {
  }

  lemma MildRoles<S>(m: Pool<S>, n: Pool<S>, t: nat)
    requires Roles(m) && Mild(m, n, t)
    ensures Roles(n)
  {
    hide NoDup;
    forall s | s in n.role ensures RoleOk(n, s) {
      assert RoleOk(m, s);
    }
  }

  /** The lists of the other threads are as they were. */
  ghost predicate OthersKept<S>(m: Pool<S>, n: Pool<S>, t: nat) {
    && (forall u, i :: u != t && InThread(u, i) in m.store.at ==>
          InThread(u, i) in n.store.at && n.store.at[InThread(u, i)] == m.store.at[InThread(u, i)])
    && (forall u :: u != t && InFlight(u) in m.store.at ==>
          InFlight(u) in n.store.at && n.store.at[InFlight(u)] == m.store.at[InFlight(u)])
    && (forall u :: u in n.threads && u != t ==> u in m.threads && n.threads[u] == m.threads[u])
  }

  lemma ThreadsKept<S>(m: Pool<S>, n: Pool<S>, t: nat)
    requires Threads(m) && OthersKept(m, n, t)
    requires t in n.threads ==> PcOk(n, t) && forall i :: 0 <= i < BUCKETS ==> ListOk(n, t, i)
    ensures Threads(n)
  {
    forall u | u in n.threads ensures PcOk(n, u) {
      if u != t {
        assert PcOk(m, u);
      }
    }
    forall u, i | u in n.threads && 0 <= i < BUCKETS ensures ListOk(n, u, i) {
      if u != t {
        assert ListOk(m, u, i);
      }
    }
  }

  lemma CountsKept<S>(m: Pool<S>, n: Pool<S>)
    requires Counts(m) && n.carved == m.carved && n.role == m.role
    requires forall s :: s in m.carved && InSpan(s) in m.store.at ==>
      InSpan(s) in n.store.at && n.store.at[InSpan(s)] == m.store.at[InSpan(s)]
    ensures Counts(n)
  {
    forall s | s in n.carved ensures CountOk(n, s) {
      assert CountOk(m, s);
    }
  }

  /** Objects stay where they are or go to a place for their bucket. */
  lemma OwnersKept<S>(m: Pool<S>, n: Pool<S>)
    requires Owners(m) && SameSpans(m, n) && n.store.where.Keys == m.store.where.Keys
    requires forall a :: a in m.owner && m.owner[a] in m.carved ==>
      PlaceFits(n, a, m.owner[a], m.carved[m.owner[a]].cls)
    ensures Owners(n)
  {
    hide PlaceFits, Obj;
    forall a | a in n.owner ensures OwnerOk(n, a) {
      assert OwnerOk(m, a);
    }
  }

  lemma LocksKept<S>(m: Pool<S>, n: Pool<S>, t: nat)
    requires Locks(m) && Mild(m, n, t) && n.locks == m.locks
    requires !m.threads[t].pc.Draining? && !n.threads[t].pc.Draining?
    ensures Locks(n)
  {
  }

  // ----- Hit -----

  lemma HitFits<S>(m: Pool<S>, t: nat, size: nat, a: nat)
    requires Good(m) && CanTake(m, Hit(t, size)) && a in m.owner && m.owner[a] in m.carved
    ensures a in NextHit(m, t, size).store.where
    ensures PlaceFits(NextHit(m, t, size), a, m.owner[a], m.carved[m.owner[a]].cls)
  {
    hide Pages.Inv, Domain, Spans, Counts, Roles, Threads, Locks, Located;
    Facts(m, t);
    var p := InThread(t, Bucket(size));
    assert OwnerOk(m, a);
    assert Placed(m.store.where, m.store.at[p], p);
    assert m.store.at[p][0] in m.store.at[p];
  }

  lemma HitOwners<S>(m: Pool<S>, t: nat, size: nat)
    requires Good(m) && CanTake(m, Hit(t, size)) && Mild(m, NextHit(m, t, size), t)
    ensures Owners(NextHit(m, t, size))
  {
    hide Pages.Inv, Arranged, Domain, Spans, Counts, Roles, Threads, Locks, PlaceFits, OwnerOk, Mild;
    Facts(m, t);
    var n := NextHit(m, t, size);
    forall a | a in m.owner && m.owner[a] in m.carved
      ensures a in n.store.where && PlaceFits(n, a, m.owner[a], m.carved[m.owner[a]].cls)
    {
      HitFits(m, t, size, a);
    }
    ListedIsKnown(m.store, InThread(t, Bucket(size)));
    OwnersKept(m, n);
  }

  lemma ListedIsKnown<S>(st: Store<S>, p: Place<S>)
    requires Arranged(st) && p in st.at
    ensures forall a :: a in st.at[p] ==> a in st.where && st.where[a] == p
    ensures |st.at[p]| > 0 ==> st.at[p][0] in st.where && st.where[st.at[p][0]] == p
  {
    assert Placed(st.where, st.at[p], p);
    assert |st.at[p]| > 0 ==> st.at[p][0] in st.at[p];
  }

  lemma HitThreads<S>(m: Pool<S>, t: nat, size: nat)
    requires Good(m) && CanTake(m, Hit(t, size))
    ensures Threads(NextHit(m, t, size))
  {
    hide Pages.Inv, Arranged, Domain, Spans, Counts, Roles, Owners, Locks;
    Facts(m, t);
    var n := NextHit(m, t, size);
    forall i | 0 <= i < BUCKETS ensures ListOk(n, t, i) {
      assert ListOk(m, t, i);
    }
    assert PcOk(m, t);
    ThreadsKept(m, n, t);
  }

  lemma HitKeeps<S>(m: Pool<S>, t: nat, size: nat)
    requires Good(m) && CanTake(m, Hit(t, size))
    ensures Good(NextHit(m, t, size))
  {
    hide Pages.Inv, Arranged, Domain, Spans, Counts, Roles, Owners, Threads, Locks;
    Facts(m, t);
    var n := NextHit(m, t, size);
    ToHeldKeeps(m.store, InThread(t, Bucket(size)), Bucket(size));
    DomainKept(m, n);
    MildSpans(m, n, t);
    MildRoles(m, n, t);
    CountsKept(m, n);
    LocksKept(m, n, t);
    HitThreads(m, t, size);
    HitOwners(m, t, size);
  }

  // ----- Miss -----

  lemma MissThreads<S>(m: Pool<S>, t: nat, size: nat)
    requires Good(m) && CanTake(m, Miss(t, size))
    ensures Threads(NextMiss(m, t, size))
  {
    hide Pages.Inv, Arranged, Domain, Spans, Counts, Roles, Owners, Locks, SC.NumMoveSize;
    Facts(m, t);
    var n, k := NextMiss(m, t, size), Bucket(size);
    SC.BucketsOnto(k);
    SC.BatchBytes(Size(k));
    forall i | 0 <= i < BUCKETS ensures ListOk(n, t, i) {
      assert ListOk(m, t, i) && ListOk(m, t, k);
    }
    assert PcOk(m, t) && ListOk(m, t, k);
    ThreadsKept(m, n, t);
  }

  /** A step that moves no object and changes no bucket a thread works on. */
  lemma StillOwners<S>(m: Pool<S>, n: Pool<S>, t: nat)
    requires Owners(m) && SameSpans(m, n) && n.store == m.store && SameKeys(m, n) && t in m.threads
    requires forall u :: u in m.threads && u != t ==> n.threads[u] == m.threads[u]
    requires !m.threads[t].pc.Idle? ==> !n.threads[t].pc.Idle? && n.threads[t].pc.i == m.threads[t].pc.i
    ensures Owners(n)
  {
    hide Obj;
    forall a | a in m.owner && m.owner[a] in m.carved
      ensures PlaceFits(n, a, m.owner[a], m.carved[m.owner[a]].cls)
    {
      assert OwnerOk(m, a);
    }
    OwnersKept(m, n);
  }

  lemma MissKeeps<S>(m: Pool<S>, t: nat, size: nat)
    requires Good(m) && CanTake(m, Miss(t, size))
    ensures Good(NextMiss(m, t, size))
  {
    hide Pages.Inv, Arranged, Domain, Spans, Counts, Roles, Owners, Threads, Locks;
    Facts(m, t);
    var n := NextMiss(m, t, size);
    DomainKept(m, n);
    MildSpans(m, n, t);
    MildRoles(m, n, t);
    CountsKept(m, n);
    LocksKept(m, n, t);
    MissThreads(m, t, size);
    StillOwners(m, n, t);
  }

  // ----- fetching a batch from a span -----

  ghost predicate CanFetch<S>(m: Pool<S>, t: nat, i: nat, batch: nat, s: S) {
    && Good(m) && t in m.threads && (m.threads[t].pc.WantSpan? || m.threads[t].pc.SpanReady?)
    && m.threads[t].pc.i == i && m.threads[t].pc.batch == batch && InFlight(t) in m.store.at
    && s in m.carved && m.carved[s].cls == i && InSpan(s) in m.store.at && |m.store.at[InSpan(s)]| > 0
  }

  lemma FetchThreads<S>(m: Pool<S>, t: nat, i: nat, batch: nat, s: S)
    requires CanFetch(m, t, i, batch, s)
    ensures Threads(DoFetch(m, t, i, batch, s))
  {
    hide Pages.Inv, Arranged, Domain, Spans, Counts, Roles, Owners, Locks;
    Facts(m, t);
    var n := DoFetch(m, t, i, batch, s);
    forall j | 0 <= j < BUCKETS ensures ListOk(n, t, j) {
      assert ListOk(m, t, j);
    }
    assert PcOk(m, t) && ListOk(m, t, i);
    ThreadsKept(m, n, t);
  }

  lemma FetchFits<S>(m: Pool<S>, t: nat, i: nat, batch: nat, s: S, a: nat)
    requires CanFetch(m, t, i, batch, s) && a in m.owner && m.owner[a] in m.carved
    ensures var n := DoFetch(m, t, i, batch, s);
      a in n.store.where && PlaceFits(n, a, m.owner[a], m.carved[m.owner[a]].cls)
  {
    hide Pages.Inv, Domain, Spans, Counts, Roles, Threads, Locks, Arranged, Obj;
    ListedIsKnown(m.store, InSpan(s));
    assert OwnerOk(m, a);
    var xs := m.store.at[InSpan(s)][..Min(batch, |m.store.at[InSpan(s)]|)];
    assert a in xs ==> a in m.store.at[InSpan(s)];
  }

  lemma FetchOwners<S>(m: Pool<S>, t: nat, i: nat, batch: nat, s: S)
    requires CanFetch(m, t, i, batch, s)
    ensures Owners(DoFetch(m, t, i, batch, s))
  {
    hide Pages.Inv, Arranged, Domain, Spans, Counts, Roles, Threads, Locks, PlaceFits, OwnerOk;
    var n := DoFetch(m, t, i, batch, s);
    forall a | a in m.owner && m.owner[a] in m.carved
      ensures a in n.store.where && PlaceFits(n, a, m.owner[a], m.carved[m.owner[a]].cls)
    {
      FetchFits(m, t, i, batch, s, a);
    }
    MoveKnown(m.store, InSpan(s), Min(batch, |m.store.at[InSpan(s)]|), InFlight(t));
    OwnersKept(m, n);
  }

  lemma MoveKnown<S>(st: Store<S>, p: Place<S>, n: nat, q: Place<S>)
    requires Arranged(st) && p in st.at && q in st.at && n <= |st.at[p]|
    ensures MoveFront(st, p, n, q).where.Keys == st.where.Keys
    ensures MoveFront(st, p, n, q).at.Keys == st.at.Keys
  {
    ListedIsKnown(st, p);
    assert forall a :: a in st.at[p][..n] ==> a in st.at[p];
  }

  /** The counts of the span fetched from add up as before; whoever holds it, objects are out afterwards. */
  lemma FetchCounts<S>(m: Pool<S>, t: nat, i: nat, batch: nat, s: S, role: map<S, Role>)
    requires CanFetch(m, t, i, batch, s) && s in role && role[s].Bucketed?
    requires forall r :: r in m.carved && r != s ==>
      (r in role <==> r in m.role) && (r in role ==> role[r] == m.role[r])
    ensures Counts(DoFetch(m, t, i, batch, s).(role := role))
  {
    hide Pages.Inv, Arranged, Domain, Spans, Roles, Owners, Locks, ListOk, Total;
    var n := DoFetch(m, t, i, batch, s).(role := role);
    assert PcOk(m, t);
    forall r | r in n.carved ensures CountOk(n, r) {
      assert CountOk(m, r);
    }
  }

  // ----- Find -----

  lemma FindFetchKeeps<S>(m: Pool<S>, t: nat, k: nat)
    requires Good(m) && CanTake(m, Find(t)) && |m.buckets| == BUCKETS && m.threads[t].pc.i < BUCKETS
    requires IsFirstFree(m, m.threads[t].pc.i, k)
    ensures var pc := m.threads[t].pc;
      var s := m.buckets[pc.i][k];
      CanFetch(m, t, pc.i, pc.batch, s) && Good(DoFetch(m, t, pc.i, pc.batch, s))
  {
    hide Pages.Inv, Arranged, Domain, Spans, Counts, Roles, Owners, Threads, Locks;
    Facts(m, t);
    var pc := m.threads[t].pc;
    FoundFacts(m, pc.i, k);
    var s := m.buckets[pc.i][k];
    var n := DoFetch(m, t, pc.i, pc.batch, s);
    MoveKnown(m.store, InSpan(s), Min(pc.batch, |m.store.at[InSpan(s)]|), InFlight(t));
    MoveFrontKeeps(m.store, InSpan(s), Min(pc.batch, |m.store.at[InSpan(s)]|), InFlight(t));
    DomainKept(m, n);
    MildSpans(m, n, t);
    MildRoles(m, n, t);
    LocksKept(m, n, t);
    FetchCounts(m, t, pc.i, pc.batch, s, m.role);
    FetchThreads(m, t, pc.i, pc.batch, s);
    FetchOwners(m, t, pc.i, pc.batch, s);
  }

  lemma SetPcThreads<S>(m: Pool<S>, t: nat, pc: Pc<S>)
    requires Threads(m) && t in m.threads && PcOk(SetPc(m, t, pc), t)
    ensures Threads(SetPc(m, t, pc))
  {
    var n := SetPc(m, t, pc);
    forall i | 0 <= i < BUCKETS ensures ListOk(n, t, i) {
      assert ListOk(m, t, i);
    }
    ThreadsKept(m, n, t);
  }

  lemma FindKeeps<S>(m: Pool<S>, t: nat)
    requires Good(m) && CanTake(m, Find(t))
    ensures Good(NextFind(m, t))
  {
    hide Pages.Inv, Arranged, Domain, Spans, Counts, Roles, Owners, Threads, Locks, DoFetch, IsFirstFree, SomeFree,
         FirstFree;
    Facts(m, t);
    var pc := m.threads[t].pc;
    if SomeFree(m, pc.i) {
      FindFetchKeeps(m, t, FirstFree(m, pc.i));
    } else {
      var n := NextFind(m, t);
      DomainKept(m, n);
      MildSpans(m, n, t);
      MildRoles(m, n, t);
      CountsKept(m, n);
      LocksKept(m, n, t);
      ThreadsOk(m, t);
      SetPcThreads(m, t, NoSpan(pc.i, pc.batch));
      StillOwners(m, n, t);
    }
  }

  lemma ThreadsOk<S>(m: Pool<S>, t: nat)
    requires Threads(m) && t in m.threads
    ensures PcOk(m, t) && forall i :: 0 <= i < BUCKETS ==> ListOk(m, t, i)
  {
  }

  // ----- Attach -----

  lemma SpansKept<S>(m: Pool<S>, n: Pool<S>, t: nat)
    requires Spans(m) && SameSpans(m, n) && SameKeys(m, n) && t in m.threads && !n.threads[t].pc.HaveSpan?
    requires forall u :: u in m.threads && u != t ==> n.threads[u] == m.threads[u]
    ensures Spans(n)
  {
  }

  lemma AttachedRoles<S>(m: Pool<S>, t: nat, i: nat, batch: nat, s: S)
    requires Roles(m) && t in m.threads && m.threads[t].pc == SpanReady(i, batch, s) && i < BUCKETS
    requires s in m.carved && m.carved[s].cls == i && s in m.role && m.role[s] == Private(t)
    requires InSpan(s) in m.store.at && InFlight(t) in m.store.at
    ensures Roles(DoAttach(m, t, i, batch, s))
  {
    hide NoDup, RoleOk, MoveFront;
    var n := DoAttach(m, t, i, batch, s);
    AttachedBuckets(m, i, s, t);
    forall r | r in n.role ensures RoleOk(n, r) {
      AttachedRoleOk(m, t, i, batch, s, r);
    }
  }

  lemma AttachedBuckets<S>(m: Pool<S>, i: nat, s: S, t: nat)
    requires Roles(m) && i < BUCKETS && s in m.role && m.role[s] == Private(t)
    ensures var bs, role := m.buckets[i := [s] + m.buckets[i]], m.role[s := Bucketed(i)];
      && (forall j :: 0 <= j < BUCKETS ==> NoDup(bs[j]))
      && (forall j, r :: 0 <= j < BUCKETS && r in bs[j] ==> r in role && role[r] == Bucketed(j))
  {
    hide NoDup, RoleOk;
    assert s !in m.buckets[i];
    PushNoDup(m.buckets[i], s);
  }

  lemma AttachedRoleOk<S>(m: Pool<S>, t: nat, i: nat, batch: nat, s: S, r: S)
    requires Roles(m) && t in m.threads && m.threads[t].pc == SpanReady(i, batch, s) && i < BUCKETS
    requires s in m.carved && m.carved[s].cls == i && s in m.role && m.role[s] == Private(t)
    requires InSpan(s) in m.store.at && InFlight(t) in m.store.at
    requires r in m.role
    ensures RoleOk(DoAttach(m, t, i, batch, s), r)
  {
    hide NoDup, MoveFront;
    assert RoleOk(m, r) && DoAttach(m, t, i, batch, s).buckets[i][0] == s;
  }

  lemma AttachRoles<S>(m: Pool<S>, t: nat)
    requires Good(m) && CanTake(m, Attach(t))
    ensures Roles(NextAttach(m, t))
  {
    hide Pages.Inv, Arranged, Domain, Spans, Counts, Roles, Owners, Threads, Locks, DoAttach;
    Facts(m, t);
    ReadyFacts(m, t);
    HasBuckets(m);
    var pc := m.threads[t].pc;
    AttachedRoles(m, t, pc.i, pc.batch, pc.s);
  }

  lemma HasBuckets<S>(m: Pool<S>)
    requires Good(m)
    ensures |m.buckets| == BUCKETS
  {
    hide Pages.Inv, Arranged, Domain, Spans, Counts, Owners, Threads, Locks, RoleOk;
  }

  lemma PushNoDup<S>(xs: seq<S>, x: S)
    requires NoDup(xs) && x !in xs
    ensures NoDup([x] + xs)
  {
  }

  /** Threads and owners do not depend on buckets and roles. */
  lemma RelabelKeeps<S>(m: Pool<S>, buckets: seq<seq<S>>, role: map<S, Role>, t: nat)
    requires Threads(m) && Owners(m) && t in m.threads
    ensures Threads(m.(buckets := buckets, role := role)) && Owners(m.(buckets := buckets, role := role))
  {
    hide Threads, Owners;
    var n := m.(buckets := buckets, role := role);
    ThreadsOk(m, t);
    assert PcOk(n, t) && forall i :: 0 <= i < BUCKETS ==> ListOk(n, t, i) by {
      forall i | 0 <= i < BUCKETS ensures ListOk(n, t, i) {
        assert ListOk(m, t, i);
      }
    }
    ThreadsKept(m, n, t);
    StillOwners(m, n, t);
  }

  lemma AttachKeeps<S>(m: Pool<S>, t: nat)
    requires Good(m) && CanTake(m, Attach(t))
    ensures Good(NextAttach(m, t))
  {
    hide Pages.Inv, Arranged, Domain, Spans, Counts, Roles, Owners, Threads, Locks;
    Facts(m, t);
    ReadyFacts(m, t);
    var pc, n := m.threads[t].pc, NextAttach(m, t);
    var s := pc.s;
    var k := Min(pc.batch, |m.store.at[InSpan(s)]|);
    MoveKnown(m.store, InSpan(s), k, InFlight(t));
    MoveFrontKeeps(m.store, InSpan(s), k, InFlight(t));
    DomainKept(m, n);
    SpansKept(m, n, t);
    AttachRoles(m, t);
    FetchCounts(m, t, pc.i, pc.batch, s, n.role);
    CountsKept(DoFetch(m, t, pc.i, pc.batch, s).(role := n.role), n);
    FetchThreads(m, t, pc.i, pc.batch, s);
    FetchOwners(m, t, pc.i, pc.batch, s);
    RelabelKeeps(DoFetch(m, t, pc.i, pc.batch, s), n.buckets, n.role, t);
    LocksStay(m, n, t);
  }

  lemma LocksStay<S>(m: Pool<S>, n: Pool<S>, t: nat)
    requires Locks(m) && n.locks == m.locks && t in m.threads && n.threads.Keys == m.threads.Keys
    requires forall u :: u in m.threads && u != t ==> n.threads[u] == m.threads[u]
    requires !m.threads[t].pc.Draining? && !n.threads[t].pc.Draining?
    ensures Locks(n)
  {
  }

  // ----- Deliver -----

  ghost function Delivered<S>(m: Pool<S>, t: nat, i: nat): Store<S>
    requires InFlight(t) in m.store.at && |m.store.at[InFlight(t)]| > 0
  {
    ToHeld(m.store, InFlight(t), i)
  }

  lemma DeliverStore<S>(m: Pool<S>, t: nat)
    requires Good(m) && CanTake(m, Deliver(t))
    ensures var n := NextDeliver(m, t);
      && Arranged(n.store) && n.store.at.Keys == m.store.at.Keys && n.store.where.Keys == m.store.where.Keys
  {
    hide Pages.Inv, Arranged, Domain, Spans, Counts, Roles, Owners, Threads, Locks;
    Facts(m, t);
    FetchedFacts(m, t);
    var i := m.threads[t].pc.i;
    ToHeldKeeps(m.store, InFlight(t), i);
    ListedIsKnown(m.store, InFlight(t));
    var st := Delivered(m, t, i);
    MoveFrontKeeps(st, InFlight(t), |st.at[InFlight(t)]|, InThread(t, i));
    MoveKnown(st, InFlight(t), |st.at[InFlight(t)]|, InThread(t, i));
  }

  lemma DeliverThreads<S>(m: Pool<S>, t: nat)
    requires Good(m) && CanTake(m, Deliver(t))
    ensures Threads(NextDeliver(m, t))
  {
    hide Pages.Inv, Arranged, Domain, Spans, Counts, Roles, Owners, Locks;
    Facts(m, t);
    FetchedFacts(m, t);
    var n := NextDeliver(m, t);
    assert PcOk(m, t) && ListOk(m, t, m.threads[t].pc.i);
    forall j | 0 <= j < BUCKETS ensures ListOk(n, t, j) {
      assert ListOk(m, t, j);
    }
    ThreadsKept(m, n, t);
  }

  lemma DeliverFits<S>(m: Pool<S>, t: nat, a: nat)
    requires Good(m) && CanTake(m, Deliver(t)) && a in m.owner && m.owner[a] in m.carved
    ensures var n := NextDeliver(m, t);
      a in n.store.where && PlaceFits(n, a, m.owner[a], m.carved[m.owner[a]].cls)
  {
    hide Pages.Inv, Domain, Spans, Counts, Roles, Threads, Locks, Arranged, Obj;
    Facts(m, t);
    FetchedFacts(m, t);
    assert OwnerOk(m, a);
    InPlace(m.store, InFlight(t), a);
    var xs := m.store.at[InFlight(t)];
    assert xs == [xs[0]] + xs[1..];
    assert xs[1..][..|xs| - 1] == xs[1..];
  }

  lemma InPlace<S>(st: Store<S>, p: Place<S>, a: nat)
    requires Arranged(st) && p in st.at && a in st.where
    ensures a in st.at[p] <==> st.where[a] == p
    ensures |st.at[p]| > 0 ==> st.at[p][0] !in st.at[p][1..]
  {
    assert Placed(st.where, st.at[p], p) && Located(st, a);
  }

  lemma DeliverOwners<S>(m: Pool<S>, t: nat)
    requires Good(m) && CanTake(m, Deliver(t))
    ensures Owners(NextDeliver(m, t))
  {
    hide Pages.Inv, Arranged, Domain, Spans, Counts, Roles, Threads, Locks, PlaceFits, OwnerOk;
    Facts(m, t);
    FetchedFacts(m, t);
    DeliverStore(m, t);
    var n := NextDeliver(m, t);
    forall a | a in m.owner && m.owner[a] in m.carved
      ensures a in n.store.where && PlaceFits(n, a, m.owner[a], m.carved[m.owner[a]].cls)
    {
      DeliverFits(m, t, a);
    }
    OwnersKept(m, n);
  }

  lemma DeliverKeeps<S>(m: Pool<S>, t: nat)
    requires Good(m) && CanTake(m, Deliver(t))
    ensures Good(NextDeliver(m, t))
  {
    hide Pages.Inv, Arranged, Domain, Spans, Counts, Roles, Owners, Threads, Locks;
    Facts(m, t);
    FetchedFacts(m, t);
    DeliverStore(m, t);
    var n := NextDeliver(m, t);
    DomainKept(m, n);
    MildSpans(m, n, t);
    MildRoles(m, n, t);
    CountsKept(m, n);
    LocksKept(m, n, t);
    DeliverThreads(m, t);
    DeliverOwners(m, t);
  }

  // ----- Lock and Unlock -----

  lemma LockLocks<S>(m: Pool<S>, t: nat, i: nat)
    requires Locks(m) && t in m.threads && m.threads[t].pc == WantRelease(i) && i !in m.locks
    ensures Locks(DoLock(m, t, i))
  {
  }

  lemma UnlockLocks<S>(m: Pool<S>, t: nat, i: nat, pc: Pc<S>)
    requires Locks(m) && t in m.threads && m.threads[t].pc == Draining(i) && !pc.Draining?
    ensures Locks(DoUnlock(m, t, i, pc))
  {
  }

  lemma LockKeeps<S>(m: Pool<S>, t: nat)
    requires Good(m) && CanTake(m, Lock(t))
    ensures Good(DoLock(m, t, m.threads[t].pc.i))
  {
    hide Pages.Inv, Arranged, Domain, Spans, Counts, Roles, Owners, Threads, Locks;
    Facts(m, t);
    LockLocks(m, t, m.threads[t].pc.i);
    var n := DoLock(m, t, m.threads[t].pc.i);
    DomainKept(m, n);
    MildSpans(m, n, t);
    MildRoles(m, n, t);
    CountsKept(m, n);
    ThreadsOk(m, t);
    SetPcThreads(m, t, Draining(m.threads[t].pc.i));
    ThreadsSame(SetPc(m, t, Draining(m.threads[t].pc.i)), n);
    StillOwners(m, n, t);
  }

  lemma ThreadsSame<S>(m: Pool<S>, n: Pool<S>)
    requires Threads(m) && n.threads == m.threads && n.store == m.store
    ensures Threads(n)
  {
    forall t, i | t in n.threads && 0 <= i < BUCKETS ensures ListOk(n, t, i) {
      assert ListOk(m, t, i);
    }
    forall t | t in n.threads ensures PcOk(n, t) {
      assert PcOk(m, t);
    }
  }

  lemma UnlockOwners<S>(m: Pool<S>, t: nat)
    requires Good(m) && CanTake(m, Unlock(t))
    ensures Owners(DoUnlock(m, t, m.threads[t].pc.i, Idle))
  {
    hide Pages.Inv, Domain, Spans, Counts, Roles, Threads, Locks, Obj;
    Facts(m, t);
    var n := DoUnlock(m, t, m.threads[t].pc.i, Idle);
    forall a | a in m.owner && m.owner[a] in m.carved
      ensures a in n.store.where && PlaceFits(n, a, m.owner[a], m.carved[m.owner[a]].cls)
    {
      assert OwnerOk(m, a);
      assert Located(m.store, a);
    }
    OwnersKept(m, n);
  }

  lemma UnlockKeeps<S>(m: Pool<S>, t: nat)
    requires Good(m) && CanTake(m, Unlock(t))
    ensures Good(DoUnlock(m, t, m.threads[t].pc.i, Idle))
  {
    hide Pages.Inv, Arranged, Domain, Spans, Counts, Roles, Owners, Threads, Locks;
    Facts(m, t);
    UnlockLocks(m, t, m.threads[t].pc.i, Idle);
    var n := DoUnlock(m, t, m.threads[t].pc.i, Idle);
    DomainKept(m, n);
    MildSpans(m, n, t);
    MildRoles(m, n, t);
    CountsKept(m, n);
    ThreadsOk(m, t);
    SetPcThreads(m, t, Idle);
    ThreadsSame(SetPc(m, t, Idle), n);
    UnlockOwners(m, t);
  }

  // ----- Free -----

  lemma FromHeldKnown<S>(st: Store<S>, a: nat, q: Place<S>)
    requires Arranged(st) && a in st.held && q in st.at
    ensures FromHeld(st, a, q).where.Keys == st.where.Keys && FromHeld(st, a, q).at.Keys == st.at.Keys
  {
  }

  lemma FreeStore<S>(m: Pool<S>, t: nat, a: nat, size: nat)
    requires Good(m) && CanTake(m, Free(t, a, size))
    ensures var n := NextFree(m, t, a, size);
      && Arranged(n.store) && n.store.at.Keys == m.store.at.Keys && n.store.where.Keys == m.store.where.Keys
  {
    hide Pages.Inv, Arranged, Domain, Spans, Counts, Roles, Owners, Threads, Locks;
    Facts(m, t);
    var i := Bucket(size);
    var st := FromHeld(m.store, a, InThread(t, i));
    FromHeldKeeps(m.store, a, InThread(t, i));
    FromHeldKnown(m.store, a, InThread(t, i));
    ThreadsOk(m, t);
    assert ListOk(m, t, i);
    var max := m.threads[t].maxSize[i];
    if m.threads[t].size[i] + 1 >= max {
      MoveFrontKeeps(st, InThread(t, i), max, InFlight(t));
      MoveKnown(st, InThread(t, i), max, InFlight(t));
    }
  }

  lemma FreeListOk<S>(m: Pool<S>, t: nat, a: nat, size: nat, j: nat)
    requires Good(m) && CanTake(m, Free(t, a, size)) && j < BUCKETS
    ensures t in NextFree(m, t, a, size).threads && ListOk(NextFree(m, t, a, size), t, j)
  {
    hide Pages.Inv, Arranged, Domain, Spans, Counts, Roles, Owners, Locks, Threads, SC.NumMoveSize, Relocate;
    Facts(m, t);
    ThreadsOk(m, t);
    assert ListOk(m, t, Bucket(size)) && ListOk(m, t, j);
  }

  lemma FreePcOk<S>(m: Pool<S>, t: nat, a: nat, size: nat)
    requires Good(m) && CanTake(m, Free(t, a, size))
    ensures t in NextFree(m, t, a, size).threads && PcOk(NextFree(m, t, a, size), t)
  {
    hide Pages.Inv, Arranged, Domain, Spans, Counts, Roles, Owners, Locks, Threads, Relocate;
    Facts(m, t);
    ThreadsOk(m, t);
    assert ListOk(m, t, Bucket(size));
  }

  lemma FreeOthers<S>(m: Pool<S>, t: nat, a: nat, size: nat)
    requires Good(m) && CanTake(m, Free(t, a, size))
    ensures OthersKept(m, NextFree(m, t, a, size), t)
  {
    hide Pages.Inv, Arranged, Domain, Spans, Counts, Roles, Owners, Locks, Threads, Relocate;
    Facts(m, t);
  }

  lemma FreeThreads<S>(m: Pool<S>, t: nat, a: nat, size: nat)
    requires Good(m) && CanTake(m, Free(t, a, size))
    ensures Threads(NextFree(m, t, a, size))
  {
    hide Pages.Inv, Arranged, Domain, Spans, Counts, Roles, Owners, Locks, Threads, ListOk, PcOk, NextFree, CanTake,
         OthersKept;
    FreePcOk(m, t, a, size);
    FreeOthers(m, t, a, size);
    var n := NextFree(m, t, a, size);
    forall j | 0 <= j < BUCKETS ensures ListOk(n, t, j) {
      FreeListOk(m, t, a, size, j);
    }
    ThreadsKept(m, n, t);
  }

  lemma HeldHere<S>(st: Store<S>, a: nat)
    requires Arranged(st) && a in st.held
    ensures a in st.where && st.where[a] == Held
  {
  }

  /** The freed object on the thread's list, before anything is given back. */
  ghost function Pushed<S>(m: Pool<S>, t: nat, a: nat, i: nat): Pool<S>
    requires InThread(t, i) in m.store.at
  {
    m.(store := FromHeld(m.store, a, InThread(t, i)))
  }

  lemma PushOwners<S>(m: Pool<S>, t: nat, a: nat, i: nat)
    requires Owners(m) && Arranged(m.store) && InThread(t, i) in m.store.at && a in m.store.held && m.store.held[a] == i
    ensures Owners(Pushed(m, t, a, i))
  {
    hide Arranged, Obj;
    HeldHere(m.store, a);
    FromHeldKnown(m.store, a, InThread(t, i));
    var n := Pushed(m, t, a, i);
    forall x | x in m.owner && m.owner[x] in m.carved
      ensures PlaceFits(n, x, m.owner[x], m.carved[m.owner[x]].cls)
    {
      assert OwnerOk(m, x);
    }
    OwnersKept(m, n);
  }

  ghost function Spilled<S>(m: Pool<S>, t: nat, i: nat, k: nat): Pool<S>
    requires t in m.threads && InThread(t, i) in m.store.at && InFlight(t) in m.store.at
    requires k <= |m.store.at[InThread(t, i)]|
  {
    SetPc(m, t, WantRelease(i)).(store := MoveFront(m.store, InThread(t, i), k, InFlight(t)))
  }

  lemma MovedWhere<S>(st: Store<S>, p: Place<S>, n: nat, q: Place<S>, a: nat)
    requires Arranged(st) && p in st.at && q in st.at && n <= |st.at[p]| && a in st.where
    ensures a in MoveFront(st, p, n, q).where
    ensures MoveFront(st, p, n, q).where[a] == st.where[a] || (st.where[a] == p && MoveFront(st, p, n, q).where[a] == q)
  {
    ListedIsKnown(st, p);
    assert a in st.at[p][..n] ==> a in st.at[p];
  }

  lemma SpillOwners<S>(m: Pool<S>, t: nat, i: nat, k: nat)
    requires Owners(m) && Arranged(m.store) && t in m.threads && m.threads[t].pc.Idle?
    requires InThread(t, i) in m.store.at && InFlight(t) in m.store.at && k <= |m.store.at[InThread(t, i)]|
    ensures Owners(Spilled(m, t, i, k))
  {
    hide Arranged, Obj, MoveFront;
    MoveKnown(m.store, InThread(t, i), k, InFlight(t));
    var n := Spilled(m, t, i, k);
    forall x | x in m.owner && m.owner[x] in m.carved
      ensures PlaceFits(n, x, m.owner[x], m.carved[m.owner[x]].cls)
    {
      assert OwnerOk(m, x);
      MovedWhere(m.store, InThread(t, i), k, InFlight(t), x);
      MoveHeld(m.store, InThread(t, i), k, InFlight(t));
    }
    OwnersKept(m, n);
  }

  lemma MoveHeld<S>(st: Store<S>, p: Place<S>, n: nat, q: Place<S>)
    requires p in st.at && q in st.at && n <= |st.at[p]|
    ensures MoveFront(st, p, n, q).held == st.held
    ensures forall o :: o in st.at && o != p && o != q ==>
      o in MoveFront(st, p, n, q).at && MoveFront(st, p, n, q).at[o] == st.at[o]
  {
  }

  lemma FreePushed<S>(m: Pool<S>, t: nat, a: nat, size: nat)
    requires Good(m) && CanTake(m, Free(t, a, size))
    ensures t in m.threads && m.threads[t].pc.Idle? && InThread(t, Bucket(size)) in m.store.at
    ensures InFlight(t) in m.store.at
    ensures var i := Bucket(size);
      && i < |m.threads[t].size| == |m.threads[t].maxSize| && m.threads[t].size[i] < m.threads[t].maxSize[i]
      && m.threads[t].size[i] == |m.store.at[InThread(t, i)]|
      && Owners(Pushed(m, t, a, i)) && Arranged(Pushed(m, t, a, i).store)
  {
    hide Pages.Inv, Arranged, Domain, Spans, Counts, Roles, Threads, Locks, Owners, SC.NumMoveSize;
    Facts(m, t);
    ThreadsOk(m, t);
    assert ListOk(m, t, Bucket(size));
    PushOwners(m, t, a, Bucket(size));
    FromHeldKeeps(m.store, a, InThread(t, Bucket(size)));
  }

  /** Owners after a move out of a thread's list, whatever else changes in the thread's record. */
  lemma SpilledOwners<S>(m: Pool<S>, t: nat, i: nat, k: nat, th: Thread<S>)
    requires Owners(m) && Arranged(m.store) && t in m.threads && m.threads[t].pc.Idle? && th.pc == WantRelease(i)
    requires InThread(t, i) in m.store.at && InFlight(t) in m.store.at && k <= |m.store.at[InThread(t, i)]|
    ensures Owners(m.(store := MoveFront(m.store, InThread(t, i), k, InFlight(t)), threads := m.threads[t := th]))
  {
    hide Arranged, Owners, MoveFront;
    SpillOwners(m, t, i, k);
    MoveKnown(m.store, InThread(t, i), k, InFlight(t));
    StillOwners(Spilled(m, t, i, k), m.(store := MoveFront(m.store, InThread(t, i), k, InFlight(t)),
      threads := m.threads[t := th]), t);
  }

  lemma KeptOwners<S>(m: Pool<S>, t: nat, th: Thread<S>)
    requires Owners(m) && t in m.threads && m.threads[t].pc.Idle?
    ensures Owners(m.(threads := m.threads[t := th]))
  {
    hide Owners;
    StillOwners(m, m.(threads := m.threads[t := th]), t);
  }

  lemma FreeOwners<S>(m: Pool<S>, t: nat, a: nat, size: nat)
    requires Good(m) && CanTake(m, Free(t, a, size))
    ensures Owners(NextFree(m, t, a, size))
  {
    hide Pages.Inv, Arranged, Domain, Spans, Counts, Roles, Threads, Locks, Owners, ListOk, PcOk, MoveFront, FromHeld;
    FreePushed(m, t, a, size);
    PushedSize(m.store, a, InThread(t, Bucket(size)));
    FromHeldKnown(m.store, a, InThread(t, Bucket(size)));
    var i, n := Bucket(size), NextFree(m, t, a, size);
    var p, max := Pushed(m, t, a, i), m.threads[t].maxSize[i];
    if m.threads[t].size[i] + 1 >= max {
      SpilledOwners(p, t, i, max, n.threads[t]);
    } else {
      KeptOwners(p, t, n.threads[t]);
    }
  }

  lemma PushedSize<S>(st: Store<S>, a: nat, q: Place<S>)
    requires q in st.at
    ensures q in FromHeld(st, a, q).at && |FromHeld(st, a, q).at[q]| == |st.at[q]| + 1
  {
  }

  lemma MildMove<S>(m: Pool<S>, th: Thread<S>, store: Store<S>, t: nat)
    requires t in m.threads && store.at.Keys == m.store.at.Keys && !WithSpan(m.threads[t].pc) && !WithSpan(th.pc)
    ensures Mild(m, m.(threads := m.threads[t := th], store := store), t)
  {
  }

  lemma FreeIsMild<S>(m: Pool<S>, t: nat, a: nat, size: nat)
    requires Good(m) && CanTake(m, Free(t, a, size))
    ensures var n := NextFree(m, t, a, size);
      && Mild(m, n, t) && n.locks == m.locks && n.carved == m.carved
      && !m.threads[t].pc.Draining? && !n.threads[t].pc.Draining?
  {
    hide Pages.Inv, Arranged, Domain, Spans, Counts, Roles, Owners, Threads, Locks, MoveFront, FromHeld, Mild;
    FreeStore(m, t, a, size);
    Facts(m, t);
    var n := NextFree(m, t, a, size);
    MildMove(m, n.threads[t], n.store, t);
  }

  lemma FreeSpans<S>(m: Pool<S>, t: nat, a: nat, size: nat)
    requires Good(m) && CanTake(m, Free(t, a, size))
    ensures var n := NextFree(m, t, a, size);
      forall s :: InSpan(s) in m.store.at ==> InSpan(s) in n.store.at && n.store.at[InSpan(s)] == m.store.at[InSpan(s)]
  {
    hide Pages.Inv, Arranged, Domain, Spans, Counts, Roles, Owners, Threads, Locks, Relocate;
    Facts(m, t);
  }

  lemma FreeKeeps<S>(m: Pool<S>, t: nat, a: nat, size: nat)
    requires Good(m) && CanTake(m, Free(t, a, size))
    ensures Good(NextFree(m, t, a, size))
  {
    hide Pages.Inv, Arranged, Domain, Spans, Counts, Roles, Owners, Threads, Locks, NextFree, Mild;
    FreeStore(m, t, a, size);
    FreeIsMild(m, t, a, size);
    FreeSpans(m, t, a, size);
    var n := NextFree(m, t, a, size);
    MildParts(m, n, t);
    DomainKept(m, n);
    MildSpans(m, n, t);
    MildRoles(m, n, t);
    CountsKept(m, n);
    LocksKept(m, n, t);
    FreeThreads(m, t, a, size);
    FreeOwners(m, t, a, size);
  }

  lemma MildParts<S>(m: Pool<S>, n: Pool<S>, t: nat)
    requires Mild(m, n, t)
    ensures SameKeys(m, n) && SameSpans(m, n) && n.role == m.role && t in m.threads && t in n.threads
  {
  }

  // ----- Spawn -----

  lemma NewPlacesAreNew<S>(m: Pool<S>, t: nat)
    requires Domain(m) && t !in m.threads
    ensures forall p :: p in Places<S>(t) ==> p !in m.store.at && p != Held
    ensures InFlight(t) in Places<S>(t) && forall i :: 0 <= i < BUCKETS ==> InThread(t, i) in Places<S>(t)
    ensures forall p :: p in Places<S>(t) ==> p == InFlight(t) || (p.InThread? && p.t == t && p.i < BUCKETS)
  {
    assert forall p :: p in m.store.at ==> InDomain(m, p);
  }

  lemma SpawnStore<S>(m: Pool<S>, t: nat)
    requires Arranged(m.store) && Domain(m) && t !in m.threads
    ensures Arranged(DoSpawn(m, t).store)
  {
    NewPlacesAreNew(m, t);
    hide Domain, Places;
    var n := DoSpawn(m, t);
    forall p | p in n.store.at ensures Placed(n.store.where, n.store.at[p], p) {
      if p !in Places<S>(t) {
        assert Placed(m.store.where, m.store.at[p], p);
      }
    }
    forall a | a in n.store.where ensures Located(n.store, a) {
      assert Located(m.store, a);
    }
  }

  lemma SpawnDomain<S>(m: Pool<S>, t: nat)
    requires Domain(m) && t !in m.threads
    ensures Domain(DoSpawn(m, t))
  {
    NewPlacesAreNew(m, t);
    hide Places;
    var n := DoSpawn(m, t);
    forall p | p in n.store.at ensures InDomain(n, p) {
      if p !in Places<S>(t) {
        assert InDomain(m, p);
      }
    }
  }

  lemma SpawnThreads<S>(m: Pool<S>, t: nat)
    requires Threads(m) && Domain(m) && t !in m.threads
    ensures Threads(DoSpawn(m, t))
  {
    NewPlacesAreNew(m, t);
    hide Places, Domain, InDomain, SC.NumMoveSize;
    var n := DoSpawn(m, t);
    forall i | 0 <= i < BUCKETS ensures ListOk(n, t, i) {
      SC.BucketsOnto(i);
      SC.BatchBytes(Size(i));
    }
    assert PcOk(n, t);
    ThreadsKept(m, n, t);
  }

  lemma SpawnOwners<S>(m: Pool<S>, t: nat)
    requires Owners(m) && t !in m.threads
    ensures Owners(DoSpawn(m, t))
  {
    hide Places, Obj;
    var n := DoSpawn(m, t);
    forall a | a in n.owner ensures OwnerOk(n, a) {
      assert OwnerOk(m, a);
    }
  }

  lemma SpawnRoles<S>(m: Pool<S>, t: nat)
    requires Roles(m) && t !in m.threads
    ensures Roles(DoSpawn(m, t))
  {
    hide NoDup, Places;
    var n := DoSpawn(m, t);
    forall s | s in n.role ensures RoleOk(n, s) {
      assert RoleOk(m, s);
    }
  }

  lemma SpawnCounts<S>(m: Pool<S>, t: nat)
    requires Counts(m) && Domain(m) && t !in m.threads
    ensures Counts(DoSpawn(m, t))
  {
    NewPlacesAreNew(m, t);
    hide Places, Domain, InDomain;
    CountsKept(m, DoSpawn(m, t));
  }

  lemma SpawnKeeps<S>(m: Pool<S>, t: nat)
    requires Good(m) && CanTake(m, Spawn(t))
    ensures Good(DoSpawn(m, t))
  {
    hide Pages.Inv, Arranged, Domain, Counts, Roles, Owners, Threads;
    SpawnStore(m, t);
    SpawnDomain(m, t);
    SpawnThreads(m, t);
    SpawnOwners(m, t);
    SpawnRoles(m, t);
    SpawnCounts(m, t);
  }

  // ----- Carve -----

  lemma SpansMeetNowhere<S>(pages: Pages.State<S>, s: S, r: S, i: nat, j: nat, a: nat)
    requires Disjoint(pages.spans) && s in pages.spans && r in pages.spans
    requires Obj(pages.spans[s], i, a) && Obj(pages.spans[r], j, a)
    ensures s == r
  {
    ObjPage(pages.spans[s], i, a);
    ObjPage(pages.spans[r], j, a);
  }

  /** No object of a span about to be carved is anywhere yet. */
  lemma NotYetCarved<S>(m: Pool<S>, s: S, i: nat, a: nat)
    requires Good(m) && s in m.pages.spans && s !in m.carved && a in Objs(m.pages.spans[s], i)
    ensures a !in m.store.where
  {
    hide Arranged, Domain, Spans, Counts, Roles, Threads, Locks, Covers, Listed, Tagged, PlaceFits;
    var g := m.pages.spans[s];
    Ch.ObjectsAre(g.page * PAGE, g.n * PAGE, Size(i));
    if a in m.store.where {
      assert OwnerOk(m, a);
      SpansMeetNowhere(m.pages, s, m.owner[a], i, m.carved[m.owner[a]].cls, a);
    }
  }

  lemma CarveStore<S>(m: Pool<S>, t: nat)
    requires Good(m) && CanTake(m, Step.Carve(t))
    ensures Arranged(NextCarve(m, t).store)
    ensures t in m.threads && m.threads[t].pc.HaveSpan?
    ensures var s, i := m.threads[t].pc.s, m.threads[t].pc.i;
      && InSpan(s) !in m.store.at && s in m.pages.spans
      && forall a :: a in Objs(m.pages.spans[s], i) ==> a !in m.store.where
  {
    hide Pages.Inv, Arranged, Spans, Counts, Roles, Threads, Owners, Locks, Objs, NewPlace;
    HaveFacts(m, t);
    var i, s := m.threads[t].pc.i, m.threads[t].pc.s;
    assert InSpan(s) in m.store.at ==> InDomain(m, InSpan(s));
    var objs := Objs(m.pages.spans[s], i);
    ObjsFacts(m.pages.spans[s], i);
    forall a | a in objs ensures a !in m.store.where {
      NotYetCarved(m, s, i, a);
    }
    NewPlaceKeeps(m.store, InSpan(s), objs);
  }

  lemma ObjsFacts(g: Geo, i: nat)
    ensures NoDup(Objs(g, i)) && forall a: nat :: a in Objs(g, i) <==> Obj(g, i, a)
    ensures g.n == SpanPages(i) ==> |Objs(g, i)| == Total(i)
  {
    Ch.ObjectsAre(g.page * PAGE, g.n * PAGE, Size(i));
  }

  lemma CarvedDomain<S>(m: Pool<S>, t: nat, i: nat, batch: nat, s: S)
    requires t in m.threads && m.threads[t].pc == HaveSpan(i, batch, s) && s in m.pages.spans && s !in m.carved
    requires Domain(m) && Spans(m)
    ensures Domain(DoCarve(m, t, i, batch, s)) && Spans(DoCarve(m, t, i, batch, s))
  {
    hide Objs, Usable;
    var n := DoCarve(m, t, i, batch, s);
    forall p | p in n.store.at ensures InDomain(n, p) {
      if p != InSpan(s) {
        assert InDomain(m, p);
      }
    }
  }

  lemma CarveDomain<S>(m: Pool<S>, t: nat)
    requires Good(m) && CanTake(m, Step.Carve(t))
    ensures Domain(NextCarve(m, t)) && Spans(NextCarve(m, t))
  {
    hide Pages.Inv, Arranged, Domain, Spans, Counts, Roles, Threads, Owners, Locks, Objs, DoCarve;
    HaveFacts(m, t);
    var pc := m.threads[t].pc;
    CarvedDomain(m, t, pc.i, pc.batch, pc.s);
  }

  lemma CarveCounts<S>(m: Pool<S>, t: nat)
    requires Good(m) && CanTake(m, Step.Carve(t))
    ensures Counts(NextCarve(m, t))
  {
    hide Pages.Inv, Arranged, Domain, Spans, Roles, Threads, Owners, Locks, Objs, Total;
    HaveFacts(m, t);
    CarveStore(m, t);
    var n, s := NextCarve(m, t), m.threads[t].pc.s;
    ObjsFacts(m.pages.spans[s], m.threads[t].pc.i);
    forall r | r in n.carved ensures CountOk(n, r) {
      if r != s {
        assert CountOk(m, r);
      }
    }
  }

  lemma CarvedRoles<S>(m: Pool<S>, t: nat, i: nat, batch: nat, s: S)
    requires Roles(m) && t in m.threads && m.threads[t].pc == HaveSpan(i, batch, s)
    requires s in m.pages.spans && s in m.role && m.role[s] == Private(t)
    ensures Roles(DoCarve(m, t, i, batch, s))
  {
    hide Objs, NoDup, NewPlace, RoleOk;
    var n := DoCarve(m, t, i, batch, s);
    forall r | r in n.role ensures RoleOk(n, r) {
      CarvedRoleOk(m, t, i, batch, s, r);
    }
  }

  lemma CarvedRoleOk<S>(m: Pool<S>, t: nat, i: nat, batch: nat, s: S, r: S)
    requires Roles(m) && t in m.threads && m.threads[t].pc == HaveSpan(i, batch, s)
    requires s in m.pages.spans && s in m.role && m.role[s] == Private(t) && r in m.role
    ensures RoleOk(DoCarve(m, t, i, batch, s), r)
  {
    hide Objs, NoDup, NewPlace;
    assert RoleOk(m, r);
  }

  lemma CarveRoles<S>(m: Pool<S>, t: nat)
    requires Good(m) && CanTake(m, Step.Carve(t))
    ensures Roles(NextCarve(m, t))
  {
    hide Pages.Inv, Arranged, Domain, Spans, Counts, Roles, Threads, Owners, Locks, DoCarve;
    HaveFacts(m, t);
    var pc := m.threads[t].pc;
    CarvedRoles(m, t, pc.i, pc.batch, pc.s);
  }

  lemma CarveThreads<S>(m: Pool<S>, t: nat)
    requires Good(m) && CanTake(m, Step.Carve(t))
    ensures Threads(NextCarve(m, t))
  {
    hide Pages.Inv, Arranged, Domain, Spans, Counts, Roles, Threads, Owners, Locks, Objs;
    HaveFacts(m, t);
    ThreadsOk(m, t);
    var n := NextCarve(m, t);
    forall i | 0 <= i < BUCKETS ensures ListOk(n, t, i) {
      assert ListOk(m, t, i);
    }
    ThreadsKept(m, n, t);
  }

  lemma CarvedOwnerOk<S>(m: Pool<S>, t: nat, i: nat, batch: nat, s: S, a: nat)
    requires t in m.threads && m.threads[t].pc == HaveSpan(i, batch, s) && s in m.pages.spans && s !in m.carved
    requires Owners(m) && forall a :: a in Objs(m.pages.spans[s], i) ==> a !in m.store.where
    requires a in DoCarve(m, t, i, batch, s).owner
    ensures a in DoCarve(m, t, i, batch, s).store.where && OwnerOk(DoCarve(m, t, i, batch, s), a)
  {
    hide Objs, Obj;
    ObjsFacts(m.pages.spans[s], i);
    if a !in Objs(m.pages.spans[s], i) {
      assert OwnerOk(m, a);
    }
  }

  lemma CarvedOwners<S>(m: Pool<S>, t: nat, i: nat, batch: nat, s: S)
    requires t in m.threads && m.threads[t].pc == HaveSpan(i, batch, s) && s in m.pages.spans && s !in m.carved
    requires Owners(m) && forall a :: a in Objs(m.pages.spans[s], i) ==> a !in m.store.where
    ensures Owners(DoCarve(m, t, i, batch, s))
  {
    hide Objs, Obj, OwnerOk;
    var n := DoCarve(m, t, i, batch, s);
    ObjsFacts(m.pages.spans[s], i);
    forall a | a in n.owner ensures OwnerOk(n, a) {
      CarvedOwnerOk(m, t, i, batch, s, a);
    }
  }

  lemma CarveOwners<S>(m: Pool<S>, t: nat)
    requires Good(m) && CanTake(m, Step.Carve(t))
    ensures Owners(NextCarve(m, t))
  {
    hide Pages.Inv, Arranged, Domain, Spans, Counts, Roles, Threads, Owners, Locks, Objs, DoCarve;
    HaveFacts(m, t);
    CarveStore(m, t);
    var pc := m.threads[t].pc;
    CarvedOwners(m, t, pc.i, pc.batch, pc.s);
  }

  lemma CarveKeeps<S>(m: Pool<S>, t: nat)
    requires Good(m) && CanTake(m, Step.Carve(t))
    ensures Good(NextCarve(m, t))
  {
    hide Pages.Inv, Arranged, Domain, Spans, Counts, Roles, Threads, Owners, Locks, Objs, NewPlace;
    HaveFacts(m, t);
    CarveStore(m, t);
    CarveDomain(m, t);
    CarveCounts(m, t);
    CarveRoles(m, t);
    CarveThreads(m, t);
    CarveOwners(m, t);
    LocksStay(m, NextCarve(m, t), t);
  }

  // ----- the two steps under the page lock -----

  /** The page cache changed, but no span in use did, except that `x` began or ceased to be used. */
  ghost predicate PagesMoved<S>(a: Pages.State<S>, b: Pages.State<S>, x: S) {
    && InUseKept(a, b, {x})
    && forall s :: s in b.spans && b.spans[s].isUse && s != x ==> s in a.spans && a.spans[s].isUse
  }

  lemma UsableKept<S>(a: Pages.State<S>, b: Pages.State<S>, x: S, s: S, i: nat)
    requires PagesMoved(a, b, x) && Usable(a, s, i) && s != x
    ensures Usable(b, s, i) && b.spans[s] == a.spans[s]
  {
  }

  /** Thread t, in whose hands `x` is before or after, moves on with a changed page cache. */
  ghost predicate PageStep<S>(m: Pool<S>, n: Pool<S>, t: nat, x: S) {
    && Good(m) && t in m.threads && t in n.threads && PagesMoved(m.pages, n.pages, x) && x !in m.carved
    && n == SetPc(m, t, n.threads[t].pc).(pages := n.pages, role := n.role)
    && (forall u :: u in m.threads && u != t && WithSpan(m.threads[u].pc) ==> m.threads[u].pc.s != x)
  }

  lemma PageStepSpans<S>(m: Pool<S>, n: Pool<S>, t: nat, x: S)
    requires t in n.threads && PageStep(m, n, t, x)
    requires n.threads[t].pc.HaveSpan? ==> Usable(n.pages, n.threads[t].pc.s, n.threads[t].pc.i)
    ensures Spans(n)
  {
    hide Pages.Inv, Arranged, Domain, Counts, Roles, Threads, Owners, Locks, Usable, PagesMoved;
    forall s | s in n.carved ensures Usable(n.pages, s, n.carved[s].cls) {
      UsableKept(m.pages, n.pages, x, s, m.carved[s].cls);
    }
    forall u | u in n.threads && n.threads[u].pc.HaveSpan?
      ensures Usable(n.pages, n.threads[u].pc.s, n.threads[u].pc.i)
    {
      if u != t {
        UsableKept(m.pages, n.pages, x, m.threads[u].pc.s, m.threads[u].pc.i);
      }
    }
  }

  lemma PageStepOwners<S>(m: Pool<S>, n: Pool<S>, t: nat, x: S)
    requires t in n.threads && PageStep(m, n, t, x)
    requires !m.threads[t].pc.Idle? && !n.threads[t].pc.Idle? && n.threads[t].pc.i == m.threads[t].pc.i
    ensures Owners(n)
  {
    hide Pages.Inv, Arranged, Domain, Counts, Roles, Threads, Locks, PagesMoved, Usable, Obj;
    forall s | s in m.carved ensures s in m.pages.spans && s in n.pages.spans && n.pages.spans[s] == m.pages.spans[s] {
      UsableKept(m.pages, n.pages, x, s, m.carved[s].cls);
      UsableIn(m.pages, s, m.carved[s].cls);
      UsableIn(n.pages, s, m.carved[s].cls);
    }
    forall a | a in n.owner ensures OwnerOk(n, a) {
      assert OwnerOk(m, a);
    }
  }

  lemma UsableIn<S>(pages: Pages.State<S>, s: S, i: nat)
    requires Usable(pages, s, i)
    ensures s in pages.spans && pages.spans[s].isUse
  {
  }

  lemma PageStepKeeps<S>(m: Pool<S>, n: Pool<S>, t: nat, x: S)
    requires t in n.threads && PageStep(m, n, t, x) && Pages.Inv(n.pages) && Roles(n) && Counts(n)
    requires n.threads[t].pc.HaveSpan? ==> Usable(n.pages, n.threads[t].pc.s, n.threads[t].pc.i)
    requires !m.threads[t].pc.Idle? && !n.threads[t].pc.Idle? && n.threads[t].pc.i == m.threads[t].pc.i
    requires !m.threads[t].pc.Draining? && !n.threads[t].pc.Draining?
    requires PcOk(SetPc(m, t, n.threads[t].pc), t)
    ensures Good(n)
  {
    hide Pages.Inv, Arranged, Domain, Spans, Counts, Roles, Threads, Owners, Locks, Usable, PagesMoved, PcOk;
    PageStepSpans(m, n, t, x);
    PageStepOwners(m, n, t, x);
    DomainKept(m, n);
    LocksStay(m, n, t);
    SetPcThreads(m, t, n.threads[t].pc);
    ThreadsSame(SetPc(m, t, n.threads[t].pc), n);
  }

  // ----- Acquire -----

  lemma AcquireMoves<S>(m: Pool<S>, t: nat, big: S, base: nat, kid: S) returns (s: S)
    requires Good(m) && CanTake(m, Step.Acquire(t, big, base, kid))
    ensures var n := NextAcquire(m, t, big, base, kid);
      && t in n.threads && n.threads[t].pc == HaveSpan(m.threads[t].pc.i, m.threads[t].pc.batch, s)
      && n == DoAcquire(m, t, m.threads[t].pc.i, m.threads[t].pc.batch, n.pages, s)
      && Pages.Inv(n.pages) && PagesMoved(m.pages, n.pages, s) && Usable(n.pages, s, m.threads[t].pc.i)
    ensures s in m.pages.spans ==> !m.pages.spans[s].isUse
  {
    hide Arranged, Domain, Spans, Counts, Roles, Threads, Owners, Locks, Sound, NewSpan, FreshSpans;
    var i := m.threads[t].pc.i;
    Facts(m, t);
    PagesFacts(m, i);
    var k := SpanPages(i);
    NewSpanKeeps(m.pages, k, big, base, kid);
    NewSpanUse(m.pages, k, big, base, kid);
    var (st, r) := NewSpan(m.pages, k, big, base, kid);
    s := r;
  }

  ghost predicate AcquiredBy<S>(m: Pool<S>, t: nat, n: Pool<S>, s: S) {
    && Roles(m) && t in m.threads && m.threads[t].pc.NoSpan?
    && n == DoAcquire(m, t, m.threads[t].pc.i, m.threads[t].pc.batch, n.pages, s)
    && PagesMoved(m.pages, n.pages, s) && s in n.pages.spans && n.pages.spans[s].isUse
    && (s in m.pages.spans ==> !m.pages.spans[s].isUse)
  }

  lemma AcquireRoleOk<S>(m: Pool<S>, t: nat, n: Pool<S>, s: S, r: S)
    requires AcquiredBy(m, t, n, s) && r in n.role
    ensures RoleOk(n, r)
  {
    hide NoDup, PagesMoved;
    if r != s {
      assert RoleOk(m, r);
    }
  }

  lemma AcquireRoles<S>(m: Pool<S>, t: nat, n: Pool<S>, s: S)
    requires AcquiredBy(m, t, n, s)
    ensures Roles(n) && s !in m.carved && s !in m.role
  {
    hide NoDup, SameTag, RoleOk;
    forall r | r in n.role ensures RoleOk(n, r) {
      AcquireRoleOk(m, t, n, s, r);
    }
  }

  lemma RoleCounts<S>(m: Pool<S>, n: Pool<S>, x: S)
    requires Counts(m) && n.carved == m.carved && n.store == m.store && x !in m.carved
    requires forall s :: s != x ==> (s in m.role <==> s in n.role) && (s in m.role ==> n.role[s] == m.role[s])
    ensures Counts(n)
  {
    forall s | s in n.carved ensures CountOk(n, s) {
      assert CountOk(m, s);
    }
  }

  lemma AcquireKeeps<S>(m: Pool<S>, t: nat, big: S, base: nat, kid: S)
    requires Good(m) && CanTake(m, Acquire(t, big, base, kid))
    ensures Good(NextAcquire(m, t, big, base, kid))
  {
    hide Pages.Inv, Arranged, Domain, Spans, Counts, Roles, Threads, Owners, Locks, PagesMoved, PcOk, NextAcquire;
    Facts(m, t);
    var n := NextAcquire(m, t, big, base, kid);
    var s := AcquireMoves(m, t, big, base, kid);
    UsableIn(n.pages, s, m.threads[t].pc.i);
    AcquireRoles(m, t, n, s);
    RoleCounts(m, n, s);
    AcquirePc(m, t, s);
    SpanIsRole(m, s);
    PageStepKeeps(m, n, t, s);
  }

  lemma SpanIsRole<S>(m: Pool<S>, s: S)
    requires Roles(m) && s !in m.role
    ensures forall u :: u in m.threads && WithSpan(m.threads[u].pc) ==> m.threads[u].pc.s != s
  {
  }

  lemma AcquirePc<S>(m: Pool<S>, t: nat, s: S)
    requires Threads(m) && t in m.threads && m.threads[t].pc.NoSpan?
    ensures PcOk(SetPc(m, t, HaveSpan(m.threads[t].pc.i, m.threads[t].pc.batch, s)), t)
  {
    assert PcOk(m, t);
  }

  // ----- GiveBack -----

  lemma GiveBackMoves<S>(m: Pool<S>, t: nat) returns (s: S)
    requires Good(m) && t in m.threads && m.threads[t].pc.Returning? && CanTake(m, GiveBack(t))
    ensures var n := NextGiveBack(m, t);
      && t in n.threads && n.threads[t].pc == WantRelease(m.threads[t].pc.i) && s == m.threads[t].pc.s
      && n == DoGiveBack(m, t, m.threads[t].pc.i, s, n.pages)
      && Pages.Inv(n.pages) && PagesMoved(m.pages, n.pages, s)
      && s in m.role && m.role[s] == Private(t) && s !in m.carved
      && (s in n.pages.spans ==> !n.pages.spans[s].isUse)
  {
    hide Arranged, Domain, Spans, Counts, Threads, Owners, Locks, Sound, Release, RoleOk;
    s := m.threads[t].pc.s;
    Facts(m, t);
    ReturningFacts(m, t);
    ReleaseKeeps(m.pages, s);
  }

  lemma GiveBackRoleOk<S>(m: Pool<S>, t: nat, n: Pool<S>, s: S, r: S)
    requires Roles(m) && t in m.threads && m.threads[t].pc.Returning? && m.threads[t].pc.s == s
    requires n == DoGiveBack(m, t, m.threads[t].pc.i, s, n.pages) && r in n.role
    ensures RoleOk(n, r)
  {
    hide NoDup;
    assert RoleOk(m, r);
  }

  lemma GiveBackRoles<S>(m: Pool<S>, t: nat, n: Pool<S>, s: S)
    requires Roles(m) && t in m.threads && m.threads[t].pc.Returning? && m.threads[t].pc.s == s
    requires n == DoGiveBack(m, t, m.threads[t].pc.i, s, n.pages) && PagesMoved(m.pages, n.pages, s)
    requires s in m.role && m.role[s] == Private(t) && s !in m.carved
    requires (s in n.pages.spans ==> !n.pages.spans[s].isUse)
    ensures Roles(n)
  {
    hide NoDup, SameTag, RoleOk;
    forall r | r in n.role ensures RoleOk(n, r) {
      GiveBackRoleOk(m, t, n, s, r);
    }
  }

  lemma OnlyHolder<S>(m: Pool<S>, t: nat, s: S)
    requires Roles(m) && s in m.role && m.role[s] == Private(t)
    ensures forall u :: u in m.threads && u != t && WithSpan(m.threads[u].pc) ==> m.threads[u].pc.s != s
  {
  }

  lemma GiveBackPc<S>(m: Pool<S>, t: nat)
    requires Threads(m) && t in m.threads && m.threads[t].pc.Returning?
    ensures PcOk(SetPc(m, t, WantRelease(m.threads[t].pc.i)), t)
  {
    assert PcOk(m, t);
  }

  lemma GiveBackKeeps<S>(m: Pool<S>, t: nat)
    requires Good(m) && CanTake(m, GiveBack(t))
    ensures Good(NextGiveBack(m, t))
  {
    hide Pages.Inv, Arranged, Domain, Spans, Counts, Roles, Threads, Owners, Locks, PagesMoved, PcOk, NextGiveBack;
    Facts(m, t);
    var n := NextGiveBack(m, t);
    var s := GiveBackMoves(m, t);
    GiveBackRoles(m, t, n, s);
    RoleCounts(m, n, s);
    GiveBackPc(m, t);
    OnlyHolder(m, t, s);
    PageStepKeeps(m, n, t, s);
  }

  // ----- Drain -----

  /** A span's free list holds only its own objects, and all of them when it is as long as it can be. */
  lemma SpanContents<S>(m: Pool<S>, s: S)
    requires Arranged(m.store) && Spans(m) && Owners(m) && s in m.carved && InSpan(s) in m.store.at
    ensures s in m.pages.spans
    ensures forall x :: x in m.store.at[InSpan(s)] ==>
      x in m.owner && m.owner[x] == s && Obj(m.pages.spans[s], m.carved[s].cls, x)
    ensures |m.store.at[InSpan(s)]| == Total(m.carved[s].cls) ==>
      forall x: nat :: Obj(m.pages.spans[s], m.carved[s].cls, x) ==> x in m.store.at[InSpan(s)]
  {
    hide Arranged, Obj, Total, Complete;
    var xs, i := m.store.at[InSpan(s)], m.carved[s].cls;
    assert Usable(m.pages, s, i);
    ListedIsKnown(m.store, InSpan(s));
    assert Placed(m.store.where, xs, InSpan(s)) by { PlacedIn(m.store, InSpan(s)); }
    var g := m.pages.spans[s];
    forall x | x in xs ensures x in m.owner && m.owner[x] == s && Obj(g, i, x) {
      assert OwnerOk(m, x);
    }
    ObjsFacts(g, i);
    if |xs| == Total(i) {
      Pigeonhole(xs, Objs(g, i));
    }
  }

  lemma PlacedIn<S>(st: Store<S>, p: Place<S>)
    requires Arranged(st) && p in st.at
    ensures Placed(st.where, st.at[p], p)
  {
  }

  /** The object a drain step handles belongs to a span in the bucket being drained, which has objects out. */
  lemma DrainFacts<S>(m: Pool<S>, t: nat) returns (a: nat, s: S)
    requires Good(m) && CanTake(m, Drain(t))
    ensures InFlight(t) in m.store.at && |m.store.at[InFlight(t)]| > 0 && a == m.store.at[InFlight(t)][0]
    ensures a in m.owner && s == m.owner[a] && a / PAGE in m.pages.tags && m.pages.tags[a / PAGE] == s
    ensures s in m.carved && InSpan(s) in m.store.at && m.carved[s].cls == m.threads[t].pc.i < BUCKETS
    ensures s in m.role && m.role[s] == Bucketed(m.threads[t].pc.i) && m.carved[s].use >= 1
    ensures a !in m.store.at[InSpan(s)]
  {
    hide Pages.Inv, Arranged, Domain, Spans, Threads, Locks, Obj, Total;
    Facts(m, t);
    FlightFacts(m, t);
    a := m.store.at[InFlight(t)][0];
    Lookup(m, a);
    s := m.owner[a];
    assert OwnerOk(m, a) && CountOk(m, s) && RoleOk(m, s);
    ListedIsKnown(m.store, InSpan(s));
    SpanContents(m, s);
  }

  ghost predicate Puttable<S>(m: Pool<S>, t: nat, s: S) {
    && Good(m) && t in m.threads && m.threads[t].pc.Draining? && InFlight(t) in m.store.at &&
         |m.store.at[InFlight(t)]| > 0
    && m.store.at[InFlight(t)][0] in m.owner && m.owner[m.store.at[InFlight(t)][0]] == s
    && s in m.carved && InSpan(s) in m.store.at && m.carved[s].cls == m.threads[t].pc.i < BUCKETS
    && s in m.role && m.role[s] == Bucketed(m.threads[t].pc.i) && m.carved[s].use >= 1
  }

  lemma PutStore<S>(m: Pool<S>, t: nat, s: S)
    requires Puttable(m, t, s)
    ensures var n := DoPutBack(m, t, s);
      && Arranged(n.store) && n.store.at.Keys == m.store.at.Keys && n.store.where.Keys == m.store.where.Keys
      && n.store.at[InSpan(s)] == [m.store.at[InFlight(t)][0]] + m.store.at[InSpan(s)]
  {
    hide Pages.Inv, Arranged, Domain, Spans, Counts, Roles, Threads, Owners, Locks;
    MoveFrontKeeps(m.store, InFlight(t), 1, InSpan(s));
    MoveKnown(m.store, InFlight(t), 1, InSpan(s));
  }

  lemma PutThreads<S>(m: Pool<S>, t: nat, s: S)
    requires Puttable(m, t, s)
    ensures Threads(DoPutBack(m, t, s))
  {
    hide Pages.Inv, Arranged, Domain, Spans, Counts, Roles, Threads, Owners, Locks, Relocate;
    ThreadsOk(m, t);
    var n := DoPutBack(m, t, s);
    forall i | 0 <= i < BUCKETS ensures ListOk(n, t, i) {
      assert ListOk(m, t, i);
    }
    ThreadsKept(m, n, t);
  }

  lemma PutOwners<S>(m: Pool<S>, t: nat, s: S)
    requires Puttable(m, t, s)
    ensures Owners(DoPutBack(m, t, s))
  {
    hide Pages.Inv, Domain, Spans, Counts, Roles, Threads, Locks, Arranged, Obj;
    PutStore(m, t, s);
    var n := DoPutBack(m, t, s);
    var a := m.store.at[InFlight(t)][0];
    assert m.store.at[InFlight(t)][..1] == [a];
    forall x | x in m.owner && m.owner[x] in m.carved
      ensures PlaceFits(n, x, m.owner[x], m.carved[m.owner[x]].cls)
    {
      assert OwnerOk(m, x);
    }
    OwnersKept(m, n);
  }

  /** After the object is put back everything holds but, when it was the last one out, that the bucket's
      spans all have objects out. */
  lemma PutCounts<S>(m: Pool<S>, t: nat, s: S)
    requires Puttable(m, t, s)
    ensures var n := DoPutBack(m, t, s);
      && (forall r :: r in n.carved && r != s ==> CountOk(n, r))
      && n.carved[s].use + |n.store.at[InSpan(s)]| == Total(n.carved[s].cls)
      && (n.carved[s].use >= 1 ==> Counts(n))
  {
    hide Pages.Inv, Arranged, Domain, Spans, Roles, Threads, Owners, Locks, Relocate, Total;
    PutStore(m, t, s);
    var n := DoPutBack(m, t, s);
    assert CountOk(m, s);
    forall r | r in n.carved && r != s ensures CountOk(n, r) {
      assert CountOk(m, r);
    }
  }

  lemma PutKeeps<S>(m: Pool<S>, t: nat, s: S)
    requires Puttable(m, t, s)
    ensures var n := DoPutBack(m, t, s);
      && Pages.Inv(n.pages) && Arranged(n.store) && Domain(n) && Spans(n) && Roles(n) && Threads(n) && Owners(n) &&
           Locks(n)
  {
    hide Pages.Inv, Arranged, Domain, Spans, Counts, Roles, Threads, Owners, Locks;
    PutStore(m, t, s);
    var n := DoPutBack(m, t, s);
    DomainKept(m, n);
    SpansKept(m, n, t);
    MildRoles(m, n, t);
    PutThreads(m, t, s);
    PutOwners(m, t, s);
    LocksSame(m, n);
  }

  lemma LocksSame<S>(m: Pool<S>, n: Pool<S>)
    requires Locks(m) && n.locks == m.locks && n.threads == m.threads
    ensures Locks(n)
  {
  }

  ghost predicate Erasable<S>(m: Pool<S>, t: nat, i: nat, s: S) {
    && Pages.Inv(m.pages) && Arranged(m.store) && Domain(m) && Spans(m) && Roles(m) && Threads(m) && Owners(m) &&
         Locks(m)
    && t in m.threads && m.threads[t].pc == Draining(i) && i < BUCKETS == |m.buckets|
    && s in m.carved && m.carved[s].cls == i && s in m.role && m.role[s] == Bucketed(i)
    && (forall r :: r in m.carved && r != s ==> CountOk(m, r))
    && InSpan(s) in m.store.at && |m.store.at[InSpan(s)]| == Total(i)
  }

  lemma EraseDomain<S>(m: Pool<S>, t: nat, i: nat, s: S)
    requires Erasable(m, t, i, s)
    ensures Domain(DoErase(m, t, i, s)) && Spans(DoErase(m, t, i, s))
  {
    hide Pages.Inv, Arranged, Roles, Threads, Owners, Locks, CountOk, Total;
    var n := DoErase(m, t, i, s);
    forall p | p in n.store.at ensures InDomain(n, p) {
      assert InDomain(m, p);
    }
  }

  lemma EraseCounts<S>(m: Pool<S>, t: nat, i: nat, s: S)
    requires Erasable(m, t, i, s)
    ensures Counts(DoErase(m, t, i, s))
  {
    hide Pages.Inv, Arranged, Domain, Spans, Roles, Threads, Owners, Locks, Total;
    var n := DoErase(m, t, i, s);
    forall r | r in n.carved ensures CountOk(n, r) {
      assert CountOk(m, r);
    }
  }

  lemma EraseBuckets<S>(m: Pool<S>, t: nat, i: nat, s: S)
    requires Erasable(m, t, i, s)
    ensures var n := DoErase(m, t, i, s);
      && |n.buckets| == BUCKETS
      && (forall j :: 0 <= j < BUCKETS ==> NoDup(n.buckets[j]))
      && (forall j, r :: 0 <= j < BUCKETS && r in n.buckets[j] ==> r in m.buckets[j] && r != s)
      && (forall j, r :: 0 <= j < BUCKETS && r in m.buckets[j] && r != s ==> r in n.buckets[j])
  {
    hide Pages.Inv, Arranged, Domain, Spans, Threads, Owners, Locks, CountOk, Total, RoleOk, NoDup;
    WithoutMembers(m.buckets[i], s);
    var n := DoErase(m, t, i, s);
    var w := Without(m.buckets[i], s);
    forall j, r | 0 <= j < BUCKETS && r in n.buckets[j] ensures r in m.buckets[j] && r != s {
      if j == i {
        StillListed(m.buckets, i, s, i, r);
      }
    }
    forall j, r | 0 <= j < BUCKETS && r in m.buckets[j] && r != s ensures r in n.buckets[j] {
      if j == i {
        assert r in w;
      }
    }
  }

  lemma EraseRoleOk<S>(m: Pool<S>, t: nat, i: nat, s: S, r: S)
    requires Erasable(m, t, i, s) && r in DoErase(m, t, i, s).role
    ensures |DoErase(m, t, i, s).buckets| == BUCKETS && RoleOk(DoErase(m, t, i, s), r)
  {
    hide Pages.Inv, Arranged, Domain, Spans, Threads, Owners, Locks, CountOk, Total, NoDup, Without;
    EraseBuckets(m, t, i, s);
    assert RoleOk(m, r);
  }

  lemma EraseRoles<S>(m: Pool<S>, t: nat, i: nat, s: S)
    requires Erasable(m, t, i, s)
    ensures Roles(DoErase(m, t, i, s))
  {
    hide Pages.Inv, Arranged, Domain, Spans, Threads, Owners, Locks, CountOk, Total, RoleOk, NoDup, Without;
    EraseBuckets(m, t, i, s);
    var n := DoErase(m, t, i, s);
    forall r | r in n.role ensures RoleOk(n, r) {
      EraseRoleOk(m, t, i, s, r);
    }
  }

  lemma EraseThreads<S>(m: Pool<S>, t: nat, i: nat, s: S)
    requires Erasable(m, t, i, s)
    ensures Threads(DoErase(m, t, i, s))
  {
    hide Pages.Inv, Arranged, Domain, Spans, Roles, Threads, Owners, Locks, CountOk, Total;
    ThreadsOk(m, t);
    var n := DoErase(m, t, i, s);
    forall j | 0 <= j < BUCKETS ensures ListOk(n, t, j) {
      assert ListOk(m, t, j);
    }
    ThreadsKept(m, n, t);
  }

  lemma EraseOwners<S>(m: Pool<S>, t: nat, i: nat, s: S)
    requires Erasable(m, t, i, s)
    ensures Owners(DoErase(m, t, i, s))
  {
    hide Pages.Inv, Arranged, Domain, Spans, Roles, Threads, Locks, CountOk, Total, Obj;
    SpanContents(m, s);
    var n := DoErase(m, t, i, s);
    forall a | a in n.owner ensures OwnerOk(n, a) {
      assert OwnerOk(m, a);
    }
  }

  lemma EraseKeeps<S>(m: Pool<S>, t: nat, i: nat, s: S)
    requires Erasable(m, t, i, s)
    ensures Good(DoErase(m, t, i, s))
  {
    hide Pages.Inv, Arranged, Domain, Spans, Counts, Roles, Threads, Owners, Locks, CountOk, Total, DropPlace;
    DropPlaceKeeps(m.store, InSpan(s));
    EraseDomain(m, t, i, s);
    EraseCounts(m, t, i, s);
    EraseRoles(m, t, i, s);
    EraseThreads(m, t, i, s);
    EraseOwners(m, t, i, s);
    UnlockLocks(m, t, i, Returning(i, s));
    LocksSame(DoUnlock(m, t, i, Returning(i, s)), DoErase(m, t, i, s));
  }

  lemma DrainKeeps<S>(m: Pool<S>, t: nat)
    requires Good(m) && CanTake(m, Drain(t))
    ensures Good(NextDrain(m, t))
  {
    hide Pages.Inv, Arranged, Domain, Spans, Counts, Roles, Threads, Owners, Locks, CountOk, Total, DoErase;
    Facts(m, t);
    var a, s := DrainFacts(m, t);
    PutKeeps(m, t, s);
    PutCounts(m, t, s);
    var m1 := DoPutBack(m, t, s);
    if m1.carved[s].use == 0 {
      EraseKeeps(m1, t, m.threads[t].pc.i, s);
    }
  }

  // ----- every run -----

  lemma NextKeeps<S>(m: Pool<S>, step: Step<S>)
    requires Good(m) && CanTake(m, step)
    ensures Good(Next(m, step))
  {
    hide Good, NextHit, NextMiss, NextFind, NextAcquire, NextCarve, NextAttach, NextDeliver, NextFree, NextDrain,
         NextGiveBack;
    match step
    case Spawn(t) => SpawnKeeps(m, t);
    case Hit(t, size) => HitKeeps(m, t, size);
    case Miss(t, size) => MissKeeps(m, t, size);
    case Find(t) => FindKeeps(m, t);
    case Acquire(t, big, base, kid) => AcquireKeeps(m, t, big, base, kid);
    case Carve(t) => CarveKeeps(m, t);
    case Attach(t) => AttachKeeps(m, t);
    case Deliver(t) => DeliverKeeps(m, t);
    case Free(t, a, size) => FreeKeeps(m, t, a, size);
    case Lock(t) => LockKeeps(m, t);
    case Drain(t) => DrainKeeps(m, t);
    case Unlock(t) => UnlockKeeps(m, t);
    case GiveBack(t) => GiveBackKeeps(m, t);
  }
}
