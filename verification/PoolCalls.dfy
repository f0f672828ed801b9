/** Whole calls of the pool, made without another thread in between: its small steps taken one after another do what the
    thread cache's methods promise. */
module PoolCalls {
  import opened Pages
  import opened Stores
  import opened Pools
  import opened PoolProofs
  import opened BucketView
  import SC = SizeClass
  import CC = CentralCaches

  // ----- runs -----

  /** These steps can be taken one after another. */
  ghost predicate CanRun<S>(m: Pool<S>, steps: seq<Step<S>>)
    decreases |steps|
  {
    Good(m) && (|steps| > 0 ==> CanTake(m, steps[0]) && CanRun(Next(m, steps[0]), steps[1..]))
  }

  ghost function Run<S>(m: Pool<S>, steps: seq<Step<S>>): Pool<S>
    requires CanRun(m, steps)
    decreases |steps|
  {
    if |steps| == 0 then m else Run(Next(m, steps[0]), steps[1..])
  }

  lemma {:induction false} RunThen<S>(m: Pool<S>, a: seq<Step<S>>, b: seq<Step<S>>)
    requires CanRun(m, a) && CanRun(Run(m, a), b)
    ensures CanRun(m, a + b) && Run(m, a + b) == Run(Run(m, a), b)
    decreases |a|
  {
    hide Good, CanTake, Next;
    if |a| == 0 {
      assert a + b == b;
    } else {
      RunThen(Next(m, a[0]), a[1..], b);
      assert (a + b)[1..] == a[1..] + b;
    }
  }

  lemma RunOne<S>(m: Pool<S>, step: Step<S>)
    requires Good(m) && CanTake(m, step)
    ensures CanRun(m, [step]) && Run(m, [step]) == Next(m, step) && Good(Next(m, step))
  {
    hide Good, CanTake, Next;
    NextKeeps(m, step);
    assert [step][1..] == [];
  }

  /** One more step at the end. */
  lemma RunMore<S>(m: Pool<S>, steps: seq<Step<S>>, step: Step<S>)
    requires CanRun(m, steps) && Good(Run(m, steps)) && CanTake(Run(m, steps), step)
    ensures CanRun(m, steps + [step]) && Run(m, steps + [step]) == Next(Run(m, steps), step)
    ensures Good(Next(Run(m, steps), step))
  {
    hide Good, CanTake, Next, CanRun, Run;
    RunOne(Run(m, steps), step);
    RunThen(m, steps, [step]);
  }

  // ----- an allocation -----

  /** Thread t was idle with an empty list i; now it has taken the first objects of `avail`, what span `from` had free,
      as many as its limit, the batch size and `avail` allow.  The caller has the first one, the others are the list. */
  ghost predicate Served<S>(m: Pool<S>, n: Pool<S>, t: nat, i: nat, from: S, avail: seq<nat>, use: int)
    requires t in m.threads && i < |m.threads[t].size| == |m.threads[t].maxSize|
  {
    var th, batch := m.threads[t], SC.NumMoveSize(Size(i));
    var k := Min(Min(th.maxSize[i], batch), |avail|);
    && 1 <= k && n.locks == m.locks
    && n.threads == m.threads[t :=
         Thread(th.size[i := k - 1], th.maxSize[i := th.maxSize[i] + if th.maxSize[i] <= batch then 1 else 0], Idle)]
    && n.store.held == m.store.held[avail[0] := i]
    && n.store.at == m.store.at[InSpan(from) := avail[k..]][InThread(t, i) := avail[1..k]]
    && n.carved == m.carved[from := Info(i, use + k)]
  }

  lemma DeliveredLists<S>(m: Pool<S>, t: nat, i: nat, got: seq<nat>)
    requires t in m.threads && InFlight(t) in m.store.at && InThread(t, i) in m.store.at && i < |m.threads[t].size|
    requires m.store.at[InFlight(t)] == got && |got| > 0 && m.store.at[InThread(t, i)] == []
    requires m.threads[t].size[i] == 0
    ensures var n := DoDeliver(m, t, i);
      && n.locks == m.locks && n.buckets == m.buckets && n.pages == m.pages && n.carved == m.carved
      && n.threads == m.threads[t := m.threads[t].(size := m.threads[t].size[i := |got| - 1], pc := Idle)]
      && n.store.held == m.store.held[got[0] := i]
      && n.store.at == m.store.at[InFlight(t) := []][InThread(t, i) := got[1..]]
  {
    hide Relocate;
    assert got[1..][..|got| - 1] == got[1..] && got[1..][|got| - 1..] == [];
    assert got[1..] + [] == got[1..];
    var n := DoDeliver(m, t, i);
    assert n.store.at == m.store.at[InFlight(t) := []][InThread(t, i) := got[1..]];
  }

  lemma DeliverReady<S>(m: Pool<S>, t: nat, i: nat)
    requires Good(m) && t in m.threads && m.threads[t].pc == Fetched(i)
    ensures CanTake(m, Deliver(t)) && i < BUCKETS == |m.threads[t].size| && InThread(t, i) in m.store.at
    ensures m.store.at[InThread(t, i)] == [] && m.threads[t].size[i] == 0
    ensures InFlight(t) in m.store.at && |m.store.at[InFlight(t)]| > 0
    ensures Next(m, Deliver(t)) == DoDeliver(m, t, i)
  {
    hide Pages.Inv, Arranged, Domain, Spans, Counts, Roles, Owners, Locks, Threads, DoDeliver, ListOk;
    Facts(m, t);
    FetchedFacts(m, t);
    ThreadsOk(m, t);
    assert PcOk(m, t);
  }

  /** Between the fetch and the last step: the batch is in flight. */
  ghost predicate Grabbed<S>(m: Pool<S>, n: Pool<S>, t: nat, i: nat, from: S, avail: seq<nat>, use: int)
    requires t in m.threads && i < |m.threads[t].size| == |m.threads[t].maxSize|
  {
    var th, batch := m.threads[t], SC.NumMoveSize(Size(i));
    var k := Min(Min(th.maxSize[i], batch), |avail|);
    && n.locks == m.locks && n.store.held == m.store.held
    && n.threads == m.threads[t :=
         Thread(th.size, th.maxSize[i := th.maxSize[i] + if th.maxSize[i] <= batch then 1 else 0], Fetched(i))]
    && n.store.at == m.store.at[InSpan(from) := avail[k..]][InFlight(t) := avail[..k]]
    && n.carved == m.carved[from := Info(i, use + k)]
  }

  lemma IdleFacts<S>(m: Pool<S>, t: nat)
    requires Good(m) && t in m.threads && m.threads[t].pc.Idle?
    ensures InFlight(t) in m.store.at && m.store.at[InFlight(t)] == []
    ensures |m.buckets| == |m.threads[t].size| == |m.threads[t].maxSize| == BUCKETS
    ensures forall i :: 0 <= i < BUCKETS ==> InThread(t, i) in m.store.at
  {
    hide Pages.Inv, Arranged, Domain, Spans, Counts, Roles, Owners, Locks, Threads, ListOk;
    Facts(m, t);
    ThreadsOk(m, t);
    assert PcOk(m, t);
  }

  lemma GrabbedServed<S>(m: Pool<S>, n: Pool<S>, t: nat, i: nat, from: S, avail: seq<nat>, use: int)
    requires Good(m) && t in m.threads && m.threads[t].pc.Idle? && i < |m.threads[t].size| == |m.threads[t].maxSize|
    requires Good(n) && Grabbed(m, n, t, i, from, avail, use)
    ensures CanTake(n, Deliver(t)) && Served(m, Next(n, Deliver(t)), t, i, from, avail, use)
    ensures Next(n, Deliver(t)).pages == n.pages && Next(n, Deliver(t)).buckets == n.buckets
  {
    hide Good, CanTake, Next, SC.NumMoveSize, Size, DoDeliver;
    DeliverReady(n, t, i);
    IdleFacts(m, t);
    var k := Min(Min(m.threads[t].maxSize[i], SC.NumMoveSize(Size(i))), |avail|);
    DeliveredLists(n, t, i, avail[..k]);
    assert avail[..k][1..] == avail[1..k];
    assert m.store.at[InSpan(from) := avail[k..]][InFlight(t) := avail[..k]][InFlight(t) := []]
        == m.store.at[InSpan(from) := avail[k..]];
  }

  lemma MissReady<S>(m: Pool<S>, t: nat, size: nat)
    requires Good(m) && CanTake(m, Miss(t, size)) && Bucket(size) !in m.locks
    ensures ValidSize(size) && t in m.threads && m.threads[t].pc.Idle?
    ensures Bucket(size) < |m.threads[t].size| == |m.threads[t].maxSize|
    ensures |m.buckets| == BUCKETS
    ensures Next(m, Miss(t, size)) == DoMiss(m, t, Bucket(size)) && Good(DoMiss(m, t, Bucket(size)))
    ensures CanTake(DoMiss(m, t, Bucket(size)), Find(t))
  {
    hide Good, DoMiss;
    NextKeeps(m, Miss(t, size));
    IdleFacts(m, t);
    MissIs(m, t, Bucket(size));
  }

  lemma MissIs<S>(m: Pool<S>, t: nat, i: nat)
    requires t in m.threads && i < |m.threads[t].maxSize|
    ensures var th, batch, n := m.threads[t], Min(m.threads[t].maxSize[i], SC.NumMoveSize(Size(i))), DoMiss(m, t, i);
      && n == m.(threads := n.threads)
      && n.threads == m.threads[t := Thread(th.size,
           th.maxSize[i := th.maxSize[i] + if th.maxSize[i] <= SC.NumMoveSize(Size(i)) then 1 else 0],
           WantSpan(i, batch))]
  {
    hide SC.NumMoveSize, Size;
  }

  lemma FetchGrabs<S>(m: Pool<S>, n: Pool<S>, t: nat, i: nat, from: S, avail: seq<nat>, use: int, pc: Pc<S>)
    requires t in m.threads && i < |m.threads[t].size| == |m.threads[t].maxSize| && InFlight(t) in m.store.at
    requires m.store.at[InFlight(t)] == [] && n.locks == m.locks && n.store.held == m.store.held
    requires n.threads == m.threads[t := Thread(m.threads[t].size, m.threads[t].maxSize[i :=
      m.threads[t].maxSize[i] + if m.threads[t].maxSize[i] <= SC.NumMoveSize(Size(i)) then 1 else 0], pc)]
    requires n.store.at == m.store.at[InSpan(from) := avail] && n.carved == m.carved[from := Info(i, use)]
    ensures var batch := Min(m.threads[t].maxSize[i], SC.NumMoveSize(Size(i)));
      Grabbed(m, DoFetch(n, t, i, batch, from), t, i, from, avail, use)
  {
    hide SC.NumMoveSize, Size, Relocate;
    var batch := Min(m.threads[t].maxSize[i], SC.NumMoveSize(Size(i)));
    var k := Min(batch, |avail|);
    var r := DoFetch(n, t, i, batch, from);
    assert avail[..k] + [] == avail[..k];
    assert r.store.at == m.store.at[InSpan(from) := avail[k..]][InFlight(t) := avail[..k]];
    assert r.threads == m.threads[t := r.threads[t]];
    assert r.carved == m.carved[from := Info(i, use + k)];
  }

  lemma OneFirst<S>(m: Pool<S>, i: nat, k: nat, l: nat)
    requires i < |m.buckets| && IsFirstFree(m, i, k) && IsFirstFree(m, i, l)
    ensures k == l
  {
    hide Available;
  }

  /** The span the pool's search finds is the one the search of the bucket finds. */
  lemma FirstFreeIs<S>(m: Pool<S>, i: nat, k: nat, s: S)
    requires Good(m) && i < BUCKETS == |m.buckets| && k < |m.buckets[i]| && s == m.buckets[i][k]
    ensures s in View(m, i).free
    ensures IsFirstFree(m, i, k) <==> (|View(m, i).free[s]| > 0 &&
      forall j :: 0 <= j < k ==> m.buckets[i][j] in View(m, i).free && |View(m, i).free[m.buckets[i][j]]| == 0)
  {
    hide Good, CC.SpanOk;
    ViewOk(m, i);
    forall j | 0 <= j <= k ensures m.buckets[i][j] in View(m, i).free {
      assert m.buckets[i][j] in m.buckets[i];
    }
  }

  lemma FirstFound<S>(m: Pool<S>, i: nat, s: S) returns (k: nat)
    requires Good(m) && i < BUCKETS == |m.buckets| && CC.FirstSome(m.buckets[i], View(m, i).free, s)
    ensures IsFirstFree(m, i, k) && s == m.buckets[i][k]
  {
    hide Good, View;
    k :| 0 <= k < |m.buckets[i]| && m.buckets[i][k] == s && s in View(m, i).free && |View(m, i).free[s]| > 0
      && forall j :: 0 <= j < k ==> m.buckets[i][j] in View(m, i).free && |View(m, i).free[m.buckets[i][j]]| == 0;
    FirstFreeIs(m, i, k, s);
  }

  lemma FindReady<S>(m: Pool<S>, t: nat, i: nat, batch: nat, k: nat)
    requires Good(m) && CanTake(m, Find(t)) && m.threads[t].pc == WantSpan(i, batch) && |m.buckets| == BUCKETS > i
    requires IsFirstFree(m, i, k)
    ensures var s := m.buckets[i][k];
      && InSpan(s) in m.store.at && InFlight(t) in m.store.at && s in m.carved && m.carved[s].cls == i
      && Next(m, Find(t)) == DoFetch(m, t, i, batch, s) && Good(DoFetch(m, t, i, batch, s))
  {
    hide Good, IsFirstFree, DoFetch;
    NextKeeps(m, Find(t));
    Facts(m, t);
    FoundFacts(m, i, k);
    OneFirst(m, i, k, FirstFree(m, i));
  }

  lemma MissThenFind<S>(m: Pool<S>, t: nat, size: nat, k: nat, from: S)
    requires Good(m) && CanTake(m, Miss(t, size)) && Bucket(size) !in m.locks
    requires Bucket(size) < |m.buckets| && IsFirstFree(m, Bucket(size), k) && from == m.buckets[Bucket(size)][k]
    ensures var i, n := Bucket(size), Next(m, Miss(t, size));
      && i < |m.threads[t].size| == |m.threads[t].maxSize| && InSpan(from) in m.store.at && from in m.carved
      && Good(n) && CanTake(n, Find(t)) && Good(Next(n, Find(t)))
      && Grabbed(m, Next(n, Find(t)), t, i, from, m.store.at[InSpan(from)], m.carved[from].use)
      && Next(n, Find(t)).pages == m.pages && Next(n, Find(t)).buckets == m.buckets
  {
    hide Good, CanTake, Next, IsFirstFree, Grabbed, DoFetch, DoMiss, SC.NumMoveSize, Size;
    MissReady(m, t, size);
    var i := Bucket(size);
    MissIs(m, t, i);
    IdleFacts(m, t);
    FoundFacts(m, i, k);
    var m1 := DoMiss(m, t, i);
    var pc := m1.threads[t].pc;
    SameFirst(m, m1, i, k);
    FindReady(m1, t, i, pc.batch, k);
    var avail, use := m.store.at[InSpan(from)], m.carved[from].use;
    assert m.store.at == m.store.at[InSpan(from) := avail] && m.carved == m.carved[from := Info(i, use)];
    FetchGrabs(m, m1, t, i, from, avail, use, pc);
    FetchRest(m1, t, i, pc.batch, from);
  }

  /** An allocation with an empty list, while some span of the bucket has a free object. */
  lemma AllocateFound<S>(m: Pool<S>, t: nat, size: nat, from: S)
    requires Good(m) && CanTake(m, Miss(t, size)) && Bucket(size) !in m.locks && Bucket(size) < |m.buckets|
    requires CC.FirstSome(m.buckets[Bucket(size)], View(m, Bucket(size)).free, from)
    ensures CanRun(m, [Miss(t, size), Find(t), Deliver(t)])
    ensures var i, n := Bucket(size), Run(m, [Miss(t, size), Find(t), Deliver(t)]);
      && t in m.threads && i < |m.threads[t].size| == |m.threads[t].maxSize|
      && InSpan(from) in m.store.at && from in m.carved
      && Served(m, n, t, i, from, m.store.at[InSpan(from)], m.carved[from].use)
      && n.pages == m.pages && n.buckets == m.buckets
  {
    hide Good, CanTake, Next, IsFirstFree, CanRun, Run, Served, Grabbed, CC.FirstSome, View;
    MissReady(m, t, size);
    var k := FirstFound(m, Bucket(size), from);
    MissThenFind(m, t, size, k, from);
    var m2 := Next(Next(m, Miss(t, size)), Find(t));
    GrabbedServed(m, m2, t, Bucket(size), from, m.store.at[InSpan(from)], m.carved[from].use);
    var steps: seq<Step<S>> := [Miss(t, size), Find(t), Deliver(t)];
    assert [steps[0]] + [steps[1]] == steps[..2] && steps[..2] + [steps[2]] == steps;
    RunOne(m, steps[0]);
    RunMore(m, [steps[0]], steps[1]);
    RunMore(m, steps[..2], steps[2]);
  }

  lemma FetchRest<S>(m: Pool<S>, t: nat, i: nat, batch: nat, s: S)
    requires t in m.threads && s in m.carved && InSpan(s) in m.store.at && InFlight(t) in m.store.at
    ensures DoFetch(m, t, i, batch, s).pages == m.pages && DoFetch(m, t, i, batch, s).buckets == m.buckets
  {
  }

  lemma SameFirst<S>(m: Pool<S>, n: Pool<S>, i: nat, k: nat)
    requires i < |m.buckets| && n.buckets == m.buckets && n.store == m.store
    ensures IsFirstFree(m, i, k) <==> IsFirstFree(n, i, k)
  {
  }

  lemma SpawnIs<S>(m: Pool<S>, t: nat)
    requires Good(m) && t !in m.threads
    ensures CanTake(m, Spawn(t)) && Next(m, Spawn(t)) == DoSpawn(m, t) && Good(DoSpawn(m, t))
    ensures var n := DoSpawn(m, t);
      && n.pages == m.pages && n.buckets == m.buckets && n.locks == m.locks && n.carved == m.carved
      && n.store.held == m.store.held && (forall s :: InSpan(s) in m.store.at <==> InSpan(s) in n.store.at)
      && (forall s :: InSpan(s) in m.store.at ==> n.store.at[InSpan(s)] == m.store.at[InSpan(s)])
  {
    hide Good;
    NextKeeps(m, Spawn(t));
  }

  lemma SpawnReady<S>(m: Pool<S>, t: nat, size: nat)
    requires Good(m) && t !in m.threads && ValidSize(size)
    ensures var n, i := DoSpawn(m, t), Bucket(size);
      && Good(n) && CanTake(n, Miss(t, size)) && i < |m.buckets| == |n.buckets| && InThread(t, i) in n.store.at
      && i < |n.threads[t].size| == |n.threads[t].maxSize| && n.threads[t].maxSize[i] == 1
  {
    hide Good;
    SpawnIs(m, t);
    Facts(DoSpawn(m, t), t);
  }

  lemma SpawnView<S>(m: Pool<S>, t: nat, i: nat)
    requires Good(m) && t !in m.threads && i < |m.buckets| == |DoSpawn(m, t).buckets|
    ensures View(DoSpawn(m, t), i) == View(m, i) && DoSpawn(m, t).buckets == m.buckets
  {
    hide Good, DoSpawn;
    SpawnIs(m, t);
    SameView(m, DoSpawn(m, t), i);
  }

  /** Slow start: the first allocation of a thread takes one object and keeps none, and the next one may take two. */
  lemma FirstCall<S>(m: Pool<S>, t: nat, size: nat, from: S)
    requires Good(m) && t !in m.threads && ValidSize(size) && Bucket(size) !in m.locks && Bucket(size) < |m.buckets|
    requires CC.FirstSome(m.buckets[Bucket(size)], View(m, Bucket(size)).free, from)
    ensures CanRun(m, [Spawn(t), Miss(t, size), Find(t), Deliver(t)])
    ensures var i, n := Bucket(size), Run(m, [Spawn(t), Miss(t, size), Find(t), Deliver(t)]);
      && InSpan(from) in m.store.at && |m.store.at[InSpan(from)]| > 0
      && n.store.held == m.store.held[m.store.at[InSpan(from)][0] := i]
      && InSpan(from) in n.store.at && n.store.at[InSpan(from)] == m.store.at[InSpan(from)][1..]
      && InThread(t, i) in n.store.at && n.store.at[InThread(t, i)] == []
      && t in n.threads && i < |n.threads[t].maxSize| && n.threads[t].maxSize[i] == 2
  {
    hide Good, CanTake, Next, CanRun, Run, DoSpawn, Size, SC.NumMoveSize, CC.FirstSome, View;
    SpawnIs(m, t);
    SpawnReady(m, t, size);
    SpawnView(m, t, Bucket(size));
    AllocateFound(DoSpawn(m, t), t, size, from);
    SC.BucketsOnto(Bucket(size));
    SomeMove(Bucket(size));
    RunOne(m, Spawn(t));
    var rest: seq<Step<S>> := [Miss(t, size), Find(t), Deliver(t)];
    RunThen(m, [Spawn(t)], rest);
    assert [Spawn(t)] + rest == [Spawn(t), Miss(t, size), Find(t), Deliver(t)];
  }

  lemma SomeMove(i: nat)
    ensures SC.NumMoveSize(Size(i)) >= 2
  {
  }

  /** An allocation from a list that is not empty. */
  lemma AllocateHit<S>(m: Pool<S>, t: nat, size: nat)
    requires Good(m) && CanTake(m, Hit(t, size))
    ensures ValidSize(size) && t in m.threads && InThread(t, Bucket(size)) in m.store.at
    ensures var i, n, th := Bucket(size), Next(m, Hit(t, size)), m.threads[t];
      var list := m.store.at[InThread(t, i)];
      && |list| > 0 && n.store.held == m.store.held[list[0] := i] &&
           n.store.at == m.store.at[InThread(t, i) := list[1..]]
      && i < |th.size| && n.threads == m.threads[t := th.(size := th.size[i := |list| - 1])]
      && n.locks == m.locks && n.buckets == m.buckets && n.carved == m.carved && n.pages == m.pages
  {
    hide Good;
    Facts(m, t);
  }

  // ----- an allocation that needs a new span -----

  /** No span of bucket i has a free object, and these are addresses and pages the system may answer with. */
  ghost predicate NeedsSpan<S>(m: Pool<S>, i: nat, big: S, base: nat, kid: S) {
    && i < BUCKETS == |m.buckets| && (forall s :: s in View(m, i).free ==> |View(m, i).free[s]| == 0)
    && Pages.Inv(m.pages) && |m.pages.lists| == NPAGES
    && 1 <= SpanPages(i) < NPAGES && FreshSpans(m.pages, SpanPages(i), big, base, kid)
  }

  /** The page cache after it has handed out a span for bucket i, and that span. */
  ghost function WithNewSpan<S>(m: Pool<S>, i: nat, big: S, base: nat, kid: S): (Pages.State<S>, S)
    requires NeedsSpan(m, i, big, base, kid)
  {
    hide Sound;
    NewSpanKeeps(m.pages, SpanPages(i), big, base, kid);
    var (pages, s) := NewSpan(m.pages, SpanPages(i), big, base, kid);
    (MarkInUse(pages, s), s)
  }

  lemma WithNewSpanHas<S>(m: Pool<S>, i: nat, big: S, base: nat, kid: S)
    requires NeedsSpan(m, i, big, base, kid)
    ensures var (pages, s) := WithNewSpan(m, i, big, base, kid); s in pages.spans
  {
    hide Sound, NewSpan;
  }

  lemma NothingFound<S>(m: Pool<S>, t: nat, i: nat, batch: nat)
    requires Good(m) && CanTake(m, Find(t)) && m.threads[t].pc == WantSpan(i, batch) && |m.buckets| == BUCKETS > i
    requires !SomeFree(m, i)
    ensures Next(m, Find(t)) == SetPc(m, t, NoSpan(i, batch)) && Good(SetPc(m, t, NoSpan(i, batch)))
  {
    hide Good, SomeFree;
    NextKeeps(m, Find(t));
  }

  lemma AcquireReady<S>(m: Pool<S>, t: nat, i: nat, batch: nat, big: S, base: nat, kid: S)
    requires Good(m) && t in m.threads && m.threads[t].pc == NoSpan(i, batch) && NeedsSpan(m, i, big, base, kid)
    ensures var step := Step.Acquire(t, big, base, kid);
      var (pages, s) := WithNewSpan(m, i, big, base, kid);
      && CanTake(m, step) && Next(m, step) == DoAcquire(m, t, i, batch, pages, s)
      && Good(DoAcquire(m, t, i, batch, pages, s))
  {
    hide Good, SomeFree, Sound, NewSpan, FreshSpans, SpanPages;
    NextKeeps(m, Step.Acquire(t, big, base, kid));
  }

  lemma CarveReady<S>(m: Pool<S>, t: nat, i: nat, batch: nat, s: S)
    requires Good(m) && t in m.threads && m.threads[t].pc == HaveSpan(i, batch, s) && s in m.pages.spans
    ensures CanTake(m, Step.Carve(t)) && Next(m, Step.Carve(t)) == DoCarve(m, t, i, batch, s)
    ensures Good(DoCarve(m, t, i, batch, s))
  {
    hide Good, DoCarve;
    NextKeeps(m, Step.Carve(t));
  }

  lemma AttachReady<S>(m: Pool<S>, t: nat, i: nat, batch: nat, s: S)
    requires Good(m) && t in m.threads && m.threads[t].pc == SpanReady(i, batch, s) && i !in m.locks
    ensures s in m.carved && InSpan(s) in m.store.at && InFlight(t) in m.store.at && i < |m.buckets|
    ensures CanTake(m, Attach(t)) && Next(m, Attach(t)) == DoAttach(m, t, i, batch, s)
    ensures Good(DoAttach(m, t, i, batch, s))
  {
    hide Good, DoAttach;
    NextKeeps(m, Attach(t));
    Facts(m, t);
    ReadyFacts(m, t);
  }

  /** The five steps before the last, on the fields they change. */
  ghost function Cut<S>(m: Pool<S>, t: nat, i: nat, pages: Pages.State<S>, s: S): (n: Pool<S>)
    requires t in m.threads && i < |m.threads[t].maxSize| && s in pages.spans
    ensures t in n.threads && s in n.carved && InSpan(s) in n.store.at
  {
    var batch := Min(m.threads[t].maxSize[i], SC.NumMoveSize(Size(i)));
    DoCarve(DoAcquire(SetPc(DoMiss(m, t, i), t, NoSpan(i, batch)), t, i, batch, pages, s), t, i, batch, s)
  }

  lemma CutIs<S>(m: Pool<S>, t: nat, i: nat, pages: Pages.State<S>, s: S)
    requires t in m.threads && i < |m.threads[t].size| == |m.threads[t].maxSize| && s in pages.spans
    ensures var n, th, max := Cut(m, t, i, pages, s), m.threads[t], m.threads[t].maxSize[i];
      var more, batch := if max <= SC.NumMoveSize(Size(i)) then 1 else 0, Min(max, SC.NumMoveSize(Size(i)));
      && n.locks == m.locks && n.store.held == m.store.held && n.pages == pages && n.buckets == m.buckets
      && n.threads == m.threads[t := Thread(th.size, th.maxSize[i := max + more], SpanReady(i, batch, s))]
      && n.store.at == m.store.at[InSpan(s) := Objs(pages.spans[s], i)] && n.carved == m.carved[s := Info(i, 0)]
  {
    hide SC.NumMoveSize, Size, Objs, Relocate, DoMiss;
    MissIs(m, t, i);
    var n := Cut(m, t, i, pages, s);
    assert n.threads == m.threads[t := n.threads[t]];
  }

  lemma AttachGrabs<S>(m: Pool<S>, t: nat, i: nat, pages: Pages.State<S>, s: S)
    requires t in m.threads && i < |m.threads[t].size| == |m.threads[t].maxSize| && s in pages.spans
    requires i < |m.buckets| && InFlight(t) in m.store.at && m.store.at[InFlight(t)] == []
    ensures var n, batch := Cut(m, t, i, pages, s), Min(m.threads[t].maxSize[i], SC.NumMoveSize(Size(i)));
      && InFlight(t) in n.store.at && i < |n.buckets|
      && Grabbed(m, DoAttach(n, t, i, batch, s), t, i, s, Objs(pages.spans[s], i), 0)
      && DoAttach(n, t, i, batch, s).pages == pages
      && DoAttach(n, t, i, batch, s).buckets == m.buckets[i := [s] + m.buckets[i]]
  {
    hide SC.NumMoveSize, Size, Objs, DoFetch, Cut;
    CutIs(m, t, i, pages, s);
    var n, batch := Cut(m, t, i, pages, s), Min(m.threads[t].maxSize[i], SC.NumMoveSize(Size(i)));
    FetchGrabs(m, n, t, i, s, Objs(pages.spans[s], i), 0, SpanReady(i, batch, s));
    FetchRest(n, t, i, batch, s);
  }

  function NewSpanSteps<S>(t: nat, size: nat, big: S, base: nat, kid: S): (steps: seq<Step<S>>) {
    [Miss(t, size), Find(t), Step.Acquire(t, big, base, kid), Step.Carve(t), Attach(t), Deliver(t)]
  }

  /** An allocation with an empty list, while no span of the bucket has a free object. */
  lemma AllocateNew<S>(m: Pool<S>, t: nat, size: nat, big: S, base: nat, kid: S)
    requires Good(m) && CanTake(m, Miss(t, size)) && Bucket(size) !in m.locks
    requires NeedsSpan(m, Bucket(size), big, base, kid)
    ensures CanRun(m, NewSpanSteps(t, size, big, base, kid))
    ensures var i, n := Bucket(size), Run(m, NewSpanSteps(t, size, big, base, kid));
      var (pages, from) := WithNewSpan(m, i, big, base, kid);
      && t in m.threads && i < |m.threads[t].size| == |m.threads[t].maxSize| && from in pages.spans
      && Served(m, n, t, i, from, Objs(pages.spans[from], i), 0)
      && n.pages == pages && n.buckets == m.buckets[i := [from] + m.buckets[i]]
  {
    hide Good, CanTake, Next, NeedsSpan, WithNewSpan, CanRun, Run, Served, Grabbed;
    MissReady(m, t, size);
    var (pages, from) := WithNewSpan(m, Bucket(size), big, base, kid);
    var m5 := CutAndAttach(m, t, size, big, base, kid);
    GrabbedServed(m, m5, t, Bucket(size), from, Objs(pages.spans[from], Bucket(size)), 0);
    var steps := NewSpanSteps(t, size, big, base, kid);
    assert steps[..5] + [Deliver(t)] == steps;
    RunMore(m, steps[..5], Deliver(t));
  }

  lemma CutAndAttach<S>(m: Pool<S>, t: nat, size: nat, big: S, base: nat, kid: S) returns (n: Pool<S>)
    requires Good(m) && CanTake(m, Miss(t, size)) && Bucket(size) !in m.locks
    requires NeedsSpan(m, Bucket(size), big, base, kid)
    ensures var i, steps := Bucket(size), NewSpanSteps(t, size, big, base, kid)[..5];
      var (pages, from) := WithNewSpan(m, i, big, base, kid);
      && t in m.threads && i < |m.threads[t].size| == |m.threads[t].maxSize| && from in pages.spans
      && CanRun(m, steps) && n == Run(m, steps) && Good(n)
      && Grabbed(m, n, t, i, from, Objs(pages.spans[from], i), 0)
      && n.pages == pages && n.buckets == m.buckets[i := [from] + m.buckets[i]]
  {
    hide Good, CanTake, Next, NeedsSpan, WithNewSpan, CanRun, Run, Grabbed, Cut, SC.NumMoveSize, Size, Objs, Bucket;
    MissReady(m, t, size);
    var i := Bucket(size);
    MissIs(m, t, i);
    IdleFacts(m, t);
    WithNewSpanHas(m, i, big, base, kid);
    var (pages, s) := WithNewSpan(m, i, big, base, kid);
    var steps := NewSpanSteps(t, size, big, base, kid);
    var batch := Min(m.threads[t].maxSize[i], SC.NumMoveSize(Size(i)));
    assert [steps[0]] == steps[..1];
    RunOne(m, steps[0]);
    n := RunToCut(m, t, size, big, base, kid, batch, pages, s);
    CutIs(m, t, i, pages, s);
    AttachReady(n, t, i, batch, s);
    AttachGrabs(m, t, i, pages, s);
    assert steps[..4] + [steps[4]] == steps[..5];
    RunMore(m, steps[..4], steps[4]);
    n := DoAttach(n, t, i, batch, s);
  }

  lemma RunToCut<S>(m: Pool<S>, t: nat, size: nat, big: S, base: nat, kid: S, batch: nat, pages: Pages.State<S>, s: S)
      returns (n: Pool<S>)
    requires Good(m) && CanTake(m, Miss(t, size)) && Bucket(size) !in m.locks
    requires NeedsSpan(m, Bucket(size), big, base, kid) && t in m.threads && Bucket(size) < |m.threads[t].maxSize|
    requires batch == Min(m.threads[t].maxSize[Bucket(size)], SC.NumMoveSize(Size(Bucket(size))))
    requires (pages, s) == WithNewSpan(m, Bucket(size), big, base, kid) && s in pages.spans
    ensures var steps := NewSpanSteps(t, size, big, base, kid)[..4];
      CanRun(m, steps) && n == Run(m, steps) && Good(n) && n == Cut(m, t, Bucket(size), pages, s)
  {
    hide Good, CanTake, Next, NeedsSpan, WithNewSpan, CanRun, Run, SC.NumMoveSize, Size, Objs, Bucket, DoMiss, DoCarve;
    MissReady(m, t, size);
    var i := Bucket(size);
    MissIs(m, t, i);
    var steps := NewSpanSteps(t, size, big, base, kid);
    var m1 := DoMiss(m, t, i);
    RunOne(m, steps[0]);
    SameNeed(m, m1, i, big, base, kid);
    NeedMeansNone(m1, i, big, base, kid);
    NothingFound(m1, t, i, batch);
    var m2 := SetPc(m1, t, NoSpan(i, batch));
    SameNeed(m, m2, i, big, base, kid);
    AcquireReady(m2, t, i, batch, big, base, kid);
    var m3 := DoAcquire(m2, t, i, batch, pages, s);
    CarveReady(m3, t, i, batch, s);
    assert [steps[0]] + [steps[1]] == steps[..2] && steps[..2] + [steps[2]] == steps[..3];
    assert steps[..3] + [steps[3]] == steps[..4];
    RunMore(m, [steps[0]], steps[1]);
    RunMore(m, steps[..2], steps[2]);
    RunMore(m, steps[..3], steps[3]);
    n := DoCarve(m3, t, i, batch, s);
  }

  lemma SameNeed<S>(m: Pool<S>, n: Pool<S>, i: nat, big: S, base: nat, kid: S)
    requires NeedsSpan(m, i, big, base, kid) && n.pages == m.pages && n.buckets == m.buckets && n.store == m.store
    requires n.carved == m.carved
    ensures NeedsSpan(n, i, big, base, kid)
    ensures WithNewSpan(n, i, big, base, kid) == WithNewSpan(m, i, big, base, kid)
  {
    hide Sound, NewSpan, FreshSpans, SpanPages;
    assert View(n, i) == View(m, i);
  }

  lemma NeedMeansNone<S>(m: Pool<S>, i: nat, big: S, base: nat, kid: S)
    requires Good(m) && NeedsSpan(m, i, big, base, kid)
    ensures i < BUCKETS == |m.buckets| && !SomeFree(m, i)
  {
    hide Good, FreshSpans, Available, View;
    forall k: nat ensures !IsFirstFree(m, i, k) {
      if IsFirstFree(m, i, k) {
        FirstFreeIs(m, i, k, m.buckets[i][k]);
      }
    }
  }

  // ----- a deallocation -----

  /** Thread t holds bucket i locked and has `chain` to give back, each object of it found through the page map. */
  ghost predicate MayDrain<S>(m: Pool<S>, t: nat, i: nat, chain: seq<nat>) {
    && Good(m) && t in m.threads && m.threads[t].pc == Draining(i) && i < BUCKETS == |m.buckets|
    && InFlight(t) in m.store.at && m.store.at[InFlight(t)] == chain
    && CC.BucketOk(View(m, i), i) && CC.AllOut(View(m, i), i, chain)
  }

  /** What draining leaves alone: callers' objects, every thread's lists, other chains and the other buckets. */
  ghost predicate Aside<S>(m: Pool<S>, n: Pool<S>, t: nat, i: nat) {
    && n.store.held == m.store.held && |n.buckets| == |m.buckets|
    && (forall j :: 0 <= j < |m.buckets| && j != i ==> n.buckets[j] == m.buckets[j])
    && forall p :: p in m.store.at && !p.InSpan? && p != InFlight(t) ==>
         p in n.store.at && n.store.at[p] == m.store.at[p]
  }

  lemma OutIsGone<S>(b: CC.Bucket<S>, i: nat, a: nat)
    requires CC.Out(b, i, a)
    ensures CC.Gone(b, i, a)
  {
    hide Obj;
    assert CC.From(b, i, b.pages.tags[a / PAGE], a);
  }

  lemma DrainReady<S>(m: Pool<S>, t: nat, i: nat, chain: seq<nat>)
    requires MayDrain(m, t, i, chain) && |chain| > 0
    ensures CanTake(m, Drain(t)) && CC.Out(View(m, i), i, chain[0]) && CC.BucketOk(View(m, i), i)
  {
    hide Good, CC.BucketOk, CC.Out, Found;
    assert chain[0] in chain;
    OutIsGone(View(m, i), i, chain[0]);
    CC.FoundIsOut(View(m, i), i, chain[0]);
  }

  /** Either the lock is kept, or the span has gone back to the page cache's door and the bucket is unlocked. */
  lemma DrainOutcome<S>(m: Pool<S>, t: nat, i: nat, chain: seq<nat>)
    requires MayDrain(m, t, i, chain) && CanTake(m, Drain(t)) && |chain| > 0
    ensures var n := Next(m, Drain(t));
      && t in n.threads && InFlight(t) in n.store.at && n.store.at[InFlight(t)] == chain[1..] && Aside(m, n, t, i)
      && (n.threads[t].pc.Returning? || n.threads[t].pc == Draining(i))
      && (n.threads[t].pc == Draining(i) ==> n.threads == m.threads && n.locks == m.locks)
      && (n.threads[t].pc.Returning? ==>
            && n.threads[t].pc.i == i && n.locks == m.locks - {i}
            && n.threads == m.threads[t := m.threads[t].(pc := n.threads[t].pc)])
  {
    hide Good, CC.BucketOk, CC.AllOut, Relocate, CanTake, Without;
    Facts(m, t);
    FlightFacts(m, t);
    var a, s := DrainFacts(m, t);
    DrainIs(m, t);
  }

  lemma DrainIs<S>(m: Pool<S>, t: nat)
    requires Good(m) && CanTake(m, Drain(t))
    ensures t in m.threads && m.threads[t].pc.Draining? && m.threads[t].pc.i < |m.buckets|
    ensures InFlight(t) in m.store.at && |m.store.at[InFlight(t)]| > 0
    ensures var p := m.store.at[InFlight(t)][0] / PAGE; p in m.pages.tags && var s := m.pages.tags[p];
      && s in m.carved && InSpan(s) in m.store.at && Next(m, Drain(t)) == DoDrain(m, t, m.threads[t].pc.i, s)
  {
    hide Good, Found, DoDrain;
    Facts(m, t);
    var a, s := DrainFacts(m, t);
  }

  /** After a drain step the bucket is as after one turn of the release loop, but for a span yet to be returned. */
  lemma DrainView<S>(m: Pool<S>, t: nat, i: nat, chain: seq<nat>)
    requires MayDrain(m, t, i, chain) && |chain| > 0 && CanTake(m, Drain(t))
    ensures var n := Next(m, Drain(t));
      && i < |n.buckets| == |m.buckets| && t in n.threads && CC.BucketOk(View(m, i), i)
      && CC.Out(View(m, i), i, chain[0])
      && if n.threads[t].pc.Returning?
         then Releasing(n.pages, n.threads[t].pc.s) &&
              View(n, i).(pages := Release(n.pages, n.threads[t].pc.s)) == CC.ReleaseOne(View(m, i), i, chain[0])
         else View(n, i) == CC.ReleaseOne(View(m, i), i, chain[0])
  {
    hide Good, Found, CanTake, NextDrain, CC.BucketOk, CC.AllOut, CC.Out, CC.ReleaseOne, Release, Releasing;
    DrainIsReleaseOne(m, t);
    Facts(m, t);
    DrainOutcome(m, t, i, chain);
  }

  lemma BackAndLock<S>(m: Pool<S>, t: nat, i: nat) returns (n: Pool<S>)
    requires Good(m) && t in m.threads && m.threads[t].pc.Returning? && m.threads[t].pc.i == i && i !in m.locks
    ensures CanRun(m, [Step.GiveBack(t), Lock(t)]) && n == Run(m, [Step.GiveBack(t), Lock(t)]) && Good(n)
    ensures Releasing(m.pages, m.threads[t].pc.s)
    ensures n == m.(pages := Release(m.pages, m.threads[t].pc.s), role := n.role, locks := m.locks[i := t],
                    threads := m.threads[t := m.threads[t].(pc := Draining(i))])
    ensures i < |m.buckets| && View(n, i) == View(m, i).(pages := n.pages)
  {
    hide Good, Release, Releasing, CanRun, Run, Sound;
    Facts(m, t);
    ReturningFacts(m, t);
    RunOne(m, Step.GiveBack(t));
    var mid := Next(m, Step.GiveBack(t));
    assert CanTake(mid, Lock(t));
    var steps: seq<Step<S>> := [Step.GiveBack(t), Lock(t)];
    assert [steps[0]] + [steps[1]] == steps;
    RunMore(m, [steps[0]], steps[1]);
    n := Next(mid, Lock(t));
    assert n.threads == m.threads[t := m.threads[t].(pc := Draining(i))];
  }

  lemma AsideToo<S>(m: Pool<S>, n: Pool<S>, r: Pool<S>, t: nat, i: nat)
    requires Aside(m, n, t, i) && r.store == n.store && r.buckets == n.buckets
    ensures Aside(m, r, t, i)
  {
  }

  /** One turn of the release loop, with the return of the span when it was the last object. */
  lemma TurnSteps<S>(m: Pool<S>, t: nat, i: nat, chain: seq<nat>) returns (steps: seq<Step<S>>, n: Pool<S>)
    requires MayDrain(m, t, i, chain) && |chain| > 0
    ensures CanRun(m, steps) && n == Run(m, steps) && Good(n) && Aside(m, n, t, i)
    ensures n.threads == m.threads && n.locks == m.locks
    ensures InFlight(t) in n.store.at && n.store.at[InFlight(t)] == chain[1..]
    ensures i < |m.buckets| == |n.buckets| && CC.BucketOk(View(m, i), i) && CC.Out(View(m, i), i, chain[0])
    ensures View(n, i) == CC.ReleaseOne(View(m, i), i, chain[0])
  {
    hide Good, CanTake, Next, CanRun, Run, Aside, CC.Out, CC.AllOut, CC.BucketOk, CC.ReleaseOne, View, Release,
         Releasing;
    DrainReady(m, t, i, chain);
    DrainOutcome(m, t, i, chain);
    RunOne(m, Drain(t));
    DrainView(m, t, i, chain);
    var mid := Next(m, Drain(t));
    steps, n := [Drain(t)], mid;
    if mid.threads[t].pc.Returning? {
      n := BackAndLock(mid, t, i);
      HeldLock(m, t, i);
      steps := [Drain(t), Step.GiveBack(t), Lock(t)];
      assert [steps[0]] + [Step.GiveBack(t), Lock(t)] == steps;
      RunThen(m, [steps[0]], [Step.GiveBack(t), Lock(t)]);
      AsideToo(m, mid, n, t, i);
      assert n.threads == m.threads;
    }
  }

  lemma Turn<S>(m: Pool<S>, t: nat, i: nat, chain: seq<nat>) returns (steps: seq<Step<S>>, n: Pool<S>)
    requires MayDrain(m, t, i, chain) && |chain| > 0
    ensures CanRun(m, steps) && n == Run(m, steps) && MayDrain(n, t, i, chain[1..]) && Aside(m, n, t, i)
    ensures n.threads == m.threads && n.locks == m.locks
    ensures i < |m.buckets| && CC.BucketOk(View(m, i), i) && CC.Out(View(m, i), i, chain[0])
    ensures View(n, i) == CC.ReleaseOne(View(m, i), i, chain[0])
  {
    hide Good, CanTake, Next, CanRun, Run, Aside, CC.Out, CC.AllOut, CC.BucketOk, CC.ReleaseOne, View;
    steps, n := TurnSteps(m, t, i, chain);
    assert [chain[0]] + chain[1..] == chain;
    CC.ReleaseOneKeeps(View(m, i), i, chain[0], chain[1..]);
  }

  lemma HeldLock<S>(m: Pool<S>, t: nat, i: nat)
    requires Good(m) && t in m.threads && m.threads[t].pc == Draining(i)
    ensures i in m.locks && m.locks[i] == t && (m.locks - {i})[i := t] == m.locks
  {
    hide Pages.Inv, Arranged, Domain, Spans, Counts, Roles, Owners, Threads;
  }

  lemma AsideJoin<S>(m: Pool<S>, n: Pool<S>, r: Pool<S>, t: nat, i: nat)
    requires Aside(m, n, t, i) && Aside(n, r, t, i)
    ensures Aside(m, r, t, i)
  {
  }

  lemma NothingLeft<S>(b: CC.Bucket<S>, i: nat, chain: seq<nat>)
    requires CC.BucketOk(b, i) && CC.AllOut(b, i, chain) && |chain| == 0
    ensures CC.ReleaseAll(b, i, chain) == b
  {
    hide CC.BucketOk, CC.AllOut;
  }

  lemma OneThenRest<S>(b: CC.Bucket<S>, i: nat, chain: seq<nat>)
    requires CC.BucketOk(b, i) && CC.AllOut(b, i, chain) && |chain| > 0 && CC.Out(b, i, chain[0])
    requires CC.BucketOk(CC.ReleaseOne(b, i, chain[0]), i)
    requires CC.AllOut(CC.ReleaseOne(b, i, chain[0]), i, chain[1..])
    ensures CC.ReleaseAll(b, i, chain) == CC.ReleaseAll(CC.ReleaseOne(b, i, chain[0]), i, chain[1..])
  {
    hide CC.BucketOk, CC.AllOut, CC.Out, CC.ReleaseOne;
  }

  /** Draining a chain into a bucket is the whole release loop. */
  lemma {:induction false} DrainAll<S>(m: Pool<S>, t: nat, i: nat, chain: seq<nat>)
      returns (steps: seq<Step<S>>, n: Pool<S>)
    requires MayDrain(m, t, i, chain)
    ensures CanRun(m, steps) && n == Run(m, steps) && MayDrain(n, t, i, []) && Aside(m, n, t, i)
    ensures n.threads == m.threads && n.locks == m.locks
    ensures i < |m.buckets| && CC.BucketOk(View(m, i), i) && CC.AllOut(View(m, i), i, chain)
    ensures View(n, i) == CC.ReleaseAll(View(m, i), i, chain)
    decreases |chain|
  {
    hide Good, CanTake, Next, Aside, CC.Out, CC.AllOut, CC.BucketOk, CC.ReleaseOne, CC.ReleaseAll, View;
    if |chain| == 0 {
      steps, n := [], m;
      AsideNone(m, t, i);
      NothingLeft(View(m, i), i, chain);
    } else {
      var first, mid := Turn(m, t, i, chain);
      var rest;
      rest, n := DrainAll(mid, t, i, chain[1..]);
      steps := first + rest;
      RunThen(m, first, rest);
      AsideJoin(m, mid, n, t, i);
      OneThenRest(View(m, i), i, chain);
    }
  }

  lemma AsideNone<S>(m: Pool<S>, t: nat, i: nat)
    ensures Aside(m, m, t, i)
  {
  }

  /** The thread's list once `a` has been pushed onto it. */
  ghost function Longer<S>(m: Pool<S>, t: nat, a: nat, i: nat): seq<nat>
    requires InThread(t, i) in m.store.at
  {
    [a] + m.store.at[InThread(t, i)]
  }

  lemma FreeIs<S>(m: Pool<S>, t: nat, a: nat, size: nat)
    requires Good(m) && CanTake(m, Free(t, a, size))
    ensures ValidSize(size) && t in m.threads && Bucket(size) < |m.buckets| == BUCKETS && m.threads[t].pc.Idle?
    ensures Bucket(size) < |m.threads[t].size| == |m.threads[t].maxSize| && InThread(t, Bucket(size)) in m.store.at
    ensures var i, n, th := Bucket(size), Next(m, Free(t, a, size)), m.threads[t];
      var list := Longer(m, t, a, i);
      && Good(n) && |list| <= th.maxSize[i] && a in m.store.held && n.store.held == m.store.held - {a}
      && n.locks == m.locks && n.buckets == m.buckets && n.carved == m.carved && n.pages == m.pages
      && if |list| < th.maxSize[i]
         then n.store.at == m.store.at[InThread(t, i) := list]
              && n.threads == m.threads[t := th.(size := th.size[i := |list|])]
         else n.store.at == m.store.at[InThread(t, i) := []][InFlight(t) := list]
              && n.threads == m.threads[t := Thread(th.size[i := 0], th.maxSize, WantRelease(i))]
  {
    hide Pages.Inv, Arranged, Domain, Spans, Counts, Roles, Owners, Threads, Locks, Relocate, SC.NumMoveSize;
    NextKeeps(m, Free(t, a, size));
    Facts(m, t);
    ThreadsOk(m, t);
    IdleFacts(m, t);
    assert ListOk(m, t, Bucket(size));
    FreePushed(m, t, a, size);
    FreedLists(m, t, a, Bucket(size));
  }

  lemma FreedLists<S>(m: Pool<S>, t: nat, a: nat, i: nat)
    requires t in m.threads && InThread(t, i) in m.store.at && InFlight(t) in m.store.at
    requires i < |m.threads[t].size| == |m.threads[t].maxSize| && m.threads[t].pc.Idle?
    requires m.threads[t].size[i] == |m.store.at[InThread(t, i)]| < m.threads[t].maxSize[i]
    requires m.store.at[InFlight(t)] == []
    ensures var n, th, list := DoFree(m, t, a, i), m.threads[t], Longer(m, t, a, i);
      if |list| < th.maxSize[i]
      then n.store.at == m.store.at[InThread(t, i) := list]
              && n.threads == m.threads[t := th.(size := th.size[i := |list|])]
      else n.store.at == m.store.at[InThread(t, i) := []][InFlight(t) := list]
           && n.threads == m.threads[t := Thread(th.size[i := 0], th.maxSize, WantRelease(i))]
  {
    hide Relocate;
    var list, n := Longer(m, t, a, i), DoFree(m, t, a, i);
    assert list[..|list|] + [] == list && list[|list|..] == [];
    if |list| == m.threads[t].maxSize[i] {
      assert n.store.at == m.store.at[InThread(t, i) := []][InFlight(t) := list];
    }
  }

  /** Giving back an object while the list stays below its limit. */
  lemma FreeKept<S>(m: Pool<S>, t: nat, a: nat, size: nat)
    requires Good(m) && CanTake(m, Free(t, a, size)) && Bucket(size) < |m.threads[t].maxSize|
    requires InThread(t, Bucket(size)) in m.store.at
    requires |m.store.at[InThread(t, Bucket(size))]| + 1 < m.threads[t].maxSize[Bucket(size)]
    ensures var i, n, th := Bucket(size), Next(m, Free(t, a, size)), m.threads[t];
      var list := [a] + m.store.at[InThread(t, i)];
      && n.store.at == m.store.at[InThread(t, i) := list] && n.store.held == m.store.held - {a} && i < |th.size|
      && n.threads == m.threads[t := th.(size := th.size[i := |list|])]
      && n.locks == m.locks && n.buckets == m.buckets && n.carved == m.carved && n.pages == m.pages
  {
    hide Good, CanTake, Next;
    FreeIs(m, t, a, size);
  }

  /** Where a deallocation fills the list and every object of it is found through the page map. */
  ghost predicate Spills<S>(m: Pool<S>, t: nat, a: nat, i: nat) {
    && t in m.threads && i < |m.buckets| && i < |m.threads[t].size| == |m.threads[t].maxSize| && i !in m.locks
    && InThread(t, i) in m.store.at && |Longer(m, t, a, i)| >= m.threads[t].maxSize[i]
    && forall x :: x in Longer(m, t, a, i) ==> Found(m.pages, x)
  }

  /** Giving back the object that fills the list: the whole list goes back, as by the release loop. */
  lemma FreeAll<S>(m: Pool<S>, t: nat, a: nat, size: nat) returns (steps: seq<Step<S>>, n: Pool<S>)
    requires ValidSize(size) && Good(m) && CanTake(m, Free(t, a, size)) && Spills(m, t, a, Bucket(size))
    ensures CanRun(m, steps) && n == Run(m, steps) && Good(n)
    ensures var i, th := Bucket(size), m.threads[t];
      && n.threads == m.threads[t := th.(size := th.size[i := 0])] && n.locks == m.locks
      && n.store.held == m.store.held - {a} && InThread(t, i) in n.store.at && n.store.at[InThread(t, i)] == []
      && i < |n.buckets| == |m.buckets|
      && (forall j :: 0 <= j < |m.buckets| && j != i ==> n.buckets[j] == m.buckets[j])
      && (forall p :: p in m.store.at && !p.InSpan? && p != InThread(t, i) ==>
            p in n.store.at && n.store.at[p] == m.store.at[p])
    ensures var i, list := Bucket(size), Longer(m, t, a, Bucket(size));
      && CC.BucketOk(View(m, i), i) && CC.AllOut(View(m, i), i, list)
      && View(n, i) == CC.ReleaseAll(View(m, i), i, list)
  {
    hide Good, CanTake, Next, CanRun, Run, CC.AllOut, CC.BucketOk, CC.ReleaseAll, View, Found, Bucket;
    var i, list := Bucket(size), Longer(m, t, a, Bucket(size));
    var first: seq<Step<S>> := [Free(t, a, size), Lock(t)];
    var locked := FreeThenLock(m, t, a, size, i);
    var drain, drained := DrainAll(locked, t, i, list);
    RunThen(m, first, drain);
    UnlockIt(drained, t, i);
    RunMore(m, first + drain, Unlock(t));
    steps, n := first + drain + [Unlock(t)], Next(drained, Unlock(t));
    SameView(drained, n, i);
  }

  lemma FreeThenLock<S>(m: Pool<S>, t: nat, a: nat, size: nat, i: nat) returns (n: Pool<S>)
    requires Good(m) && CanTake(m, Free(t, a, size)) && i == Bucket(size) && Spills(m, t, a, i)
    ensures CanRun(m, [Free(t, a, size), Lock(t)]) && n == Run(m, [Free(t, a, size), Lock(t)])
    ensures MayDrain(n, t, i, Longer(m, t, a, i)) && View(n, i) == View(m, i)
    ensures n.store.at == m.store.at[InThread(t, i) := []][InFlight(t) := Longer(m, t, a, i)]
    ensures n.threads == m.threads[t := Thread(m.threads[t].size[i := 0], m.threads[t].maxSize, Draining(i))]
    ensures n.store.held == m.store.held - {a} && n.locks == m.locks[i := t] && n.buckets == m.buckets
    ensures InFlight(t) in m.store.at && m.store.at[InFlight(t)] == [] && m.threads[t].pc.Idle?
  {
    hide Good, CanTake, Next, CanRun, Run, View, Found, Bucket;
    FreeIs(m, t, a, size);
    IdleFacts(m, t);
    n := LockIt(Next(m, Free(t, a, size)), t, i, Longer(m, t, a, i));
    SameView(m, n, i);
    var first: seq<Step<S>> := [Free(t, a, size), Lock(t)];
    assert [first[0]] + [first[1]] == first;
    RunOne(m, first[0]);
    RunMore(m, [first[0]], first[1]);
  }

  lemma SameView<S>(m: Pool<S>, n: Pool<S>, i: nat)
    requires i < |m.buckets| && n.buckets == m.buckets && n.carved == m.carved && n.pages == m.pages
    requires forall s :: s in m.carved ==>
      (InSpan(s) in m.store.at <==> InSpan(s) in n.store.at) &&
      (InSpan(s) in m.store.at ==> n.store.at[InSpan(s)] == m.store.at[InSpan(s)])
    ensures View(n, i) == View(m, i)
  {
  }

  lemma LockIt<S>(m: Pool<S>, t: nat, i: nat, chain: seq<nat>) returns (n: Pool<S>)
    requires Good(m) && t in m.threads && m.threads[t].pc == WantRelease(i) && i !in m.locks
    requires InFlight(t) in m.store.at && m.store.at[InFlight(t)] == chain && |m.buckets| == BUCKETS
    requires forall x :: x in chain ==> Found(m.pages, x)
    ensures CanTake(m, Lock(t)) && n == Next(m, Lock(t)) && MayDrain(n, t, i, chain)
    ensures n == m.(locks := m.locks[i := t], threads := m.threads[t := m.threads[t].(pc := Draining(i))])
  {
    hide Good, Found, CC.BucketOk, CC.AllGone, CC.AllOut;
    NextKeeps(m, Lock(t));
    n := Next(m, Lock(t));
    Facts(n, t);
    FlightIsOut(n, t);
    ViewOk(n, i);
  }

  lemma UnlockIt<S>(m: Pool<S>, t: nat, i: nat)
    requires MayDrain(m, t, i, [])
    ensures CanTake(m, Unlock(t))
    ensures Next(m, Unlock(t)) == m.(locks := m.locks - {i}, threads := m.threads[t := m.threads[t].(pc := Idle)])
  {
    hide Good, CC.BucketOk, CC.AllOut;
  }

  // ----- progress -----

  /** What a thread in the middle of a call does next. */
  ghost function Due<S>(m: Pool<S>, t: nat, big: S, base: nat, kid: S): (step: Step<S>)
    requires t in m.threads && !m.threads[t].pc.Idle? && InFlight(t) in m.store.at
  {
    match m.threads[t].pc
    case WantSpan(_, _) => Find(t)
    case NoSpan(_, _) => Step.Acquire(t, big, base, kid)
    case HaveSpan(_, _, _) => Step.Carve(t)
    case SpanReady(_, _, _) => Attach(t)
    case Fetched(_) => Deliver(t)
    case WantRelease(_) => Lock(t)
    case Draining(_) => if |m.store.at[InFlight(t)]| > 0 then Drain(t) else Unlock(t)
    case Returning(_, _) => Step.GiveBack(t)
  }

  ghost predicate MovesOn<S>(m: Pool<S>, t: nat, big: S, base: nat, kid: S) {
    && Good(m) && t in m.threads && !m.threads[t].pc.Idle? && InFlight(t) in m.store.at
    && CanTake(m, Due(m, t, big, base, kid))
  }

  /** If thread t asks for a span, the system answers with these. */
  ghost predicate Answered<S>(m: Pool<S>, t: nat, big: S, base: nat, kid: S)
    requires t in m.threads
  {
    m.threads[t].pc.NoSpan? ==>
      |m.pages.lists| == NPAGES && SpanPages(m.threads[t].pc.i) < NPAGES
      && FreshSpans(m.pages, SpanPages(m.threads[t].pc.i), big, base, kid)
  }

  /** Thread t has an object to give back that the page map does not find. */
  ghost predicate HasLost<S>(m: Pool<S>, t: nat) {
    && t in m.threads && m.threads[t].pc.Draining? && InFlight(t) in m.store.at && |m.store.at[InFlight(t)]| > 0
    && !Found(m.pages, m.store.at[InFlight(t)][0])
  }

  /** A thread waits for nothing but a bucket's lock. */
  lemma MovesUnlessLocked<S>(m: Pool<S>, t: nat, big: S, base: nat, kid: S)
    requires Good(m) && t in m.threads && !m.threads[t].pc.Idle? && !HasLost(m, t) && Answered(m, t, big, base, kid)
    requires m.threads[t].pc.Draining? || m.threads[t].pc.i !in m.locks
    ensures MovesOn(m, t, big, base, kid)
  {
    hide Good, Found, FreshSpans;
    Facts(m, t);
  }

  /** No deadlock: a thread in the middle of a call can go on, or waits for a bucket whose one holder can go on;
      unless the one or the other has an object the page map does not find. */
  lemma NoDeadlock<S>(m: Pool<S>, t: nat, big: S, base: nat, kid: S)
    requires Good(m) && t in m.threads && !m.threads[t].pc.Idle? && Answered(m, t, big, base, kid)
    ensures MovesOn(m, t, big, base, kid) || HasLost(m, t) || var i := m.threads[t].pc.i;
      i in m.locks && (MovesOn(m, m.locks[i], big, base, kid) || HasLost(m, m.locks[i]))
  {
    hide Good, MovesOn, HasLost;
    var i := m.threads[t].pc.i;
    if !HasLost(m, t) && !m.threads[t].pc.Draining? && i in m.locks {
      LockHolder(m, i);
      if !HasLost(m, m.locks[i]) {
        MovesUnlessLocked(m, m.locks[i], big, base, kid);
      }
    } else if !HasLost(m, t) {
      MovesUnlessLocked(m, t, big, base, kid);
    }
  }

  lemma LockHolder<S>(m: Pool<S>, i: nat)
    requires Good(m) && i in m.locks
    ensures m.locks[i] in m.threads && m.threads[m.locks[i]].pc == Draining(i)
  {
    hide Pages.Inv, Arranged, Domain, Spans, Counts, Roles, Owners, Threads;
  }

  /** A thread that is not in the middle of a call can allocate any size, in one way. */
  lemma CanAllocate<S>(m: Pool<S>, t: nat, size: nat)
    requires Good(m) && t in m.threads && m.threads[t].pc.Idle? && ValidSize(size)
    ensures CanTake(m, Hit(t, size)) <==> !CanTake(m, Miss(t, size))
  {
    hide Good;
    Facts(m, t);
  }

  /** And it can give back any object a caller holds, whoever allocated it, with any size of its bucket. */
  lemma CanDeallocate<S>(m: Pool<S>, t: nat, a: nat, size: nat)
    requires Good(m) && t in m.threads && m.threads[t].pc.Idle? && ValidSize(size)
    requires a in m.store.held && m.store.held[a] == Bucket(size)
    ensures CanTake(m, Free(t, a, size))
  {
    hide Good;
    Facts(m, t);
  }
}
