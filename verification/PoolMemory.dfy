/** The pool together with the words of memory its lists are chained through. */
module PoolMemory {
  import opened Pages
  import opened Stores
  import opened Pools
  import opened PoolProofs
  import Ch = Chains

  /** `words` holds the first word of every address written so far; pages fresh from the system are zero. */
  datatype Machine<S(==)> = Machine(pool: Pool<S>, words: map<nat, nat>)

  /** A step of the pool, or a caller writing `v` at address `p` of the object `a` it holds. */
  datatype Act<S> = Do(step: Step<S>) | Write(a: nat, p: nat, v: nat)

  function Head(xs: seq<nat>): nat { if |xs| > 0 then xs[0] else 0 }

  /** The words lead from the head of every list through exactly its objects to null. */
  ghost predicate Threaded<S>(words: map<nat, nat>, at: map<Place<S>, seq<nat>>) {
    forall p :: p in at ==> Ch.Chain(words, Head(at[p]), at[p], 0)
  }

  lemma ThreadedAt<S>(words: map<nat, nat>, at: map<Place<S>, seq<nat>>, p: Place<S>)
    requires Threaded(words, at) && p in at
    ensures Ch.Chain(words, Head(at[p]), at[p], 0)
  {
  }

  // ----- what moving objects does to the words -----

  /** The last of the n objects moved now leads to the list they are put in front of. */
  function MoveWords<S>(words: map<nat, nat>, st: Store<S>, p: Place<S>, n: nat, q: Place<S>): map<nat, nat>
    requires p in st.at && q in st.at && n <= |st.at[p]|
  {
    if n == 0 then words else words[st.at[p][n - 1] := Head(st.at[q])]
  }

  lemma TakenChain(words: map<nat, nat>, xs: seq<nat>, n: nat)
    requires Ch.Chain(words, Head(xs), xs, 0) && n <= |xs|
    ensures Ch.Chain(words, Ch.At(xs[..n], 0, Ch.At(xs, n, 0)), xs[..n], Ch.At(xs, n, 0))
    ensures Ch.Chain(words, Head(xs[n..]), xs[n..], 0)
  {
    Ch.ChainSuffix(words, Head(xs), xs, 0, n);
    forall i | 0 <= i < n ensures Ch.Link(words, xs[..n], i, Ch.At(xs, n, 0)) {
      assert Ch.Link(words, xs, i, 0);
    }
  }

  /** The two lists a move changes. */
  lemma MoveChains(words: map<nat, nat>, xs: seq<nat>, n: nat, ys: seq<nat>)
    requires Ch.Chain(words, Head(xs), xs, 0) && Ch.Chain(words, Head(ys), ys, 0)
    requires 1 <= n <= |xs| && NoDup(xs) && forall a :: a in xs ==> a !in ys
    ensures var w := words[xs[n - 1] := Head(ys)];
      Ch.Chain(w, Head(xs[n..]), xs[n..], 0) && Ch.Chain(w, Head(xs[..n] + ys), xs[..n] + ys, 0)
  {
    hide Ch.Chain;
    var w := words[xs[n - 1] := Head(ys)];
    TakenChain(words, xs, n);
    TakenFacts(xs, n);
    Ch.ChainFrame(words, w, Head(xs[n..]), xs[n..], 0);
    Ch.ChainJoin(words, xs[0], xs[..n], Ch.At(xs, n, 0), Head(ys), ys);
  }

  lemma TakenFacts(xs: seq<nat>, n: nat)
    requires 1 <= n <= |xs| && NoDup(xs)
    ensures NoDup(xs[..n]) && xs[n - 1] !in xs[n..] && (forall a :: a in xs[..n] ==> a in xs)
    ensures xs[..n][n - 1] == xs[n - 1] && xs[n - 1] in xs
  {
  }

  /** Two lists have no object in common. */
  lemma ListsApart<S>(st: Store<S>, p: Place<S>, q: Place<S>)
    requires Arranged(st) && p in st.at && q in st.at && p != q
    ensures NoDup(st.at[p]) && forall a :: a in st.at[p] ==> a !in st.at[q]
  {
    assert Placed(st.where, st.at[p], p) && Placed(st.where, st.at[q], q);
  }

  lemma NoDupList<S>(st: Store<S>, p: Place<S>)
    requires Arranged(st) && p in st.at
    ensures NoDup(st.at[p])
  {
    assert Placed(st.where, st.at[p], p);
  }

  lemma MoveThreaded<S>(words: map<nat, nat>, st: Store<S>, p: Place<S>, n: nat, q: Place<S>)
    requires Arranged(st) && p in st.at && q in st.at && p != q && n <= |st.at[p]| && Threaded(words, st.at)
    ensures Threaded(MoveWords(words, st, p, n, q), MoveFront(st, p, n, q).at)
  {
    hide Arranged, Ch.Chain;
    var w, r := MoveWords(words, st, p, n, q), MoveFront(st, p, n, q);
    if n == 0 {
      assert st.at[p][0..] == st.at[p] && st.at[p][..0] + st.at[q] == st.at[q];
    } else {
      ListsApart(st, p, q);
      MoveChains(words, st.at[p], n, st.at[q]);
      forall o | o in r.at && o != p && o != q ensures Ch.Chain(w, Head(r.at[o]), r.at[o], 0) {
        ListsApart(st, p, o);
        Ch.ChainFrame(words, w, Head(st.at[o]), st.at[o], 0);
      }
    }
  }

  lemma TailThreaded<S>(words: map<nat, nat>, st: Store<S>, p: Place<S>, i: nat)
    requires p in st.at && |st.at[p]| > 0 && Threaded(words, st.at)
    ensures Threaded(words, ToHeld(st, p, i).at)
  {
    hide Ch.Chain;
    TakenChain(words, st.at[p], 1);
  }

  lemma PushThreaded<S>(words: map<nat, nat>, st: Store<S>, a: nat, q: Place<S>)
    requires Arranged(st) && a in st.held && q in st.at && a != 0 && Threaded(words, st.at)
    ensures Threaded(words[a := Head(st.at[q])], FromHeld(st, a, q).at)
  {
    hide Arranged, Ch.Chain;
    var w, r := words[a := Head(st.at[q])], FromHeld(st, a, q);
    OneObject(words, a);
    HeldIsNowhereElse(st, a, q);
    Ch.ChainJoin(words, a, [a], Ch.Word(words, a), Head(st.at[q]), st.at[q]);
    forall o | o in r.at && o != q ensures Ch.Chain(w, Head(r.at[o]), r.at[o], 0) {
      HeldIsNowhereElse(st, a, o);
      Ch.ChainFrame(words, w, Head(st.at[o]), st.at[o], 0);
    }
  }

  lemma OneObject(words: map<nat, nat>, a: nat)
    requires a != 0
    ensures Ch.Chain(words, a, [a], Ch.Word(words, a)) && NoDup([a])
  {
    assert Ch.Link(words, [a], 0, Ch.Word(words, a));
  }

  // ----- carving -----

  /** The words after k objects have been linked; the last object's word is not written. */
  function CutWords(words: map<nat, nat>, objs: seq<nat>, k: nat): map<nat, nat>
    requires k <= |objs|
  {
    if k <= 1 then words else CutWords(words, objs, k - 1)[objs[k - 2] := objs[k - 1]]
  }

  lemma {:induction false} CutLinks(words: map<nat, nat>, objs: seq<nat>, k: nat)
    requires 1 <= k <= |objs| && NoDup(objs)
    ensures Ch.Linked(words, CutWords(words, objs, k), objs, k)
  {
    if k > 1 {
      CutLinks(words, objs, k - 1);
      Ch.LinkOne(words, CutWords(words, objs, k - 1), objs, k - 1);
    }
  }

  /** A list of new objects, none of them on a list: the chain ends where the last object's word led. */
  lemma CutChain(words: map<nat, nat>, objs: seq<nat>)
    requires |objs| > 0 && NoDup(objs) && forall a :: a in objs ==> a != 0
    ensures var w := CutWords(words, objs, |objs|);
      && Ch.Chain(w, objs[0], objs, Ch.Word(words, objs[|objs| - 1]))
      && forall x :: x !in objs ==> Ch.Word(w, x) == Ch.Word(words, x)
  {
    CutLinks(words, objs, |objs|);
    Ch.LinkedIsChain(words, CutWords(words, objs, |objs|), objs);
  }

  lemma CutThreaded<S>(words: map<nat, nat>, st: Store<S>, p: Place<S>, objs: seq<nat>)
    requires Arranged(st) && p !in st.at && Threaded(words, st.at) && |objs| > 0 && NoDup(objs)
    requires forall a :: a in objs ==> a != 0 && a !in st.where
    requires Ch.Word(words, objs[|objs| - 1]) == 0
    ensures Threaded(CutWords(words, objs, |objs|), NewPlace(st, p, objs).at)
  {
    hide Arranged, Ch.Chain, CutWords;
    var w, r := CutWords(words, objs, |objs|), NewPlace(st, p, objs);
    CutChain(words, objs);
    forall o | o in r.at && o != p ensures Ch.Chain(w, Head(r.at[o]), r.at[o], 0) {
      ListedIsKnown(st, o);
      Ch.ChainFrame(words, w, Head(st.at[o]), st.at[o], 0);
    }
  }

  // ----- what each step does to the words -----

  ghost function FetchWords<S>(m: Pool<S>, t: nat, batch: nat, s: S, words: map<nat, nat>): map<nat, nat>
    requires InSpan(s) in m.store.at && InFlight(t) in m.store.at
  {
    MoveWords(words, m.store, InSpan(s), Min(batch, |m.store.at[InSpan(s)]|), InFlight(t))
  }

  ghost function FindWords<S>(m: Pool<S>, t: nat, words: map<nat, nat>): map<nat, nat>
    requires Good(m) && CanTake(m, Find(t))
  {
    hide Good, IsFirstFree, SomeFree, FirstFree;
    Facts(m, t);
    var pc := m.threads[t].pc;
    if SomeFree(m, pc.i) then
      FoundFacts(m, pc.i, FirstFree(m, pc.i));
      FetchWords(m, t, pc.batch, m.buckets[pc.i][FirstFree(m, pc.i)], words)
    else words
  }

  ghost function AttachWords<S>(m: Pool<S>, t: nat, words: map<nat, nat>): map<nat, nat>
    requires Good(m) && CanTake(m, Attach(t))
  {
    hide Good;
    Facts(m, t);
    ReadyFacts(m, t);
    FetchWords(m, t, m.threads[t].pc.batch, m.threads[t].pc.s, words)
  }

  /** The objects of the span a thread is about to carve. */
  ghost function ToCarve<S>(m: Pool<S>, t: nat): (objs: seq<nat>)
    requires Good(m) && CanTake(m, Step.Carve(t))
    ensures |objs| > 0
  {
    hide Good;
    HaveFacts(m, t);
    var s, i := m.threads[t].pc.s, m.threads[t].pc.i;
    ObjsFacts(m.pages.spans[s], i);
    PageCountOk(i);
    Objs(m.pages.spans[s], i)
  }

  /** The thread's list after an object was handed to the caller, and the words after the others were put on it. */
  ghost function DeliverWords<S>(m: Pool<S>, t: nat, words: map<nat, nat>): map<nat, nat>
    requires Good(m) && CanTake(m, Deliver(t))
  {
    hide Good;
    Facts(m, t);
    FetchedFacts(m, t);
    var i := m.threads[t].pc.i;
    var st := ToHeld(m.store, InFlight(t), i);
    MoveWords(words, st, InFlight(t), |st.at[InFlight(t)]|, InThread(t, i))
  }

  ghost function FreeWords<S>(m: Pool<S>, t: nat, a: nat, size: nat, words: map<nat, nat>): map<nat, nat>
    requires Good(m) && CanTake(m, Free(t, a, size))
  {
    hide Good;
    Facts(m, t);
    var i := Bucket(size);
    var pushed := words[a := Head(m.store.at[InThread(t, i)])];
    if m.threads[t].size[i] + 1 >= m.threads[t].maxSize[i] then
      MoveWords(pushed, FromHeld(m.store, a, InThread(t, i)), InThread(t, i), m.threads[t].maxSize[i], InFlight(t))
    else pushed
  }

  ghost function DrainWords<S>(m: Pool<S>, t: nat, words: map<nat, nat>): map<nat, nat>
    requires Good(m) && CanTake(m, Drain(t))
  {
    hide Good;
    Facts(m, t);
    FlightFacts(m, t);
    Lookup(m, m.store.at[InFlight(t)][0]);
    MoveWords(words, m.store, InFlight(t), 1, InSpan(m.pages.tags[m.store.at[InFlight(t)][0] / PAGE]))
  }

  ghost function StepWords<S>(m: Pool<S>, step: Step<S>, words: map<nat, nat>): map<nat, nat>
    requires Good(m) && CanTake(m, step)
  {
    hide Good;
    match step
    case Find(t) => FindWords(m, t, words)
    case Attach(t) => AttachWords(m, t, words)
    case Carve(t) => CutWords(words, ToCarve(m, t), |ToCarve(m, t)|)
    case Deliver(t) => DeliverWords(m, t, words)
    case Free(t, a, size) => FreeWords(m, t, a, size, words)
    case Drain(t) => DrainWords(m, t, words)
    case _ => words
  }

  // ----- the machine -----

  /** A span may be cut when the word of its last object is null: the loop that links the objects leaves that word
      as it finds it.  A caller writes inside the object it holds, in memory obtained from the system, and not onto the
      first word of another object (see OverlapRun for when that could happen). */
  ghost predicate Allowed<S>(x: Machine<S>, act: Act<S>)
    requires Good(x.pool)
  {
    hide Good;
    match act
    case Do(step) =>
      CanTake(x.pool, step) &&
      (step.Carve? ==> var objs := ToCarve(x.pool, step.t); Ch.Word(x.words, objs[|objs| - 1]) == 0)
    case Write(a, p, v) =>
      && a in x.pool.store.held && a <= p < a + Size(x.pool.store.held[a]) && p / PAGE in x.pool.pages.owned
      && (p == a || p !in x.pool.store.where)
  }

  ghost function After<S>(x: Machine<S>, act: Act<S>): Machine<S>
    requires Good(x.pool) && Allowed(x, act)
  {
    hide Good;
    match act
    case Do(step) => Machine(Next(x.pool, step), StepWords(x.pool, step, x.words))
    case Write(a, p, v) => x.(words := x.words[p := v])
  }

  /** Words have been written only in pages obtained from the system. */
  ghost predicate Within(words: map<nat, nat>, owned: set<nat>) {
    forall p :: p in words ==> p / PAGE in owned
  }

  /** The pool is sound, its lists are what the words say, and memory not yet obtained is untouched. */
  ghost predicate Right<S>(x: Machine<S>) {
    Good(x.pool) && Threaded(x.words, x.pool.store.at) && Within(x.words, x.pool.pages.owned)
  }

  ghost function Start<S>(): Machine<S> { Machine(Initial(), map[]) }

  lemma StartIsRight<S>()
    ensures Right(Start<S>())
  {
    hide Good;
    InitialIsSound<S>();
  }

  // ----- every step keeps the lists threaded -----

  lemma FetchThreaded<S>(m: Pool<S>, t: nat, batch: nat, s: S, words: map<nat, nat>)
    requires Arranged(m.store) && InSpan(s) in m.store.at && InFlight(t) in m.store.at && Threaded(words, m.store.at)
    ensures Threaded(FetchWords(m, t, batch, s, words),
                     MoveFront(m.store, InSpan(s), Min(batch, |m.store.at[InSpan(s)]|), InFlight(t)).at)
  {
    hide Arranged, Threaded;
    MoveThreaded(words, m.store, InSpan(s), Min(batch, |m.store.at[InSpan(s)]|), InFlight(t));
  }

  lemma FindThreaded<S>(m: Pool<S>, t: nat, words: map<nat, nat>)
    requires Good(m) && CanTake(m, Find(t)) && Threaded(words, m.store.at)
    ensures Threaded(FindWords(m, t, words), NextFind(m, t).store.at)
  {
    hide Pages.Inv, Arranged, Domain, Spans, Counts, Roles, Owners, Threads, Locks, IsFirstFree, SomeFree, FirstFree,
         Threaded, FetchWords;
    Facts(m, t);
    var pc := m.threads[t].pc;
    if SomeFree(m, pc.i) {
      FoundFacts(m, pc.i, FirstFree(m, pc.i));
      FetchThreaded(m, t, pc.batch, m.buckets[pc.i][FirstFree(m, pc.i)], words);
    }
  }

  lemma AttachThreaded<S>(m: Pool<S>, t: nat, words: map<nat, nat>)
    requires Good(m) && CanTake(m, Attach(t)) && Threaded(words, m.store.at)
    ensures Threaded(AttachWords(m, t, words), NextAttach(m, t).store.at)
  {
    hide Pages.Inv, Arranged, Domain, Spans, Counts, Roles, Owners, Threads, Locks, Threaded, FetchWords;
    Facts(m, t);
    ReadyFacts(m, t);
    FetchThreaded(m, t, m.threads[t].pc.batch, m.threads[t].pc.s, words);
  }

  lemma CarveObjects<S>(m: Pool<S>, t: nat)
    requires Good(m) && CanTake(m, Step.Carve(t))
    ensures var objs := ToCarve(m, t);
      && NoDup(objs) && (forall a :: a in objs ==> a != 0 && a !in m.store.where && a / PAGE in m.pages.owned)
      && InSpan(m.threads[t].pc.s) !in m.store.at
  {
    hide Arranged, Domain, Spans, Counts, Roles, Owners, Threads, Locks, Objs, NewPlace, Obj, Listed, Tagged,
         Disjoint;
    HaveFacts(m, t);
    CarveStore(m, t);
    var s, i := m.threads[t].pc.s, m.threads[t].pc.i;
    ObjsFacts(m.pages.spans[s], i);
    forall a | a in ToCarve(m, t) ensures a != 0 && a / PAGE in m.pages.owned {
      ObjOwned(m.pages, s, i, a);
    }
  }

  lemma ObjOwned<S>(pages: Pages.State<S>, s: S, i: nat, a: nat)
    requires Pages.Inv(pages) && s in pages.spans && Obj(pages.spans[s], i, a)
    ensures a != 0 && a / PAGE in pages.owned
  {
    hide Listed, Tagged, Pages.Held;
    ObjPage(pages.spans[s], i, a);
    assert pages.spans[s].page >= 1;
  }

  lemma CarveThreaded<S>(m: Pool<S>, t: nat, words: map<nat, nat>)
    requires Good(m) && CanTake(m, Step.Carve(t)) && Threaded(words, m.store.at)
    requires var objs := ToCarve(m, t); Ch.Word(words, objs[|objs| - 1]) == 0
    ensures Threaded(CutWords(words, ToCarve(m, t), |ToCarve(m, t)|), NextCarve(m, t).store.at)
  {
    hide Pages.Inv, Arranged, Domain, Spans, Counts, Roles, Owners, Threads, Locks, Objs, NewPlace, Threaded,
         CutWords;
    HaveFacts(m, t);
    CarveObjects(m, t);
    CutThreaded(words, m.store, InSpan(m.threads[t].pc.s), ToCarve(m, t));
  }

  lemma DeliverThreaded<S>(m: Pool<S>, t: nat, words: map<nat, nat>)
    requires Good(m) && CanTake(m, Deliver(t)) && Threaded(words, m.store.at)
    ensures Threaded(DeliverWords(m, t, words), NextDeliver(m, t).store.at)
  {
    hide Pages.Inv, Arranged, Domain, Spans, Counts, Roles, Owners, Threads, Locks, Threaded, MoveWords, Relocate;
    Facts(m, t);
    FetchedFacts(m, t);
    var i := m.threads[t].pc.i;
    var st := ToHeld(m.store, InFlight(t), i);
    ToHeldKeeps(m.store, InFlight(t), i);
    TailThreaded(words, m.store, InFlight(t), i);
    MoveThreaded(words, st, InFlight(t), |st.at[InFlight(t)]|, InThread(t, i));
  }

  lemma FreeThreaded<S>(m: Pool<S>, t: nat, a: nat, size: nat, words: map<nat, nat>)
    requires Good(m) && CanTake(m, Free(t, a, size)) && Threaded(words, m.store.at)
    ensures Threaded(FreeWords(m, t, a, size, words), NextFree(m, t, a, size).store.at)
  {
    hide Pages.Inv, Arranged, Domain, Spans, Counts, Roles, Owners, Threads, Locks, Threaded, MoveWords, Relocate,
         FromHeld, MoveFront;
    Facts(m, t);
    var i := Bucket(size);
    HeldNotNull(m, a);
    FromHeldKeeps(m.store, a, InThread(t, i));
    FromHeldKnown(m.store, a, InThread(t, i));
    PushThreaded(words, m.store, a, InThread(t, i));
    if m.threads[t].size[i] + 1 >= m.threads[t].maxSize[i] {
      ThreadsOk(m, t);
      assert ListOk(m, t, i);
      PushedSize(m.store, a, InThread(t, i));
      MoveThreaded(words[a := Head(m.store.at[InThread(t, i)])], FromHeld(m.store, a, InThread(t, i)), InThread(t, i),
                   m.threads[t].maxSize[i], InFlight(t));
    }
  }

  lemma HeldNotNull<S>(m: Pool<S>, a: nat)
    requires Good(m) && (a in m.store.held || a in m.store.where)
    ensures a != 0 && a / PAGE in m.pages.owned && a in m.store.where
  {
    hide Domain, Counts, Roles, Threads, Locks, PlaceFits, Obj, Disjoint, Covers, Listed, Tagged, Complete;
    if a in m.store.held {
      HeldHere(m.store, a);
    }
    assert OwnerOk(m, a);
    ObjOwned(m.pages, m.owner[a], m.carved[m.owner[a]].cls, a);
  }

  lemma DrainThreaded<S>(m: Pool<S>, t: nat, words: map<nat, nat>)
    requires Good(m) && CanTake(m, Drain(t)) && Threaded(words, m.store.at)
    ensures Threaded(DrainWords(m, t, words), NextDrain(m, t).store.at)
  {
    hide Pages.Inv, Arranged, Domain, Spans, Counts, Roles, Owners, Threads, Locks, Threaded, MoveWords, MoveFront;
    Facts(m, t);
    FlightFacts(m, t);
    Lookup(m, m.store.at[InFlight(t)][0]);
    var s := m.pages.tags[m.store.at[InFlight(t)][0] / PAGE];
    MoveThreaded(words, m.store, InFlight(t), 1, InSpan(s));
    LessThreaded(DrainWords(m, t, words), MoveFront(m.store, InFlight(t), 1, InSpan(s)).at, NextDrain(m, t).store.at);
  }

  lemma LessThreaded<S>(words: map<nat, nat>, at: map<Place<S>, seq<nat>>, less: map<Place<S>, seq<nat>>)
    requires Threaded(words, at) && forall p :: p in less ==> p in at && less[p] == at[p]
    ensures Threaded(words, less)
  {
  }

  lemma HitThreaded<S>(m: Pool<S>, t: nat, size: nat, words: map<nat, nat>)
    requires Good(m) && CanTake(m, Hit(t, size)) && Threaded(words, m.store.at)
    ensures Threaded(words, NextHit(m, t, size).store.at)
  {
    hide Pages.Inv, Arranged, Domain, Spans, Counts, Roles, Owners, Threads, Locks, Threaded;
    Facts(m, t);
    TailThreaded(words, m.store, InThread(t, Bucket(size)), Bucket(size));
  }

  lemma SpawnThreaded<S>(m: Pool<S>, t: nat, words: map<nat, nat>)
    requires Threaded(words, m.store.at)
    ensures Threaded(words, DoSpawn(m, t).store.at)
  {
    hide Places;
    var n := DoSpawn(m, t);
    forall p | p in n.store.at ensures Ch.Chain(words, Head(n.store.at[p]), n.store.at[p], 0) {
      assert p in m.store.at ==> Ch.Chain(words, Head(m.store.at[p]), m.store.at[p], 0);
    }
  }

  /** The steps under a lock that touch no list. */
  lemma SameStore<S>(m: Pool<S>, step: Step<S>)
    requires Good(m) && CanTake(m, step)
    requires (step.Miss? || step.Acquire? || step.Lock? || step.Unlock? || step.GiveBack?)
    ensures Next(m, step).store == m.store
  {
    hide Pages.Inv, Arranged, Domain, Spans, Counts, Roles, Owners, Threads, Locks, NewSpan, Release;
    Facts(m, step.t);
  }

  lemma StepThreaded<S>(x: Machine<S>, step: Step<S>)
    requires Right(x) && Allowed(x, Do(step))
    ensures Threaded(After(x, Do(step)).words, After(x, Do(step)).pool.store.at)
  {
    hide Good, Threaded, NextHit, NextMiss, NextFind, NextAcquire, NextCarve, NextAttach, NextDeliver, NextFree,
         NextDrain, NextGiveBack;
    hide DoSpawn, FindWords, AttachWords, DeliverWords, FreeWords, DrainWords, CutWords, ToCarve;
    var m, words := x.pool, x.words;
    match step
    case Spawn(t) => SpawnThreaded(m, t, words);
    case Hit(t, size) => HitThreaded(m, t, size, words);
    case Find(t) => FindThreaded(m, t, words);
    case Carve(t) => CarveThreaded(m, t, words);
    case Attach(t) => AttachThreaded(m, t, words);
    case Deliver(t) => DeliverThreaded(m, t, words);
    case Free(t, a, size) => FreeThreaded(m, t, a, size, words);
    case Drain(t) => DrainThreaded(m, t, words);
    case _ => SameStore(m, step);
  }

  lemma WriteThreaded<S>(x: Machine<S>, a: nat, p: nat, v: nat)
    requires Right(x) && Allowed(x, Write(a, p, v))
    ensures Threaded(x.words[p := v], x.pool.store.at)
  {
    hide Pages.Inv, Arranged, Domain, Spans, Counts, Roles, Owners, Threads, Locks, Ch.Chain;
    forall o | o in x.pool.store.at ensures Ch.Chain(x.words[p := v], Head(x.pool.store.at[o]), x.pool.store.at[o], 0) {
      ListedIsKnown(x.pool.store, o);
      HeldIsNowhereElse(x.pool.store, a, o);
      Ch.ChainFrame(x.words, x.words[p := v], Head(x.pool.store.at[o]), x.pool.store.at[o], 0);
    }
  }

  // ----- which words a step changes -----

  /** Every word a step writes is the first word of an object that is somewhere before the step, or is cut by it. */
  ghost predicate OnlyObjects<S>(m: Pool<S>, step: Step<S>, before: map<nat, nat>, after: map<nat, nat>)
    requires Good(m) && CanTake(m, step)
  {
    forall p: nat :: (p in after ==> p in before || Touches(m, step, p)) &&
      (Ch.Word(after, p) != Ch.Word(before, p) ==> Touches(m, step, p))
  }

  ghost predicate Touches<S>(m: Pool<S>, step: Step<S>, p: nat)
    requires Good(m) && CanTake(m, step)
  {
    p in m.store.where || (step.Carve? && p in ToCarve(m, step.t))
  }

  lemma MoveTouches<S>(words: map<nat, nat>, st: Store<S>, p: Place<S>, n: nat, q: Place<S>)
    requires Arranged(st) && p in st.at && q in st.at && n <= |st.at[p]|
    ensures forall x: nat :: x in MoveWords(words, st, p, n, q) && x !in words ==> x in st.where
    ensures forall x: nat :: Ch.Word(MoveWords(words, st, p, n, q), x) != Ch.Word(words, x) ==> x in st.where
  {
    hide Arranged;
    ListedIsKnown(st, p);
    assert n > 0 ==> st.at[p][n - 1] in st.at[p];
  }

  lemma {:induction false} CutTouches(words: map<nat, nat>, objs: seq<nat>, k: nat)
    requires k <= |objs|
    ensures forall x: nat :: x in CutWords(words, objs, k) && x !in words ==> x in objs
    ensures forall x: nat :: Ch.Word(CutWords(words, objs, k), x) != Ch.Word(words, x) ==> x in objs
  {
    if k > 1 {
      CutTouches(words, objs, k - 1);
    }
  }

  lemma FindTouches<S>(m: Pool<S>, t: nat, words: map<nat, nat>)
    requires Good(m) && CanTake(m, Find(t))
    ensures OnlyObjects(m, Find(t), words, FindWords(m, t, words))
  {
    hide Pages.Inv, Arranged, Domain, Spans, Counts, Roles, Owners, Threads, Locks, IsFirstFree, SomeFree, FirstFree,
         MoveWords;
    Facts(m, t);
    var pc := m.threads[t].pc;
    if SomeFree(m, pc.i) {
      FoundFacts(m, pc.i, FirstFree(m, pc.i));
      var s := m.buckets[pc.i][FirstFree(m, pc.i)];
      MoveTouches(words, m.store, InSpan(s), Min(pc.batch, |m.store.at[InSpan(s)]|), InFlight(t));
    }
  }

  lemma AttachTouches<S>(m: Pool<S>, t: nat, words: map<nat, nat>)
    requires Good(m) && CanTake(m, Attach(t))
    ensures OnlyObjects(m, Attach(t), words, AttachWords(m, t, words))
  {
    hide Pages.Inv, Arranged, Domain, Spans, Counts, Roles, Owners, Threads, Locks, MoveWords;
    Facts(m, t);
    ReadyFacts(m, t);
    var pc := m.threads[t].pc;
    MoveTouches(words, m.store, InSpan(pc.s), Min(pc.batch, |m.store.at[InSpan(pc.s)]|), InFlight(t));
  }

  lemma DeliverTouches<S>(m: Pool<S>, t: nat, words: map<nat, nat>)
    requires Good(m) && CanTake(m, Deliver(t))
    ensures OnlyObjects(m, Deliver(t), words, DeliverWords(m, t, words))
  {
    hide Pages.Inv, Arranged, Domain, Spans, Counts, Roles, Owners, Threads, Locks, MoveWords;
    Facts(m, t);
    FetchedFacts(m, t);
    var i := m.threads[t].pc.i;
    var st := ToHeld(m.store, InFlight(t), i);
    ToHeldKeeps(m.store, InFlight(t), i);
    ListedIsKnown(m.store, InFlight(t));
    MoveTouches(words, st, InFlight(t), |st.at[InFlight(t)]|, InThread(t, i));
    assert forall x :: x in st.where ==> x in m.store.where;
  }

  lemma FreeTouches<S>(m: Pool<S>, t: nat, a: nat, size: nat, words: map<nat, nat>)
    requires Good(m) && CanTake(m, Free(t, a, size))
    ensures OnlyObjects(m, Free(t, a, size), words, FreeWords(m, t, a, size, words))
  {
    hide Pages.Inv, Arranged, Domain, Spans, Counts, Roles, Owners, Threads, Locks, MoveWords, FromHeld;
    Facts(m, t);
    var i := Bucket(size);
    HeldHere(m.store, a);
    FromHeldKeeps(m.store, a, InThread(t, i));
    FromHeldKnown(m.store, a, InThread(t, i));
    PushedSize(m.store, a, InThread(t, i));
    ThreadsOk(m, t);
    assert ListOk(m, t, i);
    if m.threads[t].size[i] + 1 >= m.threads[t].maxSize[i] {
      MoveTouches(words[a := Head(m.store.at[InThread(t, i)])], FromHeld(m.store, a, InThread(t, i)), InThread(t, i),
                  m.threads[t].maxSize[i], InFlight(t));
    }
  }

  lemma DrainTouches<S>(m: Pool<S>, t: nat, words: map<nat, nat>)
    requires Good(m) && CanTake(m, Drain(t))
    ensures OnlyObjects(m, Drain(t), words, DrainWords(m, t, words))
  {
    hide Pages.Inv, Arranged, Domain, Spans, Counts, Roles, Owners, Threads, Locks, MoveWords;
    Facts(m, t);
    FlightFacts(m, t);
    Lookup(m, m.store.at[InFlight(t)][0]);
    MoveTouches(words, m.store, InFlight(t), 1, InSpan(m.pages.tags[m.store.at[InFlight(t)][0] / PAGE]));
  }

  lemma StepTouches<S>(m: Pool<S>, step: Step<S>, words: map<nat, nat>)
    requires Good(m) && CanTake(m, step)
    ensures OnlyObjects(m, step, words, StepWords(m, step, words))
  {
    hide Good, FindWords, AttachWords, DeliverWords, FreeWords, DrainWords, ToCarve;
    match step
    case Find(t) => FindTouches(m, t, words);
    case Carve(t) => CutTouches(words, ToCarve(m, t), |ToCarve(m, t)|);
    case Attach(t) => AttachTouches(m, t, words);
    case Deliver(t) => DeliverTouches(m, t, words);
    case Free(t, a, size) => FreeTouches(m, t, a, size, words);
    case Drain(t) => DrainTouches(m, t, words);
    case _ =>
  }

  /** Pages obtained stay obtained. */
  lemma OwnedGrows<S>(m: Pool<S>, step: Step<S>)
    requires Good(m) && CanTake(m, step)
    ensures m.pages.owned <= Next(m, step).pages.owned
  {
    hide Arranged, Domain, Spans, Counts, Roles, Owners, Threads, Locks, NewSpan, Release, Sound, FreshSpans,
         FirstFree, SomeFree;
    if step.Acquire? {
      Facts(m, step.t);
      PagesFacts(m, m.threads[step.t].pc.i);
      NewSpanOwned(m.pages, SpanPages(m.threads[step.t].pc.i), step.big, step.base, step.kid);
    } else if step.GiveBack? {
      Facts(m, step.t);
      ReturningFacts(m, step.t);
      ReleaseKeeps(m.pages, m.threads[step.t].pc.s);
    }
  }

  lemma StepWithin<S>(x: Machine<S>, step: Step<S>)
    requires Right(x) && Allowed(x, Do(step))
    ensures Within(After(x, Do(step)).words, After(x, Do(step)).pool.pages.owned)
  {
    hide Good, Threaded, StepWords, Next, ToCarve, CanTake;
    StepTouches(x.pool, step, x.words);
    OwnedGrows(x.pool, step);
    if step.Carve? {
      CarveObjects(x.pool, step.t);
    }
    forall p | p in After(x, Do(step)).words ensures p / PAGE in x.pool.pages.owned {
      if p in x.pool.store.where {
        HeldNotNull(x.pool, p);
      }
    }
  }

  lemma AfterKeeps<S>(x: Machine<S>, act: Act<S>)
    requires Right(x) && Allowed(x, act)
    ensures Right(After(x, act))
  {
    hide Good, Threaded, Within, StepWords, Next, ToCarve, CanTake;
    match act
    case Do(step) =>
      NextKeeps(x.pool, step);
      StepThreaded(x, step);
      StepWithin(x, step);
    case Write(a, p, v) =>
      WriteThreaded(x, a, p, v);
      WriteWithin(x.words, x.pool.pages.owned, p, v);
  }

  lemma WriteWithin(words: map<nat, nat>, owned: set<nat>, p: nat, v: nat)
    requires Within(words, owned) && p / PAGE in owned
    ensures Within(words[p := v], owned)
  {
  }

  /** `y` is what `acts`, in any interleaving of threads and callers, make of `x`. */
  ghost predicate Goes<S>(x: Machine<S>, acts: seq<Act<S>>, y: Machine<S>)
    requires Right(x)
    decreases |acts|
  {
    if |acts| == 0 then x == y
    else Allowed(x, acts[0]) && (AfterKeeps(x, acts[0]); Goes(After(x, acts[0]), acts[1..], y))
  }

  lemma {:induction false} GoesKeeps<S>(x: Machine<S>, acts: seq<Act<S>>, y: Machine<S>)
    requires Right(x) && Goes(x, acts, y)
    ensures Right(y)
    decreases |acts|
  {
    hide Good, Threaded, Within, Allowed, After;
    if |acts| > 0 {
      AfterKeeps(x, acts[0]);
      GoesKeeps(After(x, acts[0]), acts[1..], y);
    }
  }
}
