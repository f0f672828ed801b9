/** When a span from the page cache can be cut into a list: the word of its last object is not written by the loop. */
module Recarving {
  import opened Pages
  import opened Stores
  import opened Pools
  import opened PoolProofs
  import opened PoolMemory
  import opened Overlap
  import SC = SizeClass
  import Ch = Chains

  // ----- spans cut for the first time -----

  lemma UntouchedIsZero(words: map<nat, nat>, owned: set<nat>, p: nat)
    requires Within(words, owned) && p / PAGE !in owned
    ensures Ch.Word(words, p) == 0
  {
  }

  lemma NewPages<S>(m: Pool<S>, t: nat, big: S, base: nat, kid: S)
    requires Good(m) && CanTake(m, Step.Acquire(t, big, base, kid))
    requires t in m.threads && !m.threads[t].pc.Idle? && |m.pages.lists| == NPAGES
    requires SpanPages(m.threads[t].pc.i) <= NPAGES && FirstFit(m.pages.lists, SpanPages(m.threads[t].pc.i)) == NPAGES
    ensures var n := NextAcquire(m, t, big, base, kid);
      && t in n.threads && n.threads[t].pc.HaveSpan? && n.threads[t].pc.i == m.threads[t].pc.i
      && n.threads[t].pc.s in n.pages.spans && n.store == m.store
      && forall p :: n.pages.spans[n.threads[t].pc.s].Has(p) ==> p !in m.pages.owned
  {
    hide Arranged, Domain, Spans, Counts, Roles, Threads, Owners, Locks, Sound, NewSpan;
    Facts(m, t);
    var i := m.threads[t].pc.i;
    PagesFacts(m, i);
    var k := SpanPages(i);
    NewSpanKeeps(m.pages, k, big, base, kid);
    NewSpanPage(m.pages, k, big, base, kid);
  }

  /** A span of pages just obtained from the system can be cut. */
  lemma FreshSpanCanBeCut<S>(x: Machine<S>, t: nat, big: S, base: nat, kid: S)
    requires Right(x) && Allowed(x, Do(Step.Acquire(t, big, base, kid)))
    requires t in x.pool.threads && !x.pool.threads[t].pc.Idle? && |x.pool.pages.lists| == NPAGES
    requires SpanPages(x.pool.threads[t].pc.i) <= NPAGES
    requires FirstFit(x.pool.pages.lists, SpanPages(x.pool.threads[t].pc.i)) == NPAGES
    ensures Right(After(x, Do(Step.Acquire(t, big, base, kid))))
    ensures Allowed(After(x, Do(Step.Acquire(t, big, base, kid))), Do(Step.Carve(t)))
  {
    hide Good, Threaded, Within, NextAcquire, Obj;
    var act := Do(Step.Acquire(t, big, base, kid));
    AfterKeeps(x, act);
    NewPages(x.pool, t, big, base, kid);
    var y := After(x, act);
    var objs := ToCarve(y.pool, t);
    var s, i := y.pool.threads[t].pc.s, y.pool.threads[t].pc.i;
    HaveFacts(y.pool, t);
    ObjsFacts(y.pool.pages.spans[s], i);
    var last := objs[|objs| - 1];
    assert last in objs;
    ObjPage(y.pool.pages.spans[s], i, last);
    UntouchedIsZero(x.words, x.pool.pages.owned, last);
  }

  // ----- spans that come back -----

  lemma ListWord(words: map<nat, nat>, xs: seq<nat>, a: nat)
    requires Ch.Chain(words, Head(xs), xs, 0) && NoDup(xs) && a in xs
    ensures Ch.Word(words, a) == 0 <==> xs[|xs| - 1] == a
    ensures Ch.Word(words, a) != 0 ==> Ch.Word(words, a) in xs
  {
    var k :| 0 <= k < |xs| && xs[k] == a;
    assert Ch.Link(words, xs, k, 0);
    if k + 1 < |xs| {
      assert Ch.Link(words, xs, k + 1, 0);
    }
  }

  /** Thread t drains the last object of span s that was out. */
  ghost predicate Empties<S>(x: Machine<S>, t: nat, s: S) {
    && Right(x) && Allowed(x, Do(Drain(t))) && s in x.pool.carved && s in x.pool.pages.spans
    && s !in After(x, Do(Drain(t))).pool.carved
    && t in x.pool.threads && InFlight(t) in x.pool.store.at && |x.pool.store.at[InFlight(t)]| > 0 &&
         InSpan(s) in x.pool.store.at
  }

  /** The free list of the span with its last object put in front. */
  ghost function FullList<S>(x: Machine<S>, t: nat, s: S): seq<nat>
    requires Empties(x, t, s)
  {
    [x.pool.store.at[InFlight(t)][0]] + x.pool.store.at[InSpan(s)]
  }

  ghost function ObjectsOf<S>(m: Pool<S>, s: S): seq<nat>
    requires s in m.carved && s in m.pages.spans
  {
    Objs(m.pages.spans[s], m.carved[s].cls)
  }

  lemma FullChain<S>(x: Machine<S>, t: nat, s: S)
    requires Empties(x, t, s)
    ensures var xs, w := FullList(x, t, s), After(x, Do(Drain(t))).words;
      && Ch.Chain(w, Head(xs), xs, 0) && NoDup(xs)
      && |ObjectsOf(x.pool, s)| > 0 && (forall a :: a in ObjectsOf(x.pool, s) <==> a in xs)
  {
    hide Pages.Inv, Arranged, Domain, Spans, Counts, Roles, Owners, Threads, Locks, Threaded, Within, MoveWords,
         MoveFront, Total, Objs, Obj, Ch.Chain;
    var m := x.pool;
    Facts(m, t);
    var a, r := DrainFacts(m, t);
    PutKeeps(m, t, r);
    PutCounts(m, t, r);
    PutStore(m, t, r);
    var m1 := DoPutBack(m, t, r);
    SpanContents(m1, r);
    MoveThreaded(x.words, m.store, InFlight(t), 1, InSpan(r));
    ThreadedAt(DrainWords(m, t, x.words), m1.store.at, InSpan(r));
    NoDupList(m1.store, InSpan(r));
    FullSpan(m, r);
  }

  lemma FullSpan<S>(m: Pool<S>, s: S)
    requires Good(m) && s in m.carved
    ensures s in m.pages.spans && |ObjectsOf(m, s)| > 0
    ensures forall a: nat :: a in ObjectsOf(m, s) <==> Obj(m.pages.spans[s], m.carved[s].cls, a)
  {
    hide Pages.Inv, Arranged, Domain, Counts, Roles, Owners, Threads, Locks, Objs, Obj;
    ObjsFacts(m.pages.spans[s], m.carved[s].cls);
    PageCountOk(m.carved[s].cls);
  }

  /** When the last object of a span is put back, the word of the span's last object is null exactly if that object
      is at the end of the free list, that is, if it was the one put onto the empty list.  Otherwise the word leads to
      another object of the same span. */
  lemma LastWordWhenReturned<S>(x: Machine<S>, t: nat, s: S)
    requires Empties(x, t, s)
    ensures var objs, xs, w := ObjectsOf(x.pool, s), FullList(x, t, s), After(x, Do(Drain(t))).words;
      && |objs| > 0
      && var last := objs[|objs| - 1];
         && (Ch.Word(w, last) == 0 <==> xs[|xs| - 1] == last)
         && (Ch.Word(w, last) != 0 ==> Ch.Word(w, last) in objs)
  {
    hide Good, Threaded, Within, Allowed, After, FullList, Objs, Ch.Chain, NoDup;
    FullChain(x, t, s);
    var objs := ObjectsOf(x.pool, s);
    ListWord(After(x, Do(Drain(t))).words, FullList(x, t, s), objs[|objs| - 1]);
  }

  // ----- pages nobody uses -----

  /** Page p lies in a span that is cut into objects. */
  ghost predicate PageUsed<S>(m: Pool<S>, p: nat) {
    exists s :: s in m.carved && s in m.pages.spans && m.pages.spans[s].Has(p)
  }

  /** Throughout the run the page of address p is in no span that is cut, and no caller writes at p. */
  ghost predicate Rests<S>(x: Machine<S>, acts: seq<Act<S>>, p: nat)
    requires Right(x)
    decreases |acts|
  {
    && !PageUsed(x.pool, p / PAGE)
    && (|acts| > 0 ==>
          && Allowed(x, acts[0]) && (acts[0].Write? ==> acts[0].p != p)
          && (AfterKeeps(x, acts[0]); Rests(After(x, acts[0]), acts[1..], p)))
  }

  lemma ObjectUsesPage<S>(m: Pool<S>, a: nat)
    requires Good(m) && a in m.store.where
    ensures PageUsed(m, a / PAGE)
  {
    hide Pages.Inv, Arranged, Domain, Spans, Counts, Roles, Threads, Locks, OwnerOk, Obj;
    assert a in m.owner;
    assert OwnerOk(m, a) by {
      assert Owners(m);
    }
    UsesPage(m, a);
  }

  lemma UsesPage<S>(m: Pool<S>, a: nat)
    requires a in m.owner && a in m.store.where && OwnerOk(m, a)
    ensures PageUsed(m, a / PAGE)
  {
    ObjPage(m.pages.spans[m.owner[a]], m.carved[m.owner[a]].cls, a);
  }

  lemma CutUsesPage<S>(m: Pool<S>, t: nat, a: nat)
    requires Good(m) && CanTake(m, Step.Carve(t)) && a in ToCarve(m, t)
    ensures PageUsed(NextCarve(m, t), a / PAGE)
  {
    hide Pages.Inv, Arranged, Domain, Spans, Counts, Roles, Threads, Owners, Locks, Objs, Obj, Complete;
    HaveFacts(m, t);
    var s, i := m.threads[t].pc.s, m.threads[t].pc.i;
    ObjsFacts(m.pages.spans[s], i);
    ObjPage(m.pages.spans[s], i, a);
    assert s in NextCarve(m, t).carved;
  }

  /** No step writes into a page that is in no cut span before and after it. */
  lemma StepRests<S>(x: Machine<S>, step: Step<S>, p: nat)
    requires Right(x) && Allowed(x, Do(step)) && !PageUsed(x.pool, p / PAGE)
    requires !PageUsed(After(x, Do(step)).pool, p / PAGE)
    ensures Ch.Word(After(x, Do(step)).words, p) == Ch.Word(x.words, p)
  {
    hide Good, Threaded, Within, StepWords, NextCarve, ToCarve, CanTake, PageUsed;
    StepTouches(x.pool, step, x.words);
    if p in x.pool.store.where {
      ObjectUsesPage(x.pool, p);
    } else if step.Carve? && p in ToCarve(x.pool, step.t) {
      CutUsesPage(x.pool, step.t, p);
    }
  }

  /** Words of pages that have been returned stay as they are until the pages are used again. */
  lemma {:induction false} WordRests<S>(x: Machine<S>, acts: seq<Act<S>>, z: Machine<S>, p: nat)
    requires Right(x) && Goes(x, acts, z) && Rests(x, acts, p)
    ensures Ch.Word(z.words, p) == Ch.Word(x.words, p)
    decreases |acts|
  {
    hide Good, Threaded, Within, Allowed, After, PageUsed;
    if |acts| > 0 {
      AfterKeeps(x, acts[0]);
      ActRests(x, acts[0], p);
      WordRests(After(x, acts[0]), acts[1..], z, p);
    }
  }

  lemma ActRests<S>(x: Machine<S>, act: Act<S>, p: nat)
    requires Right(x) && Allowed(x, act) && !PageUsed(x.pool, p / PAGE) && !PageUsed(After(x, act).pool, p / PAGE)
    requires act.Write? ==> act.p != p
    ensures Ch.Word(After(x, act).words, p) == Ch.Word(x.words, p)
  {
    hide Right, PageUsed;
    if act.Do? {
      StepRests(x, act.step, p);
    }
  }

  /** The only callers that can write there are those with an object that runs over the end of its span. */
  lemma OnlyMisfitsReachThere<S>(x: Machine<S>, a: nat, p: nat, v: nat)
    requires Right(x) && Allowed(x, Write(a, p, v)) && !PageUsed(x.pool, p / PAGE)
    ensures a in x.pool.store.held && !Fits(x.pool.store.held[a])
  {
    hide Pages.Inv, Domain, Spans, Counts, Roles, Threads, Locks, Threaded, Within, Obj, Fits, Size, SpanPages;
    var m := x.pool;
    HeldHere(m.store, a);
    assert OwnerOk(m, a);
    OwnerFacts(m, a);
    var g, i := m.pages.spans[m.owner[a]], m.carved[m.owner[a]].cls;
    ObjectEnds(g, i, a);
    ObjPage(g, i, a);
    if Fits(i) {
      Inside(g, a, p, Size(i));
    }
  }

  lemma Inside(g: Geo, a: nat, p: nat, size: nat)
    requires g.page * PAGE <= a <= p < a + size <= (g.page + g.n) * PAGE
    ensures g.Has(p / PAGE)
  {
  }

  // ----- cutting such pages again -----

  /** Thread t puts back the last object of span s.  Later thread u is about to cut a span, of whatever size and for
      whatever bucket, whose last object lies in a page of s that has not been used in between. */
  ghost predicate CutsAgain<S>(x: Machine<S>, t: nat, s: S, acts: seq<Act<S>>, z: Machine<S>, u: nat) {
    && Empties(x, t, s) && Right(z) && CanTake(z.pool, Step.Carve(u))
    && (AfterKeeps(x, Do(Drain(t)));
        var y, objs := After(x, Do(Drain(t))), ToCarve(z.pool, u);
        var last := objs[|objs| - 1];
        Goes(y, acts, z) && x.pool.pages.spans[s].Has(last / PAGE) && Rests(y, acts, last))
  }

  /** Then the cut gives a list exactly if the last object of the new cut was the one put onto the empty free list
      of s, or no object of s began there and the word is null.  If it was another object of s, its word leads to an
      object of s; and if that is one of the new objects too, the walk FetchRangeObj makes from the head of the new
      list never comes to null, and it hands some object out a second time. */
  lemma CutAgainExactly<S>(x: Machine<S>, t: nat, s: S, acts: seq<Act<S>>, z: Machine<S>, u: nat)
    requires CutsAgain(x, t, s, acts, z, u)
    ensures var objs, xs := ToCarve(z.pool, u), FullList(x, t, s);
      var last, w := objs[|objs| - 1], CutWords(z.words, objs, |objs|);
      var next := Ch.Word(z.words, last);
      && (Allowed(z, Do(Step.Carve(u))) <==>
            if last in ObjectsOf(x.pool, s) then xs[|xs| - 1] == last
            else Ch.Word(After(x, Do(Drain(t))).words, last) == 0)
      && (Allowed(z, Do(Step.Carve(u))) <==> Ch.Chain(w, objs[0], objs, 0))
      && (last in ObjectsOf(x.pool, s) && xs[|xs| - 1] != last ==> next in ObjectsOf(x.pool, s))
      && (next in objs ==> forall ys :: !Ch.Chain(w, objs[0], ys, 0))
      && (next in objs ==> exists j :: 0 <= j < |objs| && Ch.Visit(w, objs[0], j) == Ch.Visit(w, objs[0], |objs|))
  {
    hide Good, Threaded, Within, After, FullList, Objs, CutWords, Ch.Chain, ToCarve, CanTake, Allowed, NoDup, Rests,
         Goes;
    var y := After(x, Do(Drain(t)));
    var objs, xs := ToCarve(z.pool, u), FullList(x, t, s);
    var last := objs[|objs| - 1];
    AfterKeeps(x, Do(Drain(t)));
    FullChain(x, t, s);
    CarveAllowed(z, u);
    WordRests(y, acts, z, last);
    CarveObjects(z.pool, u);
    CutChain(z.words, objs);
    CutEnds(z.words, objs);
    if last in ObjectsOf(x.pool, s) {
      ListWord(y.words, xs, last);
    }
    if Ch.Word(z.words, last) in objs {
      Ch.NeverNull(CutWords(z.words, objs, |objs|), objs[0], objs, Ch.Word(z.words, last));
    }
  }

  lemma CarveAllowed<S>(z: Machine<S>, u: nat)
    requires Good(z.pool) && CanTake(z.pool, Step.Carve(u))
    ensures var objs := ToCarve(z.pool, u); Allowed(z, Do(Step.Carve(u))) <==> Ch.Word(z.words, objs[|objs| - 1]) == 0
  {
    hide Good, CanTake, ToCarve;
  }

  lemma CutEnds(words: map<nat, nat>, objs: seq<nat>)
    requires |objs| > 0 && NoDup(objs) && forall a :: a in objs ==> a != 0
    ensures var w := CutWords(words, objs, |objs|);
      Ch.Chain(w, objs[0], objs, 0) <==> Ch.Word(words, objs[|objs| - 1]) == 0
  {
    hide CutWords;
    CutChain(words, objs);
    var w, n := CutWords(words, objs, |objs|), |objs|;
    assert Ch.Link(w, objs, n - 1, Ch.Word(words, objs[n - 1]));
    if Ch.Chain(w, objs[0], objs, 0) {
      assert Ch.Link(w, objs, n - 1, 0);
    }
  }

  /** For example: 1024-byte and 2048-byte objects both use spans of 64 pages.  The last object of a span cut for
      the larger size is not the last one of the span cut for the smaller size, but the one before it. */
  lemma OtherLast(base: nat)
    ensures var k := 64 * PAGE;
      var small, large := Ch.Objects(base, k, 1024), Ch.Objects(base, k, 2048);
      && |small| == 256 && |large| == 128
      && large[127] == small[254] != small[255]
    ensures SC.NumMovePage(1024) == SC.NumMovePage(2048) == 64
  {
  }
}
