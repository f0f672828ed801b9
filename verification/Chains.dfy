/** Intrusive lists: free objects are chained through their own first word. */
module Chains {
  import opened Pages

  /** The first word of every address; a word never written is zero, as on pages fresh from the system. */
  class Memory {
    var words: map<nat, nat>

    constructor ()
      ensures words == map[]
    {
      words := map[];
    }

    /** `NextObj(p)` read. */
    function Next(p: nat): nat
      reads this
    {
      Word(words, p)
    }

    /** `NextObj(p) = v` */
    method SetNext(p: nat, v: nat)
      modifies this
      ensures words == old(words)[p := v]
    {
      words := words[p := v];
    }
  }

  function Word(words: map<nat, nat>, p: nat): nat {
    if p in words then words[p] else 0
  }

  ghost predicate Link(words: map<nat, nat>, objs: seq<nat>, i: nat, end: nat)
    requires i < |objs|
  {
    objs[i] != 0 && Word(words, objs[i]) == At(objs, i + 1, end)
  }

  function At(xs: seq<nat>, k: nat, end: nat): nat {
    if k < |xs| then xs[k] else end
  }

  /** Starting at `p`, the words lead through `objs` in order and then to `end`. */
  ghost predicate Chain(words: map<nat, nat>, p: nat, objs: seq<nat>, end: nat) {
    p == At(objs, 0, end) && forall i :: 0 <= i < |objs| ==> Link(words, objs, i, end)
  }

  /** A chain is read only through the words of its own objects. */
  lemma ChainFrame(a: map<nat, nat>, b: map<nat, nat>, p: nat, objs: seq<nat>, end: nat)
    requires Chain(a, p, objs, end) && forall x :: x in objs ==> Word(a, x) == Word(b, x)
    ensures Chain(b, p, objs, end)
  {
    forall i | 0 <= i < |objs| ensures Link(b, objs, i, end) {
      assert Link(a, objs, i, end);
    }
  }

  lemma ChainSuffix(words: map<nat, nat>, p: nat, xs: seq<nat>, end: nat, k: nat)
    requires Chain(words, p, xs, end) && k <= |xs|
    ensures Chain(words, At(xs, k, end), xs[k..], end)
    ensures k > 0 ==> At(xs, k, end) == Word(words, xs[k - 1])
  {
    forall i | 0 <= i < |xs[k..]| ensures Link(words, xs[k..], i, end) {
      assert Link(words, xs, k + i, end);
    }
    assert k > 0 ==> Link(words, xs, k - 1, end);
  }

  /** Words determine a null-terminated chain completely. */
  lemma {:induction false} ChainUnique(words: map<nat, nat>, p: nat, xs: seq<nat>, ys: seq<nat>)
    requires Chain(words, p, xs, 0) && Chain(words, p, ys, 0)
    ensures xs == ys
    decreases |xs|
  {
    assert |xs| > 0 ==> Link(words, xs, 0, 0);
    assert |ys| > 0 ==> Link(words, ys, 0, 0);
    if |xs| > 0 {
      ChainSuffix(words, p, xs, 0, 1);
      ChainSuffix(words, p, ys, 0, 1);
      ChainUnique(words, Word(words, p), xs[1..], ys[1..]);
      assert xs == [p] + xs[1..] && ys == [p] + ys[1..];
    }
  }

  /** A null-terminated chain never visits an object twice. */
  lemma {:induction false} ChainNoDup(words: map<nat, nat>, p: nat, xs: seq<nat>)
    requires Chain(words, p, xs, 0)
    ensures NoDup(xs)
  {
    forall i, j | 0 <= i < j < |xs| ensures xs[i] != xs[j] {
      if xs[i] == xs[j] {
        ChainSuffix(words, p, xs, 0, i);
        ChainSuffix(words, p, xs, 0, j);
        ChainUnique(words, xs[i], xs[i..], xs[j..]);
      }
    }
  }

  /** Cutting a chain after position n-1: the word of that object is the only one to change. */
  lemma ChainCut(words: map<nat, nat>, p: nat, objs: seq<nat>, n: nat)
    requires Chain(words, p, objs, 0) && 1 <= n <= |objs|
    ensures var w := words[objs[n - 1] := 0];
      Chain(w, p, objs[..n], 0) && Chain(w, Word(words, objs[n - 1]), objs[n..], 0)
  {
    ChainNoDup(words, p, objs);
    var w := words[objs[n - 1] := 0];
    ChainSuffix(words, p, objs, 0, n);
    forall x | x in objs[n..] ensures Word(w, x) == Word(words, x) {
      assert x != objs[n - 1];
    }
    ChainFrame(words, w, At(objs, n, 0), objs[n..], 0);
    forall i | 0 <= i < n ensures Link(w, objs[..n], i, 0) {
      assert Link(words, objs, i, 0) && (i < n - 1 ==> objs[i] != objs[n - 1]);
    }
  }

  /** Joining two separate chains by the last word of the first. */
  lemma ChainJoin(words: map<nat, nat>, p: nat, xs: seq<nat>, after: nat, q: nat, ys: seq<nat>)
    requires Chain(words, p, xs, after) && Chain(words, q, ys, 0) && |xs| > 0 && NoDup(xs)
    requires forall x :: x in xs ==> x !in ys
    ensures Chain(words[xs[|xs| - 1] := q], p, xs + ys, 0)
  {
    var n := |xs|;
    var w := words[xs[n - 1] := q];
    var all := xs + ys;
    forall i | 0 <= i < |all| ensures Link(w, all, i, 0) {
      if i < n {
        assert Link(words, xs, i, after) && (i < n - 1 ==> xs[i] != xs[n - 1]);
      } else {
        assert Link(words, ys, i - n, 0) && ys[i - n] in ys && xs[n - 1] in xs;
      }
    }
  }

  /** The list one thread keeps for one size class. */
  class FreeList {
    const mem: Memory
    var freeList: nat
    var maxSize: nat
    var size: nat
    ghost var objs: seq<nat>

    ghost predicate Valid()
      reads this, mem
    {
      Chain(mem.words, freeList, objs, 0) && size == |objs| && maxSize >= 1
    }

    constructor (m: Memory)
      ensures Valid() && mem == m && objs == [] && maxSize == 1
    {
      mem := m;
      freeList, maxSize, size := 0, 1, 0;
      objs := [];
    }

    method Empty() returns (b: bool)
      requires Valid()
      ensures b <==> |objs| == 0
    {
      assert |objs| > 0 ==> Link(mem.words, objs, 0, 0);
      b := freeList == 0;
    }

    method Push(obj: nat)
      requires Valid() && obj != 0 && obj !in objs
      modifies this`freeList, this`size, this`objs, mem
      ensures Valid() && objs == [obj] + old(objs)
      ensures mem.words == old(mem.words)[obj := old(freeList)]
    {
      assert Link(mem.words, [obj], 0, mem.Next(obj));
      ChainJoin(mem.words, obj, [obj], mem.Next(obj), freeList, objs);
      mem.SetNext(obj, freeList);
      freeList := obj;
      size := size + 1;
      objs := [obj] + objs;
    }

    method Pop() returns (obj: nat)
      requires Valid() && |objs| > 0
      modifies this`freeList, this`size, this`objs
      ensures Valid() && obj == old(objs)[0] && objs == old(objs)[1..]
    {
      ChainSuffix(mem.words, freeList, objs, 0, 1);
      obj := freeList;
      freeList := mem.Next(obj);
      size := size - 1;
      objs := objs[1..];
    }

    /** Put a chain of n objects in front; where its last word led does not matter. */
    method PushRange(start: nat, end: nat, n: nat, ghost range: seq<nat>, ghost after: nat)
      requires Valid() && |range| == n >= 1 && end == range[n - 1]
      requires Chain(mem.words, start, range, after) && NoDup(range) && forall x :: x in range ==> x !in objs
      modifies this`freeList, this`size, this`objs, mem
      ensures Valid() && objs == range + old(objs)
      ensures mem.words == old(mem.words)[end := old(freeList)]
    {
      ChainJoin(mem.words, start, range, after, freeList, objs);
      mem.SetNext(end, freeList);
      freeList := start;
      size := size + n;
      objs := range + objs;
    }

    /** Take the first n objects as a chain of their own. */
    method PopRange(n: nat) returns (start: nat, end: nat)
      requires Valid() && 1 <= n <= size
      modifies this`freeList, this`size, this`objs, mem
      ensures Valid() && objs == old(objs)[n..]
      ensures start == old(objs)[0] && end == old(objs)[n - 1] && Chain(mem.words, start, old(objs)[..n], 0)
      ensures mem.words == old(mem.words)[end := 0]
    {
      start := freeList;
      end := start;
      var i := 0;
      while i < n - 1
        invariant 0 <= i <= n - 1 && end == objs[i]
      {
        assert Link(mem.words, objs, i, 0);
        end := mem.Next(end);
        i := i + 1;
      }
      ChainCut(mem.words, freeList, objs, n);
      freeList := mem.Next(end);
      mem.SetNext(end, 0);
      size := size - n;
      objs := objs[n..];
    }
  }

  // ----- carving a span -----

  /** How many multiples of `size` lie in [0, bytes). */
  function Count(bytes: nat, size: nat): nat
    requires size > 0
  {
    (bytes + size - 1) / size
  }

  /** Where the i-th object starts. */
  function Spot(base: nat, size: nat, i: nat): nat { base + i * size }

  function Objects(base: nat, bytes: nat, size: nat): (objs: seq<nat>)
    requires size > 0
  {
    seq(Count(bytes, size), i requires i >= 0 => Spot(base, size, i))
  }

  ghost predicate ObjectAt(base: nat, bytes: nat, size: nat, a: nat)
    requires size > 0
  {
    base <= a < base + bytes && (a - base) % size == 0
  }

  lemma SpotStep(base: nat, size: nat, i: nat)
    ensures Spot(base, size, 0) == base && Spot(base, size, i + 1) == Spot(base, size, i) + size
  {
    assert (i + 1) * size == i * size + size;
  }

  lemma {:induction false} SpotsApart(base: nat, size: nat, i: nat, j: nat)
    requires i < j
    ensures Spot(base, size, i) + size <= Spot(base, size, j)
  {
    SpotStep(base, size, j - 1);
    if i < j - 1 {
      SpotsApart(base, size, i, j - 1);
    }
  }

  lemma SpotInside(base: nat, bytes: nat, size: nat, k: nat)
    requires size > 0
    ensures k < Count(bytes, size) <==> Spot(base, size, k) < base + bytes
  {
    var q, r := (bytes + size - 1) / size, (bytes + size - 1) % size;
    assert bytes + size - 1 == q * size + r;
    assert k < q ==> (k + 1) * size <= q * size;
    assert k >= q ==> k * size >= q * size;
    assert (k + 1) * size == k * size + size;
  }

  lemma SpotIsObject(base: nat, size: nat, k: nat)
    requires size > 0
    ensures Spot(base, size, k) >= base && (Spot(base, size, k) - base) % size == 0
    ensures (Spot(base, size, k) - base) / size == k
  {
    MultipleOf(k, size);
  }

  lemma MultipleOf(k: nat, size: nat)
    requires size > 0
    ensures k * size % size == 0 && k * size / size == k
  {
    var q, r := k * size / size, k * size % size;
    assert (k - q) * size == r;
    assert k - q >= 1 ==> (k - q) * size >= size;
    assert k - q <= -1 ==> (k - q) * size <= -1 * size;
  }

  lemma ObjectIsSpot(base: nat, bytes: nat, size: nat, a: nat)
    requires size > 0 && ObjectAt(base, bytes, size, a)
    ensures (a - base) / size < Count(bytes, size) && Spot(base, size, (a - base) / size) == a
  {
    SpotInside(base, bytes, size, (a - base) / size);
  }

  /** The objects carved are exactly the aligned addresses that start inside the span, each once, in order. */
  lemma ObjectsAre(base: nat, bytes: nat, size: nat)
    requires size > 0
    ensures NoDup(Objects(base, bytes, size))
    ensures forall a: nat :: a in Objects(base, bytes, size) <==> ObjectAt(base, bytes, size, a)
    ensures bytes > 0 ==> |Objects(base, bytes, size)| > 0 && Objects(base, bytes, size)[0] == base
  {
    hide Spot, Count;
    var objs := Objects(base, bytes, size);
    forall a: nat | a in objs ensures ObjectAt(base, bytes, size, a) {
      var i :| 0 <= i < |objs| && objs[i] == a;
      SpotInside(base, bytes, size, i);
      SpotIsObject(base, size, i);
    }
    forall a: nat | ObjectAt(base, bytes, size, a) ensures a in objs {
      ObjectIsSpot(base, bytes, size, a);
      assert objs[(a - base) / size] == a;
    }
    forall i, j | 0 <= i < j < |objs| ensures objs[i] != objs[j] {
      SpotsApart(base, size, i, j);
    }
    SpotInside(base, bytes, size, 0);
    SpotStep(base, size, 0);
  }

  ghost predicate Apart(a: nat, m: nat, b: nat, n: nat) {
    a + m <= b || b + n <= a
  }

  /** Objects of one span never overlap each other. */
  lemma ObjectsApart(base: nat, bytes: nat, size: nat, a: nat, b: nat)
    requires size > 0 && ObjectAt(base, bytes, size, a) && ObjectAt(base, bytes, size, b) && a != b
    ensures Apart(a, size, b, size)
  {
    TwoMultiples(a - base, b - base, size);
  }

  lemma LastRunsOver(base: nat, bytes: nat, size: nat) returns (a: nat)
    requires size > 0 && bytes % size != 0
    ensures ObjectAt(base, bytes, size, a) && a + size > base + bytes
  {
    a := base + bytes / size * size;
    MultipleOf(bytes / size, size);
  }

  /** They all end inside the span exactly when the size divides its bytes. */
  lemma ObjectsFit(base: nat, bytes: nat, size: nat)
    requires size > 0 && bytes > 0
    ensures (forall a: nat :: ObjectAt(base, bytes, size, a) ==> a + size <= base + bytes) <==> bytes % size == 0
  {
    if bytes % size == 0 {
      forall a: nat | ObjectAt(base, bytes, size, a) ensures a + size <= base + bytes {
        TwoMultiples(a - base, bytes, size);
      }
    } else {
      var last := bytes / size * size;
      MultipleOf(bytes / size, size);
      assert ObjectAt(base, bytes, size, base + last);
    }
  }

  lemma TwoMultiples(a: nat, b: nat, size: nat)
    requires size > 0 && a % size == 0 && b % size == 0
    ensures a < b ==> a + size <= b
    ensures b < a ==> b + size <= a
  {
    var d := b / size - a / size;
    assert b - a == d * size;
    assert d >= 1 ==> d * size >= size;
    assert d <= -1 ==> d * size <= -1 * size;
  }

  /** The first k-1 objects are linked to their successors; every other word is as it was. */
  ghost predicate Linked(was: map<nat, nat>, now: map<nat, nat>, objs: seq<nat>, k: nat)
    requires 1 <= k <= |objs|
  {
    && (forall i :: 0 <= i < k - 1 ==> Word(now, objs[i]) == objs[i + 1])
    && (forall p :: p !in objs[..k - 1] ==> Word(now, p) == Word(was, p))
  }

  lemma LinkOne(was: map<nat, nat>, now: map<nat, nat>, objs: seq<nat>, k: nat)
    requires 1 <= k < |objs| && NoDup(objs) && Linked(was, now, objs, k)
    ensures Linked(was, now[objs[k - 1] := objs[k]], objs, k + 1)
  {
    assert objs[..k] == objs[..k - 1] + [objs[k - 1]];
  }

  lemma LinkedIsChain(was: map<nat, nat>, now: map<nat, nat>, objs: seq<nat>)
    requires |objs| > 0 && NoDup(objs) && Linked(was, now, objs, |objs|) && forall a :: a in objs ==> a != 0
    ensures Chain(now, objs[0], objs, Word(was, objs[|objs| - 1]))
  {
    var n := |objs|;
    var after := Word(was, objs[n - 1]);
    assert objs[n - 1] !in objs[..n - 1];
    forall i | 0 <= i < n ensures Link(now, objs, i, after) {
      assert objs[i] in objs;
    }
  }

  /** The carving loop (CentralCache.cpp, lines 30-42): the last object's word is not written, so the chain
      ends wherever that word already led. */
  method Carve(mem: Memory, base: nat, bytes: nat, size: nat) returns (freeList: nat)
    requires base > 0 && bytes > 0 && size > 0
    modifies mem
    ensures |Objects(base, bytes, size)| > 0 && freeList == base
    ensures var objs := Objects(base, bytes, size);
      && Chain(mem.words, base, objs, Word(old(mem.words), objs[|objs| - 1]))
      && forall p :: p !in objs ==> Word(mem.words, p) == Word(old(mem.words), p)
  {
    hide Spot, Count, ObjectAt, Chain;
    ghost var objs := Objects(base, bytes, size);
    ghost var k := 1;
    ObjectsAre(base, bytes, size);
    SpotStep(base, size, 0);
    var start, end := base, base + bytes;
    freeList := start;
    start := start + size;
    var tail := freeList;
    while start < end
      invariant 1 <= k <= |objs| && tail == objs[k - 1] && start == Spot(base, size, k)
      invariant Linked(old(mem.words), mem.words, objs, k)
      decreases end - start
    {
      SpotInside(base, bytes, size, k);
      SpotStep(base, size, k);
      LinkOne(old(mem.words), mem.words, objs, k);
      mem.SetNext(tail, start);
      tail := mem.Next(tail);
      start := start + size;
      k := k + 1;
    }
    SpotInside(base, bytes, size, k);
    forall a | a in objs ensures a != 0 {
      ObjectNotNull(base, bytes, size, a);
    }
    LinkedIsChain(old(mem.words), mem.words, objs);
  }

  lemma ObjectNotNull(base: nat, bytes: nat, size: nat, a: nat)
    requires base > 0 && size > 0 && a in Objects(base, bytes, size)
    ensures a != 0
  {
    ObjectsAre(base, bytes, size);
    hide Objects;
  }

  /** The chain just carved is the null-terminated list of all objects exactly when the last object's word was zero. */
  lemma CarvedIsTerminated(words: map<nat, nat>, base: nat, bytes: nat, size: nat, after: nat)
    requires base > 0 && bytes > 0 && size > 0
    requires Chain(words, base, Objects(base, bytes, size), after)
    ensures Chain(words, base, Objects(base, bytes, size), 0) <==> after == 0
  {
    ObjectsAre(base, bytes, size);
    hide Objects;
    var objs := Objects(base, bytes, size);
    assert Link(words, objs, |objs| - 1, after);
    assert Chain(words, base, objs, 0) ==> Link(words, objs, |objs| - 1, 0);
  }

  // ----- chains that never end -----

  /** The k-th stop of a walk along the words. */
  function Visit(words: map<nat, nat>, p: nat, k: nat): nat {
    if k == 0 then p else Word(words, Visit(words, p, k - 1))
  }

  lemma {:induction false} VisitFollows(words: map<nat, nat>, p: nat, objs: seq<nat>, end: nat, k: nat)
    requires Chain(words, p, objs, end) && k <= |objs|
    ensures Visit(words, p, k) == At(objs, k, end)
  {
    if k > 0 {
      VisitFollows(words, p, objs, end, k - 1);
      assert Link(words, objs, k - 1, end);
    }
  }

  lemma {:induction false} VisitStays(words: map<nat, nat>, p: nat, objs: seq<nat>, after: nat, k: nat)
    requires Chain(words, p, objs, after) && after in objs
    ensures Visit(words, p, k) in objs && Visit(words, p, k) != 0
  {
    if k == 0 {
      assert Link(words, objs, 0, after);
    } else {
      VisitStays(words, p, objs, after, k - 1);
      var j :| 0 <= j < |objs| && objs[j] == Visit(words, p, k - 1);
      assert Link(words, objs, j, after);
      var v := Word(words, objs[j]);
      assert v in objs;
      var i :| 0 <= i < |objs| && objs[i] == v;
      assert Link(words, objs, i, after);
    }
  }

  /** A chain that leads back into itself is no list: no walk along it reaches null, and the walk that has seen all its
      objects comes to one of them a second time. */
  lemma NeverNull(words: map<nat, nat>, p: nat, objs: seq<nat>, after: nat)
    requires Chain(words, p, objs, after) && after in objs
    ensures forall ys :: !Chain(words, p, ys, 0)
    ensures exists j :: 0 <= j < |objs| && Visit(words, p, j) == Visit(words, p, |objs|)
  {
    forall ys ensures !Chain(words, p, ys, 0) {
      if Chain(words, p, ys, 0) {
        VisitFollows(words, p, ys, 0, |ys|);
        VisitStays(words, p, objs, after, |ys|);
      }
    }
    var j :| 0 <= j < |objs| && objs[j] == after;
    VisitFollows(words, p, objs, after, j);
    VisitFollows(words, p, objs, after, |objs|);
  }

  /** A run of a span of two objects on fresh memory: both are handed out, both come back, the first one first, and
      the span is cut again.  The loop leaves the word of the second object as it is, and it leads to the first. */
  method CutAgain(base: nat, size: nat) returns (mem: Memory, head: nat)
    requires base > 0 && size > 0
    ensures head == base && Objects(base, 2 * size, size) == [base, base + size]
    ensures Chain(mem.words, head, [base, base + size], base)
    ensures forall ys :: !Chain(mem.words, head, ys, 0)
    ensures Visit(mem.words, head, 2) == base == Visit(mem.words, head, 0)
  {
    mem := new Memory();
    TwoObjects(base, size);
    head := Carve(mem, base, 2 * size, size);
    var span := new FreeList(mem);
    CarvedPair(mem.words, base, size);
    span.PushRange(base, base + size, 2, [base, base + size], 0);
    var start, end := span.PopRange(2);
    assert span.objs == [];
    span.Push(base);
    span.Push(base + size);
    assert mem.words[base + size] == base;
    head := Carve(mem, base, 2 * size, size);
    NeverNull(mem.words, head, [base, base + size], base);
    VisitFollows(mem.words, head, [base, base + size], base, 2);
    VisitFollows(mem.words, head, [base, base + size], base, 0);
  }

  lemma TwoObjects(base: nat, size: nat)
    requires size > 0
    ensures Objects(base, 2 * size, size) == [base, base + size]
  {
    hide Spot;
    var n := (2 * size + size - 1) / size;
    assert n == 2 by {
      MultipleOf(2, size);
      assert 3 * size == 2 * size + size;
      SpotInside(base, 2 * size, size, 1);
      SpotInside(base, 2 * size, size, 2);
      SpotStep(base, size, 0);
      SpotStep(base, size, 1);
    }
    SpotStep(base, size, 0);
  }

  lemma CarvedPair(words: map<nat, nat>, base: nat, size: nat)
    requires Chain(words, base, [base, base + size], 0) && size > 0
    ensures NoDup([base, base + size])
  {
  }
}
