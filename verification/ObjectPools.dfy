/** The pool for objects of one size: slots cut off a chunk one after the other, and a free list. */
module ObjectPools {
  import opened Pages
  import opened Chains

  const CHUNK: nat := 128 * 1024
  const WORD: nat := 8
  const TWO64: nat := 0x1_0000_0000_0000_0000

  /** The pool for objects of `size` bytes: the rest of the current chunk, freed slots, and, for the proof, the
      slots in use and the chunks obtained. */
  datatype Pool = Pool(size: nat, memory: nat, remainBytes: nat, free: seq<nat>, live: set<nat>, chunks: set<nat>)
  {
    /** A slot is never smaller than a pointer. */
    function ObjSize(): nat { if size < WORD then WORD else size }
  }

  function NoObjects(size: nat): Pool { Pool(size, 0, 0, [], {}, {}) }

  /** A chunk from the system shares no byte with those obtained before. */
  predicate FreshChunk(p: Pool, base: nat) {
    base > 0 && forall c :: c in p.chunks ==> base + CHUNK <= c || c + CHUNK <= base
  }

  predicate Refills(p: Pool) { |p.free| == 0 && p.remainBytes < p.size }

  function Refill(p: Pool, base: nat): Pool {
    p.(memory := base, remainBytes := CHUNK, chunks := p.chunks + {base})
  }

  /** `_remainBytes -= objSize` on a 64-bit `size_t`. */
  function Cut(p: Pool): Pool {
    p.(memory := p.memory + p.ObjSize(), remainBytes := (p.remainBytes - p.ObjSize()) % TWO64,
      live := p.live + {p.memory})
  }

  /** `New`: the pool afterwards, and the object. */
  function DoNew(p: Pool, base: nat): (Pool, nat) {
    if |p.free| > 0 then (p.(free := p.free[1..], live := p.live + {p.free[0]}), p.free[0])
    else
      var q := if Refills(p) then Refill(p, base) else p;
      (Cut(q), q.memory)
  }

  function DoDelete(p: Pool, obj: nat): Pool { p.(free := [obj] + p.free, live := p.live - {obj}) }

  // ----- what holds in every run -----

  predicate Slot(p: Pool, a: nat) { a in p.live || a in p.free }

  predicate Clear(p: Pool, a: nat, b: nat) { a + p.ObjSize() <= b || b + p.ObjSize() <= a }

  predicate InChunk(p: Pool, a: nat, c: nat) { c in p.chunks && c <= a && a + p.ObjSize() <= c + CHUNK }

  ghost predicate Good(p: Pool) {
    && p.size > 0
    && (forall a :: a in p.live ==> a !in p.free) && NoDup(p.free)
    && (forall a: nat, b: nat :: Slot(p, a) && Slot(p, b) && a != b ==> Clear(p, a, b))
    && (forall a: nat :: Slot(p, a) ==> a > 0 && exists c :: InChunk(p, a, c))
    && (forall a: nat :: Slot(p, a) ==> a + p.ObjSize() <= p.memory || p.memory + p.remainBytes <= a)
    && (p.remainBytes > 0 ==> exists c :: c in p.chunks && c <= p.memory && p.memory + p.remainBytes <= c + CHUNK)
    && (p.chunks != {} || p.remainBytes == 0) && (forall c :: c in p.chunks ==> c > 0)
    && p.remainBytes <= CHUNK && (p.size < WORD ==> p.remainBytes % WORD == 0)
  }

  lemma EmptyGood(size: nat)
    requires size > 0
    ensures Good(NoObjects(size))
  {
  }

  lemma RefillKeeps(p: Pool, base: nat)
    requires Good(p) && FreshChunk(p, base)
    ensures Good(Refill(p, base))
  {
    var q := Refill(p, base);
    forall a: nat | Slot(q, a)
      ensures a > 0 && (exists c :: InChunk(q, a, c)) && (a + q.ObjSize() <= q.memory || q.memory + q.remainBytes <= a)
    {
      assert Slot(p, a);
      var c :| InChunk(p, a, c);
      assert InChunk(q, a, c);
    }
    forall a: nat, b: nat | Slot(q, a) && Slot(q, b) && a != b ensures Clear(q, a, b) {
      assert Slot(p, a) && Slot(p, b);
      assert Clear(p, a, b);
    }
    assert base in q.chunks;
  }

  /** There is room for a slot whenever the guard says there is room for an object: this is where small sizes need
      the remaining bytes to stay a multiple of the word. */
  lemma RoomForSlot(p: Pool)
    requires Good(p) && p.remainBytes >= p.size
    ensures p.remainBytes >= p.ObjSize()
  {
  }

  lemma CutKeeps(p: Pool)
    requires Good(p) && p.remainBytes >= p.ObjSize()
    ensures Good(Cut(p)) && Cut(p).remainBytes == p.remainBytes - p.ObjSize() && !Slot(p, p.memory)
  {
    var q, m := Cut(p), p.memory;
    assert q.remainBytes == p.remainBytes - p.ObjSize();
    assert !Slot(p, m);
    var k :| k in p.chunks && k <= m && m + p.remainBytes <= k + CHUNK;
    forall a: nat | Slot(q, a)
      ensures a == m || Slot(p, a)
      ensures a > 0 && (exists c :: InChunk(q, a, c)) && (a + q.ObjSize() <= q.memory || q.memory + q.remainBytes <= a)
    {
      if a == m {
        assert InChunk(q, a, k);
      } else {
        assert Slot(p, a);
        var c :| InChunk(p, a, c);
        assert InChunk(q, a, c);
      }
    }
    forall a: nat, b: nat | Slot(q, a) && Slot(q, b) && a != b ensures Clear(q, a, b) {
      assert a != m ==> Slot(p, a);
      assert b != m ==> Slot(p, b);
      assert a != m && b != m ==> Clear(p, a, b);
    }
  }

  /** A new object: never one that is in use, inside a chunk, sharing no byte with any other slot. */
  lemma NewKeeps(p: Pool, base: nat)
    requires Good(p) && p.size <= CHUNK && (Refills(p) ==> FreshChunk(p, base))
    ensures var (q, obj) := DoNew(p, base);
      && Good(q) && q.size == p.size && obj !in p.live && obj > 0 && q.live == p.live + {obj}
      && (q.remainBytes == p.remainBytes ||
           q.remainBytes == (if Refills(p) then CHUNK else p.remainBytes) - p.ObjSize())
  {
    if |p.free| > 0 {
      ReuseKeeps(p, base);
    } else {
      var q := p;
      if Refills(p) {
        RefillKeeps(p, base);
        q := Refill(p, base);
      }
      RoomForSlot(q);
      CutKeeps(q);
    }
  }

  lemma ReuseKeeps(p: Pool, base: nat)
    requires Good(p) && |p.free| > 0
    ensures var (q, obj) := DoNew(p, base); Good(q) && obj !in p.live && obj > 0
  {
    var (q, obj) := DoNew(p, base);
    assert forall a: nat :: Slot(q, a) <==> Slot(p, a);
    SameSlots(p, q);
    assert forall k :: 0 <= k < |q.free| ==> q.free[k] == p.free[k + 1];
    assert obj !in q.free;
    assert Slot(p, obj);
  }

  /** Moving a slot between the lists changes nothing about where the slots are. */
  lemma SameSlots(p: Pool, q: Pool)
    requires Good(p) && q == p.(free := q.free, live := q.live) && forall a: nat :: Slot(q, a) <==> Slot(p, a)
    ensures (forall a: nat, b: nat :: Slot(q, a) && Slot(q, b) && a != b ==> Clear(q, a, b))
    ensures forall a: nat :: Slot(q, a) ==> a > 0 && exists c :: InChunk(q, a, c)
    ensures forall a: nat :: Slot(q, a) ==> a + q.ObjSize() <= q.memory || q.memory + q.remainBytes <= a
  {
    forall a: nat | Slot(q, a) ensures exists c :: InChunk(q, a, c) {
      var c :| InChunk(p, a, c);
      assert InChunk(q, a, c);
    }
    forall a: nat, b: nat | Slot(q, a) && Slot(q, b) && a != b ensures Clear(q, a, b) {
      assert Clear(p, a, b);
    }
  }

  lemma DeleteKeeps(p: Pool, obj: nat)
    requires Good(p) && obj in p.live
    ensures Good(DoDelete(p, obj))
  {
    var q := DoDelete(p, obj);
    assert forall a: nat :: Slot(q, a) <==> Slot(p, a);
    SameSlots(p, q);
    assert forall k :: 1 <= k < |q.free| ==> q.free[k] == p.free[k - 1];
  }

  /** What was given back last is handed out next, and then everything is as before. */
  lemma DeleteThenNew(p: Pool, obj: nat, base: nat)
    requires obj in p.live
    ensures DoNew(DoDelete(p, obj), base) == (p, obj)
  {
    assert ([obj] + p.free)[1..] == p.free;
    assert p.live - {obj} + {obj} == p.live;
  }

  /** No slot is ever lost, and one is made only when none is free: behind the last one while the chunk has room for an
      object, and at the beginning of a new chunk otherwise. */
  lemma NewExactly(p: Pool, base: nat)
    requires Good(p) && p.size <= CHUNK && (p.free == [] && p.remainBytes < p.size ==> FreshChunk(p, base))
    ensures var (q, obj) := DoNew(p, base);
      var made := if p.remainBytes >= p.size then p.memory else base;
      var slot := if p.size < 8 then 8 else p.size;
      && (p.free != [] ==> obj == p.free[0] && q.chunks == p.chunks && forall a: nat :: Slot(q, a) <==> Slot(p, a))
      && (p.free == [] ==>
            && obj == made && q.memory == made + slot && (forall a: nat :: Slot(q, a) <==> Slot(p, a) || a == made)
            && q.chunks == (if p.remainBytes >= p.size then p.chunks else p.chunks + {base})
            && q.remainBytes == (if p.remainBytes >= p.size then p.remainBytes else 131072) - slot)
  {
    hide Good;
    if p.free == [] {
      if p.remainBytes >= p.size {
        CutKeeps(p) by { RoomForSlot(p); }
      } else {
        RefillKeeps(p, base);
        CutKeeps(Refill(p, base));
      }
    }
  }

  // ----- runs -----

  datatype Call = NewCall(base: nat) | DeleteCall(obj: nat)

  /** Callers delete only what they hold; the system's chunks are fresh. */
  predicate Allowed(p: Pool, call: Call) {
    match call
    case NewCall(base) => Refills(p) ==> FreshChunk(p, base)
    case DeleteCall(obj) => obj in p.live
  }

  function Apply(p: Pool, call: Call): Pool {
    match call
    case NewCall(base) => DoNew(p, base).0
    case DeleteCall(obj) => DoDelete(p, obj)
  }

  predicate Runs(p: Pool, calls: seq<Call>, q: Pool)
    decreases |calls|
  {
    if |calls| == 0 then p == q else Allowed(p, calls[0]) && Runs(Apply(p, calls[0]), calls[1..], q)
  }

  lemma {:induction false} RunKeeps(p: Pool, calls: seq<Call>, q: Pool)
    requires Good(p) && p.size <= CHUNK && Runs(p, calls, q)
    ensures Good(q) && q.size == p.size
    decreases |calls|
  {
    hide Good, DoNew, DoDelete;
    if |calls| > 0 {
      match calls[0] {
        case NewCall(base) => NewKeeps(p, base);
        case DeleteCall(obj) => DeleteKeeps(p, obj); DeleteSize(p, obj);
      }
      RunKeeps(Apply(p, calls[0]), calls[1..], q);
    }
  }

  lemma DeleteSize(p: Pool, obj: nat)
    ensures DoDelete(p, obj).size == p.size
  {
  }

  /** After any run, for objects of at most a chunk: the objects in use share no byte with each other or with a freed
      slot, every one lies in a chunk, a freed slot is on the list once, and the remaining bytes never wrap. */
  lemma LiveObjectsApart(size: nat, calls: seq<Call>, p: Pool)
    requires 0 < size <= CHUNK && Runs(NoObjects(size), calls, p)
    ensures forall a, b :: a in p.live && b in p.live && a != b ==> a + size <= b || b + size <= a
    ensures forall a, b :: a in p.live && b in p.free ==> a + size <= b || b + WORD <= a
    ensures forall a :: a in p.live ==> exists c :: c in p.chunks && c <= a && a + size <= c + CHUNK
    ensures NoDup(p.free) && p.remainBytes <= CHUNK
  {
    EmptyGood(size);
    RunKeeps(NoObjects(size), calls, p);
    forall a, b | a in p.live && b in p.live && a != b ensures a + size <= b || b + size <= a {
      assert Slot(p, a) && Slot(p, b) && Clear(p, a, b);
    }
    forall a, b | a in p.live && b in p.free ensures a + size <= b || b + WORD <= a {
      assert Slot(p, a) && Slot(p, b) && Clear(p, a, b);
    }
    forall a | a in p.live ensures exists c :: c in p.chunks && c <= a && a + size <= c + CHUNK {
      assert Slot(p, a);
      var c :| InChunk(p, a, c);
    }
  }

  /** An object larger than a chunk: the very first one runs over the end, and the remaining bytes wrap around. */
  lemma LargerThanChunk(size: nat, base: nat)
    requires CHUNK < size < TWO64 / 2
    ensures var (p, obj) := DoNew(NoObjects(size), base);
      obj == base && obj + size > base + 131072 && p.remainBytes == 0x1_0000_0000_0000_0000 + 131072 - size > 131072
  {
    var r := CHUNK - size;
    assert r % TWO64 == r + TWO64;
  }

  // ----- the pool in memory -----

  class ObjectPool {
    const mem: Memory
    const size: nat
    var memory: nat
    var remainBytes: nat
    var freelist: nat
    ghost var abs: Pool

    ghost predicate Valid()
      reads this, mem
    {
      && Good(abs) && abs.size == size <= CHUNK && abs.memory == memory && abs.remainBytes == remainBytes
      && Chain(mem.words, freelist, abs.free, 0)
    }

    constructor (mem: Memory, size: nat)
      requires 0 < size <= CHUNK
      ensures Valid() && this.mem == mem && this.size == size && abs == NoObjects(size)
    {
      this.mem := mem;
      this.size := size;
      memory, remainBytes, freelist := 0, 0, 0;
      abs := NoObjects(size);
      new;
      EmptyGood(size);
    }

    method New(base: nat) returns (obj: nat)
      requires Valid() && (Refills(abs) ==> FreshChunk(abs, base))
      modifies this
      ensures Valid() && (abs, obj) == DoNew(old(abs), base) && obj !in old(abs).live && obj > 0
    {
      hide Good, Chain;
      NewKeeps(abs, base);
      FirstFree();
      if freelist != 0 {
        ChainSuffix(mem.words, freelist, abs.free, 0, 1);
        obj := freelist;
        freelist := mem.Next(obj);
      } else {
        if remainBytes < size {
          remainBytes := CHUNK;
          memory := base;
        }
        obj := memory;
        var objSize := if size < WORD then WORD else size;
        memory := memory + objSize;
        remainBytes := (remainBytes - objSize) % TWO64;
      }
      abs := DoNew(abs, base).0;
    }

    lemma FirstFree()
      requires Chain(mem.words, freelist, abs.free, 0)
      ensures freelist == 0 <==> |abs.free| == 0
      ensures |abs.free| > 0 ==> freelist == abs.free[0]
    {
      assert |abs.free| > 0 ==> Link(mem.words, abs.free, 0, 0);
    }

    method Delete(obj: nat)
      requires Valid() && obj in abs.live
      modifies this, mem
      ensures Valid() && abs == DoDelete(old(abs), obj) && mem.words == old(mem.words)[obj := old(freelist)]
    {
      DeleteKeeps(abs, obj);
      assert Slot(abs, obj) && obj !in abs.free;
      assert Link(mem.words, [obj], 0, mem.Next(obj));
      ChainJoin(mem.words, obj, [obj], mem.Next(obj), freelist, abs.free);
      mem.SetNext(obj, freelist);
      freelist := obj;
      abs := DoDelete(abs, obj);
    }

    /** Whatever an owner writes into its object, the pool is not disturbed. */
    method Write(obj: nat, p: nat, v: nat)
      requires Valid() && obj in abs.live && obj <= p < obj + abs.ObjSize()
      modifies mem
      ensures Valid()
    {
      forall a | a in abs.free ensures a != p {
        assert Slot(abs, a) && Slot(abs, obj) && Clear(abs, a, obj);
      }
      ChainFrame(mem.words, mem.words[p := v], freelist, abs.free, 0);
      mem.SetNext(p, v);
    }
  }
}
