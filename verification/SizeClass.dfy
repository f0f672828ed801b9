/** The size-class arithmetic of the memory pool, on 64-bit size_t. */
module SizeClass {

  const MAX_BYTES: nat := 256 * 1024
  const NFREE_LIST: nat := 208
  const PAGE_SIZE: nat := 4096

  function Pow2(k: nat): (r: nat)
    ensures r >= 1
  {
    if k == 0 then 1 else 2 * Pow2(k - 1)
  }

  /** Reduce to size_t. */
  function Wrap(x: int): (r: nat)
    ensures 0 <= r < Pow2(64)
  {
    x % Pow2(64)
  }

  /** Bitwise and. */
  function And(x: nat, y: nat): nat {
    if x == 0 || y == 0 then 0 else (x % 2) * (y % 2) + 2 * And(x / 2, y / 2)
  }

  /** Bitwise complement of a size_t. */
  function Not(x: nat): nat
    requires x < Pow2(64)
  {
    Pow2(64) - 1 - x
  }

  /** `_RoundUp`: (bytes + align - 1) & ~(align - 1). */
  function RoundUpTo(bytes: nat, align: nat): nat
    requires 1 <= align <= Pow2(64)
  {
    And(Wrap(bytes + align - 1), Not(align - 1))
  }

  /** `_Index`: ((bytes + (1 << shift) - 1) >> shift) - 1. */
  function IndexAt(bytes: nat, shift: nat): nat {
    Wrap(Wrap(bytes + Pow2(shift) - 1) / Pow2(shift) - 1)
  }

  // ----- masking off low bits -----

  lemma {:induction false} AndOnes(x: nat, w: nat)
    requires x < Pow2(w)
    ensures And(x, Pow2(w) - 1) == x
  {
    if w > 0 && x > 0 {
      AndOnes(x / 2, w - 1);
      assert (Pow2(w) - 1) / 2 == Pow2(w - 1) - 1 && (Pow2(w) - 1) % 2 == 1;
    }
  }

  lemma {:induction false} Pow2Monotone(s: nat, w: nat)
    requires s <= w
    ensures Pow2(s) <= Pow2(w) && (s < w ==> 2 * Pow2(s) <= Pow2(w))
  {
    if s < w {
      Pow2Monotone(s, w - 1);
    }
  }

  lemma HalveMod(x: nat, m: nat)
    requires m > 0
    ensures x % (2 * m) == 2 * ((x / 2) % m) + x % 2
  {
    var q, r := (x / 2) / m, (x / 2) % m;
    assert x / 2 == q * m + r;
    assert x == (2 * m) * q + (2 * r + x % 2) by {
      assert (2 * m) * q == 2 * (q * m);
    }
    ModIs(x, 2 * m, q, 2 * r + x % 2);
  }

  lemma ModIs(x: int, m: int, q: int, r: int)
    requires m > 0 && x == m * q + r && 0 <= r < m
    ensures x % m == r && x / m == q
  {
    var d := x / m - q;
    assert m * (x / m) + x % m == x;
    assert m * d == r - x % m by {
      assert m * d == m * (x / m) - m * q;
    }
    assert d >= 1 ==> m * d >= m;
    assert d <= -1 ==> m * d <= -m;
  }

  lemma AndEven(x: nat, y: nat, z: nat)
    requires z == 2 * y
    ensures And(x, z) == 2 * And(x / 2, y)
  {
    assert z / 2 == y && z % 2 == 0;
  }

  lemma MaskHalves(s: nat, w: nat)
    requires 1 <= s <= w
    ensures Pow2(w - 1) >= Pow2(s - 1) && Pow2(w) == 2 * Pow2(w - 1) && Pow2(s) == 2 * Pow2(s - 1)
  {
    Pow2Monotone(s - 1, w - 1);
  }

  /** And with a mask whose low `s` bits are clear and the rest of `w` set. */
  lemma {:induction false} AndMask(x: nat, s: nat, w: nat)
    requires s <= w && x < Pow2(w)
    ensures Pow2(w) >= Pow2(s) && And(x, Pow2(w) - Pow2(s)) == x - x % Pow2(s)
    decreases s
  {
    hide And, Pow2;
    if s == 0 {
      PowZero();
      AndOnes(x, w);
    } else {
      MaskHalves(s, w);
      var m, y := Pow2(s - 1), Pow2(w - 1) - Pow2(s - 1);
      AndMask(x / 2, s - 1, w - 1);
      AndEven(x, y, Pow2(w) - Pow2(s));
      HalvedRest(x, m, Pow2(s));
    }
  }

  lemma PowZero()
    ensures Pow2(0) == 1
  {
  }

  lemma HalvedRest(x: nat, m: nat, n: nat)
    requires m > 0 && n == 2 * m
    ensures 2 * (x / 2 - (x / 2) % m) == x - x % n
  {
    HalveMod(x, m);
  }

  ghost predicate LeastMultiple(r: nat, bytes: nat, align: nat)
    requires align > 0
  {
    r % align == 0 && bytes <= r < bytes + align
  }

  lemma MultipleAbove(x: nat, bytes: nat, align: nat)
    requires align > 0 && bytes > 0 && x == bytes + align - 1
    ensures LeastMultiple(x - x % align, bytes, align)
    ensures 1 <= x / align <= x && x / align * align == x - x % align
  {
    var q := x / align;
    ModIs(x - x % align, align, q, 0);
    assert q <= 0 ==> q * align <= 0;
    assert q > x ==> q * align > x;
  }

  lemma WrapSmall(x: int)
    requires 0 <= x < Pow2(64)
    ensures Wrap(x) == x
  {
    hide Pow2;
    ModIs(x, Pow2(64), 0, x);
  }

  lemma {:induction false} Pow2Add(a: nat, b: nat)
    ensures Pow2(a + b) == Pow2(a) * Pow2(b)
  {
    if a > 0 {
      Pow2Add(a - 1, b);
      assert Pow2(a + b) == 2 * Pow2(a - 1 + b);
    }
  }

  lemma MaskForm(bytes: nat, s: nat)
    requires 1 <= bytes && s < 64 && bytes + Pow2(s) - 1 < Pow2(64)
    ensures Pow2(s) <= Pow2(64)
    ensures RoundUpTo(bytes, Pow2(s)) == bytes + Pow2(s) - 1 - (bytes + Pow2(s) - 1) % Pow2(s)
  {
    hide Pow2, And, Wrap;
    var x := bytes + Pow2(s) - 1;
    Pow2Monotone(s, 64);
    AndMask(x, s, 64);
    WrapSmall(x);
  }

  lemma ShiftForm(bytes: nat, s: nat)
    requires 1 <= bytes && s < 64 && bytes + Pow2(s) - 1 < Pow2(64)
    ensures IndexAt(bytes, s) + 1 == (bytes + Pow2(s) - 1) / Pow2(s)
  {
    hide Pow2, Wrap, LeastMultiple;
    var x := bytes + Pow2(s) - 1;
    MultipleAbove(x, bytes, Pow2(s));
    WrapSmall(x);
    WrapSmall(x / Pow2(s) - 1);
  }

  /** For every power-of-two alignment: the mask form is the least multiple not below the input,
      and the shift form numbers those multiples. */
  lemma RoundUpIsLeast(bytes: nat, s: nat)
    requires 1 <= bytes && s < 64 && bytes + Pow2(s) - 1 < Pow2(64)
    ensures Pow2(s) <= Pow2(64) && LeastMultiple(RoundUpTo(bytes, Pow2(s)), bytes, Pow2(s))
    ensures (IndexAt(bytes, s) + 1) * Pow2(s) == RoundUpTo(bytes, Pow2(s))
  {
    hide Pow2, RoundUpTo, IndexAt, LeastMultiple;
    MaskForm(bytes, s);
    ShiftForm(bytes, s);
    MultipleAbove(bytes + Pow2(s) - 1, bytes, Pow2(s));
  }

  // ----- the piecewise maps -----

  function Shift(size: nat): nat {
    if size <= 128 then 3 else if size <= 1024 then 4 else if size <= 8 * 1024 then 7
    else if size <= 64 * 1024 then 10 else 13
  }

  /** `RoundUp`; ThreadCache.cpp, line 6, asserts size <= 256K. */
  function RoundUp(size: nat): nat
    requires size <= MAX_BYTES
  {
    Aligns();
    if size <= 128 then RoundUpTo(size, 8)
    else if size <= 1024 then RoundUpTo(size, 16)
    else if size <= 8 * 1024 then RoundUpTo(size, 128)
    else if size <= 64 * 1024 then RoundUpTo(size, 1024)
    else RoundUpTo(size, 8 * 1024)
  }

  function Index(bytes: nat): nat
    requires bytes <= MAX_BYTES
  {
    if bytes <= 128 then IndexAt(bytes, 3)
    else if bytes <= 1024 then IndexAt(bytes - 128, 4) + 16
    else if bytes <= 8 * 1024 then IndexAt(bytes - 1024, 7) + 56 + 16
    else if bytes <= 64 * 1024 then IndexAt(bytes - 8 * 1024, 10) + 56 + 56 + 16
    else IndexAt(bytes - 64 * 1024, 13) + 56 + 56 + 56 + 16
  }

  lemma Aligns()
    ensures Pow2(3) == 8 && Pow2(4) == 16 && Pow2(7) == 128 && Pow2(10) == 1024 && Pow2(13) == 8192
    ensures Pow2(64) == 0x1_0000_0000_0000_0000
  {
    assert Pow2(16) == 65536;
    Pow2Add(16, 16);
    Pow2Add(32, 32);
  }

  /** The largest size in bucket `i`. */
  function ClassSize(i: nat): nat
    requires i < NFREE_LIST
  {
    if i < 16 then 8 * (i + 1)
    else if i < 72 then 128 + 16 * (i - 15)
    else if i < 128 then 1024 + 128 * (i - 71)
    else if i < 184 then 8 * 1024 + 1024 * (i - 127)
    else 64 * 1024 + 8 * 1024 * (i - 183)
  }

  lemma SmallSum(x: int, align: nat)
    requires 1 <= x <= MAX_BYTES && 1 <= align <= 8192
    ensures x + align - 1 < Pow2(64)
  {
    Aligns();
  }

  lemma OneMultiple(p: nat, q: nat, bytes: nat, align: nat)
    requires align > 0 && LeastMultiple(p, bytes, align) && LeastMultiple(q, bytes, align)
    ensures p == q
  {
    var d := p / align - q / align;
    assert p - q == align * d;
    assert d >= 1 ==> align * d >= align;
    assert d <= -1 ==> align * d <= 0 - align;
  }

  lemma SumOfMultiples(p: nat, q: nat, align: nat)
    requires align > 0 && p % align == 0 && q % align == 0
    ensures (p + q) % align == 0
  {
    assert p + q == align * (p / align + q / align) + 0;
    ModIs(p + q, align, p / align + q / align, 0);
  }

  /** In the band that starts at `low`, the bucket number counts aligned blocks from `low`. */
  lemma Band(size: nat, low: nat, s: nat)
    requires low < size <= MAX_BYTES && s <= 13 && low % Pow2(s) == 0
    ensures 1 <= Pow2(s) <= 8192 && LeastMultiple(RoundUpTo(size, Pow2(s)), size, Pow2(s))
    ensures RoundUpTo(size, Pow2(s)) == low + (IndexAt(size - low, s) + 1) * Pow2(s)
  {
    hide Pow2, Wrap, And;
    Aligns();
    Pow2Monotone(s, 13);
    SmallSum(size, Pow2(s));
    SmallSum(size - low, Pow2(s));
    RoundUpIsLeast(size, s);
    RoundUpIsLeast(size - low, s);
    var r := RoundUpTo(size - low, Pow2(s));
    SumOfMultiples(low, r, Pow2(s));
    OneMultiple(RoundUpTo(size, Pow2(s)), low + r, size, Pow2(s));
  }

  /** Both maps at once: the bucket of a size is numbered so that its class size is the rounded size. */
  lemma BucketOfSize(size: nat)
    requires 1 <= size <= MAX_BYTES
    ensures Index(size) < NFREE_LIST && ClassSize(Index(size)) == RoundUp(size)
    ensures LeastMultiple(RoundUp(size), size, Pow2(Shift(size))) && RoundUp(size) <= MAX_BYTES
    ensures Index(size) > 0 ==> ClassSize(Index(size) - 1) < size
  {
    hide Pow2, Wrap, And, IndexAt, RoundUpTo;
    Aligns();
    if size <= 128 {
      Band(size, 0, 3);
    } else if size <= 1024 {
      Band(size, 128, 4);
    } else if size <= 8 * 1024 {
      Band(size, 1024, 7);
    } else if size <= 64 * 1024 {
      Band(size, 8 * 1024, 10);
    } else {
      Band(size, 64 * 1024, 13);
    }
  }

  lemma ClassesIncrease(i: nat, j: nat)
    requires i <= j < NFREE_LIST
    ensures ClassSize(i) <= ClassSize(j) && (i < j ==> ClassSize(i) < ClassSize(j))
  {
  }

  /** Two sizes share a bucket exactly when they round to the same size; buckets never decrease with size. */
  lemma SharedBucket(a: nat, b: nat)
    requires 1 <= a <= MAX_BYTES && 1 <= b <= MAX_BYTES
    ensures Index(a) == Index(b) <==> RoundUp(a) == RoundUp(b)
    ensures a <= b ==> Index(a) <= Index(b)
  {
    hide Pow2, Index, RoundUp, LeastMultiple, ClassSize, Shift;
    var i, j := Index(a), Index(b);
    BucketOfSize(a);
    BucketOfSize(b);
    RoundsUp(a);
    RoundsUp(b);
    if i < j {
      ClassesIncrease(i, j);
    } else if j < i {
      ClassesIncrease(j, i);
      ClassesIncrease(j, i - 1);
    }
  }

  lemma RoundsUp(size: nat)
    requires 1 <= size <= MAX_BYTES
    ensures size <= RoundUp(size)
  {
    BucketOfSize(size);
    hide Pow2, Index, RoundUp, ClassSize;
  }

  /** Every bucket is used, by its own class size among others. */
  lemma BucketsOnto(i: nat)
    requires i < NFREE_LIST
    ensures 1 <= ClassSize(i) <= MAX_BYTES && Index(ClassSize(i)) == i && RoundUp(ClassSize(i)) == ClassSize(i)
  {
    assert 1 <= ClassSize(i) <= MAX_BYTES;
    hide Pow2, Index, RoundUp, LeastMultiple, ClassSize, Shift;
    var j := Index(ClassSize(i));
    BucketOfSize(ClassSize(i));
    RoundsUp(ClassSize(i));
    if i < j {
      ClassesIncrease(i, j - 1);
    } else if j < i {
      ClassesIncrease(j, i);
    }
  }

  /** Above 128 bytes less than one ninth of the block handed out is waste. */
  lemma WasteBound(size: nat)
    requires 128 < size <= MAX_BYTES
    ensures 9 * (RoundUp(size) - size) < RoundUp(size)
  {
    BucketOfSize(size);
    Aligns();
    hide Pow2, Index, RoundUp, ClassSize;
  }

  /** A request of zero bytes is not in any bucket: the index wraps to the largest size_t. */
  lemma ZeroHasNoBucket()
    ensures Index(0) == 0xFFFF_FFFF_FFFF_FFFF
  {
    Aligns();
    WrapSmall(7);
    assert 7 / Pow2(3) == 0;
    assert Wrap(0 - 1) == Pow2(64) - 1 by {
      hide Pow2;
      ModIs(-1, Pow2(64), -1, Pow2(64) - 1);
    }
  }

  // ----- batch sizes -----

  function NumMoveSize(size: nat): nat
    requires size > 0
  {
    var num := MAX_BYTES / size;
    if num < 2 then 2 else if num > 512 then 512 else num
  }

  function NumMovePage(size: nat): nat
    requires size > 0
  {
    var npages := NumMoveSize(size) * size / PAGE_SIZE;
    if npages == 0 then 1 else npages
  }

  lemma DivideLaw(a: nat, b: nat)
    requires b > 0
    ensures a / b * b <= a < a / b * b + b
  {
    ModIs(a, b, a / b, a % b);
  }

  /** The objects of a batch are as many as fit into the largest size, but at least 2 and at most 512;
      so a batch never asks for more than twice the largest size. */
  lemma BatchBytes(size: nat)
    requires 1 <= size <= MAX_BYTES
    ensures 2 <= NumMoveSize(size) <= 512
    ensures NumMoveSize(size) > 2 ==> NumMoveSize(size) * size <= MAX_BYTES
    ensures NumMoveSize(size) < 512 ==> MAX_BYTES < (NumMoveSize(size) + 1) * size
    ensures 2 * size <= NumMoveSize(size) * size <= 2 * MAX_BYTES
  {
    var num := MAX_BYTES / size;
    DivideLaw(MAX_BYTES, size);
    assert 512 < num ==> 512 * size <= num * size;
    assert 2 <= NumMoveSize(size) ==> 2 * size <= NumMoveSize(size) * size;
  }

  /** NumMovePage is a page count NewSpan accepts, and the span has room for at least one object. */
  lemma PagesForBatch(size: nat)
    requires 1 <= size <= MAX_BYTES
    ensures 1 <= NumMovePage(size) <= 128 && size <= NumMovePage(size) * PAGE_SIZE
    ensures (NumMovePage(size) - 1) * PAGE_SIZE < NumMoveSize(size) * size
  {
    BatchBytes(size);
    hide NumMoveSize;
    DivideLaw(NumMoveSize(size) * size, PAGE_SIZE);
  }

  /** The pages for a batch are those it fills completely: less than a page of the batch is missing. */
  lemma BatchFillsPages(size: nat)
    requires 8 <= size <= MAX_BYTES
    ensures NumMovePage(size) * PAGE_SIZE <= NumMoveSize(size) * size < (NumMovePage(size) + 1) * PAGE_SIZE
  {
    DivideLaw(MAX_BYTES, size);
    var q, num := MAX_BYTES / size, NumMoveSize(size);
    assert num * size >= PAGE_SIZE by {
      assert q > 512 ==> num * size == 512 * size;
      assert 2 <= q <= 512 ==> num * size == q * size;
    }
    hide NumMoveSize;
    DivideLaw(num * size, PAGE_SIZE);
  }

  /** Classes up to 512 bytes get pages for exactly 512 objects, with nothing left over. */
  lemma SmallClassesFit(size: nat)
    requires 1 <= size <= 512 && size % 8 == 0
    ensures NumMovePage(size) * PAGE_SIZE == 512 * size
  {
    assert NumMoveSize(size) == 512 by {
      DivideLaw(MAX_BYTES, size);
      var q := MAX_BYTES / size;
      assert q < 512 ==> (q + 1) * size <= 512 * size;
      assert q * size + size == (q + 1) * size;
    }
    assert size == 8 * (size / 8);
  }

  /** So do the classes above 64K, which are whole numbers of pages. */
  lemma LargeClassesFit(size: nat)
    requires 64 * 1024 < size <= MAX_BYTES && size % 8192 == 0
    ensures NumMovePage(size) * PAGE_SIZE == NumMoveSize(size) * size
  {
    BatchBytes(size);
    hide NumMoveSize;
    var num, q := NumMoveSize(size), size / 8192;
    assert num * size == PAGE_SIZE * (2 * (num * q)) + 0 by {
      assert size == 8192 * q;
      assert num * (8192 * q) == 8192 * (num * q);
    }
    ModIs(num * size, PAGE_SIZE, 2 * (num * q), 0);
  }

  /** In between it depends on the class: 528-byte objects do not divide their 63 pages. */
  lemma ClassThatDoesNotFit()
    ensures RoundUp(513) == 528 && NumMovePage(528) == 63 && 63 * PAGE_SIZE % 528 != 0
  {
    hide Pow2, RoundUp, Index, ClassSize, NumMovePage;
    BucketOfSize(513);
    Aligns();
    OneMultiple(RoundUp(513), 528, 513, 16);
    PagesOf528();
  }

  lemma PagesOf528()
    ensures NumMovePage(528) == 63 && 63 * PAGE_SIZE % 528 != 0
  {
    assert MAX_BYTES / 528 == 496;
    assert 496 * 528 / PAGE_SIZE == 63;
  }

  lemma MultipleOfLaw(k: nat, size: nat)
    requires size > 0
    ensures k * size % size == 0
  {
    ModIs(k * size, size, k, 0);
  }
}
