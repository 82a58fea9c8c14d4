/**
 * The arithmetic of handing out memory-mapped addresses: a 32-bit pointer that is rounded up to each
 * block's size and moved past the block. Models the pointer in pci_alloc of src/drivers/pci/pci_rc.c.
 */
module PciPlacement {
  import opened Arith
  import opened Words

  function AlignUp(free: Word, size: Word): Word
    requires size > 0
  {
    AndNot(Add(free, size - 1), size - 1)
  }

  function Next(free: Word, size: Word): Word {
    if size == 0 then free else Add(AlignUp(free, size), size)
  }

  /** The address given to each block of a list; a block of size zero is passed over. */
  function Place(free: Word, sizes: seq<Word>): (r: seq<Word>)
    ensures |r| == |sizes|
    decreases |sizes|
  {
    if sizes == [] then []
    else [if sizes[0] == 0 then 0 else AlignUp(free, sizes[0])] + Place(Next(free, sizes[0]), sizes[1..])
  }

  /** The pointer afterwards. */
  function End(free: Word, sizes: seq<Word>): Word
    decreases |sizes|
  {
    if sizes == [] then free else End(Next(free, sizes[0]), sizes[1..])
  }

  /** Neither the rounding nor the addition for this block passes 2^32 - 1. */
  predicate StepFits(free: Word, size: Word) {
    size != 0 ==> free + (size - 1) < U32 && AlignUp(free, size) + size < U32
  }

  predicate Fits(free: Word, sizes: seq<Word>)
    decreases |sizes|
  {
    sizes == [] || (StepFits(free, sizes[0]) && Fits(Next(free, sizes[0]), sizes[1..]))
  }

  ghost predicate PowerOrZero(size: Word) {
    size == 0 || PowerOfTwo(size)
  }

  ghost predicate AllPowers(sizes: seq<Word>) {
    forall i :: 0 <= i < |sizes| ==> PowerOrZero(sizes[i])
  }

  // ---- One block ----

  lemma RoundedUp(free: nat, size: nat, x: nat, a: int)
    requires size > 0 && x == free + (size - 1) && a == x - x % size
    ensures free <= a < free + size && a % size == 0
  {
    assert a == x / size * size;
    ModIs(a, x / size, 0, size);
  }

  lemma AlignUpIs(free: Word, size: Word)
    requires PowerOfTwo(size)
    ensures AlignUp(free, size) == Add(free, size - 1) - Add(free, size - 1) % size
  {
    AndNotRounds(Add(free, size - 1), size);
  }

  lemma AlignUpRounds(free: Word, size: Word)
    requires PowerOfTwo(size) && free + (size - 1) < U32
    ensures free <= AlignUp(free, size) < free + size && AlignUp(free, size) % size == 0
  {
    AlignUpIs(free, size);
    RoundedUp(free, size, free + (size - 1), AlignUp(free, size));
  }

  lemma AlignedUp(free: Word, size: Word)
    requires PowerOfTwo(size) && StepFits(free, size)
    ensures var a := AlignUp(free, size);
            a % size == 0 && free <= a < free + size && Next(free, size) == a + size
  {
    AlignUpRounds(free, size);
  }

  lemma StepUp(free: Word, size: Word)
    requires PowerOrZero(size) && StepFits(free, size)
    ensures free + size <= Next(free, size)
    ensures Next(free, size) < free + 2 * size || size == 0
  {
    if size != 0 {
      AlignedUp(free, size);
    }
  }

  // ---- A list of blocks ----

  /** The span used is at least the sum of the sizes and less than twice that. */
  lemma {:induction false} Span(free: Word, sizes: seq<Word>)
    requires Fits(free, sizes) && AllPowers(sizes)
    ensures free + Sum(sizes) <= End(free, sizes) <= free + 2 * Sum(sizes)
    ensures Sum(sizes) > 0 ==> End(free, sizes) - free < 2 * Sum(sizes)
    decreases |sizes|
  {
    if sizes != [] {
      StepUp(free, sizes[0]);
      Span(Next(free, sizes[0]), sizes[1..]);
    }
  }

  function Sum(sizes: seq<Word>): nat {
    if sizes == [] then 0 else sizes[0] + Sum(sizes[1..])
  }

  /** Every block lies at a multiple of its size, between the pointer before and the pointer after. */
  lemma {:induction false} PlacedInside(free: Word, sizes: seq<Word>, j: nat)
    requires Fits(free, sizes) && AllPowers(sizes) && j < |sizes| && sizes[j] != 0
    ensures var a := Place(free, sizes)[j];
            a % sizes[j] == 0 && free <= a && a + sizes[j] <= End(free, sizes)
    decreases |sizes|
  {
    var next := Next(free, sizes[0]);
    if j == 0 {
      AlignedUp(free, sizes[0]);
      Span(next, sizes[1..]);
    } else {
      StepUp(free, sizes[0]);
      PlacedInside(next, sizes[1..], j - 1);
    }
  }

  /** A block ends where the next one starts, or before. */
  lemma {:induction false} PlacedApart(free: Word, sizes: seq<Word>, j: nat, k: nat)
    requires Fits(free, sizes) && AllPowers(sizes) && j < k < |sizes| && sizes[j] != 0 && sizes[k] != 0
    ensures var a: int := Place(free, sizes)[j]; a + sizes[j] <= Place(free, sizes)[k]
    decreases |sizes|
  {
    var next := Next(free, sizes[0]);
    if j == 0 {
      AlignedUp(free, sizes[0]);
      PlacedInside(next, sizes[1..], k - 1);
    } else {
      PlacedApart(next, sizes[1..], j - 1, k - 1);
    }
  }

  /** A check before the call: when twice the sum of the sizes fits above the pointer, nothing overflows. */
  lemma {:induction false} RoomFits(free: Word, sizes: seq<Word>)
    requires AllPowers(sizes) && free + 2 * Sum(sizes) < U32
    ensures Fits(free, sizes)
    decreases |sizes|
  {
    if sizes != [] {
      if sizes[0] != 0 {
        AlignUpRounds(free, sizes[0]);
        assert StepFits(free, sizes[0]);
      }
      StepUp(free, sizes[0]);
      RoomFits(Next(free, sizes[0]), sizes[1..]);
    }
  }

  // ---- Several devices in turn ----

  lemma {:induction false} EndSplit(free: Word, u: seq<Word>, v: seq<Word>)
    ensures End(free, u + v) == End(End(free, u), v)
    decreases |u|
  {
    if u == [] {
      assert u + v == v;
    } else {
      assert (u + v)[0] == u[0] && (u + v)[1..] == u[1..] + v;
      EndSplit(Next(free, u[0]), u[1..], v);
    }
  }

  lemma {:induction false} PlaceSplit(free: Word, u: seq<Word>, v: seq<Word>, k: nat)
    requires k < |u| + |v|
    ensures Place(free, u + v)[k] == if k < |u| then Place(free, u)[k] else Place(End(free, u), v)[k - |u|]
    decreases |u|
  {
    if u == [] {
      assert u + v == v;
    } else {
      assert (u + v)[0] == u[0] && (u + v)[1..] == u[1..] + v;
      if k > 0 {
        PlaceSplit(Next(free, u[0]), u[1..], v, k - 1);
      }
    }
  }

  // ---- Blocks of 4 GB and more ----

  /** The size recorded for a 64-bit block of 4 GB or more is no power of two: wherever the pointer stands,
      the block gets address 0 or 1. */
  lemma HugeBlockMisplaced(free: Word)
    ensures AlignUp(free, ONES) == free % 2
    ensures Next(free, ONES) == if free % 2 == 0 then ONES else 0
  {
    AndOne(Add(free, ONES - 1));
  }

  /** A power of two is always honoured, also when the pointer wraps. */
  lemma AlwaysAligned(free: Word, size: Word)
    requires PowerOfTwo(size)
    ensures AlignUp(free, size) % size == 0
  {
    AlignUpIs(free, size);
    RoundedDown(Add(free, size - 1), size);
  }

  lemma RoundedDown(x: nat, size: nat)
    requires size > 0
    ensures (x - x % size) % size == 0
  {
    assert x - x % size == x / size * size;
    ModIs(x - x % size, x / size, 0, size);
  }

  lemma PowerBelow(size: Word)
    requires PowerOfTwo(size)
    ensures U32 % size == 0 && (size > 1 ==> size % 2 == 0 && 2 * size <= U32)
  {
    U32IsPower();
    PowersDivide(size, U32);
    if size > 1 && 2 * size > U32 {
      Doubled(size);
      PowersDivide(U32, 2 * size);
      Between(2 * size);
    }
  }

  lemma Between(n: nat)
    requires U32 < n < 2 * U32
    ensures n % U32 != 0
  {
    ModIs(n, 1, n - U32, U32);
  }

  /** The block after such a block starts at 0, whatever its size. */
  lemma AfterHuge(free: Word, size: Word)
    requires PowerOfTwo(size) && size > 1
    ensures AlignUp(Next(free, ONES), size) == 0
    ensures Next(Next(free, ONES), size) == size
  {
    HugeBlockMisplaced(free);
    FromZero(size);
    FromOnes(size);
  }

  lemma FromZero(size: Word)
    requires PowerOfTwo(size) && size > 1
    ensures AlignUp(0, size) == 0 && Next(0, size) == size
  {
    AlignUpIs(0, size);
    ModIs(size - 1, 0, size - 1, size);
  }

  lemma FromOnes(size: Word)
    requires PowerOfTwo(size) && size > 1
    ensures AlignUp(ONES, size) == 0 && Next(ONES, size) == size
  {
    AlignUpIs(ONES, size);
    ModIs(size - 2, 0, size - 2, size);
  }

  /** So the blocks after it are handed out as if the pointer had started at 0. */
  lemma {:induction false} PlacedAfterHuge(free: Word, sizes: seq<Word>)
    requires forall i :: 0 <= i < |sizes| ==> sizes[i] == 0 || (PowerOfTwo(sizes[i]) && sizes[i] > 1)
    ensures Place(Next(free, ONES), sizes) == Place(0, sizes)
    decreases |sizes|
  {
    if sizes != [] {
      if sizes[0] == 0 {
        PlacedAfterHuge(free, sizes[1..]);
      } else {
        AfterHuge(free, sizes[0]);
        FromZero(sizes[0]);
      }
    }
  }

  /** Two blocks do not overlap. */
  predicate Apart(a: Word, size: Word, b: Word, other: Word) {
    a + size <= b || b + other <= a
  }

  /** A block recorded as 0xFFFFFFFF overlaps every other block. */
  lemma HugeOverlaps(free: Word, pointer: Word, size: Word)
    requires size == ONES || (PowerOfTwo(size) && size > 1)
    ensures !Apart(AlignUp(free, ONES), ONES, AlignUp(pointer, size), size)
  {
    HugeBlockMisplaced(free);
    if size == ONES {
      HugeBlockMisplaced(pointer);
    } else {
      PowerBelow(size);
      AlwaysAligned(pointer, size);
      MultipleBelow(AlignUp(pointer, size), size);
    }
  }

  /** A multiple of a power of two leaves room for the block below 2^32. */
  lemma MultipleBelow(a: Word, size: Word)
    requires size > 0 && a % size == 0 && U32 % size == 0
    ensures a + size <= U32
  {
    var p, q := a / size, U32 / size;
    assert a == p * size && U32 == q * size;
    if p >= q {
      Scaled(q, p, size);
    }
    Scaled(p + 1, q, size);
  }

  lemma Scaled(p: nat, q: nat, size: nat)
    ensures p <= q ==> p * size <= q * size
  {
  }
}
