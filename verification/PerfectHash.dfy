/**
 * The search for a hash seed without collisions and the look-aside table built with it.
 * Models hash, get_func_node_index, try_seed, find_perfect_seed and init_profiler of
 * common/src/diagnostic/profiler/profiler.c.
 */
module PerfectHash {
  import opened Arith
  import opened Words

  const MAX_FUNCTIONS := 255
  const MAX_SEED := 10000

  // ---- The hash ----

  function Xor(x: nat, y: nat): nat
    decreases x + y
  {
    if x == 0 && y == 0 then 0
    else 2 * Xor(x / 2, y / 2) + (if x % 2 == y % 2 then 0 else 1)
  }

  /** The avalanche mixer for 32-bit and for 64-bit addresses. */
  function Mix32(address: nat, seed: nat): nat {
    var h0 := Xor(address, seed);
    var h1 := Xor(h0, h0 / 0x1_0000) * 0x85eb_ca6b % 0x1_0000_0000;
    var h2 := Xor(h1, h1 / 0x2000) * 0xc2b2_ae35 % 0x1_0000_0000;
    Xor(h2, h2 / 0x1_0000)
  }

  function Mix64(address: nat, seed: nat): nat {
    var h0 := Xor(address, seed);
    var h1 := Xor(h0, h0 / 0x2_0000_0000) * 0xff51_afd7_ed55_8ccd % 0x1_0000_0000_0000_0000;
    var h2 := Xor(h1, h1 / 0x2_0000_0000) * 0xc4ce_b9fe_1a85_ec53 % 0x1_0000_0000_0000_0000;
    Xor(h2, h2 / 0x2_0000_0000)
  }

  /** The least power of two that is at least `n`, and at least 2. */
  function Pow2(n: nat, p: nat): (r: nat)
    requires p >= 1
    ensures r >= n && r >= p
    decreases n - p
  {
    if p >= n then p else Pow2(n, 2 * p)
  }

  function MapSize(count: nat): (r: nat)
    ensures r >= 2 && r >= 4 * count
  {
    Pow2(4 * count, 2)
  }

  /** The mixed address, masked to the size of the map. */
  function Slot(wide: bool, count: nat, address: nat, seed: nat): (slot: nat)
    ensures slot < MapSize(count)
  {
    (if wide then Mix64(address, seed) else Mix32(address, seed)) % MapSize(count)
  }

  // ---- Bitmaps of 32-bit units ----

  /** `w | (1 << b)`. */
  function WithBit(w: nat, b: nat): nat
    decreases b
  {
    if b == 0 then w - w % 2 + 1 else 2 * WithBit(w / 2, b - 1) + w % 2
  }

  lemma {:induction false} WithBitSets(w: nat, b: nat, c: nat)
    ensures Bit(WithBit(w, b), c) == 1 <==> b == c || Bit(w, c) == 1
    decreases b
  {
    if b == 0 {
      assert WithBit(w, 0) / 2 == w / 2;
    } else {
      assert WithBit(w, b) / 2 == WithBit(w / 2, b - 1);
      if c > 0 {
        WithBitSets(w / 2, b - 1, c - 1);
      }
    }
  }

  function Units(size: nat): nat {
    (size + 31) / 32
  }

  predicate InUse(bits: seq<nat>, slot: nat) {
    slot / 32 < |bits| && Bit(bits[slot / 32], slot % 32) == 1
  }

  function SetInUse(bits: seq<nat>, slot: nat): seq<nat>
    requires slot / 32 < |bits|
  {
    bits[slot / 32 := WithBit(bits[slot / 32], slot % 32)]
  }

  lemma SetInUseIs(bits: seq<nat>, slot: nat, other: nat)
    requires slot / 32 < |bits|
    ensures InUse(SetInUse(bits, slot), other) <==> slot == other || InUse(bits, other)
  {
    WithBitSets(bits[slot / 32], slot % 32, other % 32);
    assert slot / 32 == other / 32 && slot % 32 == other % 32 ==> slot == other;
  }

  // ---- The hash bit by bit ----

  lemma XorParts(x: nat, y: nat)
    ensures Xor(x, y) / 2 == Xor(x / 2, y / 2) && Xor(x, y) % 2 == if x % 2 == y % 2 then 0 else 1
  {
  }

  lemma {:induction false} XorBit(x: nat, y: nat, k: nat)
    ensures Bit(Xor(x, y), k) == if Bit(x, k) == Bit(y, k) then 0 else 1
  {
    XorParts(x, y);
    if k > 0 {
      XorBit(x / 2, y / 2, k - 1);
    }
  }

  lemma {:induction false} ShiftBit(w: nat, n: nat, z: nat, k: nat)
    requires z == w / Power(n)
    ensures Bit(z, k) == Bit(w, n + k)
  {
    if n > 0 {
      DivTwice(w, Power(n - 1));
      ShiftBit(w / 2, n - 1, z, k);
    }
  }

  /** Each bit of `r` is the exclusive or of that bit of `x` and the bit `n` places up of `y`. */
  ghost predicate XorOf(r: nat, x: nat, y: nat, n: nat) {
    forall k: nat :: Bit(r, k) == if Bit(x, k) == Bit(y, k + n) then 0 else 1
  }

  lemma XorIs(x: nat, y: nat, n: nat, w: nat, z: nat)
    requires w == Power(n) && z == y / w
    ensures XorOf(Xor(x, z), x, y, n)
  {
    forall k: nat
      ensures Bit(Xor(x, z), k) == if Bit(x, k) == Bit(y, k + n) then 0 else 1
    {
      XorBit(x, z, k);
      ShiftBit(y, n, z, k);
    }
  }

  /** The bits leave no choice. */
  lemma {:induction false} BitsDecide(a: nat, b: nat)
    requires forall k: nat :: Bit(a, k) == Bit(b, k)
    ensures a == b
    decreases a + b
  {
    assert Bit(a, 0) == Bit(b, 0);
    if a > 0 || b > 0 {
      forall k: nat
        ensures Bit(a / 2, k) == Bit(b / 2, k)
      {
        assert Bit(a, k + 1) == Bit(b, k + 1);
      }
      BitsDecide(a / 2, b / 2);
    }
  }

  lemma Shifts()
    ensures Power(0) == 1 && Power(13) == 0x2000 && Power(16) == 0x1_0000 && Power(33) == 0x2_0000_0000
  {
    Power16();
    Power32();
  }

  /** The slot of a 32-bit address: the bits mixed with those of the seed, folded down by 16 places, multiplied,
      folded by 13, multiplied and folded by 16 again, and of that the low bits that number the map. */
  lemma SlotIs32(count: nat, address: nat, seed: nat)
    returns (h0: nat, f0: nat, h1: nat, f1: nat, h2: nat, f2: nat)
    ensures XorOf(h0, address, seed, 0) && XorOf(f0, h0, h0, 16)
    ensures h1 == f0 * 0x85eb_ca6b % 0x1_0000_0000 && XorOf(f1, h1, h1, 13)
    ensures h2 == f1 * 0xc2b2_ae35 % 0x1_0000_0000 && XorOf(f2, h2, h2, 16)
    ensures Slot(false, count, address, seed) == f2 % MapSize(count)
  {
    h0 := Xor(address, seed / 1);
    f0 := Xor(h0, h0 / 0x1_0000);
    h1 := f0 * 0x85eb_ca6b % 0x1_0000_0000;
    f1 := Xor(h1, h1 / 0x2000);
    h2 := f1 * 0xc2b2_ae35 % 0x1_0000_0000;
    f2 := Xor(h2, h2 / 0x1_0000);
    Shifts();
    XorIs(address, seed, 0, 1, seed / 1);
    XorIs(h0, h0, 16, 0x1_0000, h0 / 0x1_0000);
    XorIs(h1, h1, 13, 0x2000, h1 / 0x2000);
    XorIs(h2, h2, 16, 0x1_0000, h2 / 0x1_0000);
    assert Mix32(address, seed) == f2;
  }

  /** The slot of a 64-bit address, folded by 33 places each time. */
  lemma SlotIs64(count: nat, address: nat, seed: nat)
    returns (h0: nat, f0: nat, h1: nat, f1: nat, h2: nat, f2: nat)
    ensures XorOf(h0, address, seed, 0) && XorOf(f0, h0, h0, 33)
    ensures h1 == f0 * 0xff51_afd7_ed55_8ccd % 0x1_0000_0000_0000_0000 && XorOf(f1, h1, h1, 33)
    ensures h2 == f1 * 0xc4ce_b9fe_1a85_ec53 % 0x1_0000_0000_0000_0000 && XorOf(f2, h2, h2, 33)
    ensures Slot(true, count, address, seed) == f2 % MapSize(count)
  {
    h0 := Xor(address, seed / 1);
    f0 := Xor(h0, h0 / 0x2_0000_0000);
    h1 := f0 * 0xff51_afd7_ed55_8ccd % 0x1_0000_0000_0000_0000;
    f1 := Xor(h1, h1 / 0x2_0000_0000);
    h2 := f1 * 0xc4ce_b9fe_1a85_ec53 % 0x1_0000_0000_0000_0000;
    f2 := Xor(h2, h2 / 0x2_0000_0000);
    Shifts();
    XorIs(address, seed, 0, 1, seed / 1);
    XorIs(h0, h0, 33, 0x2_0000_0000, h0 / 0x2_0000_0000);
    XorIs(h1, h1, 33, 0x2_0000_0000, h1 / 0x2_0000_0000);
    XorIs(h2, h2, 33, 0x2_0000_0000, h2 / 0x2_0000_0000);
    assert Mix64(address, seed) == f2;
  }

  lemma {:induction false} Pow2Is(n: nat, p: nat)
    requires PowerOfTwo(p) && p >= 2 && (p == 2 || p / 2 < n)
    ensures PowerOfTwo(Pow2(n, p)) && Pow2(n, p) >= 2 && (Pow2(n, p) == 2 || Pow2(n, p) / 2 < n)
    decreases n - p
  {
    if p < n {
      Doubled(p);
      Pow2Is(n, 2 * p);
    }
  }

  /** The map has a power of two of slots: the least one, from two on, with four slots for each function. */
  lemma MapSizeIs(count: nat)
    ensures PowerOfTwo(MapSize(count)) && 2 <= MapSize(count) && 4 * count <= MapSize(count)
    ensures forall p: nat :: PowerOfTwo(p) && 2 <= p && 4 * count <= p ==> MapSize(count) <= p
  {
    assert PowerOfTwo(2);
    Pow2Is(4 * count, 2);
    forall p: nat | PowerOfTwo(p) && 2 <= p && 4 * count <= p
      ensures MapSize(count) <= p
    {
      if p < MapSize(count) {
        Between(p, MapSize(count));
      }
    }
  }

  /** Nothing lies between a power of two and its double. */
  lemma {:induction false} Between(p: nat, n: nat)
    requires PowerOfTwo(p) && PowerOfTwo(n) && p < n
    ensures p <= n / 2
    decreases p
  {
    if p > 1 {
      Between(p / 2, n / 2);
    }
  }

  // ---- What the search looks for ----

  /** No two functions of the list share a slot. */
  ghost predicate Perfect(wide: bool, funcs: seq<nat>, seed: nat) {
    forall i, j :: 0 <= i < j < |funcs| ==>
      Slot(wide, |funcs|, funcs[i], seed) != Slot(wide, |funcs|, funcs[j], seed)
  }

  /** The tables answer for the first `n` functions of the list. */
  ghost predicate Built(wide: bool, funcs: seq<nat>, seed: nat, n: nat,
                        lookaside: seq<nat>, inUse: seq<nat>, table: seq<nat>)
    requires n <= |funcs|
  {
    && |lookaside| == MapSize(|funcs|) && |inUse| == Units(MapSize(|funcs|)) && |table| == |funcs|
    && (forall k :: 0 <= k < n ==>
          var slot := Slot(wide, |funcs|, funcs[k], seed);
          InUse(inUse, slot) && lookaside[slot] == k && table[k] == funcs[k])
    && (forall slot :: 0 <= slot < |lookaside| && InUse(inUse, slot) ==> lookaside[slot] < n)
  }

  lemma BuiltMore(wide: bool, funcs: seq<nat>, seed: nat, n: nat, lookaside: seq<nat>, inUse: seq<nat>, table: seq<nat>)
    requires n < |funcs| && Perfect(wide, funcs, seed) && Built(wide, funcs, seed, n, lookaside, inUse, table)
    ensures var slot := Slot(wide, |funcs|, funcs[n], seed);
            && slot < |lookaside| && slot / 32 < |inUse|
            && Built(wide, funcs, seed, n + 1, lookaside[slot := n], SetInUse(inUse, slot), table[n := funcs[n]])
  {
    var slot := Slot(wide, |funcs|, funcs[n], seed);
    forall other | 0 <= other < |lookaside|
      ensures InUse(SetInUse(inUse, slot), other) <==> slot == other || InUse(inUse, other)
    {
      SetInUseIs(inUse, slot, other);
    }
  }

  lemma NothingBuilt(wide: bool, funcs: seq<nat>, seed: nat, lookaside: seq<nat>, inUse: seq<nat>, table: seq<nat>)
    requires |lookaside| == MapSize(|funcs|) && |inUse| == Units(MapSize(|funcs|)) && |table| == |funcs|
    requires forall u :: 0 <= u < |inUse| ==> inUse[u] == 0
    ensures Built(wide, funcs, seed, 0, lookaside, inUse, table)
  {
    forall slot | 0 <= slot < |lookaside|
      ensures !InUse(inUse, slot)
    {
      BitOfZero(slot % 32);
    }
  }

  // ---- The code ----

  class Profiler {
    const wide: bool          // whether addresses have 64 bits
    const funcs: seq<nat>     // func_list
    var seed: int             // prof_seed; -1 is the largest size_t
    const lookaside: array<nat>
    const inUse: array<nat>
    const table: array<nat>   // prof_table[i].func_addr

    predicate Shaped()
      reads this
    {
      && |funcs| <= MAX_FUNCTIONS
      && lookaside.Length == MapSize(|funcs|) && inUse.Length == Units(MapSize(|funcs|)) && table.Length == |funcs|
      && lookaside != inUse && lookaside != table && inUse != table
    }

    /** The tables answer for every function of the list. */
    ghost predicate Ready()
      reads this, lookaside, inUse, table
    {
      Shaped() && seed >= 0 && Perfect(wide, funcs, seed)
      && Built(wide, funcs, seed, |funcs|, lookaside[..], inUse[..], table[..])
    }

    constructor (w: bool, list: seq<nat>)
      requires |list| <= MAX_FUNCTIONS
      ensures Shaped() && wide == w && funcs == list
    {
      wide, funcs, seed := w, list, 0;
      lookaside := new nat[MapSize(|list|)];
      inUse := new nat[Units(MapSize(|list|))];
      table := new nat[|list|];
    }

    /** -1 when two functions share a slot, else the seed itself. */
    method TrySeed(s: nat) returns (r: int)
      requires Shaped()
      ensures r == if Perfect(wide, funcs, s) then s else -1
    {
      var taken := new bool[MapSize(|funcs|)](_ => false);
      var i := 0;
      while i < |funcs|
        invariant 0 <= i <= |funcs|
        invariant forall slot :: 0 <= slot < taken.Length ==>
                    (taken[slot] <==> exists k :: 0 <= k < i && Slot(wide, |funcs|, funcs[k], s) == slot)
        invariant forall j, k :: 0 <= j < k < i ==>
                    Slot(wide, |funcs|, funcs[j], s) != Slot(wide, |funcs|, funcs[k], s)
      {
        var slot := Slot(wide, |funcs|, funcs[i], s);
        if taken[slot] {
          return -1;
        }
        taken[slot] := true;
        i := i + 1;
      }
      r := s;
    }

    /** The least seed below 10000 without collisions; -1 exactly when there is none. */
    method FindPerfectSeed() returns (r: int)
      requires Shaped()
      ensures r == -1 ==> forall s :: 0 <= s < 10000 ==> !Perfect(wide, funcs, s)
      ensures r != -1 ==>
                && 0 <= r < 10000 && Perfect(wide, funcs, r)
                && forall s :: 0 <= s < r ==> !Perfect(wide, funcs, s)
    {
      var s: nat := 0;
      while s < MAX_SEED
        invariant s <= MAX_SEED
        invariant forall t :: 0 <= t < s ==> !Perfect(wide, funcs, t)
      {
        var tried := TrySeed(s);
        if tried != -1 {
          return s;
        }
        s := s + 1;
      }
      r := -1;
    }

    /** Fails, as the assertion in the source does, exactly when no seed below 10000 is perfect. */
    method InitProfiler() returns (ok: bool)
      requires Shaped()
      modifies this, lookaside, inUse, table
      ensures Shaped()
      ensures ok <==> exists s :: 0 <= s < 10000 && Perfect(wide, funcs, s)
      ensures ok ==> Ready() && seed < 10000 && forall s :: 0 <= s < seed ==> !Perfect(wide, funcs, s)
    {
      seed := FindPerfectSeed();
      if seed == -1 {
        return false;
      }
      ghost var found := seed;
      var u := 0;
      while u < inUse.Length
        invariant 0 <= u <= inUse.Length && Shaped() && seed == found
        invariant forall v :: 0 <= v < u ==> inUse[v] == 0
      {
        inUse[u] := 0;
        u := u + 1;
      }
      NothingBuilt(wide, funcs, seed, lookaside[..], inUse[..], table[..]);
      var i := 0;
      while i < |funcs|
        invariant 0 <= i <= |funcs| && Shaped() && seed == found
        invariant Built(wide, funcs, seed, i, lookaside[..], inUse[..], table[..])
      {
        AddFunction(i);
        i := i + 1;
      }
      ok := true;
    }

    method AddFunction(i: nat)
      requires Shaped() && i < |funcs| && seed >= 0 && Perfect(wide, funcs, seed)
      requires Built(wide, funcs, seed, i, lookaside[..], inUse[..], table[..])
      modifies lookaside, inUse, table
      ensures Built(wide, funcs, seed, i + 1, lookaside[..], inUse[..], table[..])
    {
      BuiltMore(wide, funcs, seed, i, lookaside[..], inUse[..], table[..]);
      ghost var was, used, listed := lookaside[..], inUse[..], table[..];
      var slot := Slot(wide, |funcs|, funcs[i], seed);
      lookaside[slot] := i;
      inUse[slot / 32] := WithBit(inUse[slot / 32], slot % 32);
      table[i] := funcs[i];
      assert lookaside[..] == was[slot := i];
      assert inUse[..] == SetInUse(used, slot);
      assert table[..] == listed[i := funcs[i]];
    }

    /** The position of an address in the list, for every address. */
    method GetFuncNodeIndex(address: nat) returns (r: int)
      requires Ready()
      ensures forall i :: 0 <= i < |funcs| ==> (r == i <==> funcs[i] == address)
      ensures r == -1 || 0 <= r < |funcs|
    {
      var slot := Slot(wide, |funcs|, address, seed);
      if Bit(inUse[slot / 32], slot % 32) == 1 {
        assert InUse(inUse[..], slot);
        var i := lookaside[slot];
        if table[i] == address {
          return i;
        }
      }
      r := -1;
    }
  }
}
