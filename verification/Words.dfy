/** 32-bit words as numbers, and the bitwise operations on them that pick bits from two words. */
module Words {
  import opened Arith

  const ONES: Word := 0xFFFF_FFFF

  type Word = n: nat | n < U32

  lemma Power32()
    ensures Power(32) == U32
  {
    assert Power(8) == 256;
    PowerAdd(8, 8);
    PowerAdd(16, 16);
  }

  lemma {:induction false} PowerAdd(m: nat, n: nat)
    ensures Power(m + n) == Power(m) * Power(n)
  {
    if m > 0 {
      PowerAdd(m - 1, n);
      assert 2 * Power(m - 1) * Power(n) == 2 * (Power(m - 1) * Power(n));
    }
  }

  /** The low `n` bits of `v` where the mask has a one, those of `reg` where it has a zero:
      `(v & mask) | (reg & ~mask)`. */
  function Mux(n: nat, mask: nat, v: nat, reg: nat): (r: nat)
    ensures r < Power(n)
  {
    if n == 0 then 0
    else 2 * Mux(n - 1, mask / 2, v / 2, reg / 2) + (if mask % 2 == 1 then v % 2 else reg % 2)
  }

  /** Picking some bits of `v` and then those same bits of `reg` again gives `reg` back. */
  lemma {:induction false} MuxBack(n: nat, mask: nat, v: nat, reg: nat)
    requires reg < Power(n)
    ensures Mux(n, mask, reg, Mux(n, mask, v, reg)) == reg
  {
    if n > 0 {
      var once := Mux(n, mask, v, reg);
      var half := Mux(n - 1, mask / 2, v / 2, reg / 2);
      assert once / 2 == half;
      MuxBack(n - 1, mask / 2, v / 2, reg / 2);
    }
  }

  lemma HalfMod(x: nat, size: nat)
    requires size > 0
    ensures x % (2 * size) == 2 * ((x / 2) % size) + x % 2
  {
    var q, r := x / 2 / size, (x / 2) % size;
    Double(q, size);
    ModIs(x, q, 2 * r + x % 2, 2 * size);
  }

  lemma {:induction false} MuxAll(n: nat, v: nat, reg: nat)
    requires v < Power(n)
    ensures Mux(n, Power(n) - 1, v, reg) == v
  {
    if n > 0 {
      assert (Power(n) - 1) / 2 == Power(n - 1) - 1;
      MuxAll(n - 1, v / 2, reg / 2);
    }
  }

  lemma {:induction false} MuxNone(n: nat, v: nat, reg: nat)
    requires reg < Power(n)
    ensures Mux(n, 0, v, reg) == reg
  {
    if n > 0 {
      MuxNone(n - 1, v / 2, reg / 2);
    }
  }

  /** A mask that selects all bits from a power of two up. */
  lemma {:induction false} MuxHigh(n: nat, size: nat, v: nat, reg: nat)
    requires PowerOfTwo(size) && size <= Power(n) && v < Power(n) && reg < Power(n)
    ensures Mux(n, Power(n) - size, v, reg) == v - v % size + reg % size
  {
    if size == 1 {
      MuxAll(n, v, reg);
    } else {
      assert (Power(n) - size) / 2 == Power(n - 1) - size / 2;
      MuxHigh(n - 1, size / 2, v / 2, reg / 2);
      HalfMod(v, size / 2);
      HalfMod(reg, size / 2);
    }
  }

  /** Byte `i` of a word, the lowest first. */
  function ByteAt(w: Word, i: nat): (b: nat)
    requires i < 4
    ensures b < 256
  {
    match i
    case 0 => w % 0x100
    case 1 => w / 0x100 % 0x100
    case 2 => w / 0x1_0000 % 0x100
    case 3 => w / 0x100_0000
  }

  function LowHalf(w: Word): Word {
    w % 0x1_0000
  }

  function HighHalf(w: Word): Word {
    w / 0x1_0000
  }

  /** The word that holds a 32-bit register after `v` is written, when only the bits of `mask` can change. */
  function Stored(reg: Word, mask: Word, v: Word): Word {
    Power32();
    Mux(32, mask, v, reg)
  }

  /** Writing anything and then the old value leaves a register as it was, whatever bits can change. */
  lemma Restored(reg: Word, mask: Word, v: Word)
    ensures Stored(Stored(reg, mask, v), mask, reg) == reg
  {
    Power32();
    MuxBack(32, mask, v, reg);
  }

  lemma StoredHigh(reg: Word, size: nat, v: Word)
    requires PowerOfTwo(size) && size < U32
    ensures Stored(reg, U32 - size, v) == v - v % size + reg % size
  {
    Power32();
    MuxHigh(32, size, v, reg);
  }

  /** 32-bit addition. */
  function Add(x: Word, y: Word): Word {
    if x + y < U32 then x + y else x + y - U32
  }

  /** `x & ~mask`. */
  function AndNot(x: Word, mask: Word): Word {
    Stored(0, ONES - mask, x)
  }

  /** `x & ~(size - 1)` rounds down to a multiple of a power of two. */
  lemma AndNotRounds(x: Word, size: Word)
    requires PowerOfTwo(size)
    ensures AndNot(x, size - 1) == x - x % size
  {
    assert ONES - (size - 1) == U32 - size;
    Remainder0(size);
    StoredHigh(0, size, x);
  }

  lemma Remainder0(d: nat)
    requires d > 0
    ensures 0 % d == 0
  {
  }

  lemma AndOne(x: Word)
    ensures AndNot(x, ONES - 1) == x % 2
  {
    Power32();
    MuxNone(31, x / 2, 0);
  }

  /** `high` above a field of `n` bits that holds `low`. */
  function Above(high: nat, n: nat, low: nat): nat {
    high * Power(n) + low
  }

  lemma AboveHalf(high: nat, n: nat, low: nat)
    requires n > 0
    ensures Above(high, n, low) / 2 == Above(high, n - 1, low / 2) && Above(high, n, low) % 2 == low % 2
    ensures Above(high, n, low) == 2 * Above(high, n - 1, low / 2) + low % 2
  {
    Double(high, Power(n - 1));
    assert Above(high, n, low) == 2 * Above(high, n - 1, low / 2) + low % 2;
  }

  /** Two fields side by side are picked each for itself. */
  lemma {:induction false} MuxSplit(n: nat, m: nat, maskHigh: nat, mask: nat, vHigh: nat, v: nat,
                                    regHigh: nat, reg: nat)
    requires mask < Power(n) && v < Power(n) && reg < Power(n)
    ensures Mux(n + m, Above(maskHigh, n, mask), Above(vHigh, n, v), Above(regHigh, n, reg))
            == Above(Mux(m, maskHigh, vHigh, regHigh), n, Mux(n, mask, v, reg))
  {
    if n > 0 {
      AboveHalf(maskHigh, n, mask);
      AboveHalf(vHigh, n, v);
      AboveHalf(regHigh, n, reg);
      AboveHalf(Mux(m, maskHigh, vHigh, regHigh), n, Mux(n, mask, v, reg));
      MuxSplit(n - 1, m, maskHigh, mask / 2, vHigh, v / 2, regHigh, reg / 2);
    }
  }

  lemma Power16()
    ensures Power(16) == 0x1_0000
  {
    assert Power(8) == 256;
    PowerAdd(8, 8);
  }

  lemma StoredIs(reg: Word, mask: Word, v: Word)
    ensures Stored(reg, mask, v) == Above(Mux(16, HighHalf(mask), HighHalf(v), HighHalf(reg)), 16,
                                          Mux(16, LowHalf(mask), LowHalf(v), LowHalf(reg)))
  {
    Power16();
    MuxSplit(16, 16, HighHalf(mask), LowHalf(mask), HighHalf(v), LowHalf(v), HighHalf(reg), LowHalf(reg));
    HalvesOf(reg);
    HalvesOf(mask);
    HalvesOf(v);
  }

  /** A register is picked half by half. */
  lemma StoredHalves(reg: Word, mask: Word, v: Word)
    ensures LowHalf(Stored(reg, mask, v)) == Mux(16, LowHalf(mask), LowHalf(v), LowHalf(reg))
    ensures HighHalf(Stored(reg, mask, v)) == Mux(16, HighHalf(mask), HighHalf(v), HighHalf(reg))
  {
    Power16();
    var low := Mux(16, LowHalf(mask), LowHalf(v), LowHalf(reg));
    var high := Mux(16, HighHalf(mask), HighHalf(v), HighHalf(reg));
    StoredIs(reg, mask, v);
    AboveParts(high, low, Stored(reg, mask, v));
  }

  lemma AboveParts(high: nat, low: nat, w: Word)
    requires high < 0x1_0000 && low < 0x1_0000 && w == Above(high, 16, low)
    ensures LowHalf(w) == low && HighHalf(w) == high
  {
    Power16();
    Joined(high, low);
  }

  lemma Joined(high: nat, low: nat)
    requires high < 0x1_0000 && low < 0x1_0000
    ensures LowHalf(high * 0x1_0000 + low) == low && HighHalf(high * 0x1_0000 + low) == high
  {
  }

  /** Writing one half of a register whose window bits alone can change. */
  lemma HighPicked(reg: Word, v: nat, shifted: Word)
    requires v < 0x1_0000 && shifted == v * 0x1_0000
    ensures var now := Stored(reg, 0xFFF0_0000, shifted);
            LowHalf(now) == LowHalf(reg) && HighHalf(now) == v - v % 16 + HighHalf(reg) % 16
  {
    StoredHalves(reg, 0xFFF0_0000, shifted);
    Joined(v, 0);
    Joined(0xFFF0, 0);
    HalfPicked(v, HighHalf(reg));
    HalfPicked(0, LowHalf(reg));
  }

  lemma LowPicked(reg: Word, v: nat)
    requires v < 0x1_0000
    ensures var now := Stored(reg, 0xFFF0, v);
            LowHalf(now) == v - v % 16 + LowHalf(reg) % 16 && HighHalf(now) == HighHalf(reg)
  {
    StoredHalves(reg, 0xFFF0, v);
    Joined(0, v);
    Joined(0, 0xFFF0);
    HalfPicked(v, LowHalf(reg));
    HalfPicked(0, HighHalf(reg));
  }

  lemma BothPicked(reg: Word, v: Word)
    ensures var now := Stored(reg, 0xFFF0_FFF0, v);
            && LowHalf(now) == LowHalf(v) - LowHalf(v) % 16 + LowHalf(reg) % 16
            && HighHalf(now) == HighHalf(v) - HighHalf(v) % 16 + HighHalf(reg) % 16
  {
    StoredHalves(reg, 0xFFF0_FFF0, v);
    HalfPicked(LowHalf(v), LowHalf(reg));
    HalfPicked(HighHalf(v), HighHalf(reg));
  }

  lemma HalvesOf(w: Word)
    ensures Above(HighHalf(w), 16, LowHalf(w)) == w
  {
    Power16();
  }

  /** A half of which the upper twelve bits can change, one of which none can. */
  lemma HalfPicked(v: nat, reg: nat)
    requires v < 0x1_0000 && reg < 0x1_0000
    ensures Mux(16, 0xFFF0, v, reg) == v - v % 16 + reg % 16
    ensures Mux(16, 0, v, reg) == reg
  {
    Power16();
    assert PowerOfTwo(16);
    MuxHigh(16, 16, v, reg);
    MuxNone(16, v, reg);
  }

  // ---- Bit by bit ----

  /** Bit `n` of a number, the lowest first. */
  function Bit(w: nat, n: nat): (b: nat)
    ensures b < 2
    decreases n, w
  {
    if n == 0 then w % 2 else Bit(w / 2, n - 1)
  }

  /** The three lowest bits, and the bits above them. */
  lemma LowBits(w: nat, k: nat)
    ensures Bit(w, 0) == w % 2 && Bit(w, 1) == w / 2 % 2 && Bit(w, 2) == w / 4 % 2
    ensures k >= 3 ==> Bit(w, k) == Bit(w / 8, k - 3)
  {
    assert w / 2 / 2 == w / 4 && w / 4 / 2 == w / 8;
    assert Bit(w, 2) == Bit(w / 2, 1) == Bit(w / 2 / 2, 0);
    if k >= 3 {
      assert Bit(w, k) == Bit(w / 2, k - 1);
      assert Bit(w / 2, k - 1) == Bit(w / 4, k - 2);
    }
  }

  /** A number is made of its three lowest bits and the rest. */
  lemma Parts(h: nat, a: nat, b: nat, c: nat)
    requires a < 2 && b < 2 && c < 2
    ensures var w := 8 * h + 4 * a + 2 * b + c;
            w / 8 == h && w / 4 % 2 == a && w / 2 % 2 == b && w % 2 == c
  {
    var w := 8 * h + 4 * a + 2 * b + c;
    ModIs(w, h, 4 * a + 2 * b + c, 8);
    ModIs(w, 2 * h + a, 2 * b + c, 4);
    ModIs(w, 4 * h + 2 * a + b, c, 2);
    ModIs(2 * h + a, h, a, 2);
    ModIs(4 * h + 2 * a + b, 2 * h + a, b, 2);
  }

  lemma PartsOf(w: nat)
    ensures w == 8 * (w / 8) + 4 * (w / 4 % 2) + 2 * (w / 2 % 2) + w % 2
  {
    assert w / 2 / 2 == w / 4 && w / 4 / 2 == w / 8;
  }

  lemma TwoBits(w: nat, h: nat, a: nat, b: nat)
    requires w == 4 * h + 2 * a + b && a < 2 && b < 2
    ensures w % 4 == 2 * a + b
  {
  }

  lemma {:induction false} BitIs(w: nat, n: nat)
    ensures Bit(w, n) == w / Power(n) % 2
  {
    if n > 0 {
      BitIs(w / 2, n - 1);
      DivTwice(w, Power(n - 1));
    }
  }

  /** Each bit is picked for itself. */
  lemma {:induction false} MuxBit(n: nat, mask: nat, v: nat, reg: nat, k: nat)
    requires k < n
    ensures Bit(Mux(n, mask, v, reg), k) == if Bit(mask, k) == 1 then Bit(v, k) else Bit(reg, k)
  {
    if k > 0 {
      assert Mux(n, mask, v, reg) / 2 == Mux(n - 1, mask / 2, v / 2, reg / 2);
      MuxBit(n - 1, mask / 2, v / 2, reg / 2, k - 1);
    }
  }

  /** Writing `v` to a register changes exactly its writable bits, and makes each that of `v`. */
  lemma StoredBit(reg: Word, mask: Word, v: Word, k: nat)
    requires k < 32
    ensures Bit(Stored(reg, mask, v), k) == if Bit(mask, k) == 1 then Bit(v, k) else Bit(reg, k)
  {
    Power32();
    MuxBit(32, mask, v, reg, k);
  }

  lemma {:induction false} AboveBit(high: nat, n: nat, low: nat, k: nat)
    requires low < Power(n)
    ensures Bit(Above(high, n, low), k) == if k < n then Bit(low, k) else Bit(high, k - n)
  {
    if n > 0 {
      AboveHalf(high, n, low);
      if k > 0 {
        AboveBit(high, n - 1, low / 2, k - 1);
      }
    }
  }

  lemma {:induction false} BitOfZero(k: nat)
    ensures Bit(0, k) == 0
  {
    if k > 0 {
      BitOfZero(k - 1);
    }
  }

  /** A word is the sum of its halves and of its bytes. */
  lemma WordIs(w: Word)
    ensures w == LowHalf(w) + 0x1_0000 * HighHalf(w) && LowHalf(w) < 0x1_0000 && HighHalf(w) < 0x1_0000
    ensures w == ByteAt(w, 0) + 0x100 * ByteAt(w, 1) + 0x1_0000 * ByteAt(w, 2) + 0x100_0000 * ByteAt(w, 3)
  {
  }
}
