/**
 * Walking a function's capability list and enabling its message-signalled interrupt.
 * Models pcie_find_capability and pci_alloc_irq_vectors of src/drivers/pci/pci_rc.c.
 */
module PciCapabilities {
  import opened Arith
  import opened Words
  import opened PciConfig

  const MSI_CAP_ID := 5
  const MAX_HOPS := 15   // the countdown from 16 is tested after its decrement

  /** The header of the capability at a byte offset: its two low bytes are the identifier and the next offset. */
  function HeaderId(c: Config, b: Bdf, ptr: nat): (id: nat)
    requires ptr < 256
    ensures id < 256
  {
    ByteAt(Read(c, b, ptr / 4), ptr % 4)
  }

  /** The byte after it, which is zero when the identifier is the last byte of its register. */
  function NextPtr(c: Config, b: Bdf, ptr: nat): (next: nat)
    requires ptr < 256
    ensures next < 256
  {
    if ptr % 4 == 3 then 0 else ByteAt(Read(c, b, ptr / 4), ptr % 4 + 1)
  }

  function FirstPtr(c: Config, b: Bdf): (ptr: nat)
    ensures ptr < 256
  {
    ByteAt(Read(c, b, REG_CAP), 0)
  }

  /** Bit 4 of the status register. */
  predicate HasList(c: Config, b: Bdf) {
    HighHalf(Read(c, b, REG_COMMAND)) / 16 % 2 == 1
  }

  /** The search, with `left` hops to go. */
  function FindFrom(c: Config, b: Bdf, ptr: nat, wanted: nat, left: nat): (r: nat)
    requires ptr < 256
    ensures r < 256
    decreases left, ptr
  {
    if ptr == 0 || left == 0 then 0
    else if HeaderId(c, b, ptr) == wanted then ptr
    else FindFrom(c, b, NextPtr(c, b, ptr), wanted, left - 1)
  }

  function Find(c: Config, b: Bdf, wanted: nat): (r: nat)
    ensures r < 256
  {
    if HasList(c, b) then FindFrom(c, b, FirstPtr(c, b), wanted, MAX_HOPS) else 0
  }

  /** The `k`-th offset on the list that starts at `ptr`. */
  function Node(c: Config, b: Bdf, ptr: nat, k: nat): (r: nat)
    requires ptr < 256
    ensures r < 256
    decreases k
  {
    if k == 0 then ptr else Node(c, b, NextPtr(c, b, ptr), k - 1)
  }

  /** Neither the end of the list nor the capability sought is among the first `n` nodes. */
  ghost predicate PassedOver(c: Config, b: Bdf, ptr: nat, wanted: nat, n: nat)
    requires ptr < 256
  {
    forall j :: 0 <= j < n ==> Node(c, b, ptr, j) != 0 && HeaderId(c, b, Node(c, b, ptr, j)) != wanted
  }

  /** The search gives the first node with the identifier sought, and gives none when the list ends or
      the hops run out before there is one. */
  lemma {:induction false} FindsFirst(c: Config, b: Bdf, ptr: nat, wanted: nat, left: nat) returns (k: nat)
    requires ptr < 256
    ensures k <= left && PassedOver(c, b, ptr, wanted, k)
    ensures var r := FindFrom(c, b, ptr, wanted, left);
            if r != 0 then k < left && r == Node(c, b, ptr, k) && HeaderId(c, b, r) == wanted
            else k == left || Node(c, b, ptr, k) == 0
    decreases left, ptr
  {
    if ptr == 0 || left == 0 || HeaderId(c, b, ptr) == wanted {
      k := 0;
    } else {
      var next := NextPtr(c, b, ptr);
      var k' := FindsFirst(c, b, next, wanted, left - 1);
      k := k' + 1;
      forall j | 0 <= j < k
        ensures Node(c, b, ptr, j) != 0 && HeaderId(c, b, Node(c, b, ptr, j)) != wanted
      {
        if j > 0 {
          assert Node(c, b, ptr, j) == Node(c, b, next, j - 1);
        }
      }
    }
  }

  /** The list on register values: there is one when bit 20 of register 1 is set, its first offset is the low byte
      of register 13, and a capability's identifier and next offset are the bytes at its offset and behind. */
  lemma ListIs(c: Config, b: Bdf, ptr: nat)
    requires b in c && 0 < ptr < 256
    ensures HasList(c, b) <==> c[b].regs[1] / 0x10_0000 % 2 == 1
    ensures FirstPtr(c, b) == c[b].regs[13] % 0x100
    ensures HeaderId(c, b, ptr) == ByteOf(c[b].regs, ptr)
    ensures NextPtr(c, b, ptr) == if ptr % 4 == 3 then 0 else ByteOf(c[b].regs, ptr + 1)
  {
    StatusBit(c[b].regs[1]);
    BytesOf(c[b].regs[ptr / 4]);
    assert ptr % 4 < 3 ==> (ptr + 1) / 4 == ptr / 4 && (ptr + 1) % 4 == ptr % 4 + 1;
  }

  lemma StatusBit(w: Word)
    ensures w / 0x1_0000 / 16 % 2 == w / 0x10_0000 % 2
  {
    assert w / 0x1_0000 / 16 == w / 0x10_0000;
  }

  /** The byte at an offset of the little-endian registers. */
  function ByteOf(regs: seq<Word>, offset: nat): nat
    requires offset / 4 < |regs|
  {
    regs[offset / 4] / Power(8 * (offset % 4)) % 0x100
  }

  lemma BytesOf(w: Word)
    ensures forall i :: 0 <= i < 4 ==> ByteAt(w, i) == w / Power(8 * i) % 0x100
  {
    assert Power(8) == 0x100;
    PowerAdd(8, 8);
    PowerAdd(16, 8);
    assert w / 0x100_0000 < 0x100;
  }

  /** The whole search, from bit 20 of register 1 and the low byte of register 13 on, within 15 nodes. */
  lemma FindIs(c: Config, b: Bdf, wanted: nat) returns (k: nat)
    requires b in c
    ensures var r, first := Find(c, b, wanted), c[b].regs[13] % 0x100;
            if c[b].regs[1] / 0x10_0000 % 2 == 0 then r == 0
            else
              && k <= 15 && PassedOver(c, b, first, wanted, k)
              && if r != 0 then k < 15 && r == Node(c, b, first, k) && HeaderId(c, b, r) == wanted
                 else k == 15 || Node(c, b, first, k) == 0
  {
    StatusBit(c[b].regs[1]);
    k := FindsFirst(c, b, FirstPtr(c, b), wanted, MAX_HOPS);
  }

  // ---- What the search depends on ----

  /** Every node the search can come to lies above the predefined header, as the standard has it. */
  predicate HighFrom(c: Config, b: Bdf, ptr: nat, left: nat)
    requires ptr < 256
    decreases left, ptr
  {
    ptr == 0 || left == 0 || (ptr >= 0x40 && HighFrom(c, b, NextPtr(c, b, ptr), left - 1))
  }

  predicate HighList(c: Config, b: Bdf) {
    HasList(c, b) ==> HighFrom(c, b, FirstPtr(c, b), MAX_HOPS)
  }

  /** The registers outside the six BARs are the same in both. */
  ghost predicate SameButBars(c: Config, c': Config, b: Bdf) {
    forall r :: 0 <= r < 1024 && !(REG_BAR0 <= r < REG_BAR0 + MAX_BARS) ==> Read(c', b, r) == Read(c, b, r)
  }

  lemma {:induction false} FindSame(c: Config, c': Config, b: Bdf, ptr: nat, wanted: nat, left: nat)
    requires ptr < 256 && SameButBars(c, c', b) && HighFrom(c, b, ptr, left)
    ensures FindFrom(c', b, ptr, wanted, left) == FindFrom(c, b, ptr, wanted, left)
    ensures var r := FindFrom(c, b, ptr, wanted, left); r == 0 || r >= 0x40
    decreases left, ptr
  {
    if ptr != 0 && left != 0 {
      assert ptr / 4 >= 16;
      FindSame(c, c', b, NextPtr(c, b, ptr), wanted, left - 1);
    }
  }

  // ---- The interrupt ----

  /** Writing one 16-bit half of a register. */
  function SetHalf(s: Space, r: nat, high: bool, v: nat): Space
    requires r < 1024 && v < 0x1_0000
  {
    var w := s.writable[r];
    var mask := if high then HighHalf(w) * 0x1_0000 else LowHalf(w);
    s.(regs := s.regs[r := Stored(s.regs[r], mask, if high then v * 0x1_0000 else v)])
  }

  function WriteWord(c: Config, b: Bdf, offset: nat, v: nat): Config
    requires offset < 0x1000 && v < 0x1_0000
  {
    if b in c then c[b := SetHalf(c[b], offset / 4, offset % 4 >= 2, v)] else c
  }

  function ReadWord(c: Config, b: Bdf, offset: nat): (v: nat)
    requires offset < 0x1000
    ensures v < 0x1_0000
  {
    if offset % 4 >= 2 then HighHalf(Read(c, b, offset / 4)) else LowHalf(Read(c, b, offset / 4))
  }

  /** The platform's answer when asked for a vector. */
  datatype Vector = Refused | Given(vector: Word)

  function SetMessage(c: Config, b: Bdf, cap: nat, base: Word, vector: Word): Config
    requires cap < 256
  {
    WriteWord(Write(Write(c, b, (cap + 4) / 4, base), b, (cap + 8) / 4, 0), b, cap + 12, LowHalf(vector))
  }

  /** Sets bit 0 of the control word. */
  function EnableMsi(c: Config, b: Bdf, cap: nat): Config
    requires cap < 256
  {
    var control := ReadWord(c, b, cap + 2);
    WriteWord(c, b, cap + 2, if control % 2 == 0 then control + 1 else control)
  }

  function SetupMsi(c: Config, b: Bdf, base: Word, v: Vector): Config {
    var cap := Find(c, b, MSI_CAP_ID);
    if cap == 0 || v.Refused? then c
    else EnableMsi(SetMessage(c, b, cap, base, v.vector), b, cap)
  }

  /** Below the capability nothing changes, and nothing in any other function. */
  lemma MsiKeeps(c: Config, b: Bdf, base: Word, v: Vector, o: Bdf, r: nat)
    requires r < 1024 && (o != b || (r < 16 && (Find(c, b, MSI_CAP_ID) == 0 || Find(c, b, MSI_CAP_ID) >= 0x40)))
    ensures Read(SetupMsi(c, b, base, v), o, r) == Read(c, o, r)
    ensures SetupMsi(c, b, base, v).Keys == c.Keys
    ensures o in c ==> SetupMsi(c, b, base, v)[o].writable == c[o].writable
  {
    var cap := Find(c, b, MSI_CAP_ID);
    if cap != 0 && v.Given? && b in c {
      var c1 := SetMessage(c, b, cap, base, v.vector);
      assert c1.Keys == c.Keys;
      assert o in c ==> c1[o].writable == c[o].writable;
      assert Read(c1, o, r) == Read(c, o, r);
    }
  }

  // ---- What it writes, bit by bit ----

  lemma HalvesBits(w: Word, k: nat)
    requires k < 32
    ensures Bit(LowHalf(w), k) == if k < 16 then Bit(w, k) else 0
    ensures Bit(HighHalf(w) * 0x1_0000, k) == if k < 16 then 0 else Bit(w, k)
    ensures k >= 16 ==> Bit(HighHalf(w), k - 16) == Bit(w, k)
  {
    Power16();
    HalvesOf(w);
    AboveBit(HighHalf(w), 16, LowHalf(w), k);
    AboveBit(0, 16, LowHalf(w), k);
    AboveBit(HighHalf(w), 16, 0, k);
    BitOfZero(k);
    if k >= 16 {
      BitOfZero(k - 16);
    }
  }

  lemma LowBit(reg: Word, w: Word, v: nat, k: nat)
    requires v < 0x1_0000 && k < 32
    ensures Bit(Stored(reg, LowHalf(w), v), k) == if k < 16 && Bit(w, k) == 1 then Bit(v, k) else Bit(reg, k)
  {
    HalvesBits(w, k);
    StoredBit(reg, LowHalf(w), v, k);
  }

  lemma HighBit(reg: Word, w: Word, v: nat, k: nat)
    requires v < 0x1_0000 && k < 32
    ensures Bit(Stored(reg, HighHalf(w) * 0x1_0000, v * 0x1_0000), k)
            == if k >= 16 && Bit(w, k) == 1 then Bit(v, k - 16) else Bit(reg, k)
  {
    HalvesBits(w, k);
    Power16();
    AboveBit(v, 16, 0, k);
    StoredBit(reg, HighHalf(w) * 0x1_0000, v * 0x1_0000, k);
  }

  /** Writing one half of a register sets its writable bits there and leaves the other half alone. */
  lemma HalfBit(s: Space, r: nat, high: bool, v: nat, k: nat)
    requires r < 1024 && v < 0x1_0000 && k < 32
    ensures Bit(SetHalf(s, r, high, v).regs[r], k)
            == if high == (k >= 16) && Bit(s.writable[r], k) == 1 then Bit(v, if high then k - 16 else k)
               else Bit(s.regs[r], k)
  {
    if high {
      HighBit(s.regs[r], s.writable[r], v, k);
    } else {
      LowBit(s.regs[r], s.writable[r], v, k);
    }
  }

  lemma WriteBit(c: Config, b: Bdf, q: nat, v: Word, r: nat, k: nat)
    requires b in c && q < 1024 && r < 1024 && k < 32
    ensures var c' := Write(c, b, q, v);
            && b in c' && c'[b].writable == c[b].writable
            && Bit(c'[b].regs[r], k) == if r == q && Bit(c[b].writable[r], k) == 1 then Bit(v, k)
                                        else Bit(c[b].regs[r], k)
  {
    StoredBit(c[b].regs[q], c[b].writable[q], v, k);
  }

  lemma WriteWordBit(c: Config, b: Bdf, offset: nat, q: nat, high: bool, v: nat, r: nat, k: nat)
    requires b in c && offset < 0x1000 && v < 0x1_0000 && r < 1024 && k < 32
    requires q == offset / 4 && high == (offset % 4 >= 2)
    ensures var c' := WriteWord(c, b, offset, v);
            && b in c' && c'[b].writable == c[b].writable
            && Bit(c'[b].regs[r], k)
               == if r == q && high == (k >= 16) && Bit(c[b].writable[r], k) == 1
                  then Bit(v, if high then k - 16 else k) else Bit(c[b].regs[r], k)
  {
    HalfBit(c[b], q, high, v, k);
  }

  /** The register `r` of the capability at `cap`: base address and zero behind the first, the vector in the low
      half of the fourth. */
  lemma MessageBits(c: Config, b: Bdf, cap: nat, base: Word, vector: Word, r: nat, k: nat)
    requires b in c && cap < 256 && cap % 4 == 0 && r < 1024 && k < 32
    ensures var c', q := SetMessage(c, b, cap, base, vector), cap / 4;
            && b in c' && c'[b].writable == c[b].writable
            && Bit(c'[b].regs[r], k)
               == if Bit(c[b].writable[r], k) == 0 then Bit(c[b].regs[r], k)
                  else if r == q + 1 then Bit(base, k)
                  else if r == q + 2 then 0
                  else if r == q + 3 && k < 16 then Bit(vector, k)
                  else Bit(c[b].regs[r], k)
  {
    var q := cap / 4;
    assert (cap + 4) / 4 == q + 1 && (cap + 8) / 4 == q + 2 && (cap + 12) / 4 == q + 3 && (cap + 12) % 4 == 0;
    var c1 := Write(c, b, q + 1, base);
    WriteBit(c, b, q + 1, base, r, k);
    WriteBit(c1, b, q + 2, 0, r, k);
    BitOfZero(k);
    WriteWordBit(Write(c1, b, q + 2, 0), b, cap + 12, q + 3, false, LowHalf(vector), r, k);
    HalvesBits(vector, k);
  }

  lemma SetOne(control: nat, k: nat)
    requires control < 0x1_0000
    ensures var more := if control % 2 == 0 then control + 1 else control;
            more < 0x1_0000 && Bit(more, k) == if k == 0 then 1 else Bit(control, k)
  {
    var more := if control % 2 == 0 then control + 1 else control;
    assert more / 2 == control / 2;
  }

  lemma EnableBits(c: Config, b: Bdf, cap: nat, r: nat, k: nat)
    requires b in c && cap < 256 && cap % 4 == 0 && r < 1024 && k < 32
    ensures var c', q := EnableMsi(c, b, cap), cap / 4;
            && b in c' && c'[b].writable == c[b].writable
            && Bit(c'[b].regs[r], k)
               == if r == q && k == 16 && Bit(c[b].writable[r], k) == 1 then 1 else Bit(c[b].regs[r], k)
  {
    var q := cap / 4;
    assert (cap + 2) / 4 == q && (cap + 2) % 4 == 2;
    var control := HighHalf(c[b].regs[q]);
    WriteWordBit(c, b, cap + 2, q, true, if control % 2 == 0 then control + 1 else control, r, k);
    HalvesBits(c[b].regs[q], k);
    if k >= 16 {
      SetOne(control, k - 16);
    }
  }

  /** With a capability at an aligned offset and a vector given, the message address is the base, the data the
      vector and the enable bit, bit 16 of the capability's first register, is on, each where it can be written;
      every other bit is as it was. Without either nothing changes. */
  lemma MsiSets(c: Config, b: Bdf, base: Word, v: Vector, r: nat, k: nat)
    requires b in c && r < 1024 && k < 32 && Find(c, b, MSI_CAP_ID) % 4 == 0
    ensures var c', cap := SetupMsi(c, b, base, v), Find(c, b, 5);
            var q := cap / 4;
            && b in c'
            && Bit(c'[b].regs[r], k)
               == if cap == 0 || v.Refused? || Bit(c[b].writable[r], k) == 0 then Bit(c[b].regs[r], k)
                  else if r == q && k == 16 then 1
                  else if r == q + 1 then Bit(base, k)
                  else if r == q + 2 then 0
                  else if r == q + 3 && k < 16 then Bit(v.vector, k)
                  else Bit(c[b].regs[r], k)
  {
    var cap := Find(c, b, MSI_CAP_ID);
    if cap != 0 && v.Given? {
      MessageBits(c, b, cap, base, v.vector, r, k);
      EnableBits(SetMessage(c, b, cap, base, v.vector), b, cap, r, k);
    }
  }

  class Capabilities {
    const space: ConfigSpace

    constructor (s: ConfigSpace)
      ensures space == s
    {
      space := s;
    }

    method FindCapability(b: Bdf, wanted: nat) returns (r: nat)
      ensures r == Find(space.config, b, wanted)
    {
      var command := space.ReadDword(b, REG_COMMAND);
      if HighHalf(command) / 16 % 2 != 1 {
        return 0;
      }
      var first := space.ReadDword(b, REG_CAP);
      var ptr: nat := ByteAt(first, 0);
      var left: nat := MAX_HOPS;
      while ptr != 0 && left > 0
        invariant ptr < 256
        invariant FindFrom(space.config, b, ptr, wanted, left) == Find(space.config, b, wanted)
        decreases left
      {
        var raw := space.ReadDword(b, ptr / 4);
        if ByteAt(raw, ptr % 4) == wanted {
          return ptr;
        }
        ptr, left := if ptr % 4 == 3 then 0 else ByteAt(raw, ptr % 4 + 1), left - 1;
      }
      r := 0;
    }

    method AllocIrqVectors(b: Bdf, base: Word, v: Vector)
      modifies space
      ensures space.config == SetupMsi(old(space.config), b, base, v)
    {
      var cap := FindCapability(b, MSI_CAP_ID);
      if cap == 0 || v.Refused? {
        return;
      }
      WriteMessage(b, cap, base, v.vector);
      SetEnable(b, cap);
    }

    method WriteMessage(b: Bdf, cap: nat, base: Word, vector: Word)
      requires cap < 256
      modifies space
      ensures space.config == SetMessage(old(space.config), b, cap, base, vector)
    {
      space.WriteDword(b, (cap + 4) / 4, base);
      space.WriteDword(b, (cap + 8) / 4, 0);
      space.config := WriteWord(space.config, b, cap + 12, LowHalf(vector));
    }

    method SetEnable(b: Bdf, cap: nat)
      requires cap < 256
      modifies space
      ensures space.config == EnableMsi(old(space.config), b, cap)
    {
      var control := ReadWord(space.config, b, cap + 2);
      if control % 2 == 0 {
        control := control + 1;
      }
      space.config := WriteWord(space.config, b, cap + 2, control);
    }
  }
}
