/**
 * PCI configuration space and the sizing of base address registers.
 * Models the configuration accessors and the BAR loop of src/drivers/pci/pci_rc.c.
 */
module PciConfig {
  import opened Arith
  import opened Words

  const MAX_BARS := 6
  const MAX_FUNCTIONS := 8

  // Register numbers: the byte offset of the register divided by four.
  const REG_ID := 0
  const REG_COMMAND := 1
  const REG_HEADER := 3
  const REG_BAR0 := 4
  const REG_BUSES := 6
  const REG_WINDOW := 8
  const REG_CAP := 13

  datatype Bdf = Bdf(bus: nat, dev: nat, func: nat)

  /** One function's 4 KB of registers; a write changes only the bits set in `writable`. */
  datatype RawSpace = Space(regs: seq<Word>, writable: seq<Word>)
  type Space = s: RawSpace | |s.regs| == 1024 && |s.writable| == 1024
    witness Space(seq(1024, _ => 0), seq(1024, _ => 0))

  type Config = map<Bdf, Space>

  function SetReg(s: Space, r: nat, v: Word): Space
    requires r < 1024
  {
    s.(regs := s.regs[r := Stored(s.regs[r], s.writable[r], v)])
  }

  /** Reading a function that is not there gives all ones; writing to it does nothing. */
  function Read(c: Config, b: Bdf, r: nat): Word
    requires r < 1024
  {
    if b in c then c[b].regs[r] else ONES
  }

  function Write(c: Config, b: Bdf, r: nat, v: Word): Config
    requires r < 1024
  {
    if b in c then c[b := SetReg(c[b], r, v)] else c
  }

  /** The memory-mapped address of a register. */
  function EcamOffset(bus: nat, dev: nat, func: nat, register: nat): nat {
    bus * 0x10_0000 + dev * 0x8000 + func * 0x1000 + register * 4
  }

  /** An address stands for one register only, so a configuration space may be seen as a map from
      functions to registers. */
  lemma EcamInjective(b: Bdf, r: nat, b': Bdf, r': nat)
    requires b.bus < 256 && b.dev < 32 && b.func < 8 && r < 1024
    requires b'.bus < 256 && b'.dev < 32 && b'.func < 8 && r' < 1024
    ensures EcamOffset(b.bus, b.dev, b.func, r) == EcamOffset(b'.bus, b'.dev, b'.func, r') ==> b == b' && r == r'
    ensures EcamOffset(b.bus, b.dev, b.func, r) < 0x1000_0000
  {
  }

  lemma SpaceRestored(s: Space, r: nat, v: Word)
    requires r < 1024
    ensures SetReg(SetReg(s, r, v), r, s.regs[r]) == s
  {
    Restored(s.regs[r], s.writable[r], v);
    assert SetReg(SetReg(s, r, v), r, s.regs[r]).regs == s.regs;
  }

  lemma ConfigRestored(c: Config, b: Bdf, r: nat, v: Word)
    requires r < 1024 && b in c
    ensures Write(Write(c, b, r, v), b, r, c[b].regs[r]) == c
    ensures Read(Write(c, b, r, v), b, r) == Stored(c[b].regs[r], c[b].writable[r], v)
  {
    SpaceRestored(c[b], r, v);
    assert Write(Write(c, b, r, v), b, r, c[b].regs[r]) == c;
  }

  /** Two registers probed together and restored in the order the code restores them. */
  lemma PairRestored(c: Config, b: Bdf, r: nat, q: nat)
    requires r < 1024 && q < 1024 && r != q && b in c
    ensures var c1 := Write(c, b, r, ONES);
            var c2 := Write(c1, b, q, ONES);
            && Read(c1, b, q) == c[b].regs[q]
            && Read(c2, b, q) == Stored(c[b].regs[q], c[b].writable[q], ONES)
            && Write(Write(c2, b, r, c[b].regs[r]), b, q, c[b].regs[q]) == c
  {
    var s := c[b];
    var s1 := SetReg(s, r, ONES);
    var s2 := SetReg(s1, q, ONES);
    var s3 := SetReg(s2, r, s.regs[r]);
    Restored(s.regs[r], s.writable[r], ONES);
    Restored(s.regs[q], s.writable[q], ONES);
    TwoUpdates(s.regs, r, q, s1.regs[r], s2.regs[q]);
    assert SetReg(s3, q, s.regs[q]) == s;
    assert Write(Write(Write(Write(c, b, r, ONES), b, q, ONES), b, r, s.regs[r]), b, q, s.regs[q]) == c;
  }

  /** The address holds the bus in bits 20 to 27, the device in 15 to 19, the function in 12 to 14. */
  lemma EcamFields(b: Bdf, r: nat)
    requires b.bus < 256 && b.dev < 32 && b.func < 8 && r < 1024
    ensures var a := EcamOffset(b.bus, b.dev, b.func, r);
            a / 0x10_0000 == b.bus && a / 0x8000 % 32 == b.dev && a / 0x1000 % 8 == b.func && a % 0x1000 == 4 * r
  {
    var a := EcamOffset(b.bus, b.dev, b.func, r);
    Field(a, 0x10_0000, b.bus, b.dev * 0x8000 + b.func * 0x1000 + r * 4);
    Field(a, 0x8000, 32 * b.bus + b.dev, b.func * 0x1000 + r * 4);
    Field(a, 0x1000, 256 * b.bus + 8 * b.dev + b.func, r * 4);
    ModIs(32 * b.bus + b.dev, b.bus, b.dev, 32);
    ModIs(256 * b.bus + 8 * b.dev + b.func, 32 * b.bus + b.dev, b.func, 8);
  }

  lemma Field(a: nat, d: nat, q: nat, r: nat)
    requires r < d && a == q * d + r
    ensures a / d == q && a % d == r
  {
    ModIs(a, q, r, d);
  }

  lemma TwoUpdates(regs: seq<Word>, r: nat, q: nat, x: Word, y: Word)
    requires r < |regs| && q < |regs| && r != q
    ensures regs[r := x][q := y][r := regs[r]][q := regs[q]] == regs
  {
  }

  // ---- Sizing ----

  /** The two arrays of a database entry that the BAR loop fills; entries start out zero. */
  datatype RawBars = Bars(size: seq<Word>, address: seq<Word>)
  type Bars = b: RawBars | |b.size| == MAX_BARS && |b.address| == MAX_BARS
    witness Bars([0, 0, 0, 0, 0, 0], [0, 0, 0, 0, 0, 0])

  const NO_BARS: Bars := Bars([0, 0, 0, 0, 0, 0], [0, 0, 0, 0, 0, 0])

  function Original(s: Space, i: nat): Word
    requires i < MAX_BARS
  {
    s.regs[REG_BAR0 + i]
  }

  /** What reads back after all ones are written. */
  function ReadBack(s: Space, i: nat): Word
    requires i < MAX_BARS
  {
    Stored(s.regs[REG_BAR0 + i], s.writable[REG_BAR0 + i], ONES)
  }

  /** The low four bits of a BAR: its type. The rest is its address. */
  function Low(reg: Word): (n: nat)
    ensures n < 16 && n <= reg
  {
    reg % 16
  }

  function Base(reg: Word): Word {
    reg - Low(reg)
  }

  predicate Unsized(readBack: Word) {
    readBack == 0 || readBack == ONES || Low(readBack) % 2 == 1
  }

  /** Type bits 2 and 1 are 1 and 0. */
  predicate Is64(readBack: Word) {
    Low(readBack) / 2 % 4 == 2
  }

  /** `~mask + 1`, when the address bits that stuck are neither none nor all. */
  function Size32(readBack: Word): Word {
    var mask := Base(readBack);
    if mask != 0 && mask != 0xFFFF_FFF0 then U32 - mask else 0
  }

  function Size64(readBack: Word, upper: Word): Word {
    var mask := upper * U32 + Base(readBack);
    if mask == 0 then 0
    else
      var size := U32 * U32 - mask;
      if size > ONES then ONES else size
  }

  /** The entries from `i` on, cleared. */
  function Cleared(bars: Bars, i: nat): (r: Bars)
    requires i <= MAX_BARS
    ensures forall j :: 0 <= j < MAX_BARS ==>
                          && r.size[j] == (if j < i then bars.size[j] else 0)
                          && r.address[j] == (if j < i then bars.address[j] else 0)
    decreases MAX_BARS - i
  {
    if i == MAX_BARS then bars
    else Cleared(Bars(bars.size[i := 0], bars.address[i := 0]), i + 1)
  }

  /** What one turn of the loop does at a BAR. */
  datatype Verdict =
    | Stop                                // the register holds zero
    | Skip                                // nothing to size: an I/O BAR, or no writable bit
    | Half(size: Word, address: Word)     // a 32-bit BAR
    | Whole(size: Word, address: Word)    // a 64-bit BAR, which takes the next register too

  function Judge(original: Word, readBack: Word, upper: Word, last: bool): Verdict {
    if original == 0 then Stop
    else if Unsized(readBack) then Skip
    else if Is64(readBack) && !last then Whole(Size64(readBack, upper), Base(original))
    else Half(Size32(readBack), Base(original))
  }

  /** The upper half is read back only behind a 64-bit BAR. */
  function UpperAt(s: Space, i: nat): Word
    requires i < MAX_BARS
  {
    if !Unsized(ReadBack(s, i)) && Is64(ReadBack(s, i)) && i < MAX_BARS - 1 then ReadBack(s, i + 1) else 0
  }

  function VerdictAt(s: Space, i: nat): Verdict
    requires i < MAX_BARS
  {
    Judge(Original(s, i), ReadBack(s, i), UpperAt(s, i), i == MAX_BARS - 1)
  }

  type Verdicts = v: seq<Verdict> | |v| == MAX_BARS && !v[MAX_BARS - 1].Whole?
    witness [Stop, Stop, Stop, Stop, Stop, Stop]

  function AllVerdicts(s: Space): Verdicts {
    seq(MAX_BARS, i requires 0 <= i < MAX_BARS => VerdictAt(s, i))
  }

  /** The entries after the turn at BAR `i`, when it does not stop the loop. */
  function Turn(v: Verdicts, i: nat, bars: Bars): Bars
    requires i < MAX_BARS
  {
    match v[i]
    case Stop => bars
    case Skip => Bars(bars.size[i := 0], bars.address)
    case Half(size, address) => Bars(bars.size[i := size], bars.address[i := address])
    case Whole(size, address) => Bars(bars.size[i := size][i + 1 := 0], bars.address[i := address])
  }

  function After(v: Verdicts, i: nat): nat
    requires i < MAX_BARS
  {
    if v[i].Whole? then i + 2 else i + 1
  }

  /** What the loop makes of the entries when it stands at BAR `i`. */
  function ProbeFrom(v: Verdicts, i: nat, bars: Bars): Bars
    requires i <= MAX_BARS
    decreases MAX_BARS - i
  {
    if i == MAX_BARS then bars
    else if v[i].Stop? then Cleared(bars, i)
    else ProbeFrom(v, After(v, i), Turn(v, i, bars))
  }

  function Probe(s: Space): Bars {
    ProbeFrom(AllVerdicts(s), 0, NO_BARS)
  }

  // ---- What the sizes mean ----

  /** A register for a 32-bit block of memory of `size` bytes at an aligned address: exactly the address
      bits above the block are writable, and the type bits say memory and not 64-bit. */
  ghost predicate Block32(reg: Word, w: Word, size: Word) {
    && PowerOfTwo(size) && size >= 16 && w == U32 - size
    && reg % size < 16 && reg % 2 == 0 && reg / 2 % 4 != 2
  }

  /** A pair of registers for a 64-bit block of less than 4 GB. */
  ghost predicate Block64(reg: Word, w: Word, wUpper: Word, size: Word) {
    && PowerOfTwo(size) && size >= 16 && w == U32 - size && wUpper == ONES
    && reg % size < 16 && reg % 2 == 0 && reg / 2 % 4 == 2
  }

  /** A pair of registers for a 64-bit block of `units` times 4 GB; the lower one holds only its type,
      with or without the prefetchable bit. */
  ghost predicate HugeBlock(reg: Word, upper: Word, w: Word, wUpper: Word, units: Word) {
    && PowerOfTwo(units) && w == 0 && wUpper == U32 - units
    && (reg == 4 || reg == 12) && upper % units == 0
  }

  /** Bit 0 says I/O, bits 2 and 1 are 1 and 0 for a 64-bit block. */
  lemma TypeIs(reg: Word)
    ensures Low(reg) % 2 == reg % 2 && (Is64(reg) <==> reg / 2 % 4 == 2)
  {
  }

  function Mask(s: Space, i: nat): Word
    requires i < MAX_BARS
  {
    s.writable[REG_BAR0 + i]
  }

  /** The loop, standing at `i`, comes to BAR `j`: it stops at the first register that holds zero and
      steps over the upper half of a 64-bit BAR. */
  ghost predicate Reaches(v: Verdicts, i: nat, j: nat)
    requires i <= MAX_BARS
    decreases MAX_BARS - i
  {
    i == j || (i < MAX_BARS && !v[i].Stop? && Reaches(v, After(v, i), j))
  }

  lemma PowerFrom16(size: nat)
    requires PowerOfTwo(size) && 16 <= size
    ensures size % 16 == 0
  {
    assert PowerOfTwo(16);
    PowersDivide(16, size);
  }

  /** Of an aligned block's register only the type bits lie below the block. */
  lemma TypeBits(reg: Word, size: nat)
    requires size % 16 == 0 && size > 0 && reg % size < 16
    ensures reg % size == Low(reg)
  {
    var q := reg / size;
    var k := size / 16;
    assert reg == q * (16 * k) + reg % size;
    Scale(q, k);
    ModIs(reg, q * k, reg % size, 16);
  }

  lemma Scale(q: nat, k: nat)
    ensures q * (16 * k) == (q * k) * 16
  {
  }

  lemma LowOf(size: Word, bits: nat)
    requires size % 16 == 0 && 0 < size && bits < 16
    ensures Low(U32 - size + bits) == bits
  {
    ModIs(U32 - size + bits, 0x1000_0000 - size / 16, bits, 16);
  }

  /** All ones read back as ones above the block and the type bits below. */
  lemma ReadsBack(reg: Word, size: Word)
    requires PowerOfTwo(size) && 16 <= size && reg % size < 16
    ensures Stored(reg, U32 - size, ONES) == U32 - size + Low(reg)
    ensures Low(U32 - size + Low(reg)) == Low(reg)
  {
    PowerFrom16(size);
    TypeBits(reg, size);
    StoredHigh(reg, size, ONES);
    OnesMod(size);
    LowOf(size, Low(reg));
  }

  lemma OnesMod(size: Word)
    requires PowerOfTwo(size)
    ensures ONES % size == size - 1
  {
    U32IsPower();
    PowersDivide(size, U32);
    Exact(U32, size);
    LastMod(U32 / size, size);
  }

  lemma Exact(x: nat, d: nat)
    requires 0 < d <= x && x % d == 0
    ensures x == x / d * d && x / d >= 1
  {
  }

  lemma LastMod(q: nat, size: nat)
    requires q >= 1 && size >= 1
    ensures (q * size - 1) % size == size - 1
  {
    MulMinus(q, 1, size);
    ModIs(q * size - 1, q - 1, size - 1, size);
  }

  lemma Judge32(reg: Word, readBack: Word, upper: Word, last: bool, size: Word)
    requires reg != 0 && 16 <= size && readBack == U32 - size + Low(reg) && Low(readBack) == Low(reg)
    requires Low(reg) % 2 == 0 && !Is64(reg)
    ensures Judge(reg, readBack, upper, last) == Half(if size == 16 then 0 else size, Base(reg))
  {
  }

  lemma Judge64(reg: Word, readBack: Word, size: Word)
    requires 16 <= size && readBack == U32 - size + Low(reg) && Low(readBack) == Low(reg)
    requires Low(reg) % 2 == 0 && Is64(reg)
    ensures !Unsized(readBack) && Is64(readBack)
    ensures Judge(reg, readBack, ONES, false) == Whole(size, Base(reg))
  {
  }

  lemma JudgeHuge(reg: Word, units: Word)
    requires (reg == 4 || reg == 12) && units >= 1
    ensures !Unsized(reg) && Is64(reg)
    ensures Judge(reg, reg, U32 - units, false) == Whole(ONES, 0)
  {
    assert Low(reg) == reg;
  }

  lemma HugeReadsBack(reg: Word, upper: Word, units: Word)
    requires PowerOfTwo(units) && upper % units == 0
    ensures Stored(reg, 0, ONES) == reg && Stored(upper, U32 - units, ONES) == U32 - units
  {
    Power32();
    MuxNone(32, ONES, reg);
    StoredHigh(upper, units, ONES);
    OnesMod(units);
  }

  /** Entries the loop has passed are final. */
  lemma {:induction false} ProbeKeeps(v: Verdicts, i: nat, bars: Bars, j: nat)
    requires j < i <= MAX_BARS
    ensures ProbeFrom(v, i, bars).size[j] == bars.size[j]
    ensures ProbeFrom(v, i, bars).address[j] == bars.address[j]
    decreases MAX_BARS - i
  {
    if i < MAX_BARS && !v[i].Stop? {
      ProbeKeeps(v, After(v, i), Turn(v, i, bars), j);
    }
  }

  /** The loop reaches BAR `j` with the address entries from there on still zero, and what it then
      records stays. */
  lemma {:induction false} ReachedState(v: Verdicts, i: nat, bars: Bars, j: nat) returns (at: Bars)
    requires i <= MAX_BARS && j < MAX_BARS && Reaches(v, i, j)
    requires forall k :: i <= k < MAX_BARS ==> bars.address[k] == 0
    ensures ProbeFrom(v, i, bars) == ProbeFrom(v, j, at)
    ensures forall k :: j <= k < MAX_BARS ==> at.address[k] == 0
    decreases MAX_BARS - i
  {
    if i == j {
      at := bars;
    } else {
      at := ReachedState(v, After(v, i), Turn(v, i, bars), j);
    }
  }

  lemma Recorded(v: Verdicts, i: nat)
    requires i < MAX_BARS && Reaches(v, 0, i)
    ensures var r := ProbeFrom(v, 0, NO_BARS);
            match v[i]
            case Stop => r == Cleared(r, i)
            case Skip => r.size[i] == 0 && r.address[i] == 0
            case Half(size, address) => r.size[i] == size && r.address[i] == address
            case Whole(size, address) => r.size[i] == size && r.address[i] == address && r.size[i + 1] == 0
  {
    var at := ReachedState(v, 0, NO_BARS, i);
    if !v[i].Stop? {
      ProbeKeeps(v, After(v, i), Turn(v, i, at), i);
      if v[i].Whole? {
        ProbeKeeps(v, After(v, i), Turn(v, i, at), i + 1);
      }
    }
  }

  /** A 32-bit memory BAR the loop comes to is recorded with its exact size and base address. The one
      exception is a block of 16 bytes, the smallest the standard allows: it is recorded as absent. */
  lemma Records32(s: Space, i: nat, size: Word)
    requires i < MAX_BARS && Reaches(AllVerdicts(s), 0, i) && Original(s, i) != 0
    requires Block32(Original(s, i), Mask(s, i), size)
    ensures Probe(s).size[i] == if size == 16 then 0 else size
    ensures Probe(s).address[i] == s.regs[4 + i] / 16 * 16
  {
    Verdict32(s, i, size);
    Recorded(AllVerdicts(s), i);
  }

  lemma Verdict32(s: Space, i: nat, size: Word)
    requires i < MAX_BARS && Original(s, i) != 0 && Block32(Original(s, i), Mask(s, i), size)
    ensures VerdictAt(s, i) == Half(if size == 16 then 0 else size, Base(Original(s, i)))
  {
    TypeIs(Original(s, i));
    ReadsBack(Original(s, i), size);
    Judge32(Original(s, i), ReadBack(s, i), UpperAt(s, i), i == MAX_BARS - 1, size);
  }

  /** A 64-bit memory BAR the loop comes to is recorded with its exact size when that is below 4 GB, and
      its upper half is recorded as absent. */
  lemma Records64(s: Space, i: nat, size: Word)
    requires i < MAX_BARS - 1 && Reaches(AllVerdicts(s), 0, i)
    requires Block64(Original(s, i), Mask(s, i), Mask(s, i + 1), size)
    ensures Probe(s).size[i] == size && Probe(s).size[i + 1] == 0
    ensures Probe(s).address[i] == s.regs[4 + i] / 16 * 16
  {
    Verdict64(s, i, size);
    Recorded(AllVerdicts(s), i);
  }

  lemma Verdict64(s: Space, i: nat, size: Word)
    requires i < MAX_BARS - 1 && Block64(Original(s, i), Mask(s, i), Mask(s, i + 1), size)
    ensures VerdictAt(s, i) == Whole(size, Base(Original(s, i)))
  {
    TypeIs(Original(s, i));
    ReadsBack(Original(s, i), size);
    StoredHigh(Original(s, i + 1), 1, ONES);
    Judge64(Original(s, i), ReadBack(s, i), size);
  }

  /** From 4 GB on the recorded size is 0xFFFFFFFF. */
  lemma RecordsHuge(s: Space, i: nat, units: Word)
    requires i < MAX_BARS - 1 && Reaches(AllVerdicts(s), 0, i)
    requires HugeBlock(Original(s, i), Original(s, i + 1), Mask(s, i), Mask(s, i + 1), units)
    ensures Probe(s).size[i] == ONES && Probe(s).size[i + 1] == 0
  {
    VerdictHuge(s, i, units);
    Recorded(AllVerdicts(s), i);
  }

  lemma VerdictHuge(s: Space, i: nat, units: Word)
    requires i < MAX_BARS - 1
    requires HugeBlock(Original(s, i), Original(s, i + 1), Mask(s, i), Mask(s, i + 1), units)
    ensures VerdictAt(s, i) == Whole(ONES, 0)
  {
    HugeReadsBack(Original(s, i), Original(s, i + 1), units);
    JudgeHuge(Original(s, i), units);
  }

  /** An I/O BAR has no size and no address in the database. */
  lemma RecordsIo(s: Space, i: nat)
    requires i < MAX_BARS && Reaches(AllVerdicts(s), 0, i) && Original(s, i) % 2 == 1
    ensures Probe(s).size[i] == 0 && Probe(s).address[i] == 0
  {
    OddReadsBack(Original(s, i), Mask(s, i));
    assert AllVerdicts(s)[i] == VerdictAt(s, i) == Skip;
    Recorded(AllVerdicts(s), i);
  }

  lemma OddReadsBack(reg: Word, w: Word)
    requires reg % 2 == 1
    ensures Unsized(Stored(reg, w, ONES))
  {
    var r := Stored(reg, w, ONES);
    assert r % 2 == 1;
    assert r == 16 * (r / 16) + Low(r);
  }

  /** Behind the last register there is no upper half: a 64-bit block there is recorded by its lower one. */
  lemma RecordsLast(s: Space, size: Word)
    requires Reaches(AllVerdicts(s), 0, 5) && Block64(Original(s, 5), Mask(s, 5), ONES, size)
    ensures Probe(s).size[5] == (if size == 16 then 0 else size) && Probe(s).address[5] == s.regs[9] / 16 * 16
  {
    TypeIs(Original(s, 5));
    ReadsBack(Original(s, 5), size);
    JudgeLast(Original(s, 5), ReadBack(s, 5), UpperAt(s, 5), size);
    Recorded(AllVerdicts(s), 5);
  }

  lemma JudgeLast(reg: Word, readBack: Word, upper: Word, size: Word)
    requires reg != 0 && 16 <= size && readBack == U32 - size + Low(reg) && Low(readBack) == Low(reg)
    requires Low(reg) % 2 == 0
    ensures Judge(reg, readBack, upper, true) == Half(if size == 16 then 0 else size, Base(reg))
  {
  }

  /** A BAR that reads back all zeros or all ones has no size and no address in the database. */
  lemma RecordsUnsized(s: Space, i: nat)
    requires i < MAX_BARS && Reaches(AllVerdicts(s), 0, i) && s.regs[4 + i] != 0
    requires var readBack := Stored(s.regs[4 + i], s.writable[4 + i], 0xFFFF_FFFF);
             readBack == 0 || readBack == 0xFFFF_FFFF
    ensures Probe(s).size[i] == 0 && Probe(s).address[i] == 0
  {
    assert AllVerdicts(s)[i] == VerdictAt(s, i) == Skip;
    Recorded(AllVerdicts(s), i);
  }

  /** A register that holds zero hides every BAR from it on, even ones that decode memory. */
  lemma ZeroHidesRest(s: Space, i: nat, j: nat)
    requires i <= j < MAX_BARS && Reaches(AllVerdicts(s), 0, i) && Original(s, i) == 0
    ensures Probe(s).size[j] == 0 && Probe(s).address[j] == 0
  {
    assert AllVerdicts(s)[i] == VerdictAt(s, i) == Stop;
    Recorded(AllVerdicts(s), i);
  }

  // ---- The loop as code ----

  class ConfigSpace {
    var config: Config

    constructor (c: Config)
      ensures config == c
    {
      config := c;
    }

    method ReadDword(b: Bdf, r: nat) returns (v: Word)
      requires r < 1024
      ensures v == Read(config, b, r)
    {
      v := if b in config then config[b].regs[r] else ONES;
    }

    method WriteDword(b: Bdf, r: nat, v: Word)
      requires r < 1024
      modifies this
      ensures config == Write(old(config), b, r, v)
    {
      if b in config {
        config := config[b := SetReg(config[b], r, v)];
      }
    }

    /** Writes ones to a BAR and reads them back. */
    method Challenge(b: Bdf, i: nat) returns (readBack: Word)
      requires b in config && i < MAX_BARS
      modifies this
      ensures config == Write(old(config), b, REG_BAR0 + i, ONES)
      ensures readBack == ReadBack(old(config)[b], i)
    {
      ConfigRestored(config, b, REG_BAR0 + i, ONES);
      WriteDword(b, REG_BAR0 + i, ONES);
      readBack := ReadDword(b, REG_BAR0 + i);
    }

    /** With ones in BAR `i`, sizes its upper half and restores both registers. */
    method ChallengeUpper(b: Bdf, i: nat, original: Word, ghost c: Config) returns (upper: Word)
      requires b in c && i < MAX_BARS - 1 && original == Original(c[b], i)
      requires config == Write(c, b, REG_BAR0 + i, ONES)
      modifies this
      ensures config == c && upper == ReadBack(c[b], i + 1)
    {
      var r := REG_BAR0 + i;
      PairRestored(c, b, r, r + 1);
      var originalUpper := ReadDword(b, r + 1);
      WriteDword(b, r + 1, ONES);
      upper := ReadDword(b, r + 1);
      WriteDword(b, r, original);
      WriteDword(b, r + 1, originalUpper);
    }

    method Restore(b: Bdf, i: nat, original: Word, ghost c: Config)
      requires b in c && i < MAX_BARS && original == Original(c[b], i)
      requires config == Write(c, b, REG_BAR0 + i, ONES)
      modifies this
      ensures config == c
    {
      ConfigRestored(c, b, REG_BAR0 + i, ONES);
      WriteDword(b, REG_BAR0 + i, original);
    }

    /** One turn of the loop; it ends with every register as it was. */
    method ProbeOne(b: Bdf, i: nat) returns (verdict: Verdict)
      requires b in config && i < MAX_BARS
      modifies this
      ensures config == old(config) && verdict == VerdictAt(config[b], i)
    {
      ghost var c := config;
      var original := ReadDword(b, REG_BAR0 + i);
      if original == 0 {
        return Stop;
      }
      var readBack := Challenge(b, i);
      var upper := 0;
      if !Unsized(readBack) && Is64(readBack) && i < MAX_BARS - 1 {
        upper := ChallengeUpper(b, i, original, c);
      } else {
        Restore(b, i, original, c);
      }
      verdict := Judge(original, readBack, upper, i == MAX_BARS - 1);
    }

    /** Sizes the BARs of one function and leaves every register of every function as it was. */
    method ProbeBars(b: Bdf) returns (bars: Bars)
      requires b in config
      modifies this
      ensures config == old(config) && bars == Probe(config[b])
    {
      ghost var c := config;
      ghost var v := AllVerdicts(c[b]);
      bars := NO_BARS;
      var i := 0;
      while i < MAX_BARS
        invariant 0 <= i <= MAX_BARS && config == c
        invariant ProbeFrom(v, i, bars) == ProbeFrom(v, 0, NO_BARS)
      {
        var verdict := ProbeOne(b, i);
        VerdictIn(c[b], i);
        if verdict.Stop? {
          bars := ClearRest(bars, i);
          return;
        }
        bars, i := Enter(verdict, i, bars, v);
      }
    }
  }

  lemma VerdictIn(s: Space, i: nat)
    requires i < MAX_BARS
    ensures AllVerdicts(s)[i] == VerdictAt(s, i)
  {
  }

  method ClearRest(bars: Bars, from: nat) returns (r: Bars)
    requires from <= MAX_BARS
    ensures r == Cleared(bars, from)
  {
    r := bars;
    var i := from;
    while i < MAX_BARS
      invariant from <= i <= MAX_BARS
      invariant Cleared(r, i) == Cleared(bars, from)
    {
      r := Bars(r.size[i := 0], r.address[i := 0]);
      i := i + 1;
    }
  }

  /** Stores the outcome of one turn and moves on. */
  method Enter(verdict: Verdict, i: nat, bars: Bars, ghost v: Verdicts) returns (r: Bars, next: nat)
    requires i < MAX_BARS && !verdict.Stop? && v[i] == verdict
    ensures r == Turn(v, i, bars) && next == After(v, i)
  {
    match verdict {
      case Skip =>
        r, next := Bars(bars.size[i := 0], bars.address), i + 1;
      case Half(size, address) =>
        r, next := Bars(bars.size[i := size], bars.address[i := address]), i + 1;
      case Whole(size, address) =>
        r, next := Bars(bars.size[i := size][i + 1 := 0], bars.address[i := address]), i + 2;
    }
  }
}
