/**
 * Programming a device's BARs and the memory window of the bridge above it.
 * Models pci_config_device_resources of src/drivers/pci/pci_utils.c.
 */
module PciWindow {
  import opened Arith
  import opened Words
  import opened PciConfig
  import opened PciScan
  import opened PciCapabilities
  import opened PciAlloc

  const MEGABYTE := 0x10_0000
  const DISABLED: Word := 0x0000_FFFF

  datatype Range = Range(base: Word, limit: Word)

  /** A BAR that takes part: it has a size and an address. */
  predicate Used(bars: Bars, j: nat)
    requires j < MAX_BARS
  {
    bars.size[j] > 0 && bars.address[j] != 0
  }

  function LastByte(bars: Bars, j: nat): Word
    requires j < MAX_BARS && bars.size[j] > 0
  {
    Add(bars.address[j], bars.size[j] - 1)
  }

  /** The lowest start and the highest end among the first `n` BARs, beginning from all ones and zero. */
  function RangeOf(bars: Bars, n: nat): Range
    requires n <= MAX_BARS
  {
    if n == 0 then Range(ONES, 0)
    else
      var r := RangeOf(bars, n - 1);
      if !Used(bars, n - 1) then r
      else
        var start, end := bars.address[n - 1], LastByte(bars, n - 1);
        Range(if start < r.base then start else r.base, if end > r.limit then end else r.limit)
  }

  /** No BAR runs past the end of the address space. */
  predicate EndsFit(bars: Bars) {
    forall j :: 0 <= j < MAX_BARS && Used(bars, j) ==> bars.address[j] + (bars.size[j] - 1) < U32
  }

  function FirstOf(x: Word): Word {
    x / MEGABYTE * MEGABYTE
  }

  function LastOf(x: Word): Word {
    x / MEGABYTE * MEGABYTE + (MEGABYTE - 1)
  }

  /** The window from `first` to `last` covers every BAR that takes part, whole. */
  ghost predicate Covers(first: nat, last: nat, bars: Bars) {
    forall j :: 0 <= j < 6 && bars.size[j] > 0 && bars.address[j] != 0 ==>
      first <= bars.address[j] && bars.address[j] + (bars.size[j] - 1) <= last
  }

  /** The range spans every BAR looked at, and its two ends are a start and an end of such BARs. */
  lemma {:induction false} RangeIs(bars: Bars, n: nat, j: nat)
    requires EndsFit(bars) && n <= MAX_BARS && j < n && Used(bars, j)
    ensures var r := RangeOf(bars, n);
            r.base <= bars.address[j] && bars.address[j] + (bars.size[j] - 1) <= r.limit
  {
    if j < n - 1 {
      RangeIs(bars, n - 1, j);
    }
  }

  lemma {:induction false} RangeTight(bars: Bars, n: nat) returns (low: nat, high: nat)
    requires EndsFit(bars) && n <= MAX_BARS
    ensures var r := RangeOf(bars, n);
            if r.limit == 0 then r.base == ONES && forall j :: 0 <= j < n ==> !Used(bars, j)
            else
              && low < n && Used(bars, low) && r.base == bars.address[low]
              && high < n && Used(bars, high) && r.limit == bars.address[high] + (bars.size[high] - 1)
  {
    low, high := 0, 0;
    if n > 0 {
      low, high := RangeTight(bars, n - 1);
      if Used(bars, n - 1) {
        var r := RangeOf(bars, n - 1);
        if r.limit == 0 || bars.address[n - 1] < r.base {
          low := n - 1;
        }
        if LastByte(bars, n - 1) > r.limit {
          high := n - 1;
        }
      }
    }
  }

  /** The window programmed is the smallest one on megabyte bounds that covers every BAR that takes part;
      it is switched off exactly when none does. */
  lemma SmallestWindow(bars: Bars, first: nat, last: nat)
    requires EndsFit(bars)
    ensures var r := RangeOf(bars, MAX_BARS);
            && (r.limit == 0 <==> forall j :: 0 <= j < 6 ==> bars.size[j] == 0 || bars.address[j] == 0)
            && (r.limit != 0 ==> Covers(FirstOf(r.base), LastOf(r.limit), bars))
            && (r.limit != 0 && first % MEGABYTE == 0 && last % MEGABYTE == MEGABYTE - 1 && Covers(first, last, bars)
                ==> first <= FirstOf(r.base) && LastOf(r.limit) <= last)
  {
    var r := RangeOf(bars, MAX_BARS);
    var low, high := RangeTight(bars, MAX_BARS);
    forall j | 0 <= j < MAX_BARS && Used(bars, j)
      ensures r.base <= bars.address[j] && bars.address[j] + (bars.size[j] - 1) <= r.limit
    {
      RangeIs(bars, MAX_BARS, j);
    }
    Rounding(r.base);
    Rounding(r.limit);
    if r.limit != 0 && first % MEGABYTE == 0 && last % MEGABYTE == MEGABYTE - 1 && Covers(first, last, bars) {
      assert first <= r.base && r.limit <= last;
      RoundsDown(first, r.base);
      RoundsUp(r.limit, last);
    }
  }

  lemma Rounding(x: Word)
    ensures FirstOf(x) <= x <= LastOf(x)
  {
  }

  lemma RoundsDown(first: nat, x: Word)
    requires first <= x && first % MEGABYTE == 0
    ensures first <= FirstOf(x)
  {
    assert first / MEGABYTE <= x / MEGABYTE;
  }

  lemma RoundsUp(x: Word, last: nat)
    requires x <= last && last % MEGABYTE == MEGABYTE - 1
    ensures LastOf(x) <= last
  {
    assert x / MEGABYTE <= last / MEGABYTE;
  }

  // ---- The bridge's register ----

  const WINDOW_BITS: Word := 0xFFF0_FFF0

  function WindowSet(c: Config, b: Bdf, r: Range): Config {
    if r.limit == 0 then Write(c, b, REG_WINDOW, DISABLED)
    else WriteWord(WriteWord(c, b, 0x20, HighHalf(FirstOf(r.base))), b, 0x22, HighHalf(FirstOf(r.limit)))
  }

  /** Writing a half leaves the other half alone and changes only its own twelve bits. */
  lemma HalfSet(s: Space, high: bool, v: nat)
    requires s.writable[REG_WINDOW] == WINDOW_BITS && v < 0x1_0000 && v % 16 == 0
    ensures var was := s.regs[REG_WINDOW];
            var now := SetHalf(s, REG_WINDOW, high, v).regs[REG_WINDOW];
            && LowHalf(now) == (if high then LowHalf(was) else v + LowHalf(was) % 16)
            && HighHalf(now) == (if high then v + HighHalf(was) % 16 else HighHalf(was))
  {
    if high {
      HighPicked(s.regs[REG_WINDOW], v, v * 0x1_0000);
    } else {
      LowPicked(s.regs[REG_WINDOW], v);
    }
  }

  /** The bridge, read back as the scan reads it, decodes the window computed. */
  lemma WindowReadsBack(c: Config, b: Bdf, r: Range)
    requires b in c && c[b].writable[REG_WINDOW] == WINDOW_BITS && r.limit != 0
    ensures var window := Read(WindowSet(c, b, r), b, REG_WINDOW);
            WindowBase(window) == FirstOf(r.base) && WindowLimit(window) == FirstOf(r.limit)
  {
    var low, high := HighHalf(FirstOf(r.base)), HighHalf(FirstOf(r.limit));
    TwelveBits(r.base);
    TwelveBits(r.limit);
    HalfSet(c[b], false, low);
    var s := SetHalf(c[b], REG_WINDOW, false, low);
    HalfSet(s, true, high);
    var now := SetHalf(s, REG_WINDOW, true, high).regs[REG_WINDOW];
    DecodesBase(now, r.base);
    DecodesLimit(now, r.limit);
  }

  lemma TwelveBits(x: Word)
    ensures HighHalf(FirstOf(x)) == x / MEGABYTE * 16 && x / MEGABYTE < 0x1000
  {
  }

  lemma DecodesBase(window: Word, base: Word)
    requires LowHalf(window) / 16 == base / MEGABYTE
    ensures WindowBase(window) == FirstOf(base)
  {
  }

  lemma DecodesLimit(window: Word, limit: Word)
    requires HighHalf(window) / 16 == limit / MEGABYTE
    ensures WindowLimit(window) == FirstOf(limit)
  {
    assert window / MEGABYTE == HighHalf(window) / 16;
  }

  /** Switched off, the window ends below where it starts. */
  lemma DisabledDecodesNothing(c: Config, b: Bdf, r: Range)
    requires b in c && c[b].writable[REG_WINDOW] == WINDOW_BITS && r.limit == 0
    ensures var window := Read(WindowSet(c, b, r), b, REG_WINDOW);
            WindowLimit(window) + (MEGABYTE - 1) < WindowBase(window)
  {
    SwitchedOff(c[b].regs[REG_WINDOW]);
    BelowStart(Stored(c[b].regs[REG_WINDOW], WINDOW_BITS, DISABLED));
  }

  lemma SwitchedOff(reg: Word)
    ensures var now := Stored(reg, WINDOW_BITS, DISABLED); LowHalf(now) >= 0xFFF0 && HighHalf(now) < 16
  {
    BothPicked(reg, DISABLED);
  }

  lemma BelowStart(window: Word)
    requires LowHalf(window) >= 0xFFF0 && HighHalf(window) < 16
    ensures WindowLimit(window) + (MEGABYTE - 1) < WindowBase(window)
  {
    assert LowHalf(window) / 16 == 0xFFF;
    assert window / MEGABYTE == HighHalf(window) / 16;
  }

  // ---- The whole step ----

  /** The first bridge in the table whose secondary bus register names the bus. */
  predicate Leads(c: Config, bridge: BridgeInfo, bus: nat) {
    bridge.header == HEADER_BRIDGE && ByteAt(Read(c, bridge.at, REG_BUSES), 1) == bus
  }

  function FirstLeading(c: Config, bridges: seq<BridgeInfo>, bus: nat): (i: nat)
    ensures i <= |bridges|
    ensures i < |bridges| ==> Leads(c, bridges[i], bus)
    ensures forall k :: 0 <= k < i ==> !Leads(c, bridges[k], bus)
  {
    if bridges == [] then 0
    else if Leads(c, bridges[0], bus) then 0
    else
      var rest := FirstLeading(c, bridges[1..], bus);
      assert forall k :: 0 <= k < rest ==> !Leads(c, bridges[1..][k], bus);
      assert forall k :: 1 <= k < rest + 1 ==> bridges[k] == bridges[1..][k - 1];
      rest + 1
  }

  /** On register values: the first bridge entry of header type 1 with the bus in bits 8 to 15 of register 6, or none
      exactly when there is none. */
  lemma ParentIs(c: Config, bridges: seq<BridgeInfo>, bus: nat, k: nat)
    requires k < |bridges| && bridges[k].at in c
    ensures var i := FirstLeading(c, bridges, bus);
            var leads := bridges[k].header == 1 && c[bridges[k].at].regs[6] / 0x100 % 0x100 == bus;
            i <= |bridges| && (k < i ==> !leads) && (k == i ==> leads)
  {
    assert k < FirstLeading(c, bridges, bus) ==> !Leads(c, bridges[k], bus);
  }

  function ParentDone(c: Config, bridges: seq<BridgeInfo>, d: Device): Config {
    if d.at.bus == 0 then c
    else
      var i := FirstLeading(c, bridges, d.at.bus);
      if i < |bridges| then WindowSet(c, bridges[i].at, RangeOf(d.bars, MAX_BARS)) else c
  }

  /** `command & ~0x3`. */
  function WithoutAccess(command: Word): Word {
    command - command % 4
  }

  /** `command | 0x3`, as pci_enable_device writes it. */
  function MemoryAndIo(c: Config, b: Bdf): Config {
    var command := Read(c, b, REG_COMMAND);
    Write(c, b, REG_COMMAND, command - command % 4 + 3)
  }

  /** `command | 0x4`, as pci_set_master writes it. */
  function BusMaster(c: Config, b: Bdf): Config {
    var command := Read(c, b, REG_COMMAND);
    Write(c, b, REG_COMMAND, if command / 4 % 2 == 0 then command + 4 else command)
  }

  function Access(c: Config, b: Bdf): Config {
    BusMaster(MemoryAndIo(c, b), b)
  }

  function Programmed(c: Config, bridges: seq<BridgeInfo>, d: Device): Config {
    var c1 := ParentDone(c, bridges, d);
    var c2 := Write(c1, d.at, REG_COMMAND, WithoutAccess(Read(c1, d.at, REG_COMMAND)));
    var c3 := BarsWritten(c2, d.at, d.bars.size, d.bars.address, |d.bars.size|);
    Access(c3, d.at)
  }

  /** Writes to the device leave every other function alone. */
  lemma OthersSame(c: Config, bridges: seq<BridgeInfo>, d: Device, o: Bdf, r: nat)
    requires o in c && o != d.at && r < 1024
    ensures Read(Programmed(c, bridges, d), o, r) == Read(ParentDone(c, bridges, d), o, r)
    ensures o in Programmed(c, bridges, d) && Programmed(c, bridges, d)[o].writable == c[o].writable
  {
    var c1 := ParentDone(c, bridges, d);
    ParentKeeps(c, bridges, d, o);
    var c2 := Write(c1, d.at, REG_COMMAND, WithoutAccess(Read(c1, d.at, REG_COMMAND)));
    BarsWrittenAt(c2, d.at, d.bars.size, d.bars.address, |d.bars.size|, o, r);
  }

  lemma ParentKeeps(c: Config, bridges: seq<BridgeInfo>, d: Device, o: Bdf)
    requires o in c
    ensures var c' := ParentDone(c, bridges, d);
            && c'.Keys == c.Keys && c'[o].writable == c[o].writable
            && ((forall k :: 0 <= k < |bridges| ==> bridges[k].at != o) ==> c'[o] == c[o])
  {
  }

  /** On bus 0, or without a bridge above it, only the device itself is written to. */
  lemma NoParentTouched(c: Config, bridges: seq<BridgeInfo>, d: Device, o: Bdf, r: nat)
    requires o in c && o != d.at && r < 1024
    ensures d.at.bus == 0 || FirstLeading(c, bridges, d.at.bus) == |bridges| ==>
              o in Programmed(c, bridges, d) && Programmed(c, bridges, d)[o].regs[r] == c[o].regs[r]
  {
    OthersSame(c, bridges, d, o, r);
  }

  /** The bridge above the device decodes the smallest megabyte window over its BARs, or nothing when none
      takes part; the writes to the device itself do not disturb that. */
  lemma ParentDecodes(c: Config, bridges: seq<BridgeInfo>, d: Device)
    requires d.at.bus > 0 && EndsFit(d.bars)
    requires var i := FirstLeading(c, bridges, d.at.bus);
             i < |bridges| && bridges[i].at != d.at && bridges[i].at in c
             && c[bridges[i].at].writable[REG_WINDOW] == WINDOW_BITS
    ensures var r := RangeOf(d.bars, MAX_BARS);
            var b := bridges[FirstLeading(c, bridges, d.at.bus)].at;
            var window := Read(Programmed(c, bridges, d), b, REG_WINDOW);
            if forall j :: 0 <= j < 6 ==> d.bars.size[j] == 0 || d.bars.address[j] == 0
            then WindowLimit(window) + (MEGABYTE - 1) < WindowBase(window)
            else WindowBase(window) == FirstOf(r.base) && WindowLimit(window) + (MEGABYTE - 1) == LastOf(r.limit)
  {
    var b := bridges[FirstLeading(c, bridges, d.at.bus)].at;
    var r := RangeOf(d.bars, MAX_BARS);
    SmallestWindow(d.bars, 0, 0);
    OthersSame(c, bridges, d, b, REG_WINDOW);
    if r.limit == 0 {
      DisabledDecodesNothing(c, b, r);
    } else {
      WindowReadsBack(c, b, r);
    }
  }

  /** Every sized BAR of the device holds its database address in its writable bits. */
  lemma BarsProgrammed(c: Config, bridges: seq<BridgeInfo>, d: Device, j: nat)
    requires d.at in c && j < MAX_BARS && d.bars.size[j] != 0
    requires forall k :: 0 <= k < |bridges| ==> bridges[k].at != d.at
    ensures var c' := Programmed(c, bridges, d);
            var r := REG_BAR0 + j;
            d.at in c' && c'[d.at].regs[r] == Stored(c[d.at].regs[r], c[d.at].writable[r], d.bars.address[j])
  {
    var c1 := ParentDone(c, bridges, d);
    ParentKeeps(c, bridges, d, d.at);
    var c2 := Write(c1, d.at, REG_COMMAND, WithoutAccess(Read(c1, d.at, REG_COMMAND)));
    BarsWrittenAt(c2, d.at, d.bars.size, d.bars.address, |d.bars.size|, d.at, REG_BAR0 + j);
  }

  // ---- Access to the device ----

  /** What the three writes to the command register make of it, bit by bit. */
  lemma OffBits(command: Word, k: nat)
    ensures Bit(WithoutAccess(command), k) == if k < 2 then 0 else Bit(command, k)
  {
    var less := WithoutAccess(command);
    LowBits(command, k);
    LowBits(less, k);
    PartsOf(command);
    TwoBits(command, command / 8 * 2 + command / 4 % 2, command / 2 % 2, command % 2);
    Parts(command / 8, command / 4 % 2, 0, 0);
  }

  lemma OnBits(command: Word, k: nat)
    ensures command - command % 4 + 3 < U32
    ensures Bit(command - command % 4 + 3, k) == if k < 2 then 1 else Bit(command, k)
  {
    var more := command - command % 4 + 3;
    LowBits(command, k);
    LowBits(more, k);
    PartsOf(command);
    TwoBits(command, command / 8 * 2 + command / 4 % 2, command / 2 % 2, command % 2);
    Parts(command / 8, command / 4 % 2, 1, 1);
  }

  lemma MasterBits(command: Word, k: nat)
    ensures var more := if command / 4 % 2 == 0 then command + 4 else command;
            more < U32 && Bit(more, k) == if k == 2 then 1 else Bit(command, k)
  {
    var more := if command / 4 % 2 == 0 then command + 4 else command;
    LowBits(command, k);
    LowBits(more, k);
    PartsOf(command);
    Parts(command / 8, 1, command / 2 % 2, command % 2);
  }

  /** The configuration while the BARs are being written. */
  function Halted(c: Config, bridges: seq<BridgeInfo>, d: Device, n: nat): Config
    requires n <= MAX_BARS
  {
    var c1 := ParentDone(c, bridges, d);
    var c2 := Write(c1, d.at, REG_COMMAND, WithoutAccess(Read(c1, d.at, REG_COMMAND)));
    BarsWritten(c2, d.at, d.bars.size, d.bars.address, n)
  }

  /** While its BARs are written the device decodes neither memory nor I/O: bits 0 and 1 are off where they can
      be. */
  lemma HaltedBits(c: Config, bridges: seq<BridgeInfo>, d: Device, n: nat, k: nat)
    requires d.at in c && n <= MAX_BARS && k < 32 && forall i :: 0 <= i < |bridges| ==> bridges[i].at != d.at
    ensures var c', b := Halted(c, bridges, d, n), d.at;
            && b in c' && c'[b].writable == c[b].writable
            && Bit(c'[b].regs[1], k) == if k < 2 && Bit(c[b].writable[1], k) == 1 then 0 else Bit(c[b].regs[1], k)
  {
    var b, c1 := d.at, ParentDone(c, bridges, d);
    ParentKeeps(c, bridges, d, b);
    var command := c1[b].regs[REG_COMMAND];
    StoredBit(command, c1[b].writable[REG_COMMAND], WithoutAccess(command), k);
    OffBits(command, k);
    BarsWrittenAt(Write(c1, b, REG_COMMAND, WithoutAccess(command)), b, d.bars.size, d.bars.address, n, b, REG_COMMAND);
  }

  /** Afterwards I/O and memory decoding and bus mastering, bits 0 to 2, are on where they can be, and every other
      bit of the command register is as it was. */
  lemma AccessRestored(c: Config, bridges: seq<BridgeInfo>, d: Device, k: nat)
    requires d.at in c && k < 32 && forall i :: 0 <= i < |bridges| ==> bridges[i].at != d.at
    ensures var c', b := Programmed(c, bridges, d), d.at;
            && b in c'
            && Bit(c'[b].regs[1], k) == if k < 3 && Bit(c[b].writable[1], k) == 1 then 1 else Bit(c[b].regs[1], k)
  {
    HaltedBits(c, bridges, d, MAX_BARS, k);
    AccessOn(Halted(c, bridges, d, MAX_BARS), d.at, k);
  }

  lemma AccessOn(c: Config, b: Bdf, k: nat)
    requires b in c && k < 32
    ensures b in Access(c, b)
    ensures Bit(Access(c, b)[b].regs[1], k)
            == if k < 3 && Bit(c[b].writable[1], k) == 1 then 1 else Bit(c[b].regs[1], k)
  {
    var command := c[b].regs[REG_COMMAND];
    OnBits(command, k);
    StoredBit(command, c[b].writable[REG_COMMAND], command - command % 4 + 3, k);
    MasterOn(MemoryAndIo(c, b), b, k);
  }

  lemma MasterOn(c: Config, b: Bdf, k: nat)
    requires b in c && k < 32
    ensures b in BusMaster(c, b)
    ensures Bit(BusMaster(c, b)[b].regs[1], k)
            == if k == 2 && Bit(c[b].writable[1], k) == 1 then 1 else Bit(c[b].regs[1], k)
  {
    var command := c[b].regs[REG_COMMAND];
    MasterBits(command, k);
    StoredBit(command, c[b].writable[REG_COMMAND], if command / 4 % 2 == 0 then command + 4 else command, k);
  }

  // ---- Several devices in turn ----

  function Calls(c: Config, bridges: seq<BridgeInfo>, ds: seq<Device>): Config {
    if ds == [] then c else Programmed(Calls(c, bridges, ds[..|ds| - 1]), bridges, ds[|ds| - 1])
  }

  /** The last device on a bus; the length when there is none. */
  function LastOn(ds: seq<Device>, bus: nat): (i: nat)
    ensures i <= |ds| && (i < |ds| ==> ds[i].at.bus == bus)
    ensures forall k :: 0 <= k < |ds| && ds[k].at.bus == bus ==> k <= i < |ds|
  {
    if ds == [] then 0
    else if ds[|ds| - 1].at.bus == bus then |ds| - 1
    else
      var i := LastOn(ds[..|ds| - 1], bus);
      if i < |ds| - 1 then i else |ds|
  }

  /** The bridges are functions of the configuration space, and none of them is the device. */
  ghost predicate BridgesOf(c: Config, bridges: seq<BridgeInfo>, d: Device) {
    forall k :: 0 <= k < |bridges| ==> bridges[k].at in c && bridges[k].at != d.at
  }

  /** Programming a window changes that register alone. */
  lemma WindowOnly(c: Config, b: Bdf, r: Range, o: Bdf, q: nat)
    requires o in c && q < 1024 && (o != b || q != REG_WINDOW)
    ensures o in WindowSet(c, b, r) && Read(WindowSet(c, b, r), o, q) == Read(c, o, q)
  {
  }

  lemma BusesKept(c: Config, bridges: seq<BridgeInfo>, d: Device, o: Bdf)
    requires o in c && o != d.at
    ensures Read(Programmed(c, bridges, d), o, REG_BUSES) == Read(c, o, REG_BUSES)
  {
    OthersSame(c, bridges, d, o, REG_BUSES);
    var i := FirstLeading(c, bridges, d.at.bus);
    if i < |bridges| {
      WindowOnly(c, bridges[i].at, RangeOf(d.bars, MAX_BARS), o, REG_BUSES);
    }
  }

  lemma {:induction false} LeadingSame(c: Config, c': Config, bridges: seq<BridgeInfo>, bus: nat)
    requires forall k :: 0 <= k < |bridges| ==> Leads(c', bridges[k], bus) == Leads(c, bridges[k], bus)
    ensures FirstLeading(c', bridges, bus) == FirstLeading(c, bridges, bus)
  {
    if bridges != [] {
      forall k | 0 <= k < |bridges| - 1
        ensures Leads(c', bridges[1..][k], bus) == Leads(c, bridges[1..][k], bus)
      {
        assert bridges[1..][k] == bridges[k + 1];
      }
      LeadingSame(c, c', bridges[1..], bus);
    }
  }

  /** A call for one device leaves the bridge of every bus the same. */
  lemma StepLeading(c: Config, bridges: seq<BridgeInfo>, d: Device, bus: nat)
    requires BridgesOf(c, bridges, d)
    ensures FirstLeading(Programmed(c, bridges, d), bridges, bus) == FirstLeading(c, bridges, bus)
  {
    forall k | 0 <= k < |bridges|
      ensures Leads(Programmed(c, bridges, d), bridges[k], bus) == Leads(c, bridges[k], bus)
    {
      BusesKept(c, bridges, d, bridges[k].at);
    }
    LeadingSame(c, Programmed(c, bridges, d), bridges, bus);
  }

  /** A call for a device on another bus leaves the bridge's window alone. */
  lemma StepElsewhere(c: Config, bridges: seq<BridgeInfo>, d: Device, bus: nat)
    requires BridgesOf(c, bridges, d) && d.at.bus != bus && FirstLeading(c, bridges, bus) < |bridges|
    ensures var b := bridges[FirstLeading(c, bridges, bus)].at;
            Read(Programmed(c, bridges, d), b, REG_WINDOW) == Read(c, b, REG_WINDOW)
  {
    var b := bridges[FirstLeading(c, bridges, bus)].at;
    OthersSame(c, bridges, d, b, REG_WINDOW);
    var i := FirstLeading(c, bridges, d.at.bus);
    if d.at.bus != 0 && i < |bridges| {
      assert Leads(c, bridges[i], d.at.bus) && Leads(c, bridges[FirstLeading(c, bridges, bus)], bus);
      WindowOnly(c, bridges[i].at, RangeOf(d.bars, MAX_BARS), b, REG_WINDOW);
    }
  }

  /** The window is the smallest on megabyte bounds over these BARs, or off when none takes part. */
  ghost predicate WindowOver(window: Word, bars: Bars) {
    var r := RangeOf(bars, MAX_BARS);
    if r.limit == 0 then WindowLimit(window) + (MEGABYTE - 1) < WindowBase(window)
    else WindowBase(window) == FirstOf(r.base) && WindowLimit(window) + (MEGABYTE - 1) == LastOf(r.limit)
  }

  /** What a run of calls relies on: bridges and devices are different functions, and the window register of
      the bus's bridge has the standard writable bits. */
  ghost predicate Setting(c: Config, bridges: seq<BridgeInfo>, ds: seq<Device>, bus: nat) {
    && (forall i :: 0 <= i < |ds| ==> BridgesOf(c, bridges, ds[i]) && EndsFit(ds[i].bars))
    && bus > 0 && FirstLeading(c, bridges, bus) < |bridges|
    && var b := bridges[FirstLeading(c, bridges, bus)].at; b in c && c[b].writable[REG_WINDOW] == WINDOW_BITS
  }

  lemma {:induction false} CallsKeep(c: Config, bridges: seq<BridgeInfo>, ds: seq<Device>, bus: nat, o: Bdf)
    requires Setting(c, bridges, ds, bus) && o in c && forall i :: 0 <= i < |ds| ==> ds[i].at != o
    ensures var c' := Calls(c, bridges, ds);
            o in c' && c'[o].writable == c[o].writable
    decreases ds
  {
    if ds != [] {
      var front, d := ds[..|ds| - 1], ds[|ds| - 1];
      CallsKeep(c, bridges, front, bus, o);
      OthersSame(Calls(c, bridges, front), bridges, d, o, REG_WINDOW);
    }
  }

  lemma {:induction false} CallsLeading(c: Config, bridges: seq<BridgeInfo>, ds: seq<Device>, bus: nat)
    requires Setting(c, bridges, ds, bus)
    ensures FirstLeading(Calls(c, bridges, ds), bridges, bus) == FirstLeading(c, bridges, bus)
    decreases ds
  {
    if ds != [] {
      var front, d := ds[..|ds| - 1], ds[|ds| - 1];
      CallsLeading(c, bridges, front, bus);
      CallsBridges(c, bridges, front, bus, d);
      StepLeading(Calls(c, bridges, front), bridges, d, bus);
    }
  }

  lemma CallsBridges(c: Config, bridges: seq<BridgeInfo>, ds: seq<Device>, bus: nat, d: Device)
    requires Setting(c, bridges, ds, bus) && BridgesOf(c, bridges, d)
    ensures BridgesOf(Calls(c, bridges, ds), bridges, d)
  {
    forall k | 0 <= k < |bridges|
      ensures bridges[k].at in Calls(c, bridges, ds)
    {
      CallsKeep(c, bridges, ds, bus, bridges[k].at);
    }
  }

  /** After any run of calls the bridge above a bus decodes the window of the last device on that bus. */
  lemma {:induction false} LastDeviceDecoded(c: Config, bridges: seq<BridgeInfo>, ds: seq<Device>, bus: nat)
    requires Setting(c, bridges, ds, bus)
    ensures var n, b := LastOn(ds, bus), bridges[FirstLeading(c, bridges, bus)].at;
            var window := Read(Calls(c, bridges, ds), b, REG_WINDOW);
            if n < |ds| then WindowOver(window, ds[n].bars) else window == Read(c, b, REG_WINDOW)
    decreases ds
  {
    if ds != [] {
      var front, d, b := ds[..|ds| - 1], ds[|ds| - 1], bridges[FirstLeading(c, bridges, bus)].at;
      LastDeviceDecoded(c, bridges, front, bus);
      CallsLeading(c, bridges, front, bus);
      CallsBridges(c, bridges, front, bus, d);
      if d.at.bus == bus {
        CallsKeep(c, bridges, front, bus, b);
        ParentDecodes(Calls(c, bridges, front), bridges, d);
        SmallestWindow(d.bars, 0, 0);
      } else {
        StepElsewhere(Calls(c, bridges, front), bridges, d, bus);
      }
    }
  }

  /** The bridge passes on every address of BAR `j`. */
  predicate Decodes(window: Word, bars: Bars, j: nat)
    requires j < MAX_BARS && bars.size[j] > 0
  {
    WindowBase(window) <= bars.address[j]
    && bars.address[j] + (bars.size[j] - 1) <= WindowLimit(window) + (MEGABYTE - 1)
  }

  /** So of several devices on one bus, a BAR of an earlier one is still decoded exactly when it lies in the
      window of the last one. */
  lemma StillDecoded(c: Config, bridges: seq<BridgeInfo>, ds: seq<Device>, i: nat, j: nat)
    requires i < |ds| && j < MAX_BARS && Used(ds[i].bars, j) && Setting(c, bridges, ds, ds[i].at.bus)
    ensures var bus, d := ds[i].at.bus, ds[i];
            var b, r := bridges[FirstLeading(c, bridges, bus)].at, RangeOf(ds[LastOn(ds, bus)].bars, MAX_BARS);
            Decodes(Read(Calls(c, bridges, ds), b, REG_WINDOW), d.bars, j)
            <==> r.limit != 0 && FirstOf(r.base) <= d.bars.address[j]
                 && d.bars.address[j] + (d.bars.size[j] - 1) <= LastOf(r.limit)
  {
    LastDeviceDecoded(c, bridges, ds, ds[i].at.bus);
  }

  class ResourceSetup {
    const space: ConfigSpace
    const bridges: seq<BridgeInfo>

    constructor (s: ConfigSpace, bs: seq<BridgeInfo>)
      ensures space == s && bridges == bs
    {
      space, bridges := s, bs;
    }

    method FindParent(bus: nat) returns (i: nat)
      ensures i == FirstLeading(space.config, bridges, bus)
    {
      i := 0;
      while i < |bridges|
        invariant i <= |bridges|
        invariant forall k :: 0 <= k < i ==> !Leads(space.config, bridges[k], bus)
      {
        if bridges[i].header == HEADER_BRIDGE {
          var buses := space.ReadDword(bridges[i].at, REG_BUSES);
          if ByteAt(buses, 1) == bus {
            break;
          }
        }
        i := i + 1;
      }
    }

    method FindRange(bars: Bars) returns (r: Range)
      ensures r == RangeOf(bars, MAX_BARS)
    {
      var base, limit: Word := ONES, 0;
      var j := 0;
      while j < MAX_BARS
        invariant 0 <= j <= MAX_BARS && Range(base, limit) == RangeOf(bars, j)
      {
        if bars.size[j] > 0 && bars.address[j] != 0 {
          var start := bars.address[j];
          var end := Add(start, bars.size[j] - 1);
          if start < base {
            base := start;
          }
          if end > limit {
            limit := end;
          }
        }
        j := j + 1;
      }
      r := Range(base, limit);
    }

    method ProgramParent(d: Device)
      modifies space
      ensures space.config == ParentDone(old(space.config), bridges, d)
    {
      if d.at.bus == 0 {
        return;
      }
      var i := FindParent(d.at.bus);
      if i < |bridges| {
        var r := FindRange(d.bars);
        if r.limit != 0 {
          space.config := WriteWord(space.config, bridges[i].at, 0x20, HighHalf(FirstOf(r.base)));
          space.config := WriteWord(space.config, bridges[i].at, 0x22, HighHalf(FirstOf(r.limit)));
        } else {
          space.WriteDword(bridges[i].at, REG_WINDOW, DISABLED);
        }
      }
    }

    method ConfigDeviceResources(d: Device)
      modifies space
      ensures space.config == Programmed(old(space.config), bridges, d)
    {
      ProgramParent(d);
      var command := space.ReadDword(d.at, REG_COMMAND);
      space.WriteDword(d.at, REG_COMMAND, WithoutAccess(command));
      ghost var c := space.config;
      var j := 0;
      while j < MAX_BARS
        invariant 0 <= j <= MAX_BARS
        invariant space.config == BarsWritten(c, d.at, d.bars.size, d.bars.address, j)
      {
        if d.bars.size[j] != 0 {
          space.WriteDword(d.at, REG_BAR0 + j, d.bars.address[j]);
        }
        j := j + 1;
      }
      EnableDevice(d.at);
      SetMaster(d.at);
    }

    method EnableDevice(b: Bdf)
      modifies space
      ensures space.config == MemoryAndIo(old(space.config), b)
    {
      var command := space.ReadDword(b, REG_COMMAND);
      space.WriteDword(b, REG_COMMAND, command - command % 4 + 3);
    }

    method SetMaster(b: Bdf)
      modifies space
      ensures space.config == BusMaster(old(space.config), b)
    {
      var command := space.ReadDword(b, REG_COMMAND);
      space.WriteDword(b, REG_COMMAND, if command / 4 % 2 == 0 then command + 4 else command);
    }
  }
}
