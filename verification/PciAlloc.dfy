/**
 * Giving every sized BAR in the database an address, and reading it back for a driver.
 * Models pci_alloc of src/drivers/pci/pci_rc.c and pci_ioremap_bar of src/drivers/pci/pci_utils.c.
 */
module PciAlloc {
  import opened Arith
  import opened Words
  import opened PciConfig
  import opened PciScan
  import opened PciPlacement
  import opened PciCapabilities

  const NO_SIZES: seq<Word> := [0, 0, 0, 0, 0, 0]

  predicate HostBridge(d: Device) {
    d.at == Bdf(0, 0, 0)
  }

  /** The sizes of the BARs to be given an address. */
  function Sizes(d: Device): (s: seq<Word>)
    ensures |s| == MAX_BARS
  {
    if !HostBridge(d) && d.header == HEADER_ENDPOINT then d.bars.size else NO_SIZES
  }

  function AllSizes(devices: seq<Device>): seq<Word> {
    if devices == [] then [] else AllSizes(devices[..|devices| - 1]) + Sizes(devices[|devices| - 1])
  }

  /** The pointer when the walk comes to device `i`, and the addresses that device gets. */
  function PointerAt(free: Word, devices: seq<Device>, i: nat): Word
    requires i <= |devices|
  {
    End(free, AllSizes(devices[..i]))
  }

  function AddressesOf(free: Word, devices: seq<Device>, i: nat): (a: seq<Word>)
    requires i < |devices|
    ensures |a| == MAX_BARS
  {
    Place(PointerAt(free, devices, i), Sizes(devices[i]))
  }

  // ---- What the addresses are like ----

  /** Device `i`, BAR `j` in the list of all sizes. */
  lemma {:induction false} AllSizesAt(devices: seq<Device>, i: nat, j: nat)
    requires i < |devices| && j < MAX_BARS
    ensures |AllSizes(devices)| == MAX_BARS * |devices|
    ensures AllSizes(devices)[MAX_BARS * i + j] == Sizes(devices[i])[j]
    decreases |devices|
  {
    AllSizesLength(devices);
    if i < |devices| - 1 {
      AllSizesAt(devices[..|devices| - 1], i, j);
    }
  }

  lemma {:induction false} AllSizesSplit(u: seq<Device>, v: seq<Device>)
    ensures AllSizes(u + v) == AllSizes(u) + AllSizes(v)
    decreases |v|
  {
    if v == [] {
      assert u + v == u;
    } else {
      var n := |v| - 1;
      AllSizesSplit(u, v[..n]);
      AllSizesMore(u, v[..n], v[n]);
      assert v[..n] + [v[n]] == v;
    }
  }

  lemma AllSizesMore(u: seq<Device>, v: seq<Device>, d: Device)
    requires AllSizes(u + v) == AllSizes(u) + AllSizes(v)
    ensures AllSizes(u + (v + [d])) == AllSizes(u) + AllSizes(v + [d])
  {
    AllSizesSnoc(v, d);
    AllSizesSnoc(u + v, d);
    Grouped(u, v, [d]);
    Grouped(AllSizes(u), AllSizes(v), Sizes(d));
  }

  lemma Grouped<T>(a: seq<T>, b: seq<T>, c: seq<T>)
    ensures a + (b + c) == a + b + c
  {
  }

  lemma AllSizesSnoc(v: seq<Device>, d: Device)
    ensures AllSizes(v + [d]) == AllSizes(v) + Sizes(d)
  {
    assert (v + [d])[..|v|] == v;
  }

  /** The address that device `i` gets for BAR `j`, in the list of all addresses. */
  lemma AllPlacedAt(free: Word, devices: seq<Device>, i: nat, j: nat)
    requires i < |devices| && j < MAX_BARS
    ensures |AllSizes(devices)| == MAX_BARS * |devices|
    ensures Place(free, AllSizes(devices))[MAX_BARS * i + j] == AddressesOf(free, devices, i)[j]
  {
    AllSizesLength(devices);
    PlacedLast(free, devices[..i + 1], j);
    assert devices[..i + 1][..i] == devices[..i];
    PlacedPrefix(free, devices, i + 1, MAX_BARS * i + j);
  }

  lemma PlacedPrefix(free: Word, devices: seq<Device>, n: nat, k: nat)
    requires n <= |devices| && k < MAX_BARS * n
    ensures |AllSizes(devices)| == MAX_BARS * |devices| && |AllSizes(devices[..n])| == MAX_BARS * n
    ensures Place(free, AllSizes(devices))[k] == Place(free, AllSizes(devices[..n]))[k]
  {
    AllSizesLength(devices);
    AllSizesLength(devices[..n]);
    AllSizesSplit(devices[..n], devices[n..]);
    assert devices[..n] + devices[n..] == devices;
    PlaceSplit(free, AllSizes(devices[..n]), AllSizes(devices[n..]), k);
  }

  lemma PlacedLast(free: Word, devices: seq<Device>, j: nat)
    requires devices != [] && j < MAX_BARS
    ensures |AllSizes(devices)| == MAX_BARS * |devices|
    ensures var n := |devices| - 1; Place(free, AllSizes(devices))[MAX_BARS * n + j] == AddressesOf(free, devices, n)[j]
  {
    var n := |devices| - 1;
    AllSizesLength(devices);
    AllSizesLength(devices[..n]);
    PlaceSplit(free, AllSizes(devices[..n]), Sizes(devices[n]), MAX_BARS * n + j);
  }

  lemma {:induction false} AllSizesLength(devices: seq<Device>)
    ensures |AllSizes(devices)| == MAX_BARS * |devices|
  {
    if devices != [] {
      AllSizesLength(devices[..|devices| - 1]);
    }
  }

  ghost predicate Placeable(free: Word, devices: seq<Device>) {
    AllPowers(AllSizes(devices)) && Fits(free, AllSizes(devices))
  }

  /** Every address handed out is a multiple of the block's size and lies in the span that the pointer covers. */
  lemma AddressAligned(free: Word, devices: seq<Device>, i: nat, j: nat)
    requires Placeable(free, devices) && i < |devices| && j < MAX_BARS && Sizes(devices[i])[j] != 0
    ensures var a := AddressesOf(free, devices, i)[j];
            var size := Sizes(devices[i])[j];
            a % size == 0 && free <= a && a + size <= PointerAt(free, devices, |devices|)
  {
    AllSizesAt(devices, i, j);
    AllPlacedAt(free, devices, i, j);
    PlacedInside(free, AllSizes(devices), MAX_BARS * i + j);
    assert devices[..|devices|] == devices;
  }

  /** BAR `j` of device `i`, its size and its address, is entry `k` of the lists over all devices. */
  lemma EntryOf(free: Word, devices: seq<Device>, i: nat, j: nat, k: nat)
    requires i < |devices| && j < MAX_BARS && k == MAX_BARS * i + j
    ensures k < |AllSizes(devices)| && AllSizes(devices)[k] == Sizes(devices[i])[j]
    ensures Place(free, AllSizes(devices))[k] == AddressesOf(free, devices, i)[j]
  {
    AllSizesAt(devices, i, j);
    AllPlacedAt(free, devices, i, j);
  }

  lemma Ordered(i: nat, j: nat, i': nat, j': nat)
    requires (i < i' || (i == i' && j < j')) && j < MAX_BARS
    ensures MAX_BARS * i + j < MAX_BARS * i' + j'
  {
  }

  /** Of two BARs the one that comes first, by device and then by index, ends before the other starts. */
  lemma AddressesApart(free: Word, devices: seq<Device>, i: nat, j: nat, i': nat, j': nat)
    requires Placeable(free, devices) && i < |devices| && i' < |devices| && j < MAX_BARS && j' < MAX_BARS
    requires i < i' || (i == i' && j < j')
    requires Sizes(devices[i])[j] != 0 && Sizes(devices[i'])[j'] != 0
    ensures var a: int := AddressesOf(free, devices, i)[j];
            a + Sizes(devices[i])[j] <= AddressesOf(free, devices, i')[j']
  {
    var k, k' := MAX_BARS * i + j, MAX_BARS * i' + j';
    Ordered(i, j, i', j');
    EntryOf(free, devices, i, j, k);
    EntryOf(free, devices, i', j', k');
    PlacedApart(free, AllSizes(devices), k, k');
  }

  /** The whole span is less than twice the sum of the sizes. */
  lemma SpanOfAll(free: Word, devices: seq<Device>)
    requires Placeable(free, devices) && Sum(AllSizes(devices)) > 0
    ensures free + Sum(AllSizes(devices)) <= PointerAt(free, devices, |devices|) < free + 2 * Sum(AllSizes(devices))
  {
    Span(free, AllSizes(devices));
    assert devices[..|devices|] == devices;
  }

  // ---- What the walk does to the database and to configuration space ----

  /** A database entry with its addresses filled in. */
  function Filled(d: Device, sizes: seq<Word>, addresses: seq<Word>, n: nat): Device
    requires |sizes| == |addresses| == MAX_BARS && n <= MAX_BARS
  {
    if n == 0 then d
    else
      var d' := Filled(d, sizes, addresses, n - 1);
      if sizes[n - 1] == 0 then d'
      else d'.(bars := Bars(d'.bars.size, d'.bars.address[n - 1 := addresses[n - 1]]))
  }

  lemma {:induction false} FilledAt(d: Device, sizes: seq<Word>, addresses: seq<Word>, n: nat, j: nat)
    requires |sizes| == |addresses| == MAX_BARS && n <= MAX_BARS && j < MAX_BARS
    ensures var r := Filled(d, sizes, addresses, n);
            && r.at == d.at && r.header == d.header && r.bars.size == d.bars.size
            && r.bars.address[j] == if j < n && sizes[j] != 0 then addresses[j] else d.bars.address[j]
  {
    if n > 0 {
      FilledAt(d, sizes, addresses, n - 1, j);
    }
  }

  /** The entry of device `i` after the walk. */
  function Entry(free: Word, devices: seq<Device>, i: nat): Device
    requires i < |devices|
  {
    Filled(devices[i], Sizes(devices[i]), AddressesOf(free, devices, i), |Sizes(devices[i])|)
  }

  /** The first `n` BARs written. */
  function BarsWritten(c: Config, b: Bdf, sizes: seq<Word>, addresses: seq<Word>, n: nat): Config
    requires |sizes| == |addresses| == MAX_BARS && n <= MAX_BARS
  {
    if n == 0 then c
    else
      var c' := BarsWritten(c, b, sizes, addresses, n - 1);
      if sizes[n - 1] == 0 then c' else Write(c', b, REG_BAR0 + (n - 1), addresses[n - 1])
  }

  /** Memory and bus-master access switched on: `command | 0x06`. */
  function WithAccess(command: Word): Word {
    command - command / 2 % 4 * 2 + 6
  }

  function Enabled(c: Config, b: Bdf): Config {
    Write(c, b, REG_COMMAND, WithAccess(Read(c, b, REG_COMMAND)))
  }

  function DeviceDone(c: Config, d: Device, free: Word, base: Word, v: Vector): Config {
    if HostBridge(d) then c
    else if d.header == HEADER_ENDPOINT then
      Enabled(SetupMsi(BarsWritten(c, d.at, Sizes(d), Place(free, Sizes(d)), |Sizes(d)|), d.at, base, v), d.at)
    else if d.header == HEADER_BRIDGE then
      Enabled(Write(c, d.at, REG_WINDOW, free / 0x10_0000 * 0x10), d.at)
    else c
  }

  function DevicesDone(c: Config, devices: seq<Device>, free: Word, base: Word, vectors: seq<Vector>, n: nat): Config
    requires n <= |devices| == |vectors|
  {
    if n == 0 then c
    else DeviceDone(DevicesDone(c, devices, free, base, vectors, n - 1),
                    devices[n - 1], PointerAt(free, devices, n - 1), base, vectors[n - 1])
  }

  // ---- Where a BAR's address ends up ----

  /** Register `r` is one of the first `n` BARs, and has a size. */
  predicate Hit(sizes: seq<Word>, n: nat, r: nat)
    requires |sizes| == MAX_BARS && n <= MAX_BARS
  {
    REG_BAR0 <= r < REG_BAR0 + n && sizes[r - REG_BAR0] != 0
  }

  /** What a register of function `o` holds once the BARs of `b` are written. */
  lemma {:induction false} BarsWrittenAt(c: Config, b: Bdf, sizes: seq<Word>, addresses: seq<Word>, n: nat,
                                         o: Bdf, r: nat)
    requires |sizes| == |addresses| == MAX_BARS && n <= MAX_BARS && r < 1024 && o in c
    ensures var c' := BarsWritten(c, b, sizes, addresses, n);
            && c'.Keys == c.Keys && c'[o].writable == c[o].writable
            && c'[o].regs[r]
               == if o == b && Hit(sizes, n, r)
                  then Stored(c[o].regs[r], c[o].writable[r], addresses[r - REG_BAR0])
                  else c[o].regs[r]
  {
    if n > 0 {
      BarsWrittenAt(c, b, sizes, addresses, n - 1, o, r);
      if sizes[n - 1] != 0 {
        OneMoreBar(c, BarsWritten(c, b, sizes, addresses, n - 1), b, sizes, addresses, n, o, r);
      }
    }
  }

  lemma OneMoreBar(c: Config, c1: Config, b: Bdf, sizes: seq<Word>, addresses: seq<Word>, n: nat, o: Bdf, r: nat)
    requires |sizes| == |addresses| == MAX_BARS && 0 < n <= MAX_BARS && r < 1024 && o in c && sizes[n - 1] != 0
    requires c1.Keys == c.Keys && c1[o].writable == c[o].writable
    requires c1[o].regs[r]
             == if o == b && Hit(sizes, n - 1, r)
                then Stored(c[o].regs[r], c[o].writable[r], addresses[r - REG_BAR0])
                else c[o].regs[r]
    ensures var c' := Write(c1, b, REG_BAR0 + (n - 1), addresses[n - 1]);
            && c'.Keys == c.Keys && c'[o].writable == c[o].writable
            && c'[o].regs[r]
               == if o == b && Hit(sizes, n, r)
                  then Stored(c[o].regs[r], c[o].writable[r], addresses[r - REG_BAR0])
                  else c[o].regs[r]
  {
    WrittenAt(c1, b, REG_BAR0 + (n - 1), addresses[n - 1], o, r);
  }

  lemma WrittenAt(c: Config, b: Bdf, q: nat, v: Word, o: Bdf, r: nat)
    requires o in c && q < 1024 && r < 1024
    ensures var c' := Write(c, b, q, v);
            && c'.Keys == c.Keys && c'[o].writable == c[o].writable
            && c'[o].regs[r]
               == if o == b && r == q then Stored(c[o].regs[r], c[o].writable[r], v) else c[o].regs[r]
  {
  }

  /** A function whose capabilities, if it has any, all lie above the predefined header. */
  lemma MsiSame(c: Config, b: Bdf, sizes: seq<Word>, addresses: seq<Word>)
    requires |sizes| == |addresses| == MAX_BARS && b in c && HighList(c, b)
    ensures var cap := Find(BarsWritten(c, b, sizes, addresses, |sizes|), b, MSI_CAP_ID);
            cap == 0 || cap >= 0x40
  {
    var c' := BarsWritten(c, b, sizes, addresses, |sizes|);
    forall r | 0 <= r < 1024 && !(REG_BAR0 <= r < REG_BAR0 + MAX_BARS)
      ensures Read(c', b, r) == Read(c, b, r)
    {
      BarsWrittenAt(c, b, sizes, addresses, |sizes|, b, r);
    }
    assert HasList(c', b) == HasList(c, b) && FirstPtr(c', b) == FirstPtr(c, b);
    if HasList(c, b) {
      FindSame(c, c', b, FirstPtr(c, b), MSI_CAP_ID, MAX_HOPS);
    }
  }

  /** One device's turn leaves every other function alone. */
  lemma OthersKept(c: Config, d: Device, free: Word, base: Word, v: Vector, o: Bdf, r: nat)
    requires o in c && o != d.at && r < 1024
    ensures var c' := DeviceDone(c, d, free, base, v);
            c'.Keys == c.Keys && c'[o].writable == c[o].writable && c'[o].regs[r] == c[o].regs[r]
  {
    if !HostBridge(d) {
      if d.header == HEADER_ENDPOINT {
        OthersKeptBy(c, d.at, Sizes(d), Place(free, Sizes(d)), base, v, o, r);
      } else if d.header == HEADER_BRIDGE {
        var c1 := Write(c, d.at, REG_WINDOW, free / 0x10_0000 * 0x10);
        WrittenAt(c, d.at, REG_WINDOW, free / 0x10_0000 * 0x10, o, r);
        EnabledElsewhere(c1, d.at, o);
      }
    }
  }

  lemma EnabledElsewhere(c: Config, b: Bdf, o: Bdf)
    requires o in c && o != b
    ensures Enabled(c, b).Keys == c.Keys && Enabled(c, b)[o] == c[o]
  {
  }

  lemma OthersKeptBy(c: Config, b: Bdf, sizes: seq<Word>, addresses: seq<Word>, base: Word, v: Vector, o: Bdf, r: nat)
    requires |sizes| == |addresses| == MAX_BARS && o in c && o != b && r < 1024
    ensures var c' := Enabled(SetupMsi(BarsWritten(c, b, sizes, addresses, |sizes|), b, base, v), b);
            c'.Keys == c.Keys && c'[o].writable == c[o].writable && c'[o].regs[r] == c[o].regs[r]
  {
    var c1 := BarsWritten(c, b, sizes, addresses, |sizes|);
    BarsWrittenAt(c, b, sizes, addresses, |sizes|, o, r);
    MsiKeeps(c1, b, base, v, o, r);
    EnabledElsewhere(SetupMsi(c1, b, base, v), b, o);
  }

  lemma OtherKept(c: Config, d: Device, free: Word, base: Word, v: Vector, o: Bdf)
    requires o in c && o != d.at
    ensures var c' := DeviceDone(c, d, free, base, v);
            c'.Keys == c.Keys && c'[o] == c[o]
  {
    var c' := DeviceDone(c, d, free, base, v);
    OthersKept(c, d, free, base, v, o, 0);
    forall r | 0 <= r < 1024
      ensures c'[o].regs[r] == c[o].regs[r]
    {
      OthersKept(c, d, free, base, v, o, r);
    }
    assert c'[o].regs == c[o].regs;
  }

  predicate Walked(d: Device) {
    !HostBridge(d) && d.header == HEADER_ENDPOINT
  }

  /** Its own BARs hold what was written to them; those without a size are not written. */
  lemma OwnBars(c: Config, d: Device, free: Word, base: Word, v: Vector, j: nat)
    requires d.at in c && HighList(c, d.at) && j < MAX_BARS && Walked(d)
    ensures var c' := DeviceDone(c, d, free, base, v);
            && c'.Keys == c.Keys && c'[d.at].writable == c[d.at].writable
            && c'[d.at].regs[REG_BAR0 + j] == BarAfter(c[d.at], j, Sizes(d)[j], Place(free, Sizes(d))[j])
  {
    WrittenBar(c, d.at, Sizes(d), Place(free, Sizes(d)), base, v, j);
  }

  /** What a BAR register holds after the walk. */
  function BarAfter(s: Space, j: nat, size: Word, address: Word): Word
    requires j < MAX_BARS
  {
    if size == 0 then Original(s, j) else Stored(Original(s, j), Mask(s, j), address)
  }

  lemma WrittenBar(c: Config, b: Bdf, sizes: seq<Word>, addresses: seq<Word>, base: Word, v: Vector, j: nat)
    requires |sizes| == |addresses| == MAX_BARS && b in c && HighList(c, b) && j < MAX_BARS
    ensures var c' := Enabled(SetupMsi(BarsWritten(c, b, sizes, addresses, |sizes|), b, base, v), b);
            && c'.Keys == c.Keys && c'[b].writable == c[b].writable
            && c'[b].regs[REG_BAR0 + j] == BarAfter(c[b], j, sizes[j], addresses[j])
  {
    var c1 := BarsWritten(c, b, sizes, addresses, |sizes|);
    BarsWrittenAt(c, b, sizes, addresses, |sizes|, b, REG_BAR0 + j);
    MsiSame(c, b, sizes, addresses);
    MsiKeeps(c1, b, base, v, b, REG_BAR0 + j);
    EnabledKeeps(SetupMsi(c1, b, base, v), b, REG_BAR0 + j);
  }

  lemma EnabledKeeps(c: Config, b: Bdf, r: nat)
    requires b in c && r < 1024 && r != REG_COMMAND
    ensures var c' := Enabled(c, b);
            c'.Keys == c.Keys && c'[b].writable == c[b].writable && c'[b].regs[r] == c[b].regs[r]
  {
  }

  ghost predicate Distinct(devices: seq<Device>) {
    forall i, j :: 0 <= i < j < |devices| ==> devices[i].at != devices[j].at
  }

  lemma {:induction false} KeptSoFar(c: Config, devices: seq<Device>, free: Word, base: Word, vectors: seq<Vector>,
                                     n: nat, o: Bdf)
    requires n <= |devices| == |vectors| && o in c
    requires forall i :: 0 <= i < n ==> devices[i].at != o
    ensures var c' := DevicesDone(c, devices, free, base, vectors, n);
            c'.Keys == c.Keys && c'[o] == c[o]
  {
    if n > 0 {
      KeptSoFar(c, devices, free, base, vectors, n - 1, o);
      OtherKept(DevicesDone(c, devices, free, base, vectors, n - 1),
                devices[n - 1], PointerAt(free, devices, n - 1), base, vectors[n - 1], o);
    }
  }

  /** After the walk, each BAR that was given an address holds that address in its writable bits, and each
      register recorded without a size, such as the upper half of a 64-bit BAR, is as it was. */
  lemma {:induction false} BarsHold(c: Config, devices: seq<Device>, free: Word, base: Word, vectors: seq<Vector>,
                                    n: nat, i: nat, j: nat)
    requires i < n <= |devices| == |vectors| && Distinct(devices) && j < MAX_BARS
    requires devices[i].at in c && HighList(c, devices[i].at) && Walked(devices[i])
    ensures var c' := DevicesDone(c, devices, free, base, vectors, n);
            var b := devices[i].at;
            && b in c' && c'[b].writable == c[b].writable
            && c'[b].regs[REG_BAR0 + j]
               == BarAfter(c[b], j, Sizes(devices[i])[j], AddressesOf(free, devices, i)[j])
  {
    var b := devices[i].at;
    var c' := DevicesDone(c, devices, free, base, vectors, n - 1);
    if i == n - 1 {
      KeptSoFar(c, devices, free, base, vectors, i, b);
      SameList(c, c', b);
      OwnBars(c', devices[i], PointerAt(free, devices, i), base, vectors[i], j);
    } else {
      BarsHold(c, devices, free, base, vectors, n - 1, i, j);
      OthersKept(c', devices[n - 1], PointerAt(free, devices, n - 1), base, vectors[n - 1], b, REG_BAR0 + j);
    }
  }

  lemma {:induction false} SameHigh(c: Config, c': Config, b: Bdf, ptr: nat, left: nat)
    requires ptr < 256 && b in c && b in c' && c[b] == c'[b]
    ensures HighFrom(c, b, ptr, left) == HighFrom(c', b, ptr, left)
    decreases left
  {
    if ptr != 0 && left != 0 {
      SameHigh(c, c', b, NextPtr(c, b, ptr), left - 1);
    }
  }

  lemma SameList(c: Config, c': Config, b: Bdf)
    requires b in c && b in c' && c[b] == c'[b] && HighList(c, b)
    ensures HighList(c', b)
  {
    SameHigh(c, c', b, FirstPtr(c, b), MAX_HOPS);
  }

  // ---- What the walk switches on ----

  /** `command | 0x06` sets bits 1 and 2. */
  lemma AccessBits(command: Word, k: nat)
    ensures Bit(WithAccess(command), k) == if k == 1 || k == 2 then 1 else Bit(command, k)
  {
    var more := WithAccess(command);
    LowBits(command, k);
    LowBits(more, k);
    PartsOf(command);
    TwoBits(command / 2, command / 8, command / 4 % 2, command / 2 % 2);
    Parts(command / 8, 1, 1, command % 2);
  }

  lemma EnabledBits(c: Config, b: Bdf, k: nat)
    requires b in c && k < 32
    ensures b in Enabled(c, b) && Enabled(c, b)[b].writable == c[b].writable
    ensures Bit(Enabled(c, b)[b].regs[1], k)
            == if (k == 1 || k == 2) && Bit(c[b].writable[1], k) == 1 then 1 else Bit(c[b].regs[1], k)
  {
    var command := c[b].regs[REG_COMMAND];
    StoredBit(command, c[b].writable[REG_COMMAND], WithAccess(command), k);
    AccessBits(command, k);
  }

  /** The walk comes to it: an endpoint or a bridge that is not the host bridge. */
  predicate Switched(d: Device) {
    d.at != Bdf(0, 0, 0) && (d.header == 0 || d.header == 1)
  }

  lemma OwnCommand(c: Config, d: Device, free: Word, base: Word, v: Vector, k: nat)
    requires d.at in c && HighList(c, d.at) && k < 32 && Switched(d)
    ensures var c', b := DeviceDone(c, d, free, base, v), d.at;
            && b in c' && c'[b].writable == c[b].writable
            && Bit(c'[b].regs[1], k)
               == if (k == 1 || k == 2) && Bit(c[b].writable[1], k) == 1 then 1 else Bit(c[b].regs[1], k)
  {
    var b := d.at;
    if d.header == HEADER_ENDPOINT {
      var c1 := BarsWritten(c, b, Sizes(d), Place(free, Sizes(d)), |Sizes(d)|);
      BarsWrittenAt(c, b, Sizes(d), Place(free, Sizes(d)), |Sizes(d)|, b, REG_COMMAND);
      MsiSame(c, b, Sizes(d), Place(free, Sizes(d)));
      MsiKeeps(c1, b, base, v, b, REG_COMMAND);
      EnabledBits(SetupMsi(c1, b, base, v), b, k);
    } else {
      WrittenAt(c, b, REG_WINDOW, free / 0x10_0000 * 0x10, b, REG_COMMAND);
      EnabledBits(Write(c, b, REG_WINDOW, free / 0x10_0000 * 0x10), b, k);
    }
  }

  /** After the walk memory decoding and bus mastering, bits 1 and 2 of the command register, are on where they
      are writable, for every endpoint and bridge in the database but the host bridge; every other bit of that
      register is as it was. */
  lemma {:induction false} WalkSwitchesOn(c: Config, devices: seq<Device>, free: Word, base: Word, vectors: seq<Vector>,
                                          n: nat, i: nat, k: nat)
    requires i < n <= |devices| == |vectors| && Distinct(devices) && k < 32
    requires devices[i].at in c && HighList(c, devices[i].at) && Switched(devices[i])
    ensures var c', b := DevicesDone(c, devices, free, base, vectors, n), devices[i].at;
            && b in c' && c'[b].writable == c[b].writable
            && Bit(c'[b].regs[1], k)
               == if (k == 1 || k == 2) && Bit(c[b].writable[1], k) == 1 then 1 else Bit(c[b].regs[1], k)
  {
    var b := devices[i].at;
    var c' := DevicesDone(c, devices, free, base, vectors, n - 1);
    if i == n - 1 {
      KeptSoFar(c, devices, free, base, vectors, i, b);
      SameList(c, c', b);
      OwnCommand(c', devices[i], PointerAt(free, devices, i), base, vectors[i], k);
    } else {
      WalkSwitchesOn(c, devices, free, base, vectors, n - 1, i, k);
      OthersKept(c', devices[n - 1], PointerAt(free, devices, n - 1), base, vectors[n - 1], b, REG_COMMAND);
    }
  }

  /** A function that is in no entry, or in one the walk passes over, is left as it was. */
  lemma {:induction false} WalkLeavesAlone(c: Config, devices: seq<Device>, free: Word, base: Word,
                                           vectors: seq<Vector>, n: nat, o: Bdf)
    requires n <= |devices| == |vectors| && o in c
    requires forall i :: 0 <= i < n ==> devices[i].at != o || !Switched(devices[i])
    ensures var c' := DevicesDone(c, devices, free, base, vectors, n);
            o in c' && c'[o] == c[o]
  {
    if n > 0 {
      WalkLeavesAlone(c, devices, free, base, vectors, n - 1, o);
      var c' := DevicesDone(c, devices, free, base, vectors, n - 1);
      if devices[n - 1].at != o {
        OtherKept(c', devices[n - 1], PointerAt(free, devices, n - 1), base, vectors[n - 1], o);
      }
    }
  }

  /** The walk writes the megabyte of the pointer to the window register of a bridge. */
  lemma BridgeWindow(c: Config, d: Device, free: Word, base: Word, v: Vector)
    requires d.at in c && d.at != Bdf(0, 0, 0) && d.header == 1
    ensures var c', b := DeviceDone(c, d, free, base, v), d.at;
            b in c' && c'[b].regs[8] == Stored(c[b].regs[8], c[b].writable[8], (free - free % 0x10_0000) / 0x1_0000)
  {
    var v := free / 0x10_0000 * 0x10;
    assert free - free % 0x10_0000 == free / 0x10_0000 * 0x10_0000;
    WrittenAt(c, d.at, REG_WINDOW, v, d.at, REG_WINDOW);
    EnabledKeeps(Write(c, d.at, REG_WINDOW, v), d.at, REG_WINDOW);
  }

  // ---- Reading an address back ----

  datatype Mapped = Null | At(address: nat)

  function Ioremap(c: Config, d: Device, bar: nat): Mapped
    requires bar < MAX_BARS
  {
    var value := Read(c, d.at, REG_BAR0 + bar);
    if d.bars.size[bar] == 0 || value == 0 || value == ONES || Low(value) % 2 == 1 then Null
    else if Is64(value) && bar < MAX_BARS - 1 then At(Read(c, d.at, REG_BAR0 + bar + 1) * U32 + Base(value))
    else At(Base(value))
  }

  /** pci_ioremap_bar gives nothing exactly when no size is recorded or the register reads all zeros, all ones or
      as an I/O BAR; else the register without its type bits, above the next register of a 64-bit BAR. */
  lemma IoremapIs(c: Config, d: Device, j: nat)
    requires j < MAX_BARS && d.at in c
    ensures var value := c[d.at].regs[4 + j];
            && (Ioremap(c, d, j) == Null <==>
                d.bars.size[j] == 0 || value == 0 || value == 0xFFFF_FFFF || value % 2 == 1)
            && (Ioremap(c, d, j).At? ==>
                  Ioremap(c, d, j).address
                  == value / 16 * 16 + if value / 2 % 4 == 2 && j < 5 then c[d.at].regs[5 + j] * U32 else 0)
  {
    TypeIs(c[d.at].regs[4 + j]);
  }

  /** A memory BAR of a power-of-two size that holds only its type below the block. */
  ghost predicate Sound(s: Space, bar: nat, size: Word)
    requires bar < MAX_BARS
  {
    && PowerOfTwo(size) && size >= 16 && Mask(s, bar) == U32 - size
    && Original(s, bar) % size < 16 && Original(s, bar) % 2 == 0
  }

  lemma BarValue(reg: Word, size: Word, a: Word)
    requires PowerOfTwo(size) && size >= 16 && reg % size < 16 && a % size == 0
    ensures Stored(reg, U32 - size, a) == a + Low(reg)
    ensures Low(Stored(reg, U32 - size, a)) == Low(reg) && Base(Stored(reg, U32 - size, a)) == a
  {
    PowerFrom16(size);
    TypeBits(reg, size);
    StoredHigh(reg, size, a);
    Sixteen(a, size);
    LowSum(a, Low(reg));
  }

  lemma Sixteen(a: nat, size: nat)
    requires size > 0 && size % 16 == 0 && a % size == 0
    ensures a % 16 == 0
  {
    var q, k := a / size, size / 16;
    assert a == q * (16 * k);
    Scale(q, k);
    ModIs(a, q * k, 0, 16);
  }

  lemma LowSum(a: nat, bits: nat)
    requires a % 16 == 0 && bits < 16
    ensures (a + bits) % 16 == bits
  {
    ModIs(a + bits, a / 16, bits, 16);
  }

  /** What a 64-bit BAR's other register adds to the address. */
  function UpperHalf(s: Space, j: nat): nat
    requires j < MAX_BARS
  {
    if s.regs[4 + j] / 2 % 4 == 2 && j < MAX_BARS - 1 then s.regs[5 + j] * U32 else 0
  }

  /** The probe records the upper half of a 64-bit BAR as absent. */
  predicate UpperAbsent(s: Space, d: Device, j: nat)
    requires j < MAX_BARS
  {
    s.regs[4 + j] / 2 % 4 == 2 && j < MAX_BARS - 1 ==> Sizes(d)[j + 1] == 0
  }

  lemma BothHalves(c: Config, devices: seq<Device>, free: Word, base: Word, vectors: seq<Vector>, i: nat, j: nat)
    requires i < |devices| == |vectors| && Distinct(devices) && j < MAX_BARS && Sizes(devices[i])[j] != 0
    requires devices[i].at in c && HighList(c, devices[i].at) && UpperAbsent(c[devices[i].at], devices[i], j)
    ensures var c', b := DevicesDone(c, devices, free, base, vectors, |devices|), devices[i].at;
            && b in c'
            && Original(c'[b], j) == Stored(Original(c[b], j), Mask(c[b], j), AddressesOf(free, devices, i)[j])
            && (Original(c[b], j) / 2 % 4 == 2 && j < MAX_BARS - 1 ==> Original(c'[b], j + 1) == Original(c[b], j + 1))
  {
    BarsHold(c, devices, free, base, vectors, |devices|, i, j);
    if j < MAX_BARS - 1 {
      BarsHold(c, devices, free, base, vectors, |devices|, i, j + 1);
    }
  }

  lemma RemapsHeld(c: Config, c': Config, devices: seq<Device>, free: Word, i: nat, j: nat)
    requires i < |devices| && j < MAX_BARS && free > 0 && Placeable(free, devices) && Sizes(devices[i])[j] != 0
    requires var b := devices[i].at;
             && b in c && b in c' && Sound(c[b], j, Sizes(devices[i])[j])
             && Original(c'[b], j) == Stored(Original(c[b], j), Mask(c[b], j), AddressesOf(free, devices, i)[j])
             && (Original(c[b], j) / 2 % 4 == 2 && j < MAX_BARS - 1 ==> Original(c'[b], j + 1) == Original(c[b], j + 1))
    ensures var d, a := Entry(free, devices, i), AddressesOf(free, devices, i)[j];
            d.bars.address[j] == a && Ioremap(c', d, j) == At(a + UpperHalf(c[devices[i].at], j))
  {
    AddressAligned(free, devices, i, j);
    EntryAt(free, devices, i, j);
    Remaps(c, c', Entry(free, devices, i), j, AddressesOf(free, devices, i)[j], Sizes(devices[i])[j]);
  }

  /** After the walk pci_ioremap_bar gives, for every BAR the walk gave an address, that address above what
      the upper half of a 64-bit BAR held before the walk: the database address itself exactly when that
      half was zero. */
  lemma RemapsAddress(c: Config, devices: seq<Device>, free: Word, base: Word, vectors: seq<Vector>, i: nat, j: nat)
    requires i < |devices| == |vectors| && Distinct(devices) && j < MAX_BARS && free > 0
    requires Placeable(free, devices) && Sizes(devices[i])[j] != 0
    requires devices[i].at in c && HighList(c, devices[i].at)
    requires Sound(c[devices[i].at], j, Sizes(devices[i])[j]) && UpperAbsent(c[devices[i].at], devices[i], j)
    ensures var c' := DevicesDone(c, devices, free, base, vectors, |devices|);
            var d, a := Entry(free, devices, i), AddressesOf(free, devices, i)[j];
            var upper := UpperHalf(c[devices[i].at], j);
            && d.bars.address[j] == a
            && Ioremap(c', d, j) == At(a + upper)
            && (Ioremap(c', d, j) == At(d.bars.address[j]) <==> upper == 0)
  {
    BothHalves(c, devices, free, base, vectors, i, j);
    RemapsHeld(c, DevicesDone(c, devices, free, base, vectors, |devices|), devices, free, i, j);
  }

  lemma EntryAt(free: Word, devices: seq<Device>, i: nat, j: nat)
    requires i < |devices| && j < MAX_BARS && Sizes(devices[i])[j] != 0
    ensures var d := Entry(free, devices, i);
            && d.at == devices[i].at && d.bars.size[j] == Sizes(devices[i])[j]
            && d.bars.address[j] == AddressesOf(free, devices, i)[j]
  {
    FilledAt(devices[i], Sizes(devices[i]), AddressesOf(free, devices, i), |Sizes(devices[i])|, j);
  }

  lemma Remaps(c: Config, c': Config, d: Device, j: nat, a: Word, size: Word)
    requires d.at in c && d.at in c' && j < MAX_BARS && d.bars.size[j] == size
    requires Sound(c[d.at], j, size) && a > 0 && a % size == 0
    requires Original(c'[d.at], j) == Stored(Original(c[d.at], j), Mask(c[d.at], j), a)
    requires Original(c[d.at], j) / 2 % 4 == 2 && j < MAX_BARS - 1 ==>
               Original(c'[d.at], j + 1) == Original(c[d.at], j + 1)
    ensures Ioremap(c', d, j) == At(a + UpperHalf(c[d.at], j))
  {
    TypeIs(Original(c[d.at], j));
    BarValue(Original(c[d.at], j), size, a);
    NotOnes(Original(c'[d.at], j));
  }

  lemma NotOnes(value: Word)
    ensures Low(value) % 2 == 0 ==> value != ONES
  {
  }

  // ---- Which recorded blocks lie at a multiple of their real size ----

  /** The function decodes a block of `size` bytes with the 64-bit BAR `j`. */
  ghost predicate Decodes64(s: Space, j: nat, size: nat)
    requires j < MAX_BARS - 1
  {
    if size < U32 then Block64(Original(s, j), Mask(s, j), Mask(s, j + 1), size)
    else
      && size % U32 == 0 && size / U32 < U32
      && HugeBlock(Original(s, j), Original(s, j + 1), Mask(s, j), Mask(s, j + 1), size / U32)
  }

  lemma BelowSize(a: nat, size: nat)
    requires a < 2 && size > 1
    ensures a % size == 0 <==> a == 0
  {
    ModIs(a, 0, a, size);
  }

  /** A 64-bit BAR that the probe comes to is given a multiple of its real size exactly when that is below
      4 GB, or the pointer is even, and then the address of the larger block is 0. */
  lemma RecordedPlacement(s: Space, devices: seq<Device>, free: Word, i: nat, j: nat, size: nat)
    requires i < |devices| && Walked(devices[i]) && devices[i].bars == Probe(s)
    requires j < MAX_BARS - 1 && Reaches(AllVerdicts(s), 0, j) && Decodes64(s, j, size)
    ensures Sizes(devices[i])[j] != 0
    ensures var a := AddressesOf(free, devices, i)[j];
            var pointer := End(PointerAt(free, devices, i), Sizes(devices[i])[..j]);
            && (a % size == 0 <==> size < U32 || pointer % 2 == 0)
            && (size >= U32 ==> a == pointer % 2)
  {
    var pointer := End(PointerAt(free, devices, i), Sizes(devices[i])[..j]);
    NextPlace(PointerAt(free, devices, i), Sizes(devices[i]), j);
    if size < U32 {
      Records64(s, j, size);
      AlwaysAligned(pointer, size);
    } else {
      RecordsHuge(s, j, size / U32);
      HugeBlockMisplaced(pointer);
      BelowSize(pointer % 2, size);
    }
  }

  /** So is every 32-bit BAR that is recorded at all. */
  lemma RecordedPlacement32(s: Space, devices: seq<Device>, free: Word, i: nat, j: nat, size: Word)
    requires i < |devices| && Walked(devices[i]) && devices[i].bars == Probe(s)
    requires j < MAX_BARS && Reaches(AllVerdicts(s), 0, j) && Original(s, j) != 0
    requires Block32(Original(s, j), Mask(s, j), size)
    ensures Sizes(devices[i])[j] != 0 <==> size != 16
    ensures Sizes(devices[i])[j] != 0 ==> AddressesOf(free, devices, i)[j] % size == 0
  {
    NextPlace(PointerAt(free, devices, i), Sizes(devices[i]), j);
    Records32(s, j, size);
    AlwaysAligned(End(PointerAt(free, devices, i), Sizes(devices[i])[..j]), size);
  }

  /** The address of BAR `j` of device `i` is rounded up from some pointer. */
  lemma AddressIs(free: Word, devices: seq<Device>, i: nat, j: nat)
    requires i < |devices| && j < MAX_BARS && Sizes(devices[i])[j] != 0
    ensures AddressesOf(free, devices, i)[j]
            == AlignUp(End(PointerAt(free, devices, i), Sizes(devices[i])[..j]), Sizes(devices[i])[j])
  {
    NextPlace(PointerAt(free, devices, i), Sizes(devices[i]), j);
  }

  /** What the probe records: nothing, 0xFFFFFFFF or a power of two. */
  ghost predicate AllRecorded(devices: seq<Device>) {
    forall i, j :: 0 <= i < |devices| && 0 <= j < MAX_BARS ==>
      var size := Sizes(devices[i])[j]; size == 0 || size == ONES || (PowerOfTwo(size) && size > 1)
  }

  ghost predicate BarsApart(free: Word, devices: seq<Device>, i: nat, j: nat, i': nat, j': nat)
    requires i < |devices| && i' < |devices| && j < MAX_BARS && j' < MAX_BARS
  {
    Sizes(devices[i'])[j'] != 0 && (i, j) != (i', j') ==>
      Apart(AddressesOf(free, devices, i)[j], Sizes(devices[i])[j],
            AddressesOf(free, devices, i')[j'], Sizes(devices[i'])[j'])
  }

  /** With a block recorded as 0xFFFFFFFF in the database, that block lies apart from the others exactly when
      there are no others: wherever the pointer starts, every other block overlaps it. */
  lemma HugeAlone(free: Word, devices: seq<Device>, i: nat, j: nat)
    requires i < |devices| && j < MAX_BARS && AllRecorded(devices) && Sizes(devices[i])[j] == ONES
    ensures (forall i': nat, j': nat :: i' < |devices| && j' < MAX_BARS ==> BarsApart(free, devices, i, j, i', j'))
            <==> (forall i': nat, j': nat :: i' < |devices| && j' < MAX_BARS && (i', j') != (i, j) ==>
                    Sizes(devices[i'])[j'] == 0)
  {
    AddressIs(free, devices, i, j);
    forall i': nat, j': nat | i' < |devices| && j' < MAX_BARS && (i', j') != (i, j) && Sizes(devices[i'])[j'] != 0
      ensures !BarsApart(free, devices, i, j, i', j')
    {
      AddressIs(free, devices, i', j');
      HugeOverlaps(End(PointerAt(free, devices, i), Sizes(devices[i])[..j]),
                   End(PointerAt(free, devices, i'), Sizes(devices[i'])[..j']), Sizes(devices[i'])[j']);
    }
  }

  /** The first `n` entries have their addresses, the others are as they were. */
  ghost predicate FilledTo(now: seq<Device>, was: seq<Device>, free: Word, n: nat)
    requires n <= |now| == |was|
  {
    forall k :: 0 <= k < |now| ==>
      now[k] == if k < n then Entry(free, was, k) else was[k]
  }

  // ---- The walk as code ----

  class Allocator {
    const space: ConfigSpace
    const capabilities: Capabilities
    var devices: seq<Device>
    var free: Word

    ghost predicate Valid() {
      capabilities.space == space
    }

    constructor (s: ConfigSpace, ds: seq<Device>, mmio: Word)
      ensures Valid() && space == s && devices == ds && free == mmio
    {
      space := s;
      capabilities := new Capabilities(s);
      devices, free := ds, mmio;
    }

    method PciAlloc(base: Word, vectors: seq<Vector>)
      requires Valid() && |vectors| == |devices|
      modifies this, space
      ensures Valid() && |devices| == |old(devices)|
      ensures FilledTo(devices, old(devices), old(free), |devices|)
      ensures free == PointerAt(old(free), old(devices), |old(devices)|)
      ensures space.config == DevicesDone(old(space.config), old(devices), old(free), base, vectors, |vectors|)
    {
      ghost var ds, f, c := devices, free, space.config;
      var i := 0;
      while i < |devices|
        invariant 0 <= i <= |devices| == |ds| == |vectors|
        invariant FilledTo(devices, ds, f, i)
        invariant free == PointerAt(f, ds, i)
        invariant space.config == DevicesDone(c, ds, f, base, vectors, i)
      {
        OneMore(f, ds, i);
        FilledMore(devices, ds, f, i);
        AllocDevice(i, base, vectors[i]);
        i := i + 1;
      }
    }

    method AllocDevice(i: nat, base: Word, v: Vector)
      requires Valid() && i < |devices|
      modifies this, space
      ensures free == End(old(free), Sizes(old(devices)[i]))
      ensures var d := old(devices)[i];
              devices == old(devices)[i := Filled(d, Sizes(d), Place(old(free), Sizes(d)), |Sizes(d)|)]
      ensures space.config == DeviceDone(old(space.config), old(devices)[i], old(free), base, v)
    {
      var d := devices[i];
      NoSizes(free, d);
      if d.at.bus == 0 && d.at.dev == 0 && d.at.func == 0 {
        return;
      }
      if d.header == HEADER_ENDPOINT {
        PlaceBars(i);
        capabilities.AllocIrqVectors(d.at, base, v);
        Enable(d.at);
      } else if d.header == HEADER_BRIDGE {
        space.WriteDword(d.at, REG_WINDOW, free / 0x10_0000 * 0x10);
        Enable(d.at);
      }
    }

    method Enable(b: Bdf)
      modifies space
      ensures space.config == Enabled(old(space.config), b)
    {
      var command := space.ReadDword(b, REG_COMMAND);
      space.WriteDword(b, REG_COMMAND, WithAccess(command));
    }

    method PlaceBars(i: nat)
      requires i < |devices| && !HostBridge(devices[i]) && devices[i].header == HEADER_ENDPOINT
      modifies this, space
      ensures free == End(old(free), Sizes(old(devices)[i]))
      ensures var d := old(devices)[i];
              && devices == old(devices)[i := Filled(d, Sizes(d), Place(old(free), Sizes(d)), |Sizes(d)|)]
              && space.config
                 == BarsWritten(old(space.config), d.at, Sizes(d), Place(old(free), Sizes(d)), |Sizes(d)|)
    {
      ghost var ds, f, c := devices, free, space.config;
      ghost var d := devices[i];
      ghost var sizes, addresses := Sizes(d), Place(free, Sizes(d));
      var j := 0;
      while j < MAX_BARS
        invariant 0 <= j <= MAX_BARS && i < |devices|
        invariant devices == ds[i := Filled(d, sizes, addresses, j)]
        invariant space.config == BarsWritten(c, d.at, sizes, addresses, j)
        invariant free == End(f, sizes[..j])
      {
        FilledAt(d, sizes, addresses, j, j);
        NextPlace(f, sizes, j);
        PlaceBar(i, j);
        j := j + 1;
      }
      assert sizes[..MAX_BARS] == sizes;
    }

    method PlaceBar(i: nat, j: nat)
      requires i < |devices| && j < MAX_BARS
      modifies this, space
      ensures var d := old(devices)[i];
              var size := d.bars.size[j];
              && free == Next(old(free), size)
              && if size == 0 then devices == old(devices) && space.config == old(space.config)
                 else
                   var a := AlignUp(old(free), size);
                   && devices == old(devices)[i := d.(bars := Bars(d.bars.size, d.bars.address[j := a]))]
                   && space.config == Write(old(space.config), d.at, REG_BAR0 + j, a)
    {
      var d := devices[i];
      var alignment := d.bars.size[j];
      if alignment == 0 {
        return;
      }
      free := AndNot(Add(free, alignment - 1), alignment - 1);
      space.WriteDword(d.at, REG_BAR0 + j, free);
      devices := devices[i := d.(bars := Bars(d.bars.size, d.bars.address[j := free]))];
      free := Add(free, alignment);
    }
  }

  lemma FilledMore(now: seq<Device>, was: seq<Device>, free: Word, n: nat)
    requires |now| == |was| && n < |now| && FilledTo(now, was, free, n)
    ensures FilledTo(now[n := Entry(free, was, n)], was, free, n + 1)
  {
  }

  lemma OneMore(free: Word, devices: seq<Device>, i: nat)
    requires i < |devices|
    ensures PointerAt(free, devices, i + 1) == End(PointerAt(free, devices, i), Sizes(devices[i]))
  {
    assert devices[..i + 1][..i] == devices[..i];
    EndSplit(free, AllSizes(devices[..i]), Sizes(devices[i]));
  }

  lemma NextPlace(free: Word, sizes: seq<Word>, j: nat)
    requires j < |sizes|
    ensures End(free, sizes[..j + 1]) == Next(End(free, sizes[..j]), sizes[j])
    ensures sizes[j] != 0 ==> Place(free, sizes)[j] == AlignUp(End(free, sizes[..j]), sizes[j])
  {
    assert sizes[..j + 1] == sizes[..j] + [sizes[j]];
    assert sizes == sizes[..j] + sizes[j..];
    EndSplit(free, sizes[..j], [sizes[j]]);
    PlaceSplit(free, sizes[..j], sizes[j..], j);
  }

  /** A device without sizes keeps its entry and the pointer. */
  lemma NoSizes(free: Word, d: Device)
    ensures Sizes(d) == NO_SIZES ==> End(free, Sizes(d)) == free
                                     && Filled(d, Sizes(d), Place(free, Sizes(d)), |Sizes(d)|) == d
  {
    if Sizes(d) == NO_SIZES {
      NothingPlaced(free, Sizes(d));
      NothingFilled(d, Sizes(d), Place(free, Sizes(d)), |Sizes(d)|);
    }
  }

  lemma {:induction false} NothingPlaced(free: Word, sizes: seq<Word>)
    requires forall k :: 0 <= k < |sizes| ==> sizes[k] == 0
    ensures End(free, sizes) == free
    decreases |sizes|
  {
    if sizes != [] {
      NothingPlaced(free, sizes[1..]);
    }
  }

  lemma {:induction false} NothingFilled(d: Device, sizes: seq<Word>, addresses: seq<Word>, n: nat)
    requires |sizes| == |addresses| == MAX_BARS && n <= MAX_BARS
    requires forall k :: 0 <= k < |sizes| ==> sizes[k] == 0
    ensures Filled(d, sizes, addresses, n) == d
  {
    if n > 0 {
      NothingFilled(d, sizes, addresses, n - 1);
    }
  }
}
