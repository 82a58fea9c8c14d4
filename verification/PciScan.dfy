/**
 * Filling the PCI database from configuration space.
 * Models do_pci_scan, pci_scan and pci_find_by_bdf of src/drivers/pci/pci_rc.c.
 */
module PciScan {
  import opened Words
  import opened PciConfig
  import opened PciTopology

  const HEADER_ENDPOINT := 0
  const HEADER_BRIDGE := 1

  datatype Device = Device(at: Bdf, vendor: Word, id: Word, header: nat, bars: Bars)

  datatype BridgeInfo = BridgeInfo(at: Bdf, vendor: Word, id: Word, header: nat,
                                   primary: Bus, secondary: Bus, subordinate: Bus,
                                   memBase: Word, memLimit: Word)

  // ---- What configuration space says ----

  predicate ValidVendor(id: Word) {
    LowHalf(id) != 0xFFFF && LowHalf(id) != 0
  }

  /** How many functions of a device are looked at: function 0 says whether there may be more. */
  function Functions(c: Config, bus: nat, dev: nat): (n: nat)
    ensures n <= MAX_FUNCTIONS
  {
    if !ValidVendor(Read(c, Bdf(bus, dev, 0), REG_ID)) then 0
    else if ByteAt(Read(c, Bdf(bus, dev, 0), REG_HEADER), 2) >= 0x80 then MAX_FUNCTIONS
    else 1
  }

  function HeaderType(c: Config, b: Bdf): nat {
    ByteAt(Read(c, b, REG_HEADER), 2) % 0x80
  }

  predicate Visible(c: Config, b: Bdf) {
    InRange(b) && b.func < Functions(c, b.bus, b.dev) && ValidVendor(Read(c, b, REG_ID))
  }

  function KindAt(c: Config, b: Bdf): Kind {
    if !Visible(c, b) then Absent
    else if HeaderType(c, b) == HEADER_ENDPOINT then Endpoint
    else if HeaderType(c, b) == HEADER_BRIDGE then Bridge(ByteAt(Read(c, b, REG_BUSES), 1))
    else Other
  }

  function TopologyOf(c: Config): Topology {
    b => KindAt(c, b)
  }

  // ---- The same on register values ----

  /** The function is there, and its vendor is neither 0 nor 0xFFFF. */
  predicate Answers(c: Config, b: Bdf) {
    b in c && c[b].regs[0] % 0x1_0000 != 0 && c[b].regs[0] % 0x1_0000 != 0xFFFF
  }

  /** Function 0 answers, and says that there are more unless it is the one looked for: bit 23 of its
      register 3. */
  predicate Announced(c: Config, b: Bdf) {
    var first := Bdf(b.bus, b.dev, 0);
    Answers(c, first) && (b.func == 0 || c[first].regs[3] / 0x80_0000 % 2 == 1)
  }

  /** Bits 16 to 22 of register 3: 0 for an endpoint, 1 for a bridge. */
  predicate HasHeader(c: Config, b: Bdf, header: nat) {
    b in c && c[b].regs[3] / 0x1_0000 % 0x80 == header
  }

  /** What the scan takes a function for: exactly the announced functions that answer are there; a header type
      of 0 makes an endpoint, 1 a bridge whose secondary bus is in bits 8 to 15 of register 6. */
  lemma TopologyIs(c: Config, b: Bdf)
    requires b.dev < 32 && b.func < 8
    ensures TopologyOf(c)(b).Absent? <==> !(Announced(c, b) && Answers(c, b))
    ensures TopologyOf(c)(b).Endpoint? <==> Announced(c, b) && Answers(c, b) && HasHeader(c, b, 0)
    ensures TopologyOf(c)(b).Bridge? <==> Announced(c, b) && Answers(c, b) && HasHeader(c, b, 1)
    ensures TopologyOf(c)(b).Bridge? ==> TopologyOf(c)(b).secondary == c[b].regs[6] / 0x100 % 0x100
  {
    var first := Bdf(b.bus, b.dev, 0);
    HeaderBits(Read(c, first, REG_HEADER));
    HeaderBits(Read(c, b, REG_HEADER));
  }

  lemma HeaderBits(w: Word)
    ensures w / 0x1_0000 % 0x100 >= 0x80 <==> w / 0x80_0000 % 2 == 1
    ensures w / 0x1_0000 % 0x100 % 0x80 == w / 0x1_0000 % 0x80
  {
    assert w / 0x80_0000 == w / 0x1_0000 / 0x80;
  }

  /** An endpoint's entry: vendor, device and header type from registers 0 and 3. */
  lemma DeviceIs(c: Config, b: Bdf)
    requires b in c
    ensures var d := DeviceAt(c, b);
            && d.at == b && d.vendor + 0x1_0000 * d.id == c[b].regs[0] && d.vendor < 0x1_0000
            && d.header == c[b].regs[3] / 0x1_0000 % 0x80 && d.bars == Probe(c[b])
  {
    HeaderBits(c[b].regs[3]);
    WordIs(c[b].regs[0]);
  }

  /** A bridge's entry: the three buses from register 6, the window from register 8. */
  lemma BridgeIs(c: Config, b: Bdf)
    requires b in c
    ensures var d := BridgeAt(c, b);
            && d.at == b && d.vendor + 0x1_0000 * d.id == c[b].regs[0] && d.vendor < 0x1_0000
            && d.header == c[b].regs[3] / 0x1_0000 % 0x80
            && d.primary + 0x100 * d.secondary + 0x1_0000 * d.subordinate == c[b].regs[6] % 0x100_0000
            && d.memBase == c[b].regs[8] / 0x10 % 0x1000 * 0x10_0000
            && d.memLimit == c[b].regs[8] / 0x10_0000 * 0x10_0000
  {
    HeaderBits(c[b].regs[3]);
    WordIs(c[b].regs[0]);
    WordIs(c[b].regs[6]);
    WindowBits(c[b].regs[8]);
  }

  lemma WindowBits(w: Word)
    ensures w % 0x1_0000 / 0x10 == w / 0x10 % 0x1000
  {
  }

  lemma VisibleIsThere(c: Config, b: Bdf)
    requires Visible(c, b)
    ensures b in c
  {
    assert !ValidVendor(ONES);
  }

  function MakeDevice(b: Bdf, id: Word, header: nat, bars: Bars): Device {
    Device(b, LowHalf(id), HighHalf(id), header, bars)
  }

  /** The window register holds the upper twelve bits of the base and of the limit. */
  function WindowBase(window: Word): Word {
    LowHalf(window) / 0x10 * 0x10_0000
  }

  function WindowLimit(window: Word): Word {
    window / 0x10_0000 * 0x10_0000
  }

  function MakeBridge(b: Bdf, id: Word, header: nat, buses: Word, window: Word): BridgeInfo {
    BridgeInfo(b, LowHalf(id), HighHalf(id), header,
               ByteAt(buses, 0), ByteAt(buses, 1), ByteAt(buses, 2),
               WindowBase(window), WindowLimit(window))
  }

  function DeviceAt(c: Config, b: Bdf): Device
    requires b in c
  {
    MakeDevice(b, Read(c, b, REG_ID), HeaderType(c, b), Probe(c[b]))
  }

  function BridgeAt(c: Config, b: Bdf): BridgeInfo {
    MakeBridge(b, Read(c, b, REG_ID), HeaderType(c, b), Read(c, b, REG_BUSES), Read(c, b, REG_WINDOW))
  }

  /** The tables say what configuration space says about the functions listed. */
  ghost predicate Describes(c: Config, devices: seq<Device>, at: seq<Bdf>) {
    |devices| == |at| && forall i :: 0 <= i < |at| ==> at[i] in c && devices[i] == DeviceAt(c, at[i])
  }

  ghost predicate DescribesBridges(c: Config, bridges: seq<BridgeInfo>, at: seq<Bdf>) {
    |bridges| == |at| && forall i :: 0 <= i < |at| ==> bridges[i] == BridgeAt(c, at[i])
  }

  lemma DescribesOne(c: Config, devices: seq<Device>, at: seq<Bdf>, b: Bdf, d: Device)
    requires Describes(c, devices, at) && b in c && d == DeviceAt(c, b)
    ensures Describes(c, devices + [d], at + [b])
  {
  }

  lemma DescribesOneBridge(c: Config, bridges: seq<BridgeInfo>, at: seq<Bdf>, b: Bdf, d: BridgeInfo)
    requires DescribesBridges(c, bridges, at) && d == BridgeAt(c, b)
    ensures DescribesBridges(c, bridges + [d], at + [b])
  {
  }

  /** The functions past the last one looked at are not visible, so stepping over them changes nothing. */
  lemma {:induction false} SkipRest(c: Config, bus: Bus, dev: nat, func: nat, s: Found)
    requires dev < DEVICES_PER_BUS && Functions(c, bus, dev) <= func <= MAX_FUNCTIONS
    ensures Scan(TopologyOf(c), bus, dev, func, s) == Scan(TopologyOf(c), bus, dev + 1, 0, s)
    decreases MAX_FUNCTIONS - func
  {
    if func < MAX_FUNCTIONS {
      assert TopologyOf(c)(Bdf(bus, dev, func)).Absent?;
      SkipRest(c, bus, dev, func + 1, s);
    }
  }

  /** When the tables suffice and secondary buses are distinct, the database has an entry for a function
      exactly when that is an endpoint on a reachable bus, and then it has only one. */
  lemma DatabaseExact(c: Config, devices: seq<Device>, found: Found, root: Bus, x: Bdf)
    requires found == Scan(TopologyOf(c), root, 0, 0, NOTHING) && Describes(c, devices, found.devices)
    requires DistinctSecondaries(TopologyOf(c)) && Fits(TopologyOf(c), Visit(TopologyOf(c), root, 0, 0), 0, 0)
    ensures (exists i :: 0 <= i < |devices| && devices[i].at == x)
            <==> x.bus < 256 && x.dev < 32 && x.func < 8 && Announced(c, x) && Answers(c, x) && HasHeader(c, x, 0)
                 && Reachable(TopologyOf(c), root, x.bus)
    ensures forall i, j :: 0 <= i < j < |devices| ==> !(devices[i].at == x && devices[j].at == x)
  {
    ScanExact(TopologyOf(c), root, x);
    assert TopologyOf(c)(x) == KindAt(c, x);
    if x.dev < 32 && x.func < 8 {
      TopologyIs(c, x);
    }
    TimesIn(found.devices, x);
    assert forall i :: 0 <= i < |devices| ==> devices[i].at == found.devices[i];
    forall i, j | 0 <= i < j < |devices|
      ensures !(devices[i].at == x && devices[j].at == x)
    {
      AtMostOnce(found.devices, i, j, x);
    }
  }

  lemma AtMostOnce(v: seq<Bdf>, i: nat, j: nat, x: Bdf)
    requires i < j < |v| && Times(v, x) <= 1
    ensures !(v[i] == x && v[j] == x)
  {
    TimesSplit(v[..j], v[j..], x);
    assert v[..j] + v[j..] == v;
    assert v[..j][i] == v[i] && v[j..][0] == v[j];
    TimesIn(v[..j], x);
    TimesIn(v[j..], x);
  }

  // ---- The scan as code ----

  class Scanner {
    const space: ConfigSpace
    var devices: seq<Device>
    var bridges: seq<BridgeInfo>
    var scanned: bool
    ghost var found: Found

    ghost predicate Valid()
      reads this, space
    {
      && Describes(space.config, devices, found.devices)
      && DescribesBridges(space.config, bridges, found.bridges)
    }

    constructor (s: ConfigSpace)
      ensures Valid() && space == s && found == NOTHING && !scanned
    {
      space := s;
      devices, bridges, scanned, found := [], [], false, NOTHING;
    }

    /** The first scan fills the database; later calls leave it alone. */
    method PciScan(bus: Bus)
      requires Valid()
      modifies this, space
      ensures Valid() && scanned && space.config == old(space.config)
      ensures found == if old(scanned) then old(found)
                       else Scan(TopologyOf(old(space.config)), bus, 0, 0, old(found))
    {
      if scanned {
        return;
      }
      DoScan(bus);
      scanned := true;
    }

    method DoScan(bus: Bus)
      requires Valid()
      modifies this, space
      ensures Valid() && space.config == old(space.config) && scanned == old(scanned)
      ensures found == Scan(TopologyOf(old(space.config)), bus, 0, 0, old(found))
      decreases 256 - bus, 3
    {
      ghost var t := TopologyOf(space.config);
      var dev := 0;
      while dev < DEVICES_PER_BUS
        invariant 0 <= dev <= DEVICES_PER_BUS
        invariant Valid() && space.config == old(space.config) && scanned == old(scanned)
        invariant Scan(t, bus, dev, 0, found) == Scan(t, bus, 0, 0, old(found))
      {
        var full := ScanDevice(bus, dev);
        if full {
          return;
        }
        dev := dev + 1;
      }
    }

    method ScanDevice(bus: Bus, dev: nat) returns (full: bool)
      requires Valid() && dev < DEVICES_PER_BUS
      modifies this, space
      ensures Valid() && space.config == old(space.config) && scanned == old(scanned)
      ensures var t := TopologyOf(old(space.config));
              Scan(t, bus, dev, 0, old(found)) == if full then found else Scan(t, bus, dev + 1, 0, found)
      decreases 256 - bus, 2
    {
      ghost var c := space.config;
      ghost var t := TopologyOf(c);
      var id0 := space.ReadDword(Bdf(bus, dev, 0), REG_ID);
      if !ValidVendor(id0) {
        SkipRest(c, bus, dev, 0, found);
        return false;
      }
      var header0 := space.ReadDword(Bdf(bus, dev, 0), REG_HEADER);
      var count := if ByteAt(header0, 2) >= 0x80 then MAX_FUNCTIONS else 1;
      assert count == Functions(c, bus, dev);
      var func := 0;
      while func < count
        invariant 0 <= func <= count == Functions(c, bus, dev)
        invariant Valid() && space.config == c && scanned == old(scanned)
        invariant Scan(t, bus, dev, func, found) == Scan(t, bus, dev, 0, old(found))
      {
        full := ScanFunction(bus, dev, func);
        if full {
          return;
        }
        func := func + 1;
      }
      SkipRest(c, bus, dev, func, found);
      full := false;
    }

    method ScanFunction(bus: Bus, dev: nat, func: nat) returns (full: bool)
      requires Valid() && dev < DEVICES_PER_BUS && func < Functions(space.config, bus, dev)
      modifies this, space
      ensures Valid() && space.config == old(space.config) && scanned == old(scanned)
      ensures var t := TopologyOf(old(space.config));
              var b := Bdf(bus, dev, func);
              && full == Full(t, b, old(found))
              && found == if full then old(found).(hit := true) else Step(t, b, old(found))
      decreases 256 - bus, 1
    {
      var b := Bdf(bus, dev, func);
      var id := space.ReadDword(b, REG_ID);
      if !ValidVendor(id) {
        return false;
      }
      VisibleIsThere(space.config, b);
      if |devices| >= MAX_PCI_DEVICES {
        found := found.(hit := true);
        return true;
      }
      var header := space.ReadDword(b, REG_HEADER);
      var headerType := ByteAt(header, 2) % 0x80;
      if headerType == HEADER_ENDPOINT {
        EnterDevice(b, id, headerType);
        return false;
      }
      if headerType == HEADER_BRIDGE {
        if |bridges| >= MAX_PCI_BRIDGES {
          found := found.(hit := true);
          return true;
        }
        var secondary := EnterBridge(b, id, headerType);
        if secondary > bus {
          DoScan(secondary);
        }
      }
      full := false;
    }

    method EnterDevice(b: Bdf, id: Word, headerType: nat)
      requires Valid() && b in space.config
      requires id == Read(space.config, b, REG_ID) && headerType == HeaderType(space.config, b)
      modifies this, space
      ensures Valid() && space.config == old(space.config) && scanned == old(scanned)
      ensures found == old(found).(devices := old(found).devices + [b])
    {
      var bars := space.ProbeBars(b);
      var d := MakeDevice(b, id, headerType, bars);
      DescribesOne(space.config, devices, found.devices, b, d);
      devices, found := devices + [d], found.(devices := found.devices + [b]);
    }

    method EnterBridge(b: Bdf, id: Word, headerType: nat) returns (secondary: Bus)
      requires Valid() && id == Read(space.config, b, REG_ID) && headerType == HeaderType(space.config, b)
      modifies this
      ensures Valid() && scanned == old(scanned)
      ensures found == old(found).(bridges := old(found).bridges + [b])
      ensures secondary == ByteAt(Read(space.config, b, REG_BUSES), 1)
    {
      var buses := space.ReadDword(b, REG_BUSES);
      var window := space.ReadDword(b, REG_WINDOW);
      secondary := ByteAt(buses, 1);
      var d := MakeBridge(b, id, headerType, buses, window);
      DescribesOneBridge(space.config, bridges, found.bridges, b, d);
      bridges, found := bridges + [d], found.(bridges := found.bridges + [b]);
    }

    /** The database entry of a function, or none when it has no entry. */
    method FindByBdf(bus: nat, dev: nat, func: nat) returns (index: int)
      requires Valid()
      ensures index == -1 ==> Bdf(bus, dev, func) !in found.devices
      ensures index != -1 ==>
                && 0 <= index < |devices| && devices[index].at == Bdf(bus, dev, func)
                && Bdf(bus, dev, func) !in found.devices[..index]
    {
      var i := 0;
      while i < |devices|
        invariant 0 <= i <= |devices|
        invariant Bdf(bus, dev, func) !in found.devices[..i]
      {
        if devices[i].at.bus == bus && devices[i].at.dev == dev && devices[i].at.func == func {
          return i;
        }
        i := i + 1;
      }
      index := -1;
    }
  }
}
