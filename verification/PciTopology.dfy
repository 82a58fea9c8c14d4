/**
 * The depth-first walk over PCI buses as a function of the topology alone.
 * Models the control flow of do_pci_scan in src/drivers/pci/pci_rc.c.
 */
module PciTopology {
  import opened PciConfig

  const MAX_PCI_DEVICES := 32
  const MAX_PCI_BRIDGES := 2
  const DEVICES_PER_BUS := 32

  type Bus = n: nat | n < 256

  datatype Kind = Absent | Endpoint | Bridge(secondary: Bus) | Other

  type Topology = Bdf -> Kind

  /** What the walk has found so far; `hit` says that a table was full when another entry came. */
  datatype Found = Found(devices: seq<Bdf>, bridges: seq<Bdf>, hit: bool)

  /** The walk, standing before function `func` of device `dev`. A full table ends the walk of the
      current bus only: the bus above it goes on. */
  function Scan(t: Topology, bus: Bus, dev: nat, func: nat, s: Found): Found
    decreases 256 - bus, DEVICES_PER_BUS - dev, MAX_FUNCTIONS - func
  {
    if dev >= DEVICES_PER_BUS then s
    else if func >= MAX_FUNCTIONS then Scan(t, bus, dev + 1, 0, s)
    else
      var b := Bdf(bus, dev, func);
      if Full(t, b, s) then s.(hit := true)
      else Scan(t, bus, dev, func + 1, Step(t, b, s))
  }

  /** No entry is left for the function `b`. The device table is looked at for every function that is
      there, whatever its kind. */
  predicate Full(t: Topology, b: Bdf, s: Found) {
    !t(b).Absent? && (|s.devices| >= MAX_PCI_DEVICES || (t(b).Bridge? && |s.bridges| >= MAX_PCI_BRIDGES))
  }

  /** Enters the function `b` and, if it is a bridge that leads on, walks what lies behind it. */
  function Step(t: Topology, b: Bdf, s: Found): Found
    requires b.bus < 256
    decreases 256 - b.bus, 0
  {
    match t(b)
    case Endpoint => s.(devices := s.devices + [b])
    case Bridge(secondary) =>
      var s' := s.(bridges := s.bridges + [b]);
      if secondary > b.bus then Scan(t, secondary, 0, 0, s') else s'
    case _ => s
  }

  // ---- What there is to find ----

  /** Every function that is there, in the order of the walk, had the tables no limit. */
  function Visit(t: Topology, bus: Bus, dev: nat, func: nat): seq<Bdf>
    decreases 256 - bus, DEVICES_PER_BUS - dev, MAX_FUNCTIONS - func
  {
    if dev >= DEVICES_PER_BUS then []
    else if func >= MAX_FUNCTIONS then Visit(t, bus, dev + 1, 0)
    else VisitOne(t, Bdf(bus, dev, func)) + Visit(t, bus, dev, func + 1)
  }

  function VisitOne(t: Topology, b: Bdf): seq<Bdf>
    requires b.bus < 256
    decreases 256 - b.bus, 0
  {
    if t(b).Absent? then []
    else if Link(t, b) then [b] + Visit(t, t(b).secondary, 0, 0)
    else [b]
  }

  /** A bridge that leads on: its secondary bus lies above its own. */
  predicate Link(t: Topology, b: Bdf) {
    t(b).Bridge? && t(b).secondary > b.bus
  }

  predicate InRange(b: Bdf) {
    b.dev < DEVICES_PER_BUS && b.func < MAX_FUNCTIONS
  }

  /** `p` is a chain of bridges that leads from bus `from` to bus `to`. */
  ghost predicate Path(t: Topology, from: Bus, p: seq<Bdf>, to: Bus)
    decreases |p|
  {
    if p == [] then from == to
    else
      var b := p[|p| - 1];
      b.bus < 256 && InRange(b) && Link(t, b) && t(b).secondary == to && Path(t, from, p[..|p| - 1], b.bus)
  }

  ghost predicate Reachable(t: Topology, from: Bus, to: Bus) {
    exists p :: Path(t, from, p, to)
  }

  /** No two bridges that lead on have the same secondary bus. */
  ghost predicate DistinctSecondaries(t: Topology) {
    forall a: Bdf, b: Bdf ::
      InRange(a) && InRange(b) && Link(t, a) && Link(t, b) && t(a).secondary == t(b).secondary ==> a == b
  }

  lemma {:induction false} PathUp(t: Topology, from: Bus, p: seq<Bdf>, to: Bus)
    requires Path(t, from, p, to)
    ensures from + |p| <= to
    decreases |p|
  {
    if p != [] {
      PathUp(t, from, p[..|p| - 1], p[|p| - 1].bus);
    }
  }

  /** A chain behind a bridge, with the bridge before it. */
  lemma {:induction false} PathPrepend(t: Topology, b: Bdf, p: seq<Bdf>, to: Bus)
    requires b.bus < 256 && InRange(b) && Link(t, b) && Path(t, t(b).secondary, p, to)
    ensures Path(t, b.bus, [b] + p, to)
    decreases |p|
  {
    var q := [b] + p;
    if p == [] {
      assert q[..0] == [];
    } else {
      PathPrepend(t, b, p[..|p| - 1], p[|p| - 1].bus);
      assert q[..|q| - 1] == [b] + p[..|p| - 1];
    }
  }

  lemma {:induction false} PathSplit(t: Topology, from: Bus, p: seq<Bdf>, to: Bus)
    requires p != [] && Path(t, from, p, to)
    ensures p[0].bus == from && InRange(p[0]) && Link(t, p[0]) && Path(t, t(p[0]).secondary, p[1..], to)
    decreases |p|
  {
    var q := p[..|p| - 1];
    if q != [] {
      PathSplit(t, from, q, p[|p| - 1].bus);
      assert p[1..][..|p[1..]| - 1] == q[1..];
    }
  }

  /** With distinct secondary buses there is only one chain between two buses. */
  lemma {:induction false} PathUnique(t: Topology, from: Bus, p: seq<Bdf>, q: seq<Bdf>, to: Bus)
    requires DistinctSecondaries(t) && Path(t, from, p, to) && Path(t, from, q, to)
    ensures p == q
    decreases |p|
  {
    PathUp(t, from, p, to);
    PathUp(t, from, q, to);
    if p != [] && q != [] {
      var b := p[|p| - 1];
      assert q[|q| - 1] == b;
      PathUnique(t, from, p[..|p| - 1], q[..|q| - 1], b.bus);
      assert p == p[..|p| - 1] + [b] && q == q[..|q| - 1] + [b];
    }
  }

  // ---- What the unlimited walk visits ----

  /** The walk, standing before (`dev`, `func`) of `bus`, still has `b` of that bus ahead. */
  predicate Ahead(b: Bdf, bus: Bus, dev: nat, func: nat) {
    b.bus == bus && InRange(b) && (b.dev > dev || (b.dev == dev && b.func >= func))
  }

  /** `x` is ahead on this bus, or behind the chain `p` that starts at a bridge ahead on this bus. */
  ghost predicate Due(t: Topology, x: Bdf, bus: Bus, dev: nat, func: nat, p: seq<Bdf>) {
    && x.bus < 256 && InRange(x) && !t(x).Absent?
    && Path(t, bus, p, x.bus)
    && Ahead(if p == [] then x else p[0], bus, dev, func)
  }

  lemma {:induction false} VisitedIsDue(t: Topology, x: Bdf, bus: Bus, dev: nat, func: nat) returns (p: seq<Bdf>)
    requires x in Visit(t, bus, dev, func)
    ensures Due(t, x, bus, dev, func, p)
    decreases 256 - bus, DEVICES_PER_BUS - dev, MAX_FUNCTIONS - func
  {
    var b := Bdf(bus, dev, func);
    if func >= MAX_FUNCTIONS {
      p := VisitedIsDue(t, x, bus, dev + 1, 0);
    } else if x == b && !t(b).Absent? {
      p := [];
    } else if x in VisitOne(t, b) {
      p := VisitedIsDue(t, x, t(b).secondary, 0, 0);
      PathPrepend(t, b, p, x.bus);
      p := [b] + p;
    } else {
      p := VisitedIsDue(t, x, bus, dev, func + 1);
    }
  }

  lemma DueBehind(t: Topology, x: Bdf, bus: Bus, dev: nat, func: nat, p: seq<Bdf>)
    requires Due(t, x, bus, dev, func, p) && p != []
    ensures Link(t, p[0]) && Due(t, x, t(p[0]).secondary, 0, 0, p[1..])
  {
    PathSplit(t, bus, p, x.bus);
    if |p| > 1 {
      PathSplit(t, t(p[0]).secondary, p[1..], x.bus);
    }
  }

  lemma {:induction false} DueIsVisited(t: Topology, x: Bdf, bus: Bus, dev: nat, func: nat, p: seq<Bdf>)
    requires Due(t, x, bus, dev, func, p)
    ensures x in Visit(t, bus, dev, func)
    decreases 256 - bus, DEVICES_PER_BUS - dev, MAX_FUNCTIONS - func
  {
    var b := Bdf(bus, dev, func);
    var first := if p == [] then x else p[0];
    if func >= MAX_FUNCTIONS {
      DueIsVisited(t, x, bus, dev + 1, 0, p);
    } else if first != b {
      DueIsVisited(t, x, bus, dev, func + 1, p);
    } else if p != [] {
      DueBehind(t, x, bus, dev, func, p);
      DueIsVisited(t, x, t(b).secondary, 0, 0, p[1..]);
    }
  }

  /** The walk visits exactly the functions on the buses reachable from where it starts. */
  lemma VisitsReachable(t: Topology, root: Bus, x: Bdf)
    ensures x in Visit(t, root, 0, 0)
            <==> x.bus < 256 && InRange(x) && !t(x).Absent? && Reachable(t, root, x.bus)
  {
    if x in Visit(t, root, 0, 0) {
      var p := VisitedIsDue(t, x, root, 0, 0);
    }
    if x.bus < 256 && InRange(x) && !t(x).Absent? && Reachable(t, root, x.bus) {
      var p :| Path(t, root, p, x.bus);
      if p != [] {
        PathSplit(t, root, p, x.bus);
      }
      DueIsVisited(t, x, root, 0, 0, p);
    }
  }

  /** How often `x` occurs in `v`. */
  function Times(v: seq<Bdf>, x: Bdf): nat {
    if v == [] then 0 else (if v[0] == x then 1 else 0) + Times(v[1..], x)
  }

  lemma {:induction false} TimesSplit(u: seq<Bdf>, v: seq<Bdf>, x: Bdf)
    ensures Times(u + v, x) == Times(u, x) + Times(v, x)
  {
    if u == [] {
      assert u + v == v;
    } else {
      TimesSplit(u[1..], v, x);
      assert (u + v)[0] == u[0] && (u + v)[1..] == u[1..] + v;
    }
  }

  lemma {:induction false} TimesIn(v: seq<Bdf>, x: Bdf)
    ensures Times(v, x) > 0 <==> x in v
  {
    if v != [] {
      TimesIn(v[1..], x);
      assert v == [v[0]] + v[1..];
    }
  }

  /** With distinct secondary buses the walk comes to every function at most once. */
  lemma {:induction false} VisitsOnce(t: Topology, bus: Bus, dev: nat, func: nat, x: Bdf)
    requires DistinctSecondaries(t)
    ensures Times(Visit(t, bus, dev, func), x) <= 1
    decreases 256 - bus, DEVICES_PER_BUS - dev, MAX_FUNCTIONS - func
  {
    if dev >= DEVICES_PER_BUS {
    } else if func >= MAX_FUNCTIONS {
      VisitsOnce(t, bus, dev + 1, 0, x);
    } else {
      var b := Bdf(bus, dev, func);
      var one, rest := VisitOne(t, b), Visit(t, bus, dev, func + 1);
      VisitsOneOnce(t, b, x);
      VisitsOnce(t, bus, dev, func + 1, x);
      OneAndRestDisjoint(t, b, x);
      TimesIn(one, x);
      TimesIn(rest, x);
      TimesSplit(one, rest, x);
    }
  }

  lemma {:induction false} VisitsOneOnce(t: Topology, b: Bdf, x: Bdf)
    requires DistinctSecondaries(t) && b.bus < 256 && InRange(b)
    ensures Times(VisitOne(t, b), x) <= 1
    decreases 256 - b.bus, 0
  {
    if Link(t, b) {
      var below := Visit(t, t(b).secondary, 0, 0);
      VisitsOnce(t, t(b).secondary, 0, 0, x);
      TimesSplit([b], below, x);
      TimesIn(below, x);
      if x == b && x in below {
        var p := VisitedIsDue(t, x, t(b).secondary, 0, 0);
        PathUp(t, t(b).secondary, p, x.bus);
        assert false;
      }
    }
  }

  /** A function with what lies behind it and what comes after it on its bus have nothing in common. */
  lemma OneAndRestDisjoint(t: Topology, b: Bdf, x: Bdf)
    requires DistinctSecondaries(t) && b.bus < 256 && InRange(b)
    ensures !(x in VisitOne(t, b) && x in Visit(t, b.bus, b.dev, b.func + 1))
  {
    if x in VisitOne(t, b) && x in Visit(t, b.bus, b.dev, b.func + 1) {
      var q := VisitedIsDue(t, x, b.bus, b.dev, b.func + 1);
      if x == b {
        PathUp(t, b.bus, q, x.bus);
        assert false;
      } else {
        var p := VisitedIsDue(t, x, t(b).secondary, 0, 0);
        PathPrepend(t, b, p, x.bus);
        PathUnique(t, b.bus, [b] + p, q, x.bus);
        assert false;
      }
    }
  }

  // ---- What the tables hold ----

  function Endpoints(t: Topology, v: seq<Bdf>): seq<Bdf> {
    if v == [] then []
    else if t(v[0]).Endpoint? then [v[0]] + Endpoints(t, v[1..])
    else Endpoints(t, v[1..])
  }

  function Bridges(t: Topology, v: seq<Bdf>): seq<Bdf> {
    if v == [] then []
    else if t(v[0]).Bridge? then [v[0]] + Bridges(t, v[1..])
    else Bridges(t, v[1..])
  }

  lemma {:induction false} ListsSplit(t: Topology, u: seq<Bdf>, v: seq<Bdf>)
    ensures Endpoints(t, u + v) == Endpoints(t, u) + Endpoints(t, v)
    ensures Bridges(t, u + v) == Bridges(t, u) + Bridges(t, v)
  {
    EndpointsSplit(t, u, v);
    BridgesSplit(t, u, v);
  }

  lemma Associative(a: seq<Bdf>, b: seq<Bdf>, c: seq<Bdf>)
    ensures a + b + c == a + (b + c)
  {
  }

  lemma {:induction false} EndpointsSplit(t: Topology, u: seq<Bdf>, v: seq<Bdf>)
    ensures Endpoints(t, u + v) == Endpoints(t, u) + Endpoints(t, v)
  {
    if u == [] {
      assert u + v == v;
    } else {
      EndpointsSplit(t, u[1..], v);
      assert (u + v)[0] == u[0] && (u + v)[1..] == u[1..] + v;
      Associative([u[0]], Endpoints(t, u[1..]), Endpoints(t, v));
    }
  }

  lemma {:induction false} BridgesSplit(t: Topology, u: seq<Bdf>, v: seq<Bdf>)
    ensures Bridges(t, u + v) == Bridges(t, u) + Bridges(t, v)
  {
    if u == [] {
      assert u + v == v;
    } else {
      BridgesSplit(t, u[1..], v);
      assert (u + v)[0] == u[0] && (u + v)[1..] == u[1..] + v;
      Associative([u[0]], Bridges(t, u[1..]), Bridges(t, v));
    }
  }

  lemma {:induction false} EndpointTimes(t: Topology, v: seq<Bdf>, x: Bdf)
    ensures Times(Endpoints(t, v), x) == if t(x).Endpoint? then Times(v, x) else 0
  {
    if v != [] {
      EndpointTimes(t, v[1..], x);
      TimesSplit([v[0]], Endpoints(t, v[1..]), x);
    }
  }

  /** `hit` is never taken back. */
  lemma {:induction false} HitStays(t: Topology, bus: Bus, dev: nat, func: nat, s: Found)
    requires s.hit
    ensures Scan(t, bus, dev, func, s).hit
    decreases 256 - bus, DEVICES_PER_BUS - dev, MAX_FUNCTIONS - func
  {
    var b := Bdf(bus, dev, func);
    if dev >= DEVICES_PER_BUS {
    } else if func >= MAX_FUNCTIONS {
      HitStays(t, bus, dev + 1, 0, s);
    } else if !Full(t, b, s) {
      if Link(t, b) {
        HitStays(t, t(b).secondary, 0, 0, s.(bridges := s.bridges + [b]));
      }
      HitStays(t, bus, dev, func + 1, Step(t, b, s));
    }
  }

  /** While no table fills up, the tables hold exactly what is visited, in that order. */
  lemma {:induction false} ScanIsVisit(t: Topology, bus: Bus, dev: nat, func: nat, s: Found)
    requires !Scan(t, bus, dev, func, s).hit
    ensures var r := Scan(t, bus, dev, func, s);
            && r.devices == s.devices + Endpoints(t, Visit(t, bus, dev, func))
            && r.bridges == s.bridges + Bridges(t, Visit(t, bus, dev, func))
    decreases 256 - bus, DEVICES_PER_BUS - dev, MAX_FUNCTIONS - func
  {
    var b := Bdf(bus, dev, func);
    if dev >= DEVICES_PER_BUS {
    } else if func >= MAX_FUNCTIONS {
      ScanIsVisit(t, bus, dev + 1, 0, s);
    } else {
      var s' := Step(t, b, s);
      if s'.hit {
        HitStays(t, bus, dev, func + 1, s');
        assert false;
      }
      StepIsVisit(t, b, s);
      ScanIsVisit(t, bus, dev, func + 1, s');
      var one, rest := VisitOne(t, b), Visit(t, bus, dev, func + 1);
      ListsSplit(t, one, rest);
      Associative(s.devices, Endpoints(t, one), Endpoints(t, rest));
      Associative(s.bridges, Bridges(t, one), Bridges(t, rest));
    }
  }

  lemma {:induction false} StepIsVisit(t: Topology, b: Bdf, s: Found)
    requires b.bus < 256 && !Step(t, b, s).hit
    ensures var r := Step(t, b, s);
            && r.devices == s.devices + Endpoints(t, VisitOne(t, b))
            && r.bridges == s.bridges + Bridges(t, VisitOne(t, b))
    decreases 256 - b.bus, 0
  {
    if Link(t, b) {
      var below := Visit(t, t(b).secondary, 0, 0);
      ScanIsVisit(t, t(b).secondary, 0, 0, s.(bridges := s.bridges + [b]));
      ListsSplit(t, [b], below);
    }
    assert Endpoints(t, [b]) == (if t(b).Endpoint? then [b] else []);
    assert Bridges(t, [b]) == (if t(b).Bridge? then [b] else []);
  }

  /** Even when a table fills up, it holds nothing but what is visited, nothing more often. */
  lemma {:induction false} ScanIsSound(t: Topology, bus: Bus, dev: nat, func: nat, s: Found, x: Bdf)
    ensures Times(Scan(t, bus, dev, func, s).devices, x)
            <= Times(s.devices, x) + Times(Endpoints(t, Visit(t, bus, dev, func)), x)
    decreases 256 - bus, DEVICES_PER_BUS - dev, MAX_FUNCTIONS - func
  {
    var b := Bdf(bus, dev, func);
    if dev >= DEVICES_PER_BUS {
    } else if func >= MAX_FUNCTIONS {
      ScanIsSound(t, bus, dev + 1, 0, s, x);
    } else if !Full(t, b, s) {
      var one, rest := VisitOne(t, b), Visit(t, bus, dev, func + 1);
      EndpointsSplit(t, one, rest);
      TimesSplit(Endpoints(t, one), Endpoints(t, rest), x);
      StepIsSound(t, b, s, x);
      ScanIsSound(t, bus, dev, func + 1, Step(t, b, s), x);
    }
  }

  lemma {:induction false} StepIsSound(t: Topology, b: Bdf, s: Found, x: Bdf)
    requires b.bus < 256
    ensures Times(Step(t, b, s).devices, x) <= Times(s.devices, x) + Times(Endpoints(t, VisitOne(t, b)), x)
    decreases 256 - b.bus, 0
  {
    if Link(t, b) {
      ScanIsSound(t, t(b).secondary, 0, 0, s.(bridges := s.bridges + [b]), x);
      EndpointsSplit(t, [b], Visit(t, t(b).secondary, 0, 0));
      assert Endpoints(t, [b]) == [];
    } else if t(b).Endpoint? {
      TimesSplit(s.devices, [b], x);
    }
  }

  lemma {:induction false} TablesHold(t: Topology, bus: Bus, dev: nat, func: nat, s: Found)
    requires |s.devices| <= MAX_PCI_DEVICES && |s.bridges| <= MAX_PCI_BRIDGES
    ensures |Scan(t, bus, dev, func, s).devices| <= MAX_PCI_DEVICES
    ensures |Scan(t, bus, dev, func, s).bridges| <= MAX_PCI_BRIDGES
    decreases 256 - bus, DEVICES_PER_BUS - dev, MAX_FUNCTIONS - func
  {
    var b := Bdf(bus, dev, func);
    if dev >= DEVICES_PER_BUS {
    } else if func >= MAX_FUNCTIONS {
      TablesHold(t, bus, dev + 1, 0, s);
    } else if !Full(t, b, s) {
      if Link(t, b) {
        TablesHold(t, t(b).secondary, 0, 0, s.(bridges := s.bridges + [b]));
      }
      TablesHold(t, bus, dev, func + 1, Step(t, b, s));
    }
  }

  // ---- When a table fills up ----

  /** The visited functions fit the tables: none comes after the last device entry is taken, and no
      bridge after the last bridge entry. */
  predicate Fits(t: Topology, v: seq<Bdf>, devices: nat, bridges: nat) {
    v == [] ||
    (&& devices < MAX_PCI_DEVICES
     && (t(v[0]).Bridge? ==> bridges < MAX_PCI_BRIDGES)
     && Fits(t, v[1..], devices + (if t(v[0]).Endpoint? then 1 else 0), bridges + (if t(v[0]).Bridge? then 1 else 0)))
  }

  lemma {:induction false} FitsSplit(t: Topology, u: seq<Bdf>, v: seq<Bdf>, devices: nat, bridges: nat)
    ensures Fits(t, u + v, devices, bridges)
            <==> Fits(t, u, devices, bridges)
                 && Fits(t, v, devices + |Endpoints(t, u)|, bridges + |Bridges(t, u)|)
  {
    if u == [] {
      assert u + v == v;
    } else {
      assert (u + v)[0] == u[0] && (u + v)[1..] == u[1..] + v;
      FitsSplit(t, u[1..], v, devices + (if t(u[0]).Endpoint? then 1 else 0),
                bridges + (if t(u[0]).Bridge? then 1 else 0));
    }
  }

  lemma {:induction false} HitWhen(t: Topology, bus: Bus, dev: nat, func: nat, s: Found)
    requires !s.hit
    ensures !Scan(t, bus, dev, func, s).hit <==> Fits(t, Visit(t, bus, dev, func), |s.devices|, |s.bridges|)
    decreases 256 - bus, DEVICES_PER_BUS - dev, MAX_FUNCTIONS - func
  {
    var b := Bdf(bus, dev, func);
    if dev >= DEVICES_PER_BUS {
    } else if func >= MAX_FUNCTIONS {
      HitWhen(t, bus, dev + 1, 0, s);
    } else {
      var s' := Step(t, b, s);
      FitsSplit(t, VisitOne(t, b), Visit(t, bus, dev, func + 1), |s.devices|, |s.bridges|);
      StepHitWhen(t, b, s);
      if !Full(t, b, s) && s'.hit {
        HitStays(t, bus, dev, func + 1, s');
      } else if !Full(t, b, s) {
        StepIsVisit(t, b, s);
        HitWhen(t, bus, dev, func + 1, s');
      }
    }
  }

  lemma {:induction false} StepHitWhen(t: Topology, b: Bdf, s: Found)
    requires b.bus < 256 && !s.hit
    ensures !Full(t, b, s) && !Step(t, b, s).hit <==> Fits(t, VisitOne(t, b), |s.devices|, |s.bridges|)
    decreases 256 - b.bus, 0
  {
    if Link(t, b) {
      var s' := s.(bridges := s.bridges + [b]);
      HitWhen(t, t(b).secondary, 0, 0, s');
      assert VisitOne(t, b)[1..] == Visit(t, t(b).secondary, 0, 0);
    }
  }

  // ---- The whole scan ----

  const NOTHING := Found([], [], false)

  /** When the tables suffice and secondary buses are distinct, the database lists each endpoint on a
      reachable bus exactly once and nothing else. */
  lemma ScanExact(t: Topology, root: Bus, x: Bdf)
    requires DistinctSecondaries(t)
    requires Fits(t, Visit(t, root, 0, 0), 0, 0)
    ensures var r := Scan(t, root, 0, 0, NOTHING);
            && !r.hit
            && Times(r.devices, x)
               == if x.bus < 256 && InRange(x) && t(x).Endpoint? && Reachable(t, root, x.bus) then 1 else 0
  {
    HitWhen(t, root, 0, 0, NOTHING);
    ScanIsVisit(t, root, 0, 0, NOTHING);
    var v := Visit(t, root, 0, 0);
    assert [] + Endpoints(t, v) == Endpoints(t, v);
    EndpointTimes(t, v, x);
    VisitsOnce(t, root, 0, 0, x);
    VisitsReachable(t, root, x);
    TimesIn(v, x);
  }

  /** Whatever the tables leave out, the database lists only endpoints on reachable buses, each at most
      once, and stays within its size. */
  lemma ScanSound(t: Topology, root: Bus, x: Bdf)
    requires DistinctSecondaries(t)
    ensures var r := Scan(t, root, 0, 0, NOTHING);
            && Times(r.devices, x) <= 1
            && (x in r.devices ==> x.bus < 256 && InRange(x) && t(x).Endpoint? && Reachable(t, root, x.bus))
            && |r.devices| <= MAX_PCI_DEVICES && |r.bridges| <= MAX_PCI_BRIDGES
  {
    var v := Visit(t, root, 0, 0);
    var r := Scan(t, root, 0, 0, NOTHING);
    ScanIsSound(t, root, 0, 0, NOTHING, x);
    TablesHold(t, root, 0, 0, NOTHING);
    EndpointTimes(t, v, x);
    VisitsOnce(t, root, 0, 0, x);
    VisitsReachable(t, root, x);
    TimesIn(v, x);
    TimesIn(r.devices, x);
  }
}
