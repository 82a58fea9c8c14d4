/**
 * The physics parameters and thresholds of the thermal simulation and the packets that set them.
 * Models set_sim_cfg, recalculate_thermal_matrix, temp_ctrl_cfg_init and reset_sim_state of
 * port/freertos_sim.c.
 */
module SimConfig {
  import opened Arith
  import opened Words

  const RAMP_DEFAULT := 10
  const LATENCY_DEFAULT := 20
  const AMBIENT_DEFAULT := 25000
  const MASS_DEFAULT := 400
  const CONDUCT_DEFAULT := 8192
  const POWER_DEFAULT := 4000
  const TARGET_DEFAULT := 125
  const CRITICAL_DEFAULT := 180
  const COOLDOWN_DEFAULT := 50
  const HYSTERESIS_DEFAULT := 10

  const MIN_RAMP := 2
  const MAX_RAMP := 20
  const MIN_MASS := 200
  const MAX_MASS := 1000
  const MIN_COND := 5000
  const MAX_COND := 15000
  const MIN_POWER := 1000
  const MAX_POWER := 8000
  const MIN_LATENCY := 5
  const MAX_LATENCY := 50
  const MIN_AMBIENT := -10000
  const MAX_AMBIENT := 40000
  const MIN_TARGET := 50
  const MAX_TARGET := 150
  const MIN_CRITICAL := 160
  const MAX_CRITICAL := 250
  const MIN_COOLDOWN := 30
  const MAX_COOLDOWN := 100
  const MIN_HYSTERESIS := 2
  const MAX_HYSTERESIS := 10

  // ---- Parameters, and which of them were set ----

  datatype Physics = Physics(ramp: nat, mass: nat, conduct: nat, power: nat, latency: nat, ambient: int)

  /** The bits of sim_ctx.mask; `ready` is bit 0. */
  datatype PhysicsSet = PhysicsSet(ready: bool, ramp: bool, mass: bool, conduct: bool, power: bool,
                                   latency: bool, ambient: bool)

  datatype Thresholds = Thresholds(target: nat, critical: nat, cooldown: nat, hysteresis: nat)

  /** Bits 10 to 13 of sim_cfg.mask. A packet with a cooldown temperature sets bit 12 and one with a
      hysteresis sets bit 13; the initialisation reads them the other way round. */
  datatype ThresholdsSet = ThresholdsSet(bit10: bool, bit11: bool, bit12: bool, bit13: bool)

  datatype Config = Config(phy: Physics, phySet: PhysicsSet, ctl: Thresholds, ctlSet: ThresholdsSet)

  /** All zero, as static storage is before the start. */
  const UNSET := Config(Physics(0, 0, 0, 0, 0, 0),
                        PhysicsSet(false, false, false, false, false, false, false),
                        Thresholds(0, 0, 0, 0),
                        ThresholdsSet(false, false, false, false))

  function Clamp(x: int, low: int, high: int): (r: int)
    requires low <= high
    ensures low <= r <= high && (low <= x <= high ==> r == x)
  {
    if x < low then low else if x > high then high else x
  }

  function MassFor(p: Physics): nat {
    Clamp(p.power * p.ramp / 100, MIN_MASS, MAX_MASS)
  }

  function ConductFor(p: Physics): nat {
    Clamp(POWER_DEFAULT + p.mass * 20, MIN_COND, MAX_COND)
  }

  /** Recomputes what was not set. */
  function Recalculated(p: Physics, given: PhysicsSet): Physics {
    var p1 := if given.mass then p else p.(mass := MassFor(p));
    if given.conduct then p1 else p1.(conduct := ConductFor(p1))
  }

  // ---- A packet ----

  /** Eight bytes; the first is the header. */
  type Packet = p: seq<Byte> | |p| == 8 witness [0, 0, 0, 0, 0, 0, 0, 0]

  function U16(p: Packet, i: nat): (n: nat)
    requires i < 4
    ensures n < 0x1_0000
  {
    var low: int, high: int := p[2 * i], p[2 * i + 1];
    low + 0x100 * high
  }

  function S16(p: Packet, i: nat): int
    requires i < 4
  {
    if U16(p, i) < 0x8000 then U16(p, i) else U16(p, i) - 0x1_0000
  }

  predicate HasBit(header: Byte, n: nat)
  {
    Bit(header, n) == 1
  }

  /** The fields present in a first packet; one that is out of range is dropped. */
  datatype Request = Request(ramp: bool, mass: bool, conduct: bool, power: bool)

  function Present(p: Packet): Request {
    Request(HasBit(p[0], 1), HasBit(p[0], 2), HasBit(p[0], 3), HasBit(p[0], 4))
  }

  function Accepted(p: Packet): Request {
    var r := Present(p);
    Request(r.ramp && MIN_RAMP <= p[1] <= MAX_RAMP,
            r.mass && MIN_MASS <= U16(p, 1) <= MAX_MASS,
            r.conduct && MIN_COND <= U16(p, 2) <= MAX_COND,
            r.power && MIN_POWER <= U16(p, 3) <= MAX_POWER)
  }

  /** Bits 1 to 4 of the result: the fields present and out of range. */
  function Refused(p: Packet): nat {
    var r, a := Present(p), Accepted(p);
    (if r.ramp && !a.ramp then 2 else 0) + (if r.mass && !a.mass then 4 else 0)
    + (if r.conduct && !a.conduct then 8 else 0) + (if r.power && !a.power then 16 else 0)
  }

  /** The four fields taken over, before the derived ones. */
  function Taken(c: Config, p: Packet): Config {
    var a := Accepted(p);
    c.(phy := c.phy.(ramp := if a.ramp then p[1] else c.phy.ramp,
                     mass := if a.mass then U16(p, 1) else c.phy.mass,
                     conduct := if a.conduct then U16(p, 2) else c.phy.conduct,
                     power := if a.power then U16(p, 3) else c.phy.power),
       phySet := c.phySet.(ramp := c.phySet.ramp || a.ramp, mass := c.phySet.mass || a.mass,
                           conduct := c.phySet.conduct || a.conduct, power := c.phySet.power || a.power))
  }

  function FirstPacket(c: Config, p: Packet): Config {
    var a := Accepted(p);
    var c1 := Taken(c, p);
    var p2 := if !a.mass && (a.ramp || a.power) then c1.phy.(mass := MassFor(c1.phy)) else c1.phy;
    c1.(phy := if !a.conduct && (a.ramp || a.power) then p2.(conduct := ConductFor(p2)) else p2)
  }

  function LatencyOk(p: Packet): bool { HasBit(p[0], 1) && MIN_LATENCY <= p[1] <= MAX_LATENCY }
  function TargetOk(p: Packet): bool { HasBit(p[0], 2) && MIN_TARGET <= p[2] <= MAX_TARGET }
  function CriticalOk(p: Packet): bool { HasBit(p[0], 3) && MIN_CRITICAL <= p[3] <= MAX_CRITICAL }
  function CooldownOk(p: Packet): bool { HasBit(p[0], 4) && MIN_COOLDOWN <= p[4] <= MAX_COOLDOWN }
  function HysteresisOk(p: Packet): bool { HasBit(p[0], 5) && MIN_HYSTERESIS <= p[5] <= MAX_HYSTERESIS }
  function AmbientOk(p: Packet): bool { HasBit(p[0], 6) && MIN_AMBIENT <= S16(p, 3) * 1000 <= MAX_AMBIENT }

  /** The weight of a field that is present and out of range. */
  function Refusal(present: bool, ok: bool, weight: nat): nat {
    if present && !ok then weight else 0
  }

  function RefusedThresholds(p: Packet): nat {
    Refusal(HasBit(p[0], 2), TargetOk(p), 0x400) + Refusal(HasBit(p[0], 3), CriticalOk(p), 0x800)
    + (Refusal(HasBit(p[0], 4), CooldownOk(p), 0x1000) + Refusal(HasBit(p[0], 5), HysteresisOk(p), 0x2000))
  }

  /** Bits 9 to 14 of the result. */
  function RefusedNext(p: Packet): nat {
    Refusal(HasBit(p[0], 1), LatencyOk(p), 0x200) + RefusedThresholds(p)
    + Refusal(HasBit(p[0], 6), AmbientOk(p), 0x4000)
  }

  function ThresholdsTaken(t: Thresholds, p: Packet): Thresholds {
    Thresholds(if TargetOk(p) then p[2] else t.target,
               if CriticalOk(p) then p[3] else t.critical,
               if CooldownOk(p) then p[4] else t.cooldown,
               if HysteresisOk(p) then p[5] else t.hysteresis)
  }

  function ThresholdsMarked(t: ThresholdsSet, p: Packet): ThresholdsSet {
    ThresholdsSet(t.bit10 || TargetOk(p), t.bit11 || CriticalOk(p),
                  t.bit12 || CooldownOk(p), t.bit13 || HysteresisOk(p))
  }

  function TakenNext(c: Config, p: Packet): Config {
    Config(c.phy.(latency := if LatencyOk(p) then p[1] else c.phy.latency,
                  ambient := if AmbientOk(p) then S16(p, 3) * 1000 else c.phy.ambient),
           c.phySet.(latency := c.phySet.latency || LatencyOk(p), ambient := c.phySet.ambient || AmbientOk(p)),
           ThresholdsTaken(c.ctl, p), ThresholdsMarked(c.ctlSet, p))
  }

  /** Once running, a short ramp limits the latency, and what was not set is recomputed. */
  function Settled(c: Config): Config {
    if !c.phySet.ready then c
    else
      var p := if c.phy.ramp < 4 && c.phy.latency > 10 then c.phy.(latency := 10) else c.phy;
      c.(phy := Recalculated(p, c.phySet))
  }

  function NextPacket(c: Config, p: Packet): Config {
    Settled(TakenNext(c, p))
  }

  /** A header of exactly 1 in the first of two packets skips that packet. */
  function SetCfg(c: Config, packets: seq<Packet>): Config
    requires |packets| > 0
  {
    var skip := packets[0][0] == 1 && |packets| == 2;
    var c1 := if skip then c else FirstPacket(c, packets[0]);
    if |packets| == 1 then c1 else NextPacket(c1, packets[1])
  }

  function SetCfgResult(packets: seq<Packet>): int {
    if |packets| == 0 then -1
    else
      var skip := packets[0][0] == 1 && |packets| == 2;
      (if skip then 0 else Refused(packets[0])) + (if |packets| == 1 then 0 else RefusedNext(packets[1]))
  }

  // ---- Starting ----

  /** The defaults for what was not set. */
  function Defaults(p: Physics, s: PhysicsSet): Physics {
    Physics(if s.ramp then p.ramp else RAMP_DEFAULT,
            if s.mass then p.mass else MASS_DEFAULT,
            if s.conduct then p.conduct else CONDUCT_DEFAULT,
            if s.power then p.power else POWER_DEFAULT,
            if s.latency then p.latency else LATENCY_DEFAULT,
            if s.ambient then p.ambient else AMBIENT_DEFAULT)
  }

  function StartPhysics(c: Config): Config {
    c.(phy := Recalculated(Defaults(c.phy, c.phySet), c.phySet), phySet := c.phySet.(ready := true))
  }

  function StartThresholds(c: Config): Config {
    c.(ctl := Thresholds(if c.ctlSet.bit10 then c.ctl.target else TARGET_DEFAULT,
                         if c.ctlSet.bit11 then c.ctl.critical else CRITICAL_DEFAULT,
                         if c.ctlSet.bit13 then c.ctl.cooldown else COOLDOWN_DEFAULT,
                         if c.ctlSet.bit12 then c.ctl.hysteresis else HYSTERESIS_DEFAULT))
  }

  function Started(c: Config): Config {
    StartPhysics(StartThresholds(c))
  }

  // ---- Ranges ----

  predicate InRange(p: Physics) {
    && MIN_RAMP <= p.ramp <= MAX_RAMP && MIN_MASS <= p.mass <= MAX_MASS && MIN_COND <= p.conduct <= MAX_COND
    && MIN_POWER <= p.power <= MAX_POWER && MIN_LATENCY <= p.latency <= MAX_LATENCY
    && MIN_AMBIENT <= p.ambient <= MAX_AMBIENT
  }

  /** What was set is in range; once running everything is. */
  predicate Inv(c: Config) {
    && (c.phySet.ready ==> InRange(c.phy))
    && (c.phySet.ramp ==> MIN_RAMP <= c.phy.ramp <= MAX_RAMP)
    && (c.phySet.mass ==> MIN_MASS <= c.phy.mass <= MAX_MASS)
    && (c.phySet.conduct ==> MIN_COND <= c.phy.conduct <= MAX_COND)
    && (c.phySet.power ==> MIN_POWER <= c.phy.power <= MAX_POWER)
    && (c.phySet.latency ==> MIN_LATENCY <= c.phy.latency <= MAX_LATENCY)
    && (c.phySet.ambient ==> MIN_AMBIENT <= c.phy.ambient <= MAX_AMBIENT)
  }

  lemma FirstKeeps(c: Config, p: Packet)
    requires Inv(c)
    ensures Inv(FirstPacket(c, p)) && FirstPacket(c, p).phySet.ready == c.phySet.ready
  {
  }

  lemma NextKeeps(c: Config, p: Packet)
    requires Inv(c)
    ensures Inv(NextPacket(c, p)) && NextPacket(c, p).phySet.ready == c.phySet.ready
  {
  }

  lemma SetCfgKeeps(c: Config, packets: seq<Packet>)
    requires Inv(c) && |packets| > 0
    ensures Inv(SetCfg(c, packets)) && SetCfg(c, packets).phySet.ready == c.phySet.ready
  {
    FirstKeeps(c, packets[0]);
    if |packets| > 1 {
      NextKeeps(c, packets[1]);
      NextKeeps(FirstPacket(c, packets[0]), packets[1]);
    }
  }

  lemma StartKeeps(c: Config)
    requires Inv(c)
    ensures Inv(Started(c)) && InRange(Started(c).phy) && Started(c).phySet.ready
  {
  }

  datatype Event = Packets(packets: seq<Packet>) | Start

  function Next(c: Config, e: Event): Config {
    match e
    case Packets(packets) => if packets == [] then c else SetCfg(c, packets)
    case Start => Started(c)
  }

  function Run(c: Config, events: seq<Event>): Config {
    if events == [] then c else Next(Run(c, events[..|events| - 1]), events[|events| - 1])
  }

  lemma {:induction false} RunKeeps(c: Config, events: seq<Event>)
    requires Inv(c)
    ensures Inv(Run(c, events))
    ensures c.phySet.ready || Start in events ==> Run(c, events).phySet.ready
  {
    if events != [] {
      var front, last := events[..|events| - 1], events[|events| - 1];
      RunKeeps(c, front);
      assert events == front + [last];
      match last
      case Packets(packets) =>
        if packets != [] {
          SetCfgKeeps(Run(c, front), packets);
        }
      case Start => StartKeeps(Run(c, front));
    }
  }

  /** Whatever packets come before and after the start, once the simulation has started every physics
      parameter is in its range; the two divisors in particular are not zero. */
  lemma PhysicsInRange(events: seq<Event>)
    requires Start in events
    ensures InRange(Run(UNSET, events).phy)
  {
    RunKeeps(UNSET, events);
  }

  // ---- Thresholds ----

  predicate ThresholdsInRange(t: Thresholds) {
    && MIN_TARGET <= t.target <= MAX_TARGET && MIN_CRITICAL <= t.critical <= MAX_CRITICAL
    && MIN_COOLDOWN <= t.cooldown <= MAX_COOLDOWN && MIN_HYSTERESIS <= t.hysteresis <= MAX_HYSTERESIS
  }

  /** Before the start: what was set by a packet is in range, the rest is zero. */
  predicate Fresh(c: Config) {
    && (if c.ctlSet.bit10 then MIN_TARGET <= c.ctl.target <= MAX_TARGET else c.ctl.target == 0)
    && (if c.ctlSet.bit11 then MIN_CRITICAL <= c.ctl.critical <= MAX_CRITICAL else c.ctl.critical == 0)
    && (if c.ctlSet.bit12 then MIN_COOLDOWN <= c.ctl.cooldown <= MAX_COOLDOWN else c.ctl.cooldown == 0)
    && (if c.ctlSet.bit13 then MIN_HYSTERESIS <= c.ctl.hysteresis <= MAX_HYSTERESIS else c.ctl.hysteresis == 0)
  }

  lemma {:induction false} PacketsKeepFresh(c: Config, events: seq<Event>)
    requires Fresh(c) && Start !in events
    ensures Fresh(Run(c, events))
  {
    if events != [] {
      var front, last := events[..|events| - 1], events[|events| - 1];
      assert events == front + [last];
      PacketsKeepFresh(c, front);
      PacketKeepsFresh(Run(c, front), last);
    }
  }

  lemma FirstLeavesThresholds(c: Config, p: Packet)
    ensures FirstPacket(c, p).ctl == c.ctl && FirstPacket(c, p).ctlSet == c.ctlSet
    ensures FirstPacket(c, p).phy.latency == c.phy.latency && FirstPacket(c, p).phy.ambient == c.phy.ambient
    ensures FirstPacket(c, p).phySet.ready == c.phySet.ready
  {
  }

  lemma TakenKeepsFresh(c: Config, d: Config, p: Packet)
    requires Fresh(c) && d.ctl == ThresholdsTaken(c.ctl, p) && d.ctlSet == ThresholdsMarked(c.ctlSet, p)
    ensures Fresh(d)
  {
  }

  lemma PacketKeepsFresh(c: Config, e: Event)
    requires Fresh(c) && e.Packets?
    ensures Fresh(Next(c, e))
  {
    if e.packets != [] {
      FirstLeavesThresholds(c, e.packets[0]);
      if |e.packets| > 1 {
        TakenKeepsFresh(c, SetCfg(c, e.packets), e.packets[1]);
      }
    }
  }

  /** After the first start the thresholds are in range exactly when the packets before it gave both a
      cooldown temperature and a hysteresis, or neither: the initialisation tests each under the other's
      bit, so one alone leaves the other at zero. */
  lemma StartThresholdsInRange(events: seq<Event>)
    requires Start !in events
    ensures var c := Run(UNSET, events);
            ThresholdsInRange(Started(c).ctl) <==> c.ctlSet.bit12 == c.ctlSet.bit13
  {
    PacketsKeepFresh(UNSET, events);
  }

  /** Once in range they stay in range whatever packets come. */
  lemma ThresholdsStay(c: Config, packets: seq<Packet>)
    requires ThresholdsInRange(c.ctl) && |packets| > 0
    ensures ThresholdsInRange(SetCfg(c, packets).ctl)
  {
  }

  // A packet that gives only a cooldown temperature of 60, and one that gives only a hysteresis of 5
  const SKIPPED: Packet := [1, 0, 0, 0, 0, 0, 0, 0]
  const COOLDOWN_60: Packet := [16, 0, 0, 0, 60, 0, 0, 0]
  const HYSTERESIS_5: Packet := [32, 0, 0, 0, 0, 5, 0, 0]

  lemma RunOnce(c: Config, e: Event)
    ensures Run(c, [e]) == Next(c, e)
  {
    assert [e][..0] == [] && Run(c, [e][..0]) == c;
  }

  /** Each alone is ignored, and takes the default from the other threshold. */
  lemma OneThresholdAlone()
    ensures Started(Run(UNSET, [Packets([SKIPPED, COOLDOWN_60])])).ctl == Thresholds(125, 180, 50, 0)
    ensures Started(Run(UNSET, [Packets([SKIPPED, HYSTERESIS_5])])).ctl == Thresholds(125, 180, 0, 10)
  {
    RunOnce(UNSET, Packets([SKIPPED, COOLDOWN_60]));
    RunOnce(UNSET, Packets([SKIPPED, HYSTERESIS_5]));
    var p, q := COOLDOWN_60, HYSTERESIS_5;
    assert CooldownOk(p) && !TargetOk(p) && !CriticalOk(p) && !HysteresisOk(p);
    assert HysteresisOk(q) && !TargetOk(q) && !CriticalOk(q) && !CooldownOk(q);
  }

  /** A field of the second packet is taken over exactly when it is present and in range; a ramp below 4
      then limits the latency of a running simulation to 10. */
  lemma SecondPacketMeans(c: Config, packets: seq<Packet>)
    requires |packets| >= 2
    ensures var p, now := packets[1], SetCfg(c, packets);
            && now.ctl.target == (if HasBit(p[0], 2) && 50 <= p[2] <= 150 then p[2] else c.ctl.target)
            && now.ctl.critical == (if HasBit(p[0], 3) && 160 <= p[3] <= 250 then p[3] else c.ctl.critical)
            && now.ctl.cooldown == (if HasBit(p[0], 4) && 30 <= p[4] <= 100 then p[4] else c.ctl.cooldown)
            && now.ctl.hysteresis == (if HasBit(p[0], 5) && 2 <= p[5] <= 10 then p[5] else c.ctl.hysteresis)
            && now.phy.ambient
               == (if HasBit(p[0], 6) && -10 <= S16(p, 3) <= 40 then S16(p, 3) * 1000 else c.phy.ambient)
    ensures var p, now := packets[1], SetCfg(c, packets);
            var latency := if HasBit(p[0], 1) && 5 <= p[1] <= 50 then p[1] else c.phy.latency;
            now.phy.latency == if c.phySet.ready && now.phy.ramp < 4 && latency > 10 then 10 else latency
  {
    FirstLeavesThresholds(c, packets[0]);
  }

  /** A word with `low` below a bit of weight `w` and `high` above it. */
  lemma BitIs(r: nat, w: nat, low: nat, b: bool, high: nat)
    requires low < w && r == low + (if b then w else 0) + w * (2 * high)
    ensures r / w % 2 == 1 <==> b
  {
    var q := (if b then 1 else 0) + 2 * high;
    assert q * w == (if b then w else 0) + w * (2 * high);
    ModIs(r, q, low, w);
  }

  function Num(b: bool): nat {
    if b then 1 else 0
  }

  lemma BitsAre(r: nat, low: nat, b1: bool, b2: bool, b3: bool, b4: bool, b5: bool, b6: bool)
    requires low < 0x200
    requires r == low + 0x200 * Num(b1) + 0x400 * Num(b2) + 0x800 * Num(b3) + 0x1000 * Num(b4) + 0x2000 * Num(b5)
                  + 0x4000 * Num(b6)
    ensures (r / 0x200 % 2 == 1 <==> b1) && (r / 0x400 % 2 == 1 <==> b2) && (r / 0x800 % 2 == 1 <==> b3)
    ensures (r / 0x1000 % 2 == 1 <==> b4) && (r / 0x2000 % 2 == 1 <==> b5) && (r / 0x4000 % 2 == 1 <==> b6)
  {
    var h6 := 0;
    var h5 := Num(b6);
    var h4 := Num(b5) + 2 * h5;
    var h3 := Num(b4) + 2 * h4;
    var h2 := Num(b3) + 2 * h3;
    var h1 := Num(b2) + 2 * h2;
    var l2 := low + 0x200 * Num(b1);
    var l3 := l2 + 0x400 * Num(b2);
    var l4 := l3 + 0x800 * Num(b3);
    var l5 := l4 + 0x1000 * Num(b4);
    var l6 := l5 + 0x2000 * Num(b5);
    BitIs(r, 0x200, low, b1, h1);
    BitIs(r, 0x400, l2, b2, h2);
    BitIs(r, 0x800, l3, b3, h3);
    BitIs(r, 0x1000, l4, b4, h4);
    BitIs(r, 0x2000, l5, b5, h5);
    BitIs(r, 0x4000, l6, b6, h6);
  }

  /** A bit of the result is set exactly when its field of the second packet is present and out of range. */
  lemma ReportMeans(packets: seq<Packet>)
    requires |packets| >= 2
    ensures var p, r := packets[1], SetCfgResult(packets);
            && r >= 0
            && (r / 0x200 % 2 == 1 <==> HasBit(p[0], 1) && !(5 <= p[1] <= 50))
            && (r / 0x400 % 2 == 1 <==> HasBit(p[0], 2) && !(50 <= p[2] <= 150))
            && (r / 0x800 % 2 == 1 <==> HasBit(p[0], 3) && !(160 <= p[3] <= 250))
            && (r / 0x1000 % 2 == 1 <==> HasBit(p[0], 4) && !(30 <= p[4] <= 100))
            && (r / 0x2000 % 2 == 1 <==> HasBit(p[0], 5) && !(2 <= p[5] <= 10))
            && (r / 0x4000 % 2 == 1 <==> HasBit(p[0], 6) && !(-10 <= S16(p, 3) <= 40))
  {
    var p, r := packets[1], SetCfgResult(packets);
    var b1, b2 := HasBit(p[0], 1) && !LatencyOk(p), HasBit(p[0], 2) && !TargetOk(p);
    var b3 := HasBit(p[0], 3) && !CriticalOk(p);
    var b4, b5 := HasBit(p[0], 4) && !CooldownOk(p), HasBit(p[0], 5) && !HysteresisOk(p);
    var b6 := HasBit(p[0], 6) && !AmbientOk(p);
    var low := r - RefusedNext(p);
    BitsAre(r, low, b1, b2, b3, b4, b5, b6);
  }

  // ---- Packets and start by their bytes ----

  /** The header's bits, from the second on, are its successive halves' parities. */
  lemma HeaderBits(h: Byte)
    ensures (HasBit(h, 1) <==> h / 2 % 2 == 1) && (HasBit(h, 2) <==> h / 4 % 2 == 1)
    ensures (HasBit(h, 3) <==> h / 8 % 2 == 1) && (HasBit(h, 4) <==> h / 16 % 2 == 1)
    ensures (HasBit(h, 5) <==> h / 32 % 2 == 1) && (HasBit(h, 6) <==> h / 64 % 2 == 1)
  {
    Words.BitIs(h, 1);
    Words.BitIs(h, 2);
    Words.BitIs(h, 3);
    Words.BitIs(h, 4);
    Words.BitIs(h, 5);
    Words.BitIs(h, 6);
  }

  /** A field of the first packet is given when its header bit is set and it is in range. */
  predicate RampGiven(p: Packet) { p[0] / 2 % 2 == 1 && 2 <= p[1] <= 20 }
  predicate MassGiven(p: Packet) { p[0] / 4 % 2 == 1 && 200 <= p[2] as int + 256 * p[3] as int <= 1000 }
  predicate ConductGiven(p: Packet) { p[0] / 8 % 2 == 1 && 5000 <= p[4] as int + 256 * p[5] as int <= 15000 }
  predicate PowerGiven(p: Packet) { p[0] / 16 % 2 == 1 && 1000 <= p[6] as int + 256 * p[7] as int <= 8000 }

  lemma AcceptedIs(p: Packet)
    ensures Accepted(p) == Request(RampGiven(p), MassGiven(p), ConductGiven(p), PowerGiven(p))
    ensures Present(p) == Request(p[0] / 2 % 2 == 1, p[0] / 4 % 2 == 1, p[0] / 8 % 2 == 1, p[0] / 16 % 2 == 1)
  {
    HeaderBits(p[0]);
  }

  /** A mass that fits a power and a ramp, and a conductance that fits a mass. */
  predicate MassFits(p: Physics) {
    p.mass == var m := p.power * p.ramp / 100; if m < 200 then 200 else if m > 1000 then 1000 else m
  }

  predicate ConductFits(p: Physics) {
    p.conduct == var k := 4000 + 20 * p.mass; if k < 5000 then 5000 else if k > 15000 then 15000 else k
  }

  /** The first packet alone: what is given is taken over and marked. A ramp or power that is given sets the mass,
      unless that is given too, and the conductance likewise, from the values now in force. */
  lemma FirstPacketMeans(c: Config, p: Packet)
    ensures var now, derive := SetCfg(c, [p]), RampGiven(p) || PowerGiven(p);
            && now.phy.ramp == (if RampGiven(p) then p[1] else c.phy.ramp)
            && now.phy.power == (if PowerGiven(p) then p[6] as int + 256 * p[7] as int else c.phy.power)
            && (if MassGiven(p) then now.phy.mass == p[2] as int + 256 * p[3] as int
                else if derive then MassFits(now.phy) else now.phy.mass == c.phy.mass)
            && (if ConductGiven(p) then now.phy.conduct == p[4] as int + 256 * p[5] as int
                else if derive then ConductFits(now.phy) else now.phy.conduct == c.phy.conduct)
            && now.phySet == c.phySet.(ramp := c.phySet.ramp || RampGiven(p), mass := c.phySet.mass || MassGiven(p),
                                       conduct := c.phySet.conduct || ConductGiven(p),
                                       power := c.phySet.power || PowerGiven(p))
            && now.phy.latency == c.phy.latency && now.phy.ambient == c.phy.ambient
            && now.ctl == c.ctl && now.ctlSet == c.ctlSet
  {
    AcceptedIs(p);
  }

  /** Bits 1 to 4 of the result tell which fields of the first packet are present and out of range; the bits
      between the two packets' are never set. */
  lemma FirstReportMeans(packets: seq<Packet>)
    ensures packets == [] ==> SetCfgResult(packets) == -1
    ensures |packets| >= 1 ==>
              var p, r := packets[0], SetCfgResult(packets);
              && 0 <= r < 0x8000 && r % 2 == 0 && r / 0x20 % 16 == 0 && (|packets| == 1 ==> r < 0x20)
              && (r / 2 % 2 == 1 <==> p[0] / 2 % 2 == 1 && !RampGiven(p))
              && (r / 4 % 2 == 1 <==> p[0] / 4 % 2 == 1 && !MassGiven(p))
              && (r / 8 % 2 == 1 <==> p[0] / 8 % 2 == 1 && !ConductGiven(p))
              && (r / 16 % 2 == 1 <==> p[0] / 16 % 2 == 1 && !PowerGiven(p))
  {
    if |packets| >= 1 {
      var p, r := packets[0], SetCfgResult(packets);
      AcceptedIs(p);
      var high: nat := 0;
      if |packets| > 1 {
        high := HighPart(packets[1]);
      }
      LowBitsAre(r, p[0] / 2 % 2 == 1 && !RampGiven(p), p[0] / 4 % 2 == 1 && !MassGiven(p),
                 p[0] / 8 % 2 == 1 && !ConductGiven(p), p[0] / 16 % 2 == 1 && !PowerGiven(p), high);
    }
  }

  /** The second packet's part of the result, in units of its lowest bit. */
  lemma HighPart(p: Packet) returns (high: nat)
    ensures RefusedNext(p) == 0x200 * high && high < 0x40
  {
    high := Num(HasBit(p[0], 1) && !LatencyOk(p)) + 2 * Num(HasBit(p[0], 2) && !TargetOk(p))
            + 4 * Num(HasBit(p[0], 3) && !CriticalOk(p)) + 8 * Num(HasBit(p[0], 4) && !CooldownOk(p))
            + 16 * Num(HasBit(p[0], 5) && !HysteresisOk(p)) + 32 * Num(HasBit(p[0], 6) && !AmbientOk(p));
  }

  lemma LowBitsAre(r: nat, b1: bool, b2: bool, b3: bool, b4: bool, high: nat)
    requires r == 2 * Num(b1) + 4 * Num(b2) + 8 * Num(b3) + 16 * Num(b4) + 0x200 * high
    ensures (r / 2 % 2 == 1 <==> b1) && (r / 4 % 2 == 1 <==> b2)
    ensures (r / 8 % 2 == 1 <==> b3) && (r / 16 % 2 == 1 <==> b4)
    ensures r % 2 == 0 && r / 0x20 % 16 == 0
  {
    var h4 := 16 * high;
    var h3 := Num(b4) + 2 * h4;
    var h2 := Num(b3) + 2 * h3;
    var h1 := Num(b2) + 2 * h2;
    BitIs(r, 2, 0, b1, h1);
    BitIs(r, 4, 2 * Num(b1), b2, h2);
    BitIs(r, 8, 2 * Num(b1) + 4 * Num(b2), b3, h3);
    BitIs(r, 16, 2 * Num(b1) + 4 * Num(b2) + 8 * Num(b3), b4, h4);
    assert r == 0x20 * (16 * high) + (2 * Num(b1) + 4 * Num(b2) + 8 * Num(b3) + 16 * Num(b4));
  }

  /** With a second packet, the first packet's fields come out as if it came alone, and then a running simulation
      derives the mass and the conductance that no packet ever gave. */
  lemma FirstOfTwoMeans(c: Config, packets: seq<Packet>)
    requires |packets| >= 2
    ensures var mid, now := SetCfg(c, [packets[0]]), SetCfg(c, packets);
            && now.phy.ramp == mid.phy.ramp && now.phy.power == mid.phy.power
            && (if c.phySet.ready && !mid.phySet.mass then MassFits(now.phy) else now.phy.mass == mid.phy.mass)
            && (if c.phySet.ready && !mid.phySet.conduct then ConductFits(now.phy)
                else now.phy.conduct == mid.phy.conduct)
    ensures var p, mid, now := packets[1], SetCfg(c, [packets[0]]), SetCfg(c, packets);
            && now.phySet == mid.phySet.(
                 latency := c.phySet.latency || (p[0] / 2 % 2 == 1 && 5 <= p[1] <= 50),
                 ambient := c.phySet.ambient || (p[0] / 64 % 2 == 1 && -10 <= S16(p, 3) <= 40))
            && now.ctlSet == ThresholdsSet(
                 c.ctlSet.bit10 || (p[0] / 4 % 2 == 1 && 50 <= p[2] <= 150),
                 c.ctlSet.bit11 || (p[0] / 8 % 2 == 1 && 160 <= p[3] <= 250),
                 c.ctlSet.bit12 || (p[0] / 16 % 2 == 1 && 30 <= p[4] <= 100),
                 c.ctlSet.bit13 || (p[0] / 32 % 2 == 1 && 2 <= p[5] <= 10))
  {
    HeaderBits(packets[1][0]);
    SkipIsEmpty(c, packets[0]);
    FirstLeavesThresholds(c, packets[0]);
  }

  /** A header of 1 announces no field, so that skipping the packet changes nothing. */
  lemma SkipIsEmpty(c: Config, p: Packet)
    ensures p[0] == 1 ==> FirstPacket(c, p) == c
  {
    HeaderBits(p[0]);
  }

  /** The ambient temperature of a second packet is the signed number in its last two bytes. */
  lemma AmbientIs(p: Packet)
    ensures S16(p, 3) == p[6] as int + 256 * p[7] as int - (if p[7] >= 0x80 then 0x1_0000 else 0)
  {
  }

  /** The start: a parameter no packet gave gets its default, or, for the mass and the conductance, the value that
      fits the others, whatever their own defaults. A cooldown temperature counts as given when a hysteresis
      was, and the other way round. */
  lemma StartMeans(c: Config)
    ensures var now, was := Started(c), c.phySet;
            && now.phy.ramp == (if was.ramp then c.phy.ramp else 10)
            && now.phy.power == (if was.power then c.phy.power else 4000)
            && now.phy.latency == (if was.latency then c.phy.latency else 20)
            && now.phy.ambient == (if was.ambient then c.phy.ambient else 25000)
            && (if was.mass then now.phy.mass == c.phy.mass else MassFits(now.phy))
            && (if was.conduct then now.phy.conduct == c.phy.conduct else ConductFits(now.phy))
            && now.phySet == was.(ready := true) && now.ctlSet == c.ctlSet
            && now.ctl == Thresholds(if now.ctlSet.bit10 then c.ctl.target else 125,
                                     if now.ctlSet.bit11 then c.ctl.critical else 180,
                                     if now.ctlSet.bit13 then c.ctl.cooldown else 50,
                                     if now.ctlSet.bit12 then c.ctl.hysteresis else 10)
  {
  }

  // ---- The code ----

  class Settings {
    var phy: Physics
    var phySet: PhysicsSet
    var ctl: Thresholds
    var ctlSet: ThresholdsSet

    function State(): Config
      reads this
    {
      Config(phy, phySet, ctl, ctlSet)
    }

    constructor ()
      ensures State() == UNSET
    {
      phy, phySet, ctl, ctlSet := UNSET.phy, UNSET.phySet, UNSET.ctl, UNSET.ctlSet;
    }

    method SetSimCfg(packets: seq<Packet>) returns (r: int)
      modifies this
      ensures r == SetCfgResult(packets)
      ensures State() == if packets == [] then old(State()) else SetCfg(old(State()), packets)
    {
      if |packets| < 1 {
        return -1;
      }
      r := 0;
      if !(packets[0][0] == 1 && |packets| == 2) {
        r := TakeFirst(packets[0]);
        if |packets| == 1 {
          return;
        }
      }
      var more := TakeNext(packets[1]);
      r := r + more;
    }

    method TakeFirst(p: Packet) returns (refused: int)
      modifies this
      ensures State() == FirstPacket(old(State()), p) && refused == Refused(p)
    {
      var ramp, mass, r1 := TakeRampAndMass(p);
      var conduct, power, r2 := TakeConductAndPower(p);
      refused := r1 + r2;
      Derive(Request(ramp, mass, conduct, power));
    }

    method TakeRampAndMass(p: Packet) returns (ramp: bool, mass: bool, refused: int)
      modifies `phy, `phySet
      ensures ramp == Accepted(p).ramp && mass == Accepted(p).mass
      ensures phy == old(phy).(ramp := if ramp then p[1] else old(phy).ramp,
                               mass := if mass then U16(p, 1) else old(phy).mass)
      ensures phySet == old(phySet).(ramp := old(phySet).ramp || ramp, mass := old(phySet).mass || mass)
      ensures refused == (if Present(p).ramp && !ramp then 2 else 0) + (if Present(p).mass && !mass then 4 else 0)
    {
      ramp, mass, refused := HasBit(p[0], 1), HasBit(p[0], 2), 0;
      if ramp {
        if MIN_RAMP <= p[1] <= MAX_RAMP {
          phy, phySet := phy.(ramp := p[1]), phySet.(ramp := true);
        } else {
          refused, ramp := refused + 2, false;
        }
      }
      if mass {
        if MIN_MASS <= U16(p, 1) <= MAX_MASS {
          phy, phySet := phy.(mass := U16(p, 1)), phySet.(mass := true);
        } else {
          refused, mass := refused + 4, false;
        }
      }
    }

    method TakeConductAndPower(p: Packet) returns (conduct: bool, power: bool, refused: int)
      modifies `phy, `phySet
      ensures conduct == Accepted(p).conduct && power == Accepted(p).power
      ensures phy == old(phy).(conduct := if conduct then U16(p, 2) else old(phy).conduct,
                               power := if power then U16(p, 3) else old(phy).power)
      ensures phySet == old(phySet).(conduct := old(phySet).conduct || conduct, power := old(phySet).power || power)
      ensures refused == (if Present(p).conduct && !conduct then 8 else 0)
                         + (if Present(p).power && !power then 16 else 0)
    {
      conduct, power, refused := HasBit(p[0], 3), HasBit(p[0], 4), 0;
      if conduct {
        if MIN_COND <= U16(p, 2) <= MAX_COND {
          phy, phySet := phy.(conduct := U16(p, 2)), phySet.(conduct := true);
        } else {
          refused, conduct := refused + 8, false;
        }
      }
      if power {
        if MIN_POWER <= U16(p, 3) <= MAX_POWER {
          phy, phySet := phy.(power := U16(p, 3)), phySet.(power := true);
        } else {
          refused, power := refused + 16, false;
        }
      }
    }

    /** The mass and the conductance that follow from a new ramp or power. */
    method Derive(a: Request)
      modifies `phy
      ensures var p := old(phy);
              var p2 := if !a.mass && (a.ramp || a.power) then p.(mass := MassFor(p)) else p;
              phy == if !a.conduct && (a.ramp || a.power) then p2.(conduct := ConductFor(p2)) else p2
    {
      if !a.mass && (a.ramp || a.power) {
        phy := phy.(mass := MassFor(phy));
      }
      if !a.conduct && (a.ramp || a.power) {
        phy := phy.(conduct := ConductFor(phy));
      }
    }

    method TakeNext(p: Packet) returns (refused: int)
      modifies this
      ensures State() == NextPacket(old(State()), p) && refused == RefusedNext(p)
    {
      refused := TakeFields(p);
      Settle();
    }

    method TakeFields(p: Packet) returns (refused: int)
      modifies this
      ensures State() == TakenNext(old(State()), p) && refused == RefusedNext(p)
    {
      var r1 := TakeLatency(p);
      var r2 := TakeThresholds(p);
      var r3 := TakeAmbient(p);
      refused := r1 + r2 + r3;
    }

    method TakeThresholds(p: Packet) returns (refused: int)
      modifies `ctl, `ctlSet
      ensures ctl == ThresholdsTaken(old(ctl), p) && ctlSet == ThresholdsMarked(old(ctlSet), p)
      ensures refused == RefusedThresholds(p)
    {
      var r1 := TakeTargetAndCritical(p);
      var r2 := TakeCooldownAndHysteresis(p);
      refused := r1 + r2;
    }

    method Settle()
      modifies this
      ensures State() == Settled(old(State()))
    {
      if phySet.ready && phy.ramp < 4 && phy.latency > 10 {
        phy := phy.(latency := 10);
      }
      if phySet.ready {
        Recalculate();
      }
    }

    method TakeLatency(p: Packet) returns (refused: int)
      modifies `phy, `phySet
      ensures phy == old(phy).(latency := if LatencyOk(p) then p[1] else old(phy).latency)
      ensures phySet == old(phySet).(latency := old(phySet).latency || LatencyOk(p))
      ensures refused == Refusal(HasBit(p[0], 1), LatencyOk(p), 0x200)
    {
      refused := 0;
      if HasBit(p[0], 1) {
        if MIN_LATENCY <= p[1] <= MAX_LATENCY {
          phy, phySet := phy.(latency := p[1]), phySet.(latency := true);
        } else {
          refused := 0x200;
        }
      }
    }

    method TakeTargetAndCritical(p: Packet) returns (refused: int)
      modifies `ctl, `ctlSet
      ensures ctl == old(ctl).(target := if TargetOk(p) then p[2] else old(ctl).target,
                               critical := if CriticalOk(p) then p[3] else old(ctl).critical)
      ensures ctlSet == old(ctlSet).(bit10 := old(ctlSet).bit10 || TargetOk(p),
                                     bit11 := old(ctlSet).bit11 || CriticalOk(p))
      ensures refused == Refusal(HasBit(p[0], 2), TargetOk(p), 0x400)
                         + Refusal(HasBit(p[0], 3), CriticalOk(p), 0x800)
    {
      refused := 0;
      if HasBit(p[0], 2) {
        if MIN_TARGET <= p[2] <= MAX_TARGET {
          ctl, ctlSet := ctl.(target := p[2]), ctlSet.(bit10 := true);
        } else {
          refused := refused + 0x400;
        }
      }
      if HasBit(p[0], 3) {
        if MIN_CRITICAL <= p[3] <= MAX_CRITICAL {
          ctl, ctlSet := ctl.(critical := p[3]), ctlSet.(bit11 := true);
        } else {
          refused := refused + 0x800;
        }
      }
    }

    method TakeCooldownAndHysteresis(p: Packet) returns (refused: int)
      modifies `ctl, `ctlSet
      ensures ctl == old(ctl).(cooldown := if CooldownOk(p) then p[4] else old(ctl).cooldown,
                               hysteresis := if HysteresisOk(p) then p[5] else old(ctl).hysteresis)
      ensures ctlSet == old(ctlSet).(bit12 := old(ctlSet).bit12 || CooldownOk(p),
                                     bit13 := old(ctlSet).bit13 || HysteresisOk(p))
      ensures refused == Refusal(HasBit(p[0], 4), CooldownOk(p), 0x1000)
                         + Refusal(HasBit(p[0], 5), HysteresisOk(p), 0x2000)
    {
      refused := 0;
      if HasBit(p[0], 4) {
        if MIN_COOLDOWN <= p[4] <= MAX_COOLDOWN {
          ctl, ctlSet := ctl.(cooldown := p[4]), ctlSet.(bit12 := true);
        } else {
          refused := refused + 0x1000;
        }
      }
      if HasBit(p[0], 5) {
        if MIN_HYSTERESIS <= p[5] <= MAX_HYSTERESIS {
          ctl, ctlSet := ctl.(hysteresis := p[5]), ctlSet.(bit13 := true);
        } else {
          refused := refused + 0x2000;
        }
      }
    }

    method TakeAmbient(p: Packet) returns (refused: int)
      modifies `phy, `phySet
      ensures phy == old(phy).(ambient := if AmbientOk(p) then S16(p, 3) * 1000 else old(phy).ambient)
      ensures phySet == old(phySet).(ambient := old(phySet).ambient || AmbientOk(p))
      ensures refused == Refusal(HasBit(p[0], 6), AmbientOk(p), 0x4000)
    {
      refused := 0;
      if HasBit(p[0], 6) {
        if MIN_AMBIENT <= S16(p, 3) * 1000 <= MAX_AMBIENT {
          phy, phySet := phy.(ambient := S16(p, 3) * 1000), phySet.(ambient := true);
        } else {
          refused := 0x4000;
        }
      }
    }

    method Recalculate()
      modifies this
      ensures State() == old(State()).(phy := Recalculated(old(phy), old(phySet)))
    {
      if !phySet.mass {
        phy := phy.(mass := MassFor(phy));
      }
      if !phySet.conduct {
        phy := phy.(conduct := ConductFor(phy));
      }
    }

    /** What the hardware task does when it first runs. */
    method Initialise()
      modifies this
      ensures State() == Started(old(State()))
    {
      ctl := Thresholds(if ctlSet.bit10 then ctl.target else TARGET_DEFAULT,
                        if ctlSet.bit11 then ctl.critical else CRITICAL_DEFAULT,
                        if ctlSet.bit13 then ctl.cooldown else COOLDOWN_DEFAULT,
                        if ctlSet.bit12 then ctl.hysteresis else HYSTERESIS_DEFAULT);
      phy := Defaults(phy, phySet);
      Recalculate();
      phySet := phySet.(ready := true);
    }
  }
}
