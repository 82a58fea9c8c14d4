/**
 * The temperature controller, the 1 ms hardware tick and the watchdog, as functions of the whole state.
 * Models run_temperature_regulation, the tick of vHardwareSimTask and the start of vGPIOControlTask in
 * port/freertos_sim.c.
 */
module Thermal {
  import opened Arith
  import opened Gpio
  import opened SimConfig

  const SENSOR_OFFSET := 40
  const SENSOR_MAX := 215000
  const RELOAD := 150

  datatype Units = Units(heaterFailed: bool, fan1Failed: bool, fan2Failed: bool)

  datatype Status = Status(heating: bool, cooldown: bool, critical: bool, window: nat, maxTemp: int)

  const CALM := Status(false, false, false, 0, -SENSOR_OFFSET)

  datatype State = State(config: Config, units: Units, st: Status, temp: int, ms: nat, regs: Regs)

  // ---- Regulation ----

  function Reading(r: Regs): int {
    r.pinIn - SENSOR_OFFSET
  }

  /** Every cycle notes the reading; the window counter has 32 bits. */
  function Noted(st: Status, temp: int): Status {
    st.(maxTemp := if temp > st.maxTemp then temp else st.maxTemp, window := (st.window + 1) % 0x1_0000_0000)
  }

  /** Emergency cooling begins above the critical temperature and ends below the cooldown one. */
  function Emergency(t: Thresholds, s: State, temp: int): State {
    var s1 := if (temp > t.critical || s.st.critical) && !s.st.critical
              then s.(st := s.st.(critical := true), regs := WithOut(WithOut(s.regs, FAN2, true), HEATER, false))
              else s;
    if s1.st.critical && temp < t.cooldown
    then s1.(st := s1.st.(critical := false), regs := WithOut(s1.regs, FAN2, false))
    else s1
  }

  /** Safety cooling begins with an alarm and ends below the cooldown temperature. */
  function Safety(t: Thresholds, s: State, temp: int): State {
    var s1 := if IsAlarm(s.regs) && !s.st.cooldown then s.(st := s.st.(cooldown := true)) else s;
    if !s1.st.cooldown then s1
    else if temp < t.cooldown then Recovered(t, s1, temp)
    else s1.(regs := WithOut(if s1.units.fan1Failed then s1.regs else WithOut(s1.regs, FAN1, true), HEATER, false))
  }

  function Recovered(t: Thresholds, s: State, temp: int): State {
    var regs := InterruptCleared(s.regs, ALARM);
    if temp < t.target - t.hysteresis
    then s.(st := s.st.(cooldown := false, heating := true, maxTemp := temp), regs := WithOut(regs, FAN1, false))
    else s.(st := s.st.(cooldown := false, maxTemp := temp), regs := regs)
  }

  /** Heating up to the target with hysteresis, else Fan 1 above it. */
  function Normal(t: Thresholds, s: State, temp: int): State {
    var heating := if temp < t.target - t.hysteresis then true else if temp >= t.target then false else s.st.heating;
    s.(st := s.st.(heating := heating),
       regs := if heating && !s.units.heaterFailed
               then WithOut(WithOut(s.regs, HEATER, true), FAN1, false)
               else WithOut(WithOut(s.regs, HEATER, false), FAN1, temp > t.target + 3 && !s.units.fan1Failed))
  }

  function Regulated(s: State): State {
    var t, temp := s.config.ctl, Reading(s.regs);
    var s1 := Emergency(t, s.(st := Noted(s.st, temp)), temp);
    if s1.st.critical then s1
    else
      var s2 := Safety(t, s1, temp);
      if s2.st.cooldown then s2 else Normal(t, s2, temp)
  }

  /** One cycle of the control task: regulation and the watchdog. */
  function Cycle(s: State): State {
    var s1 := Regulated(s);
    s1.(regs := Kicked(s1.regs))
  }

  function ControlStarted(s: State): State {
    s.(regs := WatchdogSet(
         InterruptCleared(PinsConfigured(ControllerReset(s.regs)), ALARM), RELOAD))
  }

  /** Pins 0 to 2 become outputs and then, with the sensor mask, all eight inputs; the alarm interrupt is
      switched on. */
  function PinsConfigured(r: Regs): Regs {
    r.(dir := NO_PINS8, intEn := r.intEn[ALARM := true])
  }

  // ---- The tick ----

  /** Conversion to a signed 16-bit number. */
  function W16(x: int): int {
    (x + 0x8000) % 0x1_0000 - 0x8000
  }

  /** Division that truncates, as in C; there is no value when `b` is 0, and it never is. */
  function Quot(a: int, b: nat): int {
    if b == 0 then 0 else if a >= 0 then a / b else -((-a) / b)
  }

  function Heat(p: Physics, u: Units, out: Pins8): int {
    if (out[HEATER] || u.fan1Failed) && !u.heaterFailed then W16(p.power) else 0
  }

  function Cooling(p: Physics, u: Units, out: Pins8, temp: int): int {
    var c1 := if out[FAN1] && !u.fan1Failed then W16(p.power * 3 / 2) else 0;
    var c2 := if out[FAN2] && !u.fan2Failed then W16(c1 + p.power * 4) else c1;
    W16(c2 + Quot(temp - p.ambient, p.conduct))
  }

  function Limited(temp: int, ambient: int): int {
    var t := if temp > SENSOR_MAX then SENSOR_MAX else temp;
    if t < ambient then ambient else t
  }

  function NextTemp(p: Physics, u: Units, out: Pins8, temp: int): int {
    Limited(temp + Quot(W16(Heat(p, u, out) - Cooling(p, u, out, temp)), p.mass), p.ambient)
  }

  function Sensed(temp: int): Byte {
    var t := Quot(temp, 1000) + SENSOR_OFFSET;
    if t > 255 then 255 else if t < 0 then 0 else t
  }

  /** Fan 1 fails, or recovers, every 1024 control cycles. */
  function UnitsAt(u: Units, ms: nat, latency: nat, window: nat): Units {
    if ms == latency && window != 0 && window % 1024 == 0 then u.(fan1Failed := !u.fan1Failed) else u
  }

  function Moved(s: State): State {
    var ms := (s.ms + 1) % 0x1_0000_0000;
    var units := UnitsAt(s.units, ms, s.config.phy.latency, s.st.window);
    var temp := NextTemp(s.config.phy, units, s.regs.out, s.temp);
    s.(ms := ms, units := units, temp := temp, regs := s.regs.(pinIn := Sensed(temp)))
  }

  predicate Hot(s: State) {
    s.temp >= 1000 * (s.config.ctl.target + s.config.ctl.hysteresis + 10)
  }

  /** A new alarm: hot, enabled and not yet pending. */
  predicate Alarms(s: State) {
    Hot(s) && s.regs.intEn[ALARM] && !s.regs.intSts[ALARM]
  }

  function Alarmed(s: State): State {
    if Alarms(s) then
      s.(regs := s.regs.(alarm := true, intSts := s.regs.intSts[ALARM := true]),
         ms := if s.ms > s.config.phy.latency / 2 then 0 else s.ms)
    else if Hot(s) then s
    else s.(regs := s.regs.(alarm := false))
  }

  /** The sensor is due. */
  predicate Due(s: State) {
    s.ms >= s.config.phy.latency
  }

  function Watched(s: State): State {
    if !s.regs.wdtEn then s
    else if s.regs.timer > 0 then s.(regs := s.regs.(timer := s.regs.timer - 1))
    else s.(regs := s.regs.(out := NO_PINS8[FAN1 := true]))
  }

  /** The state after a tick, and whether the tick notified the control task. */
  datatype Tick = Tick(state: State, notified: bool)

  function Ticked(s: State): Tick {
    var moved := Moved(s);
    var alarms := Alarms(moved);
    var s1 := Alarmed(moved);
    var due := Due(s1) && !alarms;
    Tick(Watched(if due then s1.(ms := 0) else s1), alarms || due)
  }

  // ---- Start and stop ----

  /** The state when the hardware task first runs: the temperature starts from the ambient one as it was
      before the defaults are filled in. */
  function Begun(c: Config, regs: Regs): State {
    State(Started(c), Units(false, false, false), CALM, c.phy.ambient, 0, regs)
  }

  /** sim_suspend: the controller forgets, the outputs stay. */
  function Suspended(s: State): State {
    s.(units := Units(false, false, false), st := CALM, temp := s.config.phy.ambient)
  }

  // ---- One tick ----

  /** After a tick the temperature lies between the ambient one and the sensor's limit, however the 16-bit
      sums wrapped, and the controller's reading is that temperature in whole degrees. */
  lemma TickReading(s: State)
    requires InRange(s.config.phy)
    ensures var r := Ticked(s).state;
            && s.config.phy.ambient <= r.temp <= SENSOR_MAX
            && Truncated(r.temp, 1000, r.regs.pinIn - 40)
  {
    var moved := Moved(s);
    QuotBounds(moved.temp, 1000);
    QuotTruncates(moved.temp, 1000);
  }

  lemma QuotBounds(a: int, b: nat)
    requires b > 0 && MIN_AMBIENT <= a <= SENSOR_MAX
    ensures b == 1000 ==> -10 <= Quot(a, b) <= 215
  {
  }

  /** What the fans and the passive cooling add up to before any sum is cut to 16 bits. */
  function FullCooling(p: Physics, u: Units, out: Pins8, temp: int): int {
    (if out[FAN1] && !u.fan1Failed then p.power * 3 / 2 else 0)
    + (if out[FAN2] && !u.fan2Failed then p.power * 4 else 0)
    + Quot(temp - p.ambient, p.conduct)
  }

  lemma QuotNatural(a: int, b: nat)
    requires a >= 0
    ensures Quot(a, b) >= 0
  {
  }

  lemma W16Exact(x: int)
    ensures W16(x) == x <==> -0x8000 <= x < 0x8000
  {
  }

  lemma W16Wraps(x: int)
    ensures 0x8000 <= x < 0x1_8000 ==> W16(x) == x - 0x1_0000
  {
  }

  lemma FullCoolingBounds(p: Physics, u: Units, out: Pins8, temp: int)
    requires InRange(p) && p.ambient <= temp <= SENSOR_MAX
    ensures 0 <= Quot(temp - p.ambient, p.conduct) <= 45
    ensures 0 <= FullCooling(p, u, out, temp) <= 44045
    ensures FullCooling(p, u, out, temp) >= 0x8000 ==> out[FAN1] && !u.fan1Failed && out[FAN2] && !u.fan2Failed
  {
    QuotNatural(temp - p.ambient, p.conduct);
    QuotAtMost(temp - p.ambient, 5000, p.conduct);
  }

  lemma QuotAtMost(a: int, d: nat, b: nat)
    requires a >= 0 && 0 < d <= b
    ensures Quot(a, b) <= a / d
  {
    var q := a / b;
    assert q * b <= a;
    Mul(q, d, b);
    DivAtLeast(q, a, d);
  }

  lemma Mul(q: nat, d: nat, b: nat)
    requires d <= b
    ensures q * d <= q * b
  {
  }

  lemma DivAtLeast(q: nat, a: int, d: nat)
    requires d > 0 && q * d <= a
    ensures q <= a / d
  {
    if q > a / d {
      Mul(a / d + 1, d, d);
      Mul(d, a / d + 1, q);
    }
  }

  /** The sum is cut to 16 bits as a whole, whatever is cut before. */
  lemma CoolingIs(p: Physics, u: Units, out: Pins8, temp: int)
    requires InRange(p) && p.ambient <= temp <= SENSOR_MAX
    ensures Cooling(p, u, out, temp) == W16(FullCooling(p, u, out, temp))
  {
    var fan1 := if out[FAN1] && !u.fan1Failed then p.power * 3 / 2 else 0;
    var fan2 := if out[FAN2] && !u.fan2Failed then p.power * 4 else 0;
    W16Exact(fan1);
    W16Sum(fan1 + fan2, Quot(temp - p.ambient, p.conduct));
  }

  lemma W16Sum(a: int, b: int)
    ensures W16(W16(a) + b) == W16(a + b)
  {
  }

  lemma QuotSign(a: int, b: nat)
    requires b > 0
    ensures a <= 0 ==> Quot(a, b) <= 0
    ensures a >= b ==> Quot(a, b) >= 1
  {
    if a >= b {
      DivAtLeast(1, a, b);
    }
  }

  /** A chip that nothing heats does not get warmer, exactly when it is not below an ambient temperature just
      raised and its cooling is at most 2^15 or the sensor at its limit: one more and the 16-bit sum of the
      cooling is taken for heat. */
  lemma CoolsUnheated(p: Physics, u: Units, out: Pins8, temp: int)
    requires InRange(p) && temp <= SENSOR_MAX
    requires u.heaterFailed || !(out[HEATER] || u.fan1Failed)
    ensures NextTemp(p, u, out, temp) <= temp <==>
            p.ambient <= temp && (FullCooling(p, u, out, temp) <= 0x8000 || temp == SENSOR_MAX)
  {
    if temp >= p.ambient {
      CoolsAbove(p, u, out, temp);
    }
  }

  lemma CoolsAbove(p: Physics, u: Units, out: Pins8, temp: int)
    requires InRange(p) && p.ambient <= temp <= SENSOR_MAX
    requires u.heaterFailed || !(out[HEATER] || u.fan1Failed)
    ensures NextTemp(p, u, out, temp) <= temp <==> FullCooling(p, u, out, temp) <= 0x8000 || temp == SENSOR_MAX
  {
    var f := FullCooling(p, u, out, temp);
    FullCoolingBounds(p, u, out, temp);
    CoolingIs(p, u, out, temp);
    if f < 0x8000 {
      W16Exact(f);
      W16Exact(-f);
      QuotSign(-f, p.mass);
    } else {
      W16Wraps(f);
      W16Exact(0x1_0000 - f);
      W16Wraps(0x1_0000 - f);
      QuotSign(W16(0x1_0000 - f), p.mass);
    }
  }

  /** Only both fans together can do that, and only with a heater power near its maximum. */
  lemma WrapsWithBothFans(p: Physics, u: Units, out: Pins8, temp: int)
    requires InRange(p) && p.ambient <= temp <= SENSOR_MAX
    ensures FullCooling(p, u, out, temp) > 0x8000 <==>
            && out[FAN1] && !u.fan1Failed && out[FAN2] && !u.fan2Failed
            && p.power * 3 / 2 + p.power * 4 + Quot(temp - p.ambient, p.conduct) > 0x8000
  {
    FullCoolingBounds(p, u, out, temp);
  }

  /** With both fans off the heater does not let the chip cool. */
  lemma HeaterWarms(p: Physics, u: Units, out: Pins8, temp: int)
    requires InRange(p) && temp <= SENSOR_MAX
    requires out[HEATER] && !u.heaterFailed && !out[FAN1] && !out[FAN2]
    ensures NextTemp(p, u, out, temp) >= temp
  {
    if temp >= p.ambient {
      HeaterAbove(p, u, out, temp);
    }
  }

  lemma HeaterAbove(p: Physics, u: Units, out: Pins8, temp: int)
    requires InRange(p) && p.ambient <= temp <= SENSOR_MAX
    requires out[HEATER] && !u.heaterFailed && !out[FAN1] && !out[FAN2]
    ensures NextTemp(p, u, out, temp) >= temp
  {
    FullCoolingBounds(p, u, out, temp);
    CoolingIs(p, u, out, temp);
    W16Exact(FullCooling(p, u, out, temp));
    W16Exact(p.power);
    W16Exact(p.power - FullCooling(p, u, out, temp));
    QuotNatural(p.power - FullCooling(p, u, out, temp), p.mass);
  }

  /** In normal operation the heater is on below the lower threshold, off from the target on, and as it was
      meant to be in between; Fan 1 runs more than three degrees above the target. */
  lemma NormalMeans(s: State)
    requires !s.st.critical && !s.st.cooldown && !IsAlarm(s.regs) && Reading(s.regs) <= s.config.ctl.critical
    ensures var t, temp, r := s.config.ctl, Reading(s.regs), Cycle(s);
            && !r.st.critical && !r.st.cooldown
            && (temp < t.target - t.hysteresis ==> r.st.heating)
            && (temp >= t.target && temp >= t.target - t.hysteresis ==> !r.st.heating)
            && (t.target - t.hysteresis <= temp < t.target ==> r.st.heating == s.st.heating)
            && r.regs.out[HEATER] == (r.st.heating && !s.units.heaterFailed)
            && r.regs.out[FAN1] == (!r.regs.out[HEATER] && temp > t.target + 3 && !s.units.fan1Failed)
            && r.regs.out[FAN2] == s.regs.out[FAN2]
  {
  }

  // ---- One control cycle ----

  /** The alarm pin, or the latched alarm interrupt. */
  predicate AlarmSeen(r: Regs) {
    r.alarm || r.intSts[8]
  }

  /** An emergency goes on exactly while there is one, or the reading is above the critical temperature, and the
      reading is not below the cooldown temperature; safety cooling likewise after an alarm, and it is not looked
      at in an emergency. So cooling ends exactly with a reading below the cooldown temperature. */
  lemma CoolingWhen(s: State)
    ensures var t, temp, r := s.config.ctl, Reading(s.regs), Cycle(s).st;
            && (r.critical <==> temp >= t.cooldown && (s.st.critical || temp > t.critical))
            && (r.cooldown <==> if r.critical then s.st.cooldown
                                else temp >= t.cooldown && (s.st.cooldown || AlarmSeen(s.regs)))
            && (r.critical || r.cooldown <==>
                temp >= t.cooldown && (s.st.critical || temp > t.critical || s.st.cooldown || AlarmSeen(s.regs)))
  {
  }

  /** The pins from `from` on are the same. */
  predicate SamePins(a: Regs, b: Regs, from: nat) {
    forall k :: from <= k < 8 ==> a.out[k] == b.out[k]
  }

  /** What the emergency stage does to the outputs and what it leaves alone. */
  lemma EmergencyIs(t: Thresholds, s: State, temp: int)
    ensures var r := Emergency(t, s, temp);
            && r == s.(st := s.st.(critical := r.st.critical), regs := s.regs.(out := r.regs.out))
            && r.st.critical == (temp >= t.cooldown && (s.st.critical || temp > t.critical))
            && r.regs.out[0] == (s.regs.out[0] && (s.st.critical || temp <= t.critical))
            && r.regs.out[1] == s.regs.out[1] && SamePins(r.regs, s.regs, 3)
            && r.regs.out[2] == (if r.st.critical then s.regs.out[2] || !s.st.critical
                                 else s.regs.out[2] && !s.st.critical && temp <= t.critical)
  {
  }

  lemma SafetyCools(t: Thresholds, s: State, temp: int)
    requires temp >= t.cooldown && (s.st.cooldown || AlarmSeen(s.regs))
    ensures var r := Safety(t, s, temp);
            && r == s.(st := s.st.(cooldown := true), regs := s.regs.(out := r.regs.out))
            && !r.regs.out[0] && r.regs.out[1] == (s.regs.out[1] || !s.units.fan1Failed)
            && SamePins(r.regs, s.regs, 2)
  {
  }

  lemma SafetyEnds(t: Thresholds, s: State, temp: int)
    requires temp < t.cooldown && (s.st.cooldown || AlarmSeen(s.regs))
    ensures var r := Safety(t, s, temp);
            && r == s.(st := s.st.(cooldown := false, maxTemp := temp, heating := r.st.heating),
                       regs := s.regs.(out := r.regs.out, intSts := NO_PINS16))
            && r.st.heating == (s.st.heating || temp < t.target - t.hysteresis)
            && r.regs.out[0] == s.regs.out[0] && SamePins(r.regs, s.regs, 2)
  {
  }

  lemma SafetyIdle(t: Thresholds, s: State, temp: int)
    requires !(s.st.cooldown || AlarmSeen(s.regs))
    ensures Safety(t, s, temp) == s
  {
  }

  lemma NormalIs(t: Thresholds, s: State, temp: int)
    ensures var r := Normal(t, s, temp);
            && r == s.(st := s.st.(heating := r.st.heating), regs := s.regs.(out := r.regs.out))
            && r.st.heating == (if temp < t.target - t.hysteresis then true
                                else if temp >= t.target then false else s.st.heating)
            && r.regs.out[0] == (r.st.heating && !s.units.heaterFailed)
            && r.regs.out[1] == (!r.regs.out[0] && temp > t.target + 3 && !s.units.fan1Failed)
            && SamePins(r.regs, s.regs, 2)
  {
  }

  /** The outputs in an emergency: when it begins the heater goes off and Fan 2 on, and then they stay. */
  lemma EmergencyOutputs(s: State)
    requires Cycle(s).st.critical
    ensures var r := Cycle(s);
            && r.regs.out[0] == (s.regs.out[0] && s.st.critical)
            && r.regs.out[1] == s.regs.out[1]
            && r.regs.out[2] == (s.regs.out[2] || !s.st.critical) && SamePins(r.regs, s.regs, 3)
            && r.regs.intSts == s.regs.intSts && r.st.heating == s.st.heating
            && r.st.maxTemp == if Reading(s.regs) > s.st.maxTemp then Reading(s.regs) else s.st.maxTemp
  {
    EmergencyIs(s.config.ctl, s.(st := Noted(s.st, Reading(s.regs))), Reading(s.regs));
  }

  /** The outputs in safety cooling: the heater off, Fan 1 on unless it has failed, and Fan 2 as it was, since no
      emergency can end at a reading that high. The latched alarm stays. */
  lemma SafetyOutputs(s: State)
    requires !Cycle(s).st.critical && Cycle(s).st.cooldown
    ensures var r := Cycle(s);
            && !r.regs.out[0]
            && r.regs.out[1] == (s.regs.out[1] || !s.units.fan1Failed)
            && r.regs.out[2] == s.regs.out[2] && SamePins(r.regs, s.regs, 3)
            && r.regs.intSts == s.regs.intSts && r.st.heating == s.st.heating
            && r.st.maxTemp == if Reading(s.regs) > s.st.maxTemp then Reading(s.regs) else s.st.maxTemp
  {
    CoolingWhen(s);
    var t, temp, s0 := s.config.ctl, Reading(s.regs), s.(st := Noted(s.st, Reading(s.regs)));
    EmergencyIs(t, s0, temp);
    SafetyCools(t, Emergency(t, s0, temp), temp);
  }

  /** A cycle after which nothing is cooling, whether it was or not: when it ends safety cooling or meets an alarm
      the interrupts are cleared and the highest reading starts over; Fan 2 goes off when an emergency ends. The
      heater is on below the lower threshold, off from the target on and as meant in between, and not when it has
      failed; Fan 1 is on more than three degrees above the target when the heater is off and it has not failed. */
  lemma NormalOutputs(s: State)
    requires !Cycle(s).st.critical && !Cycle(s).st.cooldown
    ensures var t, temp, r := s.config.ctl, Reading(s.regs), Cycle(s);
            var ends := s.st.cooldown || AlarmSeen(s.regs);
            && r.regs.intSts == (if ends then NO_PINS16 else s.regs.intSts)
            && r.st.maxTemp == (if ends || temp > s.st.maxTemp then temp else s.st.maxTemp)
            && r.st.heating == (if temp < t.target - t.hysteresis then true
                                else if temp >= t.target then false else s.st.heating)
            && r.regs.out[0] == (r.st.heating && !s.units.heaterFailed)
            && r.regs.out[1] == (!r.regs.out[0] && temp > t.target + 3 && !s.units.fan1Failed)
            && r.regs.out[2] == (s.regs.out[2] && !s.st.critical && temp <= t.critical)
            && SamePins(r.regs, s.regs, 3)
  {
    CoolingWhen(s);
    var t, temp, s0 := s.config.ctl, Reading(s.regs), s.(st := Noted(s.st, Reading(s.regs)));
    EmergencyIs(t, s0, temp);
    var s1 := Emergency(t, s0, temp);
    if s.st.cooldown || AlarmSeen(s.regs) {
      SafetyEnds(t, s1, temp);
    } else {
      SafetyIdle(t, s1, temp);
    }
    NormalIs(t, Safety(t, s1, temp), temp);
  }

  /** Only these change from `a` to `b`: what the controller remembers, the outputs and the latched interrupts. */
  predicate OnlyControls(a: State, b: State) {
    b == a.(st := b.st, regs := a.regs.(out := b.regs.out, intSts := b.regs.intSts)) && b.st.window == a.st.window
  }

  lemma SafetyKeeps(t: Thresholds, s: State, temp: int)
    ensures OnlyControls(s, Safety(t, s, temp))
  {
    if !(s.st.cooldown || AlarmSeen(s.regs)) {
      SafetyIdle(t, s, temp);
    } else if temp < t.cooldown {
      SafetyEnds(t, s, temp);
    } else {
      SafetyCools(t, s, temp);
    }
  }

  lemma NormalKeeps(t: Thresholds, s: State, temp: int)
    ensures OnlyControls(s, Normal(t, s, temp))
  {
  }

  lemma EmergencyKeeps(t: Thresholds, s: State, temp: int)
    ensures OnlyControls(s, Emergency(t, s, temp))
  {
  }

  lemma RegulatedKeeps(s: State)
    ensures OnlyControls(s.(st := Noted(s.st, Reading(s.regs))), Regulated(s))
  {
    var t, temp, s0 := s.config.ctl, Reading(s.regs), s.(st := Noted(s.st, Reading(s.regs)));
    EmergencyKeeps(t, s0, temp);
    var s1 := Emergency(t, s0, temp);
    SafetyKeeps(t, s1, temp);
    NormalKeeps(t, Safety(t, s1, temp), temp);
  }

  /** Whatever it does to the outputs, a cycle feeds the watchdog, counts itself and leaves the rest alone. */
  lemma CycleKeepsRest(s: State)
    ensures var r := Cycle(s);
            && r == s.(st := r.st, regs := r.regs)
            && r.st.window == (s.st.window + 1) % 0x1_0000_0000
            && r.regs.timer == (if s.regs.wdtEn then s.regs.reload else s.regs.timer)
            && r.regs == s.regs.(out := r.regs.out, intSts := r.regs.intSts, timer := r.regs.timer)
  {
    RegulatedKeeps(s);
  }

  /** `q` is `a` divided by `b` with the fraction dropped, towards zero. */
  predicate Truncated(a: int, b: nat, q: int) {
    if a >= 0 then b * q <= a < b * (q + 1) else b * (q - 1) < a <= b * q && q <= 0
  }

  lemma QuotTruncates(a: int, b: nat)
    requires b > 0
    ensures Truncated(a, b, Quot(a, b))
  {
    var q := (if a >= 0 then a else -a) / b;
    Distributes(b, q);
  }

  lemma Distributes(b: int, q: int)
    ensures b * (q + 1) == b * q + b
    ensures b * (-q) == -(b * q) && b * (-q - 1) == -(b * q) - b
  {
  }

  /** The energy balance of a tick. A heater that has not failed heats with its power when it is on, and also while
      Fan 1 has failed; Fan 1 takes one and a half times that power and Fan 2 four times; the board takes a degree
      difference over its conductance. The balance is what is left, brought into 16 bits, and the temperature moves
      by the balance over the mass, within the ambient temperature and the sensor's limit. */
  lemma EnergyBalance(s: State) returns (passive: int, balance: int, change: int)
    requires InRange(s.config.phy) && s.config.phy.ambient <= s.temp <= SENSOR_MAX
    ensures var p, r := s.config.phy, Ticked(s).state;
            var heat := if (s.regs.out[0] || r.units.fan1Failed) && !r.units.heaterFailed then p.power else 0;
            var fan1 := if s.regs.out[1] && !r.units.fan1Failed then p.power + p.power / 2 else 0;
            var fan2 := if s.regs.out[2] && !r.units.fan2Failed then 4 * p.power else 0;
            && Truncated(s.temp - p.ambient, p.conduct, passive)
            && balance == heat - fan1 - fan2 - passive
                          + (if fan1 + fan2 + passive - heat > 0x8000 then 0x1_0000 else 0)
            && Truncated(balance, p.mass, change)
            && r.temp == if s.temp + change < p.ambient then p.ambient
                         else if s.temp + change > 215000 then 215000 else s.temp + change
  {
    var p, u, out := s.config.phy, Moved(s).units, s.regs.out;
    passive := Quot(s.temp - p.ambient, p.conduct);
    var heat := if (out[0] || u.fan1Failed) && !u.heaterFailed then p.power else 0;
    balance := Balanced(p, u, out, s.temp, heat);
    change := Quot(balance, p.mass);
    QuotTruncates(s.temp - p.ambient, p.conduct);
    QuotTruncates(balance, p.mass);
    TickMoves(s);
  }

  lemma TickMoves(s: State)
    ensures Ticked(s).state.temp == NextTemp(s.config.phy, Moved(s).units, s.regs.out, s.temp)
    ensures Ticked(s).state.units == Moved(s).units
  {
  }

  /** Bringing the heat, the cooling and their difference into 16 bits is bringing the whole sum there. */
  lemma Balanced(p: Physics, u: Units, out: Pins8, temp: int, heat: int) returns (balance: int)
    requires InRange(p) && p.ambient <= temp <= SENSOR_MAX
    requires heat == if (out[0] || u.fan1Failed) && !u.heaterFailed then p.power else 0
    ensures var fan1 := if out[1] && !u.fan1Failed then p.power + p.power / 2 else 0;
            var fan2 := if out[2] && !u.fan2Failed then 4 * p.power else 0;
            var passive := Quot(temp - p.ambient, p.conduct);
            balance == heat - fan1 - fan2 - passive
                       + (if fan1 + fan2 + passive - heat > 0x8000 then 0x1_0000 else 0)
    ensures NextTemp(p, u, out, temp) == Limited(temp + Quot(balance, p.mass), p.ambient)
  {
    var f := FullCooling(p, u, out, temp);
    FullCoolingBounds(p, u, out, temp);
    CoolingIs(p, u, out, temp);
    W16Exact(p.power);
    W16Minus(heat, f);
    W16Of(heat - f);
    balance := W16(heat - f);
  }

  lemma W16Minus(a: int, b: int)
    ensures W16(a - W16(b)) == W16(a - b)
  {
  }

  lemma W16Of(x: int)
    requires -0x1_8000 <= x < 0x8000
    ensures W16(x) == x + (if x < -0x8000 then 0x1_0000 else 0)
  {
  }

  /** Fan 1 fails or recovers, in a tick, exactly when the counter then reaches the latency and the number of
      control cycles is a positive multiple of 1024; the other two never fail by themselves. */
  lemma TickUnits(s: State)
    ensures var u := Ticked(s).state.units;
            && (u.fan1Failed != s.units.fan1Failed <==>
                && (s.ms + 1) % 0x1_0000_0000 == s.config.phy.latency
                && s.st.window > 0 && s.st.window % 1024 == 0)
            && u.heaterFailed == s.units.heaterFailed && u.fan2Failed == s.units.fan2Failed
  {
  }

  /** A tick latches an alarm exactly when it is then hot, the interrupt is enabled and it is not pending; the input
      bit goes up with it and down when it is no longer hot. The tick notifies the control task when it latches one,
      which puts the next reading off if half the latency is over, and when the latency is over. */
  lemma TickAlarm(s: State)
    requires s.ms < MAX_LATENCY
    ensures var t, r, latency := s.config.ctl, Ticked(s), s.config.phy.latency;
            var hot := r.state.temp >= 1000 * (t.target + t.hysteresis + 10);
            var latches := hot && s.regs.intEn[8] && !s.regs.intSts[8];
            && (forall k :: 0 <= k < 16 ==> r.state.regs.intSts[k] == (s.regs.intSts[k] || (k == 8 && latches)))
            && r.state.regs.alarm == (hot && (latches || s.regs.alarm))
            && r.notified == (latches || s.ms + 1 >= latency)
            && r.state.ms == if s.ms + 1 < latency && (latches ==> s.ms + 1 <= latency / 2)
                             then s.ms + 1 else 0
  {
  }

  /** An enabled watchdog counts down, and at zero it forces the outputs: only Fan 1 is on. */
  lemma TickWatchdog(s: State)
    ensures var r := Ticked(s).state.regs;
            && r.timer == (if s.regs.wdtEn && s.regs.timer > 0 then s.regs.timer - 1 else s.regs.timer)
            && (forall k :: 0 <= k < 8 ==>
                  r.out[k] == if s.regs.wdtEn && s.regs.timer == 0 then k == 1 else s.regs.out[k])
  {
  }

  /** A tick leaves the configuration, the controller's memory and the other registers alone. */
  lemma TickKeepsRest(s: State)
    ensures var r := Ticked(s).state;
            && r.config == s.config && r.st == s.st
            && r.regs == s.regs.(out := r.regs.out, timer := r.regs.timer, alarm := r.regs.alarm,
                                 intSts := r.regs.intSts, pinIn := r.regs.pinIn)
  {
  }

  /** The start of the control task leaves all pins inputs, the alarm's interrupt as the only one enabled, none
      pending and the watchdog running with 150 ticks; outputs, inputs and the rest stay. */
  lemma ControlIs(s: State)
    ensures var r := ControlStarted(s);
            && r == s.(regs := r.regs)
            && (forall k :: 0 <= k < 8 ==> !r.regs.dir[k])
            && (forall k :: 0 <= k < 16 ==> !r.regs.intSts[k] && (r.regs.intEn[k] <==> k == 8))
            && r.regs.wdtEn && r.regs.prescale == 0 && r.regs.reload == 150 && r.regs.timer == 150
            && r.regs.out == s.regs.out && r.regs.pinIn == s.regs.pinIn && r.regs.alarm == s.regs.alarm
  {
  }

  /** The simulation starts calm and with no failed unit, at the ambient temperature as set before the defaults are
      filled in, which is 0 when none was set; stopping it does the same to a running one, at the present ambient
      temperature, and the registers stay. */
  lemma StartAndStop(c: Config, s: State)
    ensures var r := Begun(c, s.regs);
            && r.regs == s.regs && r.ms == 0 && r.temp == c.phy.ambient
            && !r.units.heaterFailed && !r.units.fan1Failed && !r.units.fan2Failed
            && !r.st.heating && !r.st.cooldown && !r.st.critical && r.st.window == 0 && r.st.maxTemp == -40
    ensures var r := Suspended(s);
            && r == s.(units := r.units, st := r.st, temp := s.config.phy.ambient)
            && r.units == Begun(c, s.regs).units && r.st == Begun(c, s.regs).st
  {
  }

  /** The counter: after a tick it is below the latency, and it goes back to zero only in a tick that
      notifies the control task. */
  lemma TickCounter(s: State)
    requires InRange(s.config.phy) && s.ms < MAX_LATENCY
    ensures var t := Ticked(s);
            && t.state.ms < s.config.phy.latency <= MAX_LATENCY
            && (!t.notified ==> t.state.ms == s.ms + 1)
            && (t.state.ms == s.ms + 1 || (t.state.ms == 0 && t.notified))
  {
  }
}
