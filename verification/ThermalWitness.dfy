/**
 * A run of the thermal simulation, every notification served before the next tick, on which Fan 1 fails, the
 * chip runs away, Fan 2 starts, Fan 1 recovers, and both fans together heat the chip.
 */
module ThermalWitness {
  import opened Gpio
  import opened SimConfig
  import opened Thermal
  import opened ThermalRuns

  // ---- Packets and the schedule ----

  // Mass 200, conductance 15000, power 8000
  const PHYSICS: Packet := [28, 0, 200, 0, 152, 58, 64, 31]

  // Latency 5, target 150, critical 160, cooldown 30, hysteresis 2, ambient 40 degrees
  const LIMITS: Packet := [126, 5, 150, 160, 30, 2, 40, 0]

  // Target 50; the first packet is skipped
  const LOW_TARGET: Packet := [4, 0, 50, 0, 0, 0, 0, 0]

  const SETTINGS: seq<Event> := [Packets([PHYSICS, LIMITS])]

  const PARAMETERS := Physics(10, 200, 15000, 8000, 5, 40000)

  /** `n` ticks, each followed by the control cycle if the tick gave notice. */
  function Beats(n: nat): seq<Action> {
    if n == 0 then [] else Beats(n - 1) + [TickStep, Serve]
  }

  function Beat(x: System): System {
    ThermalRuns.Next(ThermalRuns.Next(x, TickStep), Serve)
  }

  lemma {:induction false} RunAppend(x: System, a: seq<Action>, b: seq<Action>)
    ensures ThermalRuns.Run(x, a + b) == ThermalRuns.Run(ThermalRuns.Run(x, a), b)
    ensures AllInTime(x, a + b) <==> AllInTime(x, a) && AllInTime(ThermalRuns.Run(x, a), b)
  {
    if b == [] {
      assert a + b == a;
    } else {
      assert (a + b)[..|a + b| - 1] == a + b[..|b| - 1];
      RunAppend(x, a, b[..|b| - 1]);
    }
  }

  lemma RunOne(x: System, a: Action)
    ensures ThermalRuns.Run(x, [a]) == ThermalRuns.Next(x, a)
    ensures AllInTime(x, [a]) <==> InTime(x, a)
  {
    assert [a][..0] == [];
  }

  lemma RunBeat(x: System)
    requires !x.pending
    ensures ThermalRuns.Run(x, [TickStep, Serve]) == Beat(x) && AllInTime(x, [TickStep, Serve])
  {
    RunOne(x, TickStep);
    RunOne(ThermalRuns.Next(x, TickStep), Serve);
    RunAppend(x, [TickStep], [Serve]);
    assert [TickStep] + [Serve] == [TickStep, Serve];
  }

  lemma MoreBeats(x: System, n: nat)
    requires n > 0 && !ThermalRuns.Run(x, Beats(n - 1)).pending && AllInTime(x, Beats(n - 1))
    ensures ThermalRuns.Run(x, Beats(n)) == Beat(ThermalRuns.Run(x, Beats(n - 1))) && AllInTime(x, Beats(n))
  {
    RunBeat(ThermalRuns.Run(x, Beats(n - 1)));
    RunAppend(x, Beats(n - 1), [TickStep, Serve]);
  }

  /** Beat `k` hands `inv` on from `y`, and finds nothing waiting. */
  ghost predicate HandsOn(inv: (System, nat) -> bool, y: System, k: nat) {
    inv(y, k) ==> !y.pending && inv(Beat(y), k + 1)
  }

  /** What every beat up to the `n`-th hands on holds after `n` of them. */
  lemma {:induction false} BeatsKeep(x: System, n: nat, inv: (System, nat) -> bool)
    requires inv(x, 0)
    requires forall y, k: nat :: k < n ==> HandsOn(inv, y, k)
    ensures inv(ThermalRuns.Run(x, Beats(n)), n) && AllInTime(x, Beats(n))
    decreases n
  {
    if n > 0 {
      BeatsKeep(x, n - 1, inv);
      assert HandsOn(inv, ThermalRuns.Run(x, Beats(n - 1)), n - 1);
      MoreBeats(x, n);
    }
  }

  // ---- A tick without a new alarm ----

  predicate Setup(s: State, target: nat) {
    && s.config.phy == PARAMETERS && s.config.ctl == Thresholds(target, 160, 30, 2) && AllSet(s.config.phySet)
    && !s.units.heaterFailed && !s.units.fan2Failed
    && s.regs.wdtEn && s.regs.reload == RELOAD && s.regs.intEn[ALARM]
    && s.ms < 5 && 40000 <= s.temp <= SENSOR_MAX
  }

  predicate AllSet(p: PhysicsSet) {
    p.ready && p.mass && p.conduct
  }

  /** Between two beats: nothing waits, and the watchdog was fed when the tick counter was last zero. */
  predicate Settled(x: System) {
    x.ready && !x.pending && x.s.regs.timer >= RELOAD - x.s.ms
  }

  /** What a tick that raises no alarm leaves alone. */
  predicate SameSetting(s: State, t: State) {
    && t.config == s.config && t.st == s.st && t.regs.out == s.regs.out && t.regs.intSts == s.regs.intSts
    && t.regs.intEn == s.regs.intEn && t.regs.wdtEn == s.regs.wdtEn && t.regs.reload == s.regs.reload
  }

  lemma QuietTick(s: State, target: nat)
    requires Setup(s, target) && !Alarms(Moved(s)) && s.regs.timer > 0
    ensures var t, u := Ticked(s).state, UnitsAt(s.units, s.ms + 1, 5, s.st.window);
            && SameSetting(s, t) && t.units == u && t.temp == NextTemp(PARAMETERS, u, s.regs.out, s.temp)
            && Ticked(s).notified == (s.ms == 4) && t.ms == (if s.ms == 4 then 0 else s.ms + 1)
            && t.regs.timer == s.regs.timer - 1
    ensures Reading(Ticked(s).state.regs) == Ticked(s).state.temp / 1000
    ensures !Hot(Moved(s)) || !s.regs.alarm ==> !Ticked(s).state.regs.alarm
    ensures 40000 <= Ticked(s).state.temp <= SENSOR_MAX
  {
    TickReading(s);
  }

  // ---- The temperature in a tick ----

  lemma Passive(temp: int)
    requires 40000 <= temp <= 170000
    ensures 0 <= Quot(temp - 40000, 15000) <= 8
  {
  }

  /** Heated and not cooled by a fan. */
  lemma Warms(u: Units, out: Pins8, temp: int)
    requires 40000 <= temp <= 170000 && !u.heaterFailed && (out[HEATER] || u.fan1Failed)
    requires !(out[FAN1] && !u.fan1Failed) && !out[FAN2]
    ensures temp + 39 <= NextTemp(PARAMETERS, u, out, temp) <= temp + 40
  {
    Passive(temp);
    var q := Quot(temp - 40000, 15000);
    W16Exact(q);
    W16Exact(8000);
    W16Exact(8000 - q);
    assert Quot(8000 - q, 200) == (8000 - q) / 200;
  }

  /** Heated because Fan 1 has failed, and cooled by Fan 2. */
  lemma EmergencyCools(u: Units, out: Pins8, temp: int)
    requires 40000 <= temp <= 170000 && !u.heaterFailed && u.fan1Failed && out[FAN2] && !u.fan2Failed
    ensures NextTemp(PARAMETERS, u, out, temp) <= temp
  {
    Passive(temp);
    var q := Quot(temp - 40000, 15000);
    CoolingIs(PARAMETERS, u, out, temp);
    assert FullCooling(PARAMETERS, u, out, temp) == 32000 + q;
    W16Exact(32000 + q);
    W16Exact(8000);
    W16Exact(-24000 - q);
    QuotSign(-24000 - q, 200);
  }

  // ---- Warming up ----

  /** Ticks since the first one, while no cycle is missed. */
  function Beaten(s: State): nat {
    5 * s.st.window + s.ms
  }

  /** Warmed for `n` ticks. */
  predicate WarmedFor(temp: int, n: int) {
    40000 + 39 * n <= temp <= 40000 + 40 * n
  }

  predicate Warming(s: State) {
    && Setup(s, 150) && !s.st.critical && !s.st.cooldown && !s.units.fan1Failed && !IsAlarm(s.regs)
    && !s.regs.out[FAN1] && !s.regs.out[FAN2] && Beaten(s) <= 605
    && (if s.st.window == 0 then !s.regs.out[HEATER] && s.temp == 40000
        else s.regs.out[HEATER] && s.st.heating && WarmedFor(s.temp, Beaten(s) - 5))
  }

  lemma WarmTick(s: State)
    requires Warming(s) && Beaten(s) < 605 && s.regs.timer > 0
    ensures var t := Ticked(s).state;
            && SameSetting(s, t) && t.units == s.units && !t.regs.alarm
            && Ticked(s).notified == (s.ms == 4) && t.ms == (if s.ms == 4 then 0 else s.ms + 1)
            && t.regs.timer == s.regs.timer - 1
            && Reading(t.regs) == t.temp / 1000
            && (if s.st.window == 0 then t.temp == 40000 else WarmedFor(t.temp, Beaten(s) - 4))
  {
    assert UnitsAt(s.units, s.ms + 1, 5, s.st.window) == s.units;
    if s.st.window == 0 {
      Idles(s.units, s.regs.out);
    } else {
      Warms(s.units, s.regs.out, s.temp);
    }
    assert !Hot(Moved(s));
    QuietTick(s, 150);
  }

  lemma Idles(u: Units, out: Pins8)
    requires !u.fan1Failed && !out[HEATER] && !out[FAN1] && !out[FAN2]
    ensures NextTemp(PARAMETERS, u, out, 40000) == 40000
  {
    W16Exact(0);
  }

  lemma WarmCycle(s: State)
    requires Setup(s, 150) && !s.st.critical && !s.st.cooldown && !IsAlarm(s.regs) && !s.regs.out[FAN2]
    requires Reading(s.regs) < 148 && s.st.window < 1000
    ensures var r := Cycle(s);
            && Setup(r, 150) && r.regs.timer == RELOAD && r.units == s.units
            && !r.st.critical && !r.st.cooldown && !IsAlarm(r.regs)
            && r.ms == s.ms && r.temp == s.temp && r.st.window == s.st.window + 1
            && r.st.heating && r.regs.out[HEATER] && !r.regs.out[FAN1] && !r.regs.out[FAN2]
  {
  }

  predicate WarmAt(x: System) {
    Settled(x) && Warming(x.s)
  }

  lemma WarmBeat(x: System)
    requires WarmAt(x) && Beaten(x.s) < 605
    ensures WarmAt(Beat(x)) && Beaten(Beat(x).s) == Beaten(x.s) + 1
  {
    WarmTick(x.s);
    if x.s.ms == 4 {
      WarmCycle(Ticked(x.s).state);
    }
  }

  lemma WarmBeats(x: System, n: nat)
    requires WarmAt(x) && Beaten(x.s) + n <= 605
    ensures WarmAt(ThermalRuns.Run(x, Beats(n))) && AllInTime(x, Beats(n))
    ensures Beaten(ThermalRuns.Run(x, Beats(n)).s) == Beaten(x.s) + n
  {
    var inv := (y: System, k: nat) => WarmAt(y) && Beaten(y.s) == Beaten(x.s) + k;
    forall y, k: nat | k < n
      ensures HandsOn(inv, y, k)
    {
      if inv(y, k) {
        WarmBeat(y);
      }
    }
    BeatsKeep(x, n, inv);
  }

  // ---- The alarm ----

  /** The target has come down below a warm chip: the next tick raises the alarm, the cycle starts Fan 1. */
  lemma AlarmBeat(x: System, c: Config)
    requires WarmAt(x) && Beaten(x.s) == 605 && c.phy == x.s.config.phy && c.phySet == x.s.config.phySet
    requires c.ctl == Thresholds(50, 160, 30, 2)
    ensures var y := Beat(x.(s := x.s.(config := c))); CoolAt(y) && Beaten(y.s) == 611
  {
    var s := x.s.(config := c);
    Warms(s.units, s.regs.out, s.temp);
    assert Moved(s).units == s.units;
    AlarmTickOf(s);
    AlarmCycle(Ticked(s).state);
  }

  lemma AlarmTickOf(s: State)
    requires Setup(s, 50) && s.ms == 0 && Alarms(Moved(s)) && s.regs.timer > 0
    ensures var t := Ticked(s).state;
            && Ticked(s).notified && t.config == s.config && t.st == s.st && t.units == Moved(s).units
            && t.temp == Moved(s).temp && t.regs.out == s.regs.out
            && t.regs.intSts[ALARM] && t.regs.intEn == s.regs.intEn
            && t.regs.wdtEn && t.regs.reload == s.regs.reload && t.ms == 1 && Reading(t.regs) == t.temp / 1000
            && 40000 <= t.temp <= SENSOR_MAX
  {
    TickReading(s);
  }

  lemma AlarmCycle(s: State)
    requires Setup(s, 50) && !s.st.critical && !s.st.cooldown && s.regs.intSts[ALARM] && !s.units.fan1Failed
    requires !s.regs.out[FAN2] && 30 <= Reading(s.regs) <= 160 && s.st.window == 121
    ensures var r := Cycle(s);
            && InAlarm(r) && r.regs.timer == RELOAD && r.st.window == 122
            && r.ms == s.ms && r.temp == s.temp && r.units == s.units
            && !r.st.critical
  {
  }

  // ---- Safety cooling until Fan 1 fails, and the runaway after that ----

  predicate InAlarm(s: State) {
    && Setup(s, 50) && s.st.cooldown && s.regs.intSts[ALARM] && s.regs.out[FAN1] && !s.regs.out[HEATER]
    && (s.st.critical <==> s.regs.out[FAN2])
  }

  /** Where the temperature is after so many cycles: Fan 1 fails after 1024 of them. */
  predicate Level(s: State) {
    var w := s.st.window;
    && 122 <= w <= 2048
    && (if w <= 1024 then !s.units.fan1Failed && !s.st.critical && s.temp <= 66000
        else
          && s.units.fan1Failed
          && (if s.st.critical then s.temp <= 161200
              else 40000 + 39 * (Beaten(s) - 5125) <= s.temp <= 161000 + 40 * s.ms))
  }

  lemma AlarmTemp(s: State, u: Units)
    requires InAlarm(s) && Level(s) && u == UnitsAt(s.units, s.ms + 1, 5, s.st.window) && Beaten(s) < 10244
    ensures var t := NextTemp(PARAMETERS, u, s.regs.out, s.temp);
            if s.st.critical then t <= 161200
            else if s.st.window > 1024 then s.temp + 39 <= t <= s.temp + 40
            else t <= 66040
  {
    if s.st.critical {
      EmergencyCools(u, s.regs.out, s.temp);
    } else if u.fan1Failed {
      Warms(u, s.regs.out, s.temp);
    } else {
      CoolsUnheated(PARAMETERS, u, s.regs.out, s.temp);
      WrapsWithBothFans(PARAMETERS, u, s.regs.out, s.temp);
    }
  }

  lemma AlarmTick(s: State)
    requires InAlarm(s) && Level(s) && Beaten(s) < 10244 && s.regs.timer > 0
    ensures var t := Ticked(s).state;
            && SameSetting(s, t) && t.units == UnitsAt(s.units, s.ms + 1, 5, s.st.window)
            && Ticked(s).notified == (s.ms == 4) && t.ms == (if s.ms == 4 then 0 else s.ms + 1)
            && t.regs.timer == s.regs.timer - 1
            && Reading(t.regs) == t.temp / 1000 && 40000 <= t.temp
            && (if s.st.critical then t.temp <= 161200
                else if s.st.window > 1024 then s.temp + 39 <= t.temp <= s.temp + 40
                else t.temp <= 66040)
  {
    QuietTick(s, 50);
    AlarmTemp(s, UnitsAt(s.units, s.ms + 1, 5, s.st.window));
  }

  lemma FailedCycle(s: State)
    requires InAlarm(s) && Reading(s.regs) == s.temp / 1000 && s.st.window < 3000
    ensures var r := Cycle(s);
            && InAlarm(r) && r.regs.timer == RELOAD && r.st.window == s.st.window + 1
            && r.units == s.units && r.ms == s.ms && r.temp == s.temp
            && (r.st.critical <==> s.st.critical || s.temp >= 161000)
  {
  }

  predicate CoolAt(x: System) {
    Settled(x) && InAlarm(x.s) && Level(x.s)
  }

  lemma PlainBeat(x: System)
    requires CoolAt(x) && Beaten(x.s) < 10244 && x.s.ms < 4
    ensures CoolAt(Beat(x)) && Beaten(Beat(x).s) == Beaten(x.s) + 1
  {
    AlarmTick(x.s);
  }

  lemma ServedLevel(s: State, r: State)
    requires InAlarm(s) && Level(s) && Beaten(s) < 10244 && s.ms == 4 && s.regs.timer > 0
    requires r.st.window == s.st.window + 1 && r.ms == 0 && r.temp == Ticked(s).state.temp
    requires r.units == Ticked(s).state.units && (r.st.critical <==> s.st.critical || r.temp >= 161000)
    ensures Level(r)
  {
    AlarmTick(s);
  }

  lemma ServedBeat(x: System)
    requires CoolAt(x) && Beaten(x.s) < 10244 && x.s.ms == 4
    ensures CoolAt(Beat(x)) && Beaten(Beat(x).s) == Beaten(x.s) + 1
  {
    AlarmTick(x.s);
    FailedCycle(Ticked(x.s).state);
    ServedLevel(x.s, Beat(x).s);
  }

  lemma CoolBeat(x: System)
    requires CoolAt(x) && Beaten(x.s) < 10244
    ensures CoolAt(Beat(x)) && Beaten(Beat(x).s) == Beaten(x.s) + 1
  {
    if x.s.ms == 4 {
      ServedBeat(x);
    } else {
      PlainBeat(x);
    }
  }

  lemma CoolBeats(x: System, n: nat)
    requires CoolAt(x) && Beaten(x.s) + n <= 10244
    ensures CoolAt(ThermalRuns.Run(x, Beats(n))) && AllInTime(x, Beats(n))
    ensures Beaten(ThermalRuns.Run(x, Beats(n)).s) == Beaten(x.s) + n
  {
    var inv := (y: System, k: nat) => CoolAt(y) && Beaten(y.s) == Beaten(x.s) + k;
    forall y, k: nat | k < n
      ensures HandsOn(inv, y, k)
    {
      if inv(y, k) {
        CoolBeat(y);
      }
    }
    BeatsKeep(x, n, inv);
  }

  // ---- The run ----

  const TURNED_DOWN: seq<Packet> := [SKIPPED, LOW_TARGET]

  /** Start, warm up for 121 cycles, turn the target down, and go on for `n` ticks after the alarm. */
  function Overheating(n: nat): seq<Action> {
    [StartControl] + Beats(605) + [Configure(TURNED_DOWN)] + [TickStep, Serve] + Beats(n)
  }

  lemma Fields()
    ensures U16(PHYSICS, 1) == 200 && U16(PHYSICS, 2) == 15000 && U16(PHYSICS, 3) == 8000
    ensures Accepted(PHYSICS) == Request(false, true, true, true)
    ensures TargetOk(LIMITS) && CriticalOk(LIMITS) && CooldownOk(LIMITS) && HysteresisOk(LIMITS)
    ensures LatencyOk(LIMITS) && AmbientOk(LIMITS) && S16(LIMITS, 3) == 40
  {
  }

  lemma StartsWarm()
    ensures var x := ThermalRuns.Next(First(SETTINGS), StartControl); WarmAt(x) && Beaten(x.s) == 0
  {
    Fields();
    var c := SimConfig.Run(UNSET, SETTINGS);
    assert SETTINGS[..0] == [] && SimConfig.Run(UNSET, SETTINGS[..0]) == UNSET;
    assert c == SimConfig.Next(UNSET, Packets([PHYSICS, LIMITS]));
    assert c.phy == Physics(0, 200, 15000, 8000, 5, 40000);
    assert c.ctl == Thresholds(150, 160, 30, 2);
    assert Started(c).phy == PARAMETERS;
  }

  lemma TurnedDown(c: Config)
    requires c.phy == PARAMETERS && c.ctl == Thresholds(150, 160, 30, 2) && AllSet(c.phySet)
    ensures var d := SetCfg(c, TURNED_DOWN);
            d.phy == c.phy && d.phySet == c.phySet && d.ctl == Thresholds(50, 160, 30, 2)
  {
    var p := LOW_TARGET;
    assert TargetOk(p) && !CriticalOk(p) && !CooldownOk(p) && !HysteresisOk(p) && !LatencyOk(p) && !AmbientOk(p);
  }

  lemma RunAlarm(x: System)
    requires WarmAt(x) && Beaten(x.s) == 605
    ensures var y := ThermalRuns.Run(x, [Configure(TURNED_DOWN)] + [TickStep, Serve]);
            CoolAt(y) && Beaten(y.s) == 611
    ensures AllInTime(x, [Configure(TURNED_DOWN)] + [TickStep, Serve])
  {
    TurnedDown(x.s.config);
    AlarmBeat(x, SetCfg(x.s.config, TURNED_DOWN));
    RunOne(x, Configure(TURNED_DOWN));
    RunBeat(ThermalRuns.Next(x, Configure(TURNED_DOWN)));
    RunAppend(x, [Configure(TURNED_DOWN)], [TickStep, Serve]);
  }

  lemma RunThen(x: System, a: seq<Action>, b: seq<Action>, y: System)
    requires y == ThermalRuns.Run(x, a) && AllInTime(x, a) && AllInTime(y, b)
    ensures ThermalRuns.Run(x, a + b) == ThermalRuns.Run(y, b) && AllInTime(x, a + b)
  {
    RunAppend(x, a, b);
  }

  lemma UntilWarm(n: nat)
    requires n <= 605
    ensures var y := ThermalRuns.Run(First(SETTINGS), [StartControl] + Beats(n)); WarmAt(y) && Beaten(y.s) == n
    ensures AllInTime(First(SETTINGS), [StartControl] + Beats(n))
  {
    StartsWarm();
    RunOne(First(SETTINGS), StartControl);
    var x := ThermalRuns.Run(First(SETTINGS), [StartControl]);
    WarmBeats(x, n);
    RunThen(First(SETTINGS), [StartControl], Beats(n), x);
  }

  lemma UntilAlarm(x: System, acts: seq<Action>)
    requires var y := ThermalRuns.Run(x, acts); WarmAt(y) && Beaten(y.s) == 605
    requires AllInTime(x, acts)
    ensures var z := ThermalRuns.Run(x, acts + [Configure(TURNED_DOWN)] + [TickStep, Serve]);
            CoolAt(z) && Beaten(z.s) == 611
    ensures AllInTime(x, acts + [Configure(TURNED_DOWN)] + [TickStep, Serve])
  {
    var alarm := [Configure(TURNED_DOWN)] + [TickStep, Serve];
    RunAlarm(ThermalRuns.Run(x, acts));
    RunThen(x, acts, alarm, ThermalRuns.Run(x, acts));
    assert acts + alarm == acts + [Configure(TURNED_DOWN)] + [TickStep, Serve];
  }

  lemma UntilRecovery(x: System, acts: seq<Action>, n: nat)
    requires var y := ThermalRuns.Run(x, acts); CoolAt(y) && Beaten(y.s) + n <= 10244
    requires AllInTime(x, acts)
    ensures var y, z := ThermalRuns.Run(x, acts), ThermalRuns.Run(x, acts + Beats(n));
            CoolAt(z) && Beaten(z.s) == Beaten(y.s) + n
    ensures AllInTime(x, acts + Beats(n))
  {
    CoolBeats(ThermalRuns.Run(x, acts), n);
    RunThen(x, acts, Beats(n), ThermalRuns.Run(x, acts));
  }

  lemma OverheatingRun(n: nat)
    requires n <= 9633
    ensures var x := ThermalRuns.Run(First(SETTINGS), Overheating(n)); CoolAt(x) && Beaten(x.s) == 611 + n
    ensures AllInTime(First(SETTINGS), Overheating(n))
  {
    var acts := [StartControl] + Beats(605);
    UntilWarm(605);
    UntilAlarm(First(SETTINGS), acts);
    UntilRecovery(First(SETTINGS), acts + [Configure(TURNED_DOWN)] + [TickStep, Serve], n);
  }

  /** With every notification served in time, Fan 1 fails after 1024 cycles and recovers after 2048. From then
      on both fans run in the emergency with the heater off, and the chip gets warmer. */
  lemma FansHeat()
    ensures AllInTime(First(SETTINGS), Overheating(9633))
    ensures var s := ThermalRuns.Run(First(SETTINGS), Overheating(9633)).s;
            && s.st.critical && s.regs.out[FAN1] && s.regs.out[FAN2] && !s.regs.out[HEATER]
            && !Ticked(s).state.units.fan1Failed && Ticked(s).state.regs.out == s.regs.out
            && Ticked(s).state.temp > s.temp
  {
    OverheatingRun(9633);
    FanRecovers(ThermalRuns.Run(First(SETTINGS), Overheating(9633)));
  }

  lemma FanRecovers(x: System)
    requires CoolAt(x) && Beaten(x.s) == 10244
    ensures var s := x.s;
            && s.st.critical && s.regs.out[FAN1] && s.regs.out[FAN2] && !s.regs.out[HEATER]
            && !Ticked(s).state.units.fan1Failed && Ticked(s).state.regs.out == s.regs.out
            && Ticked(s).state.temp > s.temp
  {
    var s := x.s;
    var u := UnitsAt(s.units, 5, 5, s.st.window);
    assert s.st.window == 2048 && s.ms == 4;
    QuietTick(s, 50);
    CoolsUnheated(PARAMETERS, u, s.regs.out, s.temp);
    FullCoolingBounds(PARAMETERS, u, s.regs.out, s.temp);
    WrapsWithBothFans(PARAMETERS, u, s.regs.out, s.temp);
  }

  /** In that run a stop breaks the interlock. */
  lemma StopBreaksInterlock()
    ensures !Interlock(Suspended(ThermalRuns.Run(First(SETTINGS), Overheating(9633)).s))
  {
    FansHeat();
    InterlockHolds(SETTINGS, Overheating(9633));
    SuspendBreaksInterlock(ThermalRuns.Run(First(SETTINGS), Overheating(9633)).s);
  }
}
