/**
 * What holds over every run of the thermal simulation, from a start to the next stop, with control cycles,
 * ticks and configuration packets interleaved in any order.
 */
module ThermalRuns {
  import opened Gpio
  import opened SimConfig
  import opened Thermal

  /** The simulation, whether the control task has set up the GPIO block, and whether a notification waits. */
  datatype System = System(s: State, ready: bool, pending: bool)

  datatype Action = StartControl | TickStep | Serve | Configure(packets: seq<Packet>)

  /** The control task sleeps until a notification waits. */
  function Next(x: System, a: Action): System {
    match a
    case StartControl => if x.ready then x else x.(s := ControlStarted(x.s), ready := true)
    case TickStep =>
      var t := Ticked(x.s);
      x.(s := t.state, pending := x.pending || t.notified)
    case Serve => if x.ready && x.pending then x.(s := Cycle(x.s), pending := false) else x
    case Configure(packets) => if packets == [] then x else x.(s := x.s.(config := SetCfg(x.s.config, packets)))
  }

  function Run(x: System, acts: seq<Action>): System {
    if acts == [] then x else Next(Run(x, acts[..|acts| - 1]), acts[|acts| - 1])
  }

  /** The first start, after any packets. */
  function First(events: seq<Event>): System {
    System(Begun(SimConfig.Run(UNSET, events), RESET), false, false)
  }

  // ---- The interlock ----

  predicate Interlock(s: State) {
    var out := s.regs.out;
    && !(out[HEATER] && out[FAN1]) && !(out[HEATER] && out[FAN2])
    && (s.st.critical || s.st.cooldown ==> !out[HEATER])
    && (out[FAN2] ==> s.st.critical)
  }

  lemma EmergencyKeeps(t: Thresholds, s: State, temp: int)
    requires Interlock(s)
    ensures Interlock(Emergency(t, s, temp))
  {
  }

  lemma SafetyKeeps(t: Thresholds, s: State, temp: int)
    requires Interlock(s) && !s.st.critical
    ensures var r := Safety(t, s, temp);
            !r.st.critical && if r.st.cooldown then Interlock(r) else !r.regs.out[FAN2]
  {
  }

  lemma NormalKeeps(t: Thresholds, s: State, temp: int)
    requires !s.st.critical && !s.st.cooldown && !s.regs.out[FAN2]
    ensures Interlock(Normal(t, s, temp))
  {
  }

  lemma CycleKeeps(s: State)
    requires Interlock(s)
    ensures Interlock(Cycle(s))
  {
    var t, temp := s.config.ctl, Reading(s.regs);
    var s0 := s.(st := Noted(s.st, temp));
    EmergencyKeeps(t, s0, temp);
    var s1 := Emergency(t, s0, temp);
    if !s1.st.critical {
      SafetyKeeps(t, s1, temp);
      var s2 := Safety(t, s1, temp);
      if !s2.st.cooldown {
        NormalKeeps(t, s2, temp);
      }
    }
  }

  lemma TickKeeps(s: State)
    requires Interlock(s)
    ensures Interlock(Ticked(s).state)
  {
  }

  // ---- Parameters and the tick counter ----

  predicate Sound(x: System) {
    SimConfig.Inv(x.s.config) && x.s.config.phySet.ready && x.s.ms < MAX_LATENCY
  }

  lemma SoundStep(x: System, a: Action)
    requires Sound(x)
    ensures Sound(Next(x, a))
  {
    match a
    case StartControl =>
    case TickStep => TickCounter(x.s);
    case Serve =>
    case Configure(packets) =>
      if packets != [] {
        SetCfgKeeps(x.s.config, packets);
      }
  }

  lemma {:induction false} SoundRun(x: System, acts: seq<Action>)
    requires Sound(x)
    ensures Sound(Run(x, acts))
  {
    if acts != [] {
      SoundRun(x, acts[..|acts| - 1]);
      SoundStep(Run(x, acts[..|acts| - 1]), acts[|acts| - 1]);
    }
  }

  lemma FirstSound(events: seq<Event>)
    ensures Sound(First(events))
  {
    SimConfig.RunKeeps(UNSET, events);
    StartKeeps(SimConfig.Run(UNSET, events));
  }

  lemma SoundTick(x: System)
    requires Sound(x)
    ensures var s := Ticked(x.s).state;
            && s.config.phy.ambient <= s.temp <= SENSOR_MAX
            && Reading(s.regs) == Quot(s.temp, 1000)
            && s.ms < s.config.phy.latency <= MAX_LATENCY
  {
    TickReading(x.s);
    TickCounter(x.s);
  }

  /** After every tick of every run the temperature is within its bounds, the controller's reading is exact
      and the counter is below the latency. */
  lemma EveryTick(events: seq<Event>, acts: seq<Action>)
    ensures var s := Ticked(Run(First(events), acts).s).state;
            && s.config.phy.ambient <= s.temp <= SENSOR_MAX
            && Reading(s.regs) == Quot(s.temp, 1000)
            && s.ms < s.config.phy.latency <= MAX_LATENCY
  {
    FirstSound(events);
    SoundRun(First(events), acts);
    SoundTick(Run(First(events), acts));
  }

  // ---- The watchdog ----

  /** The watchdog's timer has lost at most one count for each tick since the last notification that reset
      the tick counter; a notification that waits is one tick old. */
  predicate Fed(x: System) {
    x.s.regs.wdtEn ==>
      && x.ready && x.s.regs.reload == RELOAD
      && x.s.regs.timer >= if x.pending then RELOAD - MAX_LATENCY else RELOAD - x.s.ms
  }

  /** Notifications are served in time: a tick with the watchdog on finds none waiting. */
  predicate InTime(x: System, a: Action) {
    a.TickStep? && x.s.regs.wdtEn ==> !x.pending
  }

  lemma TickFeeds(x: System)
    requires Sound(x) && Fed(x) && InTime(x, TickStep)
    ensures Fed(Next(x, TickStep))
    ensures x.s.regs.wdtEn ==> x.s.regs.timer > RELOAD - MAX_LATENCY && Ticked(x.s).state.regs.out == x.s.regs.out
  {
    TickCounter(x.s);
  }

  lemma FedStep(x: System, a: Action)
    requires Sound(x) && Fed(x) && InTime(x, a)
    ensures Fed(Next(x, a))
  {
    match a
    case StartControl =>
    case TickStep => TickFeeds(x);
    case Serve => ServeFeeds(x.s);
    case Configure(packets) =>
  }

  predicate SameWatchdog(r: Regs, r': Regs) {
    r.wdtEn == r'.wdtEn && r.reload == r'.reload && r.timer == r'.timer
  }

  lemma StagesKeepWatchdog(t: Thresholds, s: State, temp: int)
    ensures SameWatchdog(Emergency(t, s, temp).regs, s.regs) && Emergency(t, s, temp).ms == s.ms
    ensures SameWatchdog(Normal(t, s, temp).regs, s.regs) && Normal(t, s, temp).ms == s.ms
    ensures Emergency(t, s, temp).config == s.config
  {
  }

  lemma SafetyKeepsWatchdog(t: Thresholds, s: State, temp: int)
    ensures SameWatchdog(Safety(t, s, temp).regs, s.regs) && Safety(t, s, temp).ms == s.ms
  {
  }

  lemma ServeFeeds(s: State)
    ensures var r := Cycle(s).regs;
            r.wdtEn == s.regs.wdtEn && r.reload == s.regs.reload && (r.wdtEn ==> r.timer == r.reload)
    ensures Cycle(s).ms == s.ms
  {
    var t, temp := s.config.ctl, Reading(s.regs);
    var s0 := s.(st := Noted(s.st, temp));
    var s1 := Emergency(t, s0, temp);
    StagesKeepWatchdog(t, s0, temp);
    SafetyKeepsWatchdog(t, s1, temp);
    StagesKeepWatchdog(t, Safety(t, s1, temp), temp);
    assert SameWatchdog(Regulated(s).regs, s.regs) && Regulated(s).ms == s.ms;
  }

  predicate AllInTime(x: System, acts: seq<Action>) {
    acts == [] || (AllInTime(x, acts[..|acts| - 1]) && InTime(Run(x, acts[..|acts| - 1]), acts[|acts| - 1]))
  }

  lemma {:induction false} FedRun(x: System, acts: seq<Action>)
    requires Sound(x) && Fed(x) && AllInTime(x, acts)
    ensures Fed(Run(x, acts))
  {
    if acts != [] {
      FedRun(x, acts[..|acts| - 1]);
      SoundRun(x, acts[..|acts| - 1]);
      FedStep(Run(x, acts[..|acts| - 1]), acts[|acts| - 1]);
    }
  }

  /** While every notification is served before the next tick, the watchdog never fires: it never stands
      below 100, whatever alarms delayed the sensor and however the latency was changed, and no tick
      forces the outputs. */
  lemma WatchdogNeverFires(events: seq<Event>, acts: seq<Action>)
    requires AllInTime(First(events), acts)
    ensures var x := Run(First(events), acts);
            && (x.s.regs.wdtEn ==> x.s.regs.timer >= RELOAD - MAX_LATENCY)
            && (InTime(x, TickStep) ==> Ticked(x.s).state.regs.out == x.s.regs.out)
  {
    FirstSound(events);
    FedRun(First(events), acts);
    SoundRun(First(events), acts);
    var x := Run(First(events), acts);
    if x.s.regs.wdtEn && !x.pending {
      TickFeeds(x);
    }
  }

  // ---- The interlock over runs ----

  lemma SafeStep(x: System, a: Action)
    requires Interlock(x.s)
    ensures Interlock(Next(x, a).s)
  {
    match a
    case StartControl =>
    case TickStep => TickKeeps(x.s);
    case Serve => CycleKeeps(x.s);
    case Configure(packets) =>
  }

  lemma {:induction false} SafeRun(x: System, acts: seq<Action>)
    requires Interlock(x.s)
    ensures Interlock(Run(x, acts).s)
  {
    if acts != [] {
      SafeRun(x, acts[..|acts| - 1]);
      SafeStep(Run(x, acts[..|acts| - 1]), acts[|acts| - 1]);
    }
  }

  /** Over every run from the first start, in time or not and whatever the thresholds: the heater and a fan
      are never on together, the heater is off in an emergency and in safety cooling, and Fan 2 runs only
      in an emergency. */
  lemma InterlockHolds(events: seq<Event>, acts: seq<Action>)
    ensures Interlock(Run(First(events), acts).s)
  {
    SafeRun(First(events), acts);
  }

  // ---- After an alarm ----

  predicate Cooling(s: State) {
    s.st.critical || s.st.cooldown
  }

  /** The step is a control cycle that reads a temperature below the cooldown one. */
  predicate ReadsCool(x: System, a: Action) {
    a.Serve? && x.ready && x.pending && Reading(x.s.regs) < x.s.config.ctl.cooldown
  }

  /** A cycle that finds an alarm, or a reading above the critical temperature, and does not read a cool
      chip, starts the cooling and leaves the heater off. */
  lemma AlarmStartsCooling(s: State)
    requires Interlock(s) && Reading(s.regs) >= s.config.ctl.cooldown
    requires IsAlarm(s.regs) || Reading(s.regs) > s.config.ctl.critical
    ensures Cooling(Cycle(s)) && !Cycle(s).regs.out[HEATER]
  {
    CycleKeeps(s);
  }

  lemma StaysCooling(x: System, a: Action)
    requires Cooling(x.s) && !ReadsCool(x, a)
    ensures Cooling(Next(x, a).s)
  {
  }

  /** Some cycle of the run read a cool chip. */
  predicate WasCool(x: System, acts: seq<Action>) {
    acts != [] && (WasCool(x, acts[..|acts| - 1]) || ReadsCool(Run(x, acts[..|acts| - 1]), acts[|acts| - 1]))
  }

  /** Once cooling has started the heater stays off until a cycle reads a temperature below the cooldown
      one, whatever else happens. */
  lemma {:induction false} OffUntilCool(x: System, acts: seq<Action>)
    requires Interlock(x.s) && Cooling(x.s) && !WasCool(x, acts)
    ensures Cooling(Run(x, acts).s) && !Run(x, acts).s.regs.out[HEATER]
  {
    if acts != [] {
      var front := Run(x, acts[..|acts| - 1]);
      OffUntilCool(x, acts[..|acts| - 1]);
      StaysCooling(front, acts[|acts| - 1]);
      SafeRun(x, acts);
    }
  }

  /** A stop ends the promise: the controller forgets the emergency while Fan 2 keeps running. */
  lemma SuspendBreaksInterlock(s: State)
    requires Interlock(s)
    ensures Interlock(Suspended(s)) <==> !s.regs.out[FAN2]
  {
  }
}
