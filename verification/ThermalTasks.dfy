/**
 * The control cycle and the hardware tick as they change the state in place.
 * Models run_temperature_regulation and the tick of vHardwareSimTask in port/freertos_sim.c.
 */
module ThermalTasks {
  import opened Arith
  import opened Gpio
  import opened SimConfig
  import opened Thermal

  class Simulation {
    const gpio: Block
    const settings: Settings
    var units: Units
    var st: Status
    var temp: int
    var ms: nat

    function Now(): State
      reads this, gpio, settings
    {
      State(settings.State(), units, st, temp, ms, gpio.regs)
    }

    constructor (g: Block, s: Settings)
      ensures gpio == g && settings == s
      ensures units == Units(false, false, false) && st == CALM && temp == s.phy.ambient && ms == 0
    {
      gpio, settings := g, s;
      units, st, temp, ms := Units(false, false, false), CALM, s.phy.ambient, 0;
    }

    // ---- The control task ----

    method StartControl()
      modifies gpio
      ensures Now() == ControlStarted(old(Now()))
    {
      gpio.InitController();
      gpio.regs := PinsConfigured(gpio.regs);
      gpio.ClearInterrupt(ALARM);
      gpio.WdtSetup(RELOAD);
    }

    method ControlCycle()
      modifies this, gpio
      ensures Now() == Cycle(old(Now()))
    {
      RunTemperatureRegulation();
      gpio.WdtKick();
    }

    method RunTemperatureRegulation()
      modifies this, gpio
      ensures Now() == Regulated(old(Now()))
    {
      var reading := gpio.regs.pinIn - SENSOR_OFFSET;
      Note(reading);
      EmergencyCooling(reading);
      if st.critical {
        return;
      }
      SafetyCooling(reading);
      if st.cooldown {
        return;
      }
      Regulate(reading);
    }

    method Note(reading: int)
      modifies `st
      ensures st == Noted(old(st), reading)
    {
      if reading > st.maxTemp {
        st := st.(maxTemp := reading);
      }
      st := st.(window := (st.window + 1) % 0x1_0000_0000);
    }

    method EmergencyCooling(reading: int)
      modifies this, gpio
      ensures Now() == Emergency(settings.ctl, old(Now()), reading)
    {
      if reading > settings.ctl.critical || st.critical {
        if !st.critical {
          st := st.(critical := true);
          gpio.SetOutPin(FAN2);
          gpio.ClearOutPin(HEATER);
        }
        if reading < settings.ctl.cooldown {
          st := st.(critical := false);
          gpio.ClearOutPin(FAN2);
        }
      }
    }

    method SafetyCooling(reading: int)
      modifies this, gpio
      ensures Now() == Safety(settings.ctl, old(Now()), reading)
    {
      if IsAlarm(gpio.regs) && !st.cooldown {
        st := st.(cooldown := true);
      }
      if st.cooldown {
        if reading < settings.ctl.cooldown {
          st := st.(cooldown := false);
          gpio.ClearInterrupt(ALARM);
          if reading < settings.ctl.target - settings.ctl.hysteresis {
            st := st.(heating := true);
            gpio.ClearOutPin(FAN1);
          }
          st := st.(maxTemp := reading);
        } else {
          if !units.fan1Failed {
            gpio.SetOutPin(FAN1);
          }
          gpio.ClearOutPin(HEATER);
        }
      }
    }

    method Regulate(reading: int)
      modifies this, gpio
      ensures Now() == Normal(settings.ctl, old(Now()), reading)
    {
      if reading < settings.ctl.target - settings.ctl.hysteresis {
        st := st.(heating := true);
      } else if reading >= settings.ctl.target {
        st := st.(heating := false);
      }
      if st.heating && !units.heaterFailed {
        gpio.SetOutPin(HEATER);
        gpio.ClearOutPin(FAN1);
      } else {
        gpio.ClearOutPin(HEATER);
        if reading > settings.ctl.target + 3 && !units.fan1Failed {
          gpio.SetOutPin(FAN1);
        } else {
          gpio.ClearOutPin(FAN1);
        }
      }
    }

    // ---- The hardware task ----

    /** One tick; both divisors have to be in range, as they are once the simulation has started. */
    method HardwareTick() returns (notified: bool)
      requires InRange(settings.phy)
      modifies this, gpio
      ensures Ticked(old(Now())) == Tick(Now(), notified)
    {
      Move();
      var done := RaiseAlarm();
      notified := done;
      if ms >= settings.phy.latency && !done {
        ms := 0;
        notified := true;
      }
      Watchdog();
    }

    method Move()
      requires InRange(settings.phy)
      modifies this, gpio
      ensures Now() == Moved(old(Now()))
    {
      ms := (ms + 1) % 0x1_0000_0000;
      if ms == settings.phy.latency && st.window != 0 && st.window % 1024 == 0 {
        units := units.(fan1Failed := !units.fan1Failed);
      }
      temp := Physics(gpio.regs.out);
      gpio.regs := gpio.regs.(pinIn := Sensed(temp));
    }

    /** The balance of heating and cooling in 16-bit sums, and the temperature it leads to. */
    method Physics(out: Pins8) returns (next: int)
      requires InRange(settings.phy)
      ensures next == NextTemp(settings.phy, units, out, temp)
    {
      var heat, cooling := 0, 0;
      if (out[HEATER] || units.fan1Failed) && !units.heaterFailed {
        heat := W16(heat + settings.phy.power);
      }
      if out[FAN1] && !units.fan1Failed {
        cooling := W16(cooling + settings.phy.power * 3 / 2);
      }
      if out[FAN2] && !units.fan2Failed {
        cooling := W16(cooling + settings.phy.power * 4);
      }
      cooling := W16(cooling + Quot(temp - settings.phy.ambient, settings.phy.conduct));
      var balance := W16(heat - cooling);
      next := temp + Quot(balance, settings.phy.mass);
      if next > SENSOR_MAX {
        next := SENSOR_MAX;
      }
      if next < settings.phy.ambient {
        next := settings.phy.ambient;
      }
    }

    method RaiseAlarm() returns (done: bool)
      modifies this, gpio
      ensures Now() == Alarmed(old(Now())) && done == Alarms(old(Now()))
    {
      done := false;
      if temp >= 1000 * (settings.ctl.target + settings.ctl.hysteresis + 10) {
        if gpio.regs.intEn[ALARM] && !gpio.regs.intSts[ALARM] {
          gpio.regs := gpio.regs.(alarm := true, intSts := gpio.regs.intSts[ALARM := true]);
          done := true;
          if ms > settings.phy.latency / 2 {
            ms := 0;
          }
        }
      } else {
        gpio.regs := gpio.regs.(alarm := false);
      }
    }

    method Watchdog()
      modifies gpio
      ensures Now() == Watched(old(Now()))
    {
      if gpio.regs.wdtEn {
        if gpio.regs.timer > 0 {
          gpio.regs := gpio.regs.(timer := gpio.regs.timer - 1);
        } else {
          gpio.regs := gpio.regs.(out := NO_PINS8[FAN1 := true]);
        }
      }
    }
  }
}
