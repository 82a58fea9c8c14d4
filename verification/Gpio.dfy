/**
 * The GPIO block's registers and the driver operations on them, as the simulated block behaves.
 * Models src/drivers/gpio/gpio.c without USE_HW.
 */
module Gpio {
  import opened Arith

  type Pins8 = s: seq<bool> | |s| == 8 witness [false, false, false, false, false, false, false, false]
  type Pins16 = s: seq<bool> | |s| == 16 witness seq(16, _ => false)

  const NO_PINS8: Pins8 := [false, false, false, false, false, false, false, false]
  const NO_PINS16: Pins16 := NO_PINS8 + NO_PINS8

  const HEATER := 0
  const FAN1 := 1
  const FAN2 := 2
  const ALARM := 8

  /** The registers that something reads: outputs, inputs, interrupt enables and status, watchdog. */
  datatype Regs = Regs(dir: Pins8, out: Pins8, pinIn: Byte, alarm: bool, intEn: Pins16, intSts: Pins16,
                       wdtEn: bool, prescale: nat, timer: Byte, reload: Byte)

  const RESET := Regs(NO_PINS8, NO_PINS8, 0, false, NO_PINS16, NO_PINS16, false, 0, 0, 0)

  function WithOut(r: Regs, pin: nat, high: bool): Regs
    requires pin < 8
  {
    r.(out := r.out[pin := high])
  }

  /** Over-temperature: the input bit, or the latched interrupt. */
  predicate IsAlarm(r: Regs) {
    r.alarm || r.intSts[ALARM]
  }

  /** The simulated register takes the written mask and then loses the bit, so no bit is left. */
  function InterruptCleared(r: Regs, pin: nat): Regs
    requires pin < 16
  {
    r.(intSts := NO_PINS16)
  }

  function ControllerReset(r: Regs): Regs {
    r.(dir := NO_PINS8, intEn := NO_PINS16, intSts := NO_PINS16, wdtEn := false, prescale := 0, timer := 0, reload := 0)
  }

  function WatchdogSet(r: Regs, timeout: nat): Regs {
    if timeout < 255 then r.(prescale := 0, reload := timeout, timer := timeout, wdtEn := true)
    else r.(prescale := 1, reload := timeout / 10 % 256, timer := timeout / 10 % 256, wdtEn := true)
  }

  function Kicked(r: Regs): Regs {
    if r.wdtEn then r.(timer := r.reload) else r
  }

  /** A reset makes every pin an input, disables and forgets all interrupts and stops the watchdog; the outputs stay
      as they are. */
  lemma ResetIs(r: Regs)
    ensures var z := ControllerReset(r);
            && z.out == r.out && z.pinIn == r.pinIn && z.alarm == r.alarm
            && (forall k :: 0 <= k < 8 ==> !z.dir[k]) && (forall k :: 0 <= k < 16 ==> !z.intEn[k] && !z.intSts[k])
            && !z.wdtEn && z.prescale == 0 && z.timer == 0 && z.reload == 0
  {
  }

  /** The watchdog counts every tick with a reload value up to 254, else every tenth with a tenth of it, of which
      the register keeps the low byte. */
  lemma WatchdogIs(r: Regs, timeout: nat)
    ensures var w := WatchdogSet(r, timeout);
            && w == r.(prescale := w.prescale, reload := w.reload, timer := w.reload, wdtEn := true)
            && (timeout < 255 ==> w.prescale == 0 && w.reload == timeout)
            && (timeout >= 255 ==> w.prescale == 1 && exists k: nat :: 0 <= timeout - 10 * (0x100 * k + w.reload) < 10)
  {
    if timeout >= 255 {
      var q := timeout / 10;
      var k := q / 0x100;
      assert q == 0x100 * k + q % 0x100;
      assert 0 <= timeout - 10 * (0x100 * k + q % 0x100) < 10;
    }
  }

  class Block {
    var regs: Regs

    constructor ()
      ensures regs == RESET
    {
      regs := RESET;
    }

    method SetOutPin(pin: nat)
      requires pin < 8
      modifies this
      ensures regs == WithOut(old(regs), pin, true)
    {
      if !regs.out[pin] {
        regs := regs.(out := regs.out[pin := true]);
      }
      assert regs.out == old(regs).out[pin := true];
    }

    method ClearOutPin(pin: nat)
      requires pin < 8
      modifies this
      ensures regs == WithOut(old(regs), pin, false)
    {
      if regs.out[pin] {
        regs := regs.(out := regs.out[pin := false]);
      }
      assert regs.out == old(regs).out[pin := false];
    }

    method ClearInterrupt(pin: nat)
      requires pin < 16
      modifies this
      ensures regs == InterruptCleared(old(regs), pin) && !regs.intSts[pin]
    {
      regs := regs.(intSts := NO_PINS16[pin := true]);
      if regs.intSts[pin] {
        regs := regs.(intSts := regs.intSts[pin := false]);
      }
      assert regs.intSts == NO_PINS16;
    }

    method InitController()
      modifies this
      ensures regs == ControllerReset(old(regs))
    {
      regs := regs.(dir := NO_PINS8, intEn := NO_PINS16, intSts := NO_PINS16);
      regs := regs.(prescale := 0, timer := 0, reload := 0, wdtEn := false);
    }

    method WdtSetup(timeout: nat)
      modifies this
      ensures regs == WatchdogSet(old(regs), timeout)
      ensures regs.wdtEn && regs.timer == regs.reload
    {
      if timeout < 255 {
        regs := regs.(prescale := 0, reload := timeout);
      } else {
        regs := regs.(prescale := 1, reload := timeout / 10 % 256);
      }
      regs := regs.(timer := regs.reload);
      regs := regs.(wdtEn := true);
    }

    method WdtKick()
      modifies this
      ensures regs == Kicked(old(regs))
    {
      if !regs.wdtEn {
        return;
      }
      regs := regs.(timer := regs.reload);
    }
  }
}
