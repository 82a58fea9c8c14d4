/**
 * A 64-bit microsecond clock kept from a 32-bit cycle counter.
 * Models init_timestamp and get_timestamp of port/arm/cortex-m/time.c.
 */
module Timestamp {
  import opened Arith

  const U64 := U32 * U32
  const MICROS := 1_000_000
  const U48 := 0x1_0000_0000_0000

  /** `total_cycles`, `last_cycles`, `ticks_to_us` and `boot_ts`. */
  datatype Clock = Clock(total: nat, last: nat, ticks: nat, boot: nat)

  /** `(1000000 << 32) / timer_hz`. */
  function Ticks(hz: nat): nat
    requires hz > 0
  {
    MICROS * U32 / hz
  }

  /** `(total * ticks) >> 32` in 64 bits. */
  function Micros(total: nat, ticks: nat): nat {
    total * ticks % U64 / U32
  }

  /** The unsigned 32-bit difference of two readings. */
  function Delta(cycles: nat, last: nat): (d: nat)
    requires cycles < U32 && last < U32
    ensures d < U32
  {
    if cycles >= last then cycles - last else cycles - last + U32
  }

  function Started(reading: nat, hz: nat): Clock
    requires hz > 0
  {
    Clock(reading, reading, Ticks(hz), Micros(reading, Ticks(hz)))
  }

  /** The update made with interrupts off, from a reading taken before. */
  function Updated(c: Clock, cycles: nat): Clock
    requires cycles < U32 && c.last < U32
  {
    c.(total := (c.total + Delta(cycles, c.last)) % U64, last := cycles)
  }

  function Result(c: Clock): nat {
    (Micros(c.total, c.ticks) - c.boot) % U64
  }

  /** The clock agrees with the true number of cycles, of which the counter shows the low 32 bits. */
  predicate Tracks(c: Clock, count: nat) {
    c.total == count && c.last == count % U32
  }

  // ---- Counting across wraps ----

  lemma DeltaIs(was: nat, now: nat)
    ensures Delta(now % U32, was % U32) == (now - was) % U32
  {
    var d := Delta(now % U32, was % U32);
    var k := now / U32 - was / U32 - (if now % U32 >= was % U32 then 0 else 1);
    assert now - was == k * U32 + d;
    ModIs(now - was, k, d, U32);
  }

  lemma ModSmall(x: int)
    requires -U64 < x < U64
    ensures x % U64 == if x < 0 then x + U64 else x
    ensures -U32 < x < U32 ==> x % U32 == if x < 0 then x + U32 else x
  {
    ModIs(x, if x < 0 then -1 else 0, if x < 0 then x + U64 else x, U64);
  }

  /** One call keeps the total true exactly when its reading is less than 2^32 cycles ahead of the last one,
      also when another call came between its reading and its update, so that the reading is older. */
  lemma CallTracks(c: Clock, was: nat, now: nat)
    requires Tracks(c, was) && was < U64 && now < U64
    ensures Tracks(Updated(c, now % U32), now) <==> (now - was) % U64 < U32
    ensures was <= now ==> (now - was) % U64 == now - was
  {
    DeltaIs(was, now);
    ModSmall(now - was);
    var d := (now - was) % U32;
    ModIs(was + d, if was + d < U64 then 0 else 1, if was + d < U64 then was + d else was + d - U64, U64);
    if (now - was) % U64 < U32 {
      ModOfMod(now - was);
    }
  }

  lemma ModOfMod(x: int)
    requires x % U64 < U32
    ensures x % U32 == x % U64
  {
    var q := x / U64;
    ModIs(x, q * U32, x % U64, U32);
  }

  /** A call that reads the counter, is interrupted by another call and then makes its update with the
      older reading moves the total ahead by 2^32 cycles, whatever the two readings. */
  lemma NestedCallJumps(c: Clock, was: nat, now: nat)
    requires Tracks(c, was) && now < was < now + U32 < U64
    ensures Updated(c, now % U32).total == now + U32
  {
    DeltaIs(was, now);
    ModSmall(now - was);
    ModSmall(now + U32);
  }

  /** So it does from the start, for an inner call that reads the counter after the outer one. */
  lemma NestedFromStart(reading: nat, hz: nat, now: nat, was: nat)
    requires hz > 0 && reading < U32 && reading <= now < was < reading + U32
    ensures Updated(Updated(Started(reading, hz), was % U32), now % U32).total == now + U32
  {
    CallTracks(Started(reading, hz), reading, was);
    NestedCallJumps(Updated(Started(reading, hz), was % U32), was, now);
  }

  // ---- The value ----

  /** The product fits 64 bits exactly when the shifted value is the true quotient. */
  lemma MicrosTrue(total: nat, ticks: nat)
    ensures Micros(total, ticks) == total * ticks / U32 <==> total * ticks < U64
  {
    var p := total * ticks;
    if p >= U64 {
      assert p % U64 / U32 < U32;
      assert p / U32 >= U32;
    }
  }

  lemma Distribute(total: nat, ticks: nat, hz: nat, rest: nat)
    requires hz * ticks + rest == MICROS * U32
    ensures total * ticks * hz + total * rest == total * MICROS * U32
  {
    assert total * (hz * ticks + rest) == total * (hz * ticks) + total * rest;
    assert total * (hz * ticks) == total * ticks * hz;
  }

  lemma NotAhead(now: nat, t: nat, hz: nat, more: nat, all: nat)
    requires now * U32 <= t && t * hz + more == all * U32
    ensures now * hz <= all
  {
    Times(now * U32, t, hz);
    assert now * U32 * hz == now * hz * U32;
  }

  lemma NotFarBehind(now: nat, t: nat, hz: nat, total: nat, rest: nat, all: nat)
    requires t + 1 <= (now + 1) * U32 && t * hz + total * rest == all && 0 <= rest < hz
    ensures all < (now + 1) * U32 * hz + total * hz
  {
    Times(t + 1, (now + 1) * U32, hz);
    assert (t + 1) * hz == t * hz + hz;
    Times(rest, hz, total);
    assert rest * total == total * rest && hz * total == total * hz;
  }

  lemma Products(now: nat, total: nat, ticks: nat, hz: nat, rest: nat)
    requires hz > 0 && hz * ticks + rest == MICROS * U32 && rest < hz
    requires now * U32 <= total * ticks < (now + 1) * U32
    ensures now * hz <= total * MICROS
    ensures total * MICROS * U32 < (now + 1) * U32 * hz + total * hz
  {
    Distribute(total, ticks, hz, rest);
    NotAhead(now, total * ticks, hz, total * rest, total * MICROS);
    NotFarBehind(now, total * ticks, hz, total, rest, total * MICROS * U32);
  }

  lemma Times(a: nat, b: nat, k: nat)
    requires a <= b
    ensures a * k <= b * k
  {
  }

  /** The true time in microseconds after `total` cycles at `hz` cycles a second. */
  function Exact(total: nat, hz: nat): real
    requires hz > 0
  {
    total as real * MICROS as real / hz as real
  }

  lemma RealProduct(a: nat, b: nat)
    ensures (a * b) as real == a as real * b as real
  {
  }

  lemma RealProduct3(a: nat, b: nat, c: nat)
    ensures (a * b * c) as real == a as real * b as real * c as real
  {
    RealProduct(a, b);
    RealProduct(a * b, c);
  }

  lemma Divided(x: real, h: real)
    requires h > 0.0
    ensures x / h * h == x
  {
  }

  lemma Upper(n: real, x: real, h: real)
    requires h > 0.0 && n * h <= x
    ensures n <= x / h
  {
    Divided(x, h);
    Cancel(n, x / h, h);
  }

  lemma Lower(n: real, x: real, t: real, h: real, u: real)
    requires h > 0.0 && u > 0.0 && x * u < n * u * h + t * h
    ensures x / h < n + t / u
  {
    Divided(x, h);
    Divided(t, u);
    var e, a := x / h, t / u;
    Regroup(e, n, a, h, u);
    CancelStrict(e * u, (n + a) * u, h);
    CancelStrict(e, n + a, u);
  }

  lemma Regroup(e: real, n: real, a: real, h: real, u: real)
    ensures e * h * u == e * u * h
    ensures n * u * h + a * u * h == (n + a) * u * h
  {
  }

  lemma Quotients(now: nat, total: nat, hz: nat)
    requires hz > 0 && now * hz <= total * MICROS
    requires total * MICROS * U32 < (now + 1) * U32 * hz + total * hz
    ensures now as real <= Exact(total, hz)
    ensures Exact(total, hz) - total as real / U32 as real - 1.0 < now as real
  {
    RealProduct(now, hz);
    RealProduct(total, MICROS);
    RealProduct3(total, MICROS, U32);
    RealProduct3(now + 1, U32, hz);
    RealProduct(total, hz);
    Upper(now as real, (total * MICROS) as real, hz as real);
    Lower((now + 1) as real, (total * MICROS) as real, total as real, hz as real, U32 as real);
  }

  lemma Cancel(a: real, b: real, k: real)
    requires k > 0.0 && a * k <= b * k
    ensures a <= b
  {
  }

  lemma CancelStrict(a: real, b: real, k: real)
    requires k > 0.0 && a * k < b * k
    ensures a < b
  {
  }

  /** While the product fits 64 bits, the value is never ahead of the true time, and behind it by less
      than one microsecond and one 2^32-th of the cycles counted. */
  lemma WithinBounds(total: nat, hz: nat)
    requires hz > 0 && total * Ticks(hz) < U64
    ensures var now := Micros(total, Ticks(hz));
            Exact(total, hz) - total as real / U32 as real - 1.0 < now as real <= Exact(total, hz)
  {
    var ticks := Ticks(hz);
    var now := Micros(total, ticks);
    MicrosTrue(total, ticks);
    Quotient(total * ticks, U32);
    Quotient(MICROS * U32, hz);
    Products(now, total, ticks, hz, MICROS * U32 % hz);
    Quotients(now, total, hz);
  }

  lemma Quotient(x: nat, d: nat)
    requires d > 0
    ensures x / d * d <= x < (x / d + 1) * d && d * (x / d) + x % d == x && x % d < d
  {
  }

  // ---- Any number of calls ----

  /** The true counts at which calls are made, each less than 2^32 cycles after the one before. */
  predicate Spaced(start: nat, counts: seq<nat>) {
    forall i :: 0 <= i < |counts| ==> Before(start, counts, i) <= counts[i] < Before(start, counts, i) + U32
  }

  function Before(start: nat, counts: seq<nat>, i: nat): nat
    requires i <= |counts|
  {
    if i == 0 then start else counts[i - 1]
  }

  lemma SpacedFront(start: nat, counts: seq<nat>, n: nat)
    requires Spaced(start, counts) && n <= |counts|
    ensures Spaced(start, counts[..n])
  {
    forall i | 0 <= i < n
      ensures Before(start, counts[..n], i) == Before(start, counts, i) && counts[..n][i] == counts[i]
    {
    }
  }

  function After(c: Clock, counts: seq<nat>): Clock
    requires c.last < U32
    ensures After(c, counts).last < U32
  {
    if counts == [] then c
    else Updated(After(c, counts[..|counts| - 1]), counts[|counts| - 1] % U32)
  }

  /** However often the counter wraps, the total is the true count after every call. */
  lemma {:induction false} TotalIsTrue(start: nat, hz: nat, counts: seq<nat>)
    requires start < U32 && hz > 0 && Spaced(start, counts)
    requires forall i :: 0 <= i < |counts| ==> counts[i] < U64
    ensures Tracks(After(Started(start, hz), counts), Before(start, counts, |counts|))
    ensures After(Started(start, hz), counts).ticks == Ticks(hz)
    ensures After(Started(start, hz), counts).boot == Micros(start, Ticks(hz))
  {
    if counts != [] {
      var n := |counts| - 1;
      SpacedFront(start, counts, n);
      TotalIsTrue(start, hz, counts[..n]);
      assert Before(start, counts[..n], n) == Before(start, counts, n);
      CallTracks(After(Started(start, hz), counts[..n]), Before(start, counts, n), counts[n]);
    }
  }

  lemma {:induction false} SpacedUp(start: nat, counts: seq<nat>, i: nat, j: nat)
    requires Spaced(start, counts) && i <= j < |counts|
    ensures start <= counts[i] <= counts[j]
    decreases j
  {
    assert Before(start, counts, j) <= counts[j];
    if i < j {
      SpacedUp(start, counts, i, j - 1);
    } else if i > 0 {
      SpacedUp(start, counts, i - 1, i - 1);
    }
  }

  // ---- What the calls of a run return ----

  /** The whole microseconds that `count` cycles are worth, before anything is cut. */
  function Whole(count: nat, ticks: nat): nat {
    count * ticks / U32
  }

  /** Those since the start. */
  function Elapsed(start: nat, count: nat, ticks: nat): int {
    Whole(count, ticks) - Whole(start, ticks)
  }

  lemma WholeGrows(a: nat, b: nat, ticks: nat)
    requires a <= b
    ensures Whole(a, ticks) <= Whole(b, ticks)
  {
    Times(a, b, ticks);
  }

  /** Less than 2^32 cycles are less than 2^32 microseconds on a clock of 1 MHz or more. */
  lemma WholeSteps(a: nat, b: nat, ticks: nat)
    requires a <= b < a + U32 && ticks <= U32
    ensures Whole(b, ticks) < Whole(a, ticks) + U32
  {
    Times(b, a + (U32 - 1), ticks);
    Times(ticks, U32, U32 - 1);
    Spread(a, ticks);
  }

  lemma Spread(a: nat, ticks: nat)
    ensures (a + (U32 - 1)) * ticks == a * ticks + (U32 - 1) * ticks
  {
  }

  lemma TicksBound(hz: nat)
    requires hz >= MICROS
    ensures Ticks(hz) <= U32
  {
    Quotient(MICROS * U32, hz);
    Times(MICROS, hz, U32);
    Larger(Ticks(hz), U32, hz);
  }

  lemma Larger(a: nat, b: nat, k: nat)
    ensures a > b && k > 0 ==> a * k > b * k
  {
    if a > b && k > 0 {
      Times(b + 1, a, k);
    }
  }

  lemma MicrosIs(count: nat, ticks: nat)
    ensures Micros(count, ticks) == Whole(count, ticks) % U32
    ensures Whole(count, ticks) / U32 == count * ticks / U64
  {
    CutIs(count * ticks);
  }

  lemma CutIs(p: nat)
    ensures p % U64 / U32 == p / U32 % U32 && p / U32 / U32 == p / U64
  {
    var q, r := p / U64, p % U64;
    ModIs(p, q * U32 + r / U32, r % U32, U32);
    ModIs(q * U32 + r / U32, q, r / U32, U32);
  }

  /** What is shown `e` microseconds into a turn of 2^32 when the first value was `boot`: the difference is
      negative, and so close to 2^64, once the value has gone past 2^32. */
  function Shown(e: nat, boot: nat): nat {
    if boot + e < U32 then e else U64 - U32 + e
  }

  lemma ShownIs(now: nat, boot: nat)
    ensures (now % U32 - boot % U32) % U64 == Shown((now - boot) % U32, boot % U32)
  {
    var m, b := now % U32, boot % U32;
    var k := now / U32 - boot / U32;
    assert now - boot == k * U32 + (m - b);
    if m >= b {
      ModIs(now - boot, k, m - b, U32);
      ModIs(m - b, 0, m - b, U64);
    } else {
      ModIs(now - boot, k - 1, m - b + U32, U32);
      ModIs(m - b, -1, m - b + U64, U64);
    }
  }

  lemma ShownOrder(e: nat, f: nat, boot: nat)
    requires e < U32 && f < U32
    ensures Shown(e, boot) <= Shown(f, boot) <==> e <= f
    ensures Shown(e, boot) % U48 <= Shown(f, boot) % U48 <==> e <= f
  {
    assert (U64 - U32 + e) % U48 == U48 - U32 + e && (U64 - U32 + f) % U48 == U48 - U32 + f;
  }

  /** The clock after call `i` of a run, and what that call returns. */
  function ClockAt(start: nat, hz: nat, counts: seq<nat>, i: nat): Clock
    requires start < U32 && hz > 0 && i < |counts|
  {
    After(Started(start, hz), counts[..i + 1])
  }

  function ResultAt(start: nat, hz: nat, counts: seq<nat>, i: nat): nat
    requires start < U32 && hz > 0 && i < |counts|
  {
    Result(ClockAt(start, hz, counts, i))
  }

  function ElapsedAt(start: nat, hz: nat, counts: seq<nat>, i: nat): int
    requires hz > 0 && i < |counts|
  {
    Elapsed(start, counts[i], Ticks(hz))
  }

  lemma ClockTracks(start: nat, hz: nat, counts: seq<nat>, i: nat)
    requires start < U32 && hz > 0 && Spaced(start, counts) && i < |counts| && counts[i] < U64
    ensures var c := ClockAt(start, hz, counts, i);
            c.total == counts[i] && c.ticks == Ticks(hz) && c.boot == Micros(start, Ticks(hz))
    ensures ElapsedAt(start, hz, counts, i) >= 0
  {
    forall k | 0 <= k <= i
      ensures counts[k] <= counts[i]
    {
      SpacedUp(start, counts, k, i);
    }
    SpacedFront(start, counts, i + 1);
    TotalIsTrue(start, hz, counts[..i + 1]);
    SpacedUp(start, counts, i, i);
    WholeGrows(start, counts[i], Ticks(hz));
  }

  lemma ResultIs(start: nat, hz: nat, counts: seq<nat>, i: nat)
    requires start < U32 && hz > 0 && Spaced(start, counts) && i < |counts| && counts[i] < U64
    ensures ResultAt(start, hz, counts, i)
            == Shown(ElapsedAt(start, hz, counts, i) % U32, Micros(start, Ticks(hz)))
  {
    ClockTracks(start, hz, counts, i);
    MicrosIs(start, Ticks(hz));
    MicrosIs(counts[i], Ticks(hz));
    ShownIs(Whole(counts[i], Ticks(hz)), Whole(start, Ticks(hz)));
  }

  lemma ShownLow(e: nat, boot: nat)
    requires e < U32
    ensures Shown(e, boot) % 0x1_0000_0000_0000 == if boot + e < U32 then e else 0xFFFF_0000_0000 + e
  {
    assert (U64 - U32 + e) % U48 == U48 - U32 + e;
  }

  /** The 48-bit form: the microseconds since the start within their turn of 2^32, and 2^48 - 2^32 more once the
      value itself, which began at `Micros(start, ..)`, has gone past 2^32. */
  lemma LowBitsAre(start: nat, hz: nat, counts: seq<nat>, i: nat)
    requires start < U32 && hz > 0 && Spaced(start, counts) && i < |counts| && counts[i] < U64
    ensures var e, boot := ElapsedAt(start, hz, counts, i) % U32, Whole(start, Ticks(hz)) % U32;
            ResultAt(start, hz, counts, i) % 0x1_0000_0000_0000
            == if boot + e < U32 then e else 0xFFFF_0000_0000 + e
  {
    ResultIs(start, hz, counts, i);
    MicrosIs(start, Ticks(hz));
    ShownLow(ElapsedAt(start, hz, counts, i) % U32, Micros(start, Ticks(hz)));
  }

  lemma ResultExact(now: nat, boot: nat)
    requires boot <= now
    ensures (now % U32 - boot % U32) % U64 == now - boot
            <==> now - boot < U64 && (now / U32 - boot / U32) % U32 == 0
  {
    var d, k := now - boot, now / U32 - boot / U32;
    var x := now % U32 - boot % U32;
    assert x == d - k * U32;
    if k % U32 == 0 && d < U64 {
      ModIs(x, -(k / U32), d, U64);
    } else if x % U64 == d {
      var q := x / U64;
      assert -k == q * U32;
      ModIs(k, -q, 0, U32);
    }
  }

  /** A call returns the whole microseconds since the start exactly when their number fits 64 bits and the
      product has gone through a multiple of 2^32 turns of 2^64 since the start. On a clock of 1 MHz or more
      that is, exactly while the product is below 2^64: for 2^32 microseconds after the counter was zero. */
  lemma CallIsExact(start: nat, hz: nat, counts: seq<nat>, i: nat)
    requires start < U32 && hz > 0 && Spaced(start, counts) && i < |counts| && counts[i] < U64
    ensures var t, e := Ticks(hz), ElapsedAt(start, hz, counts, i);
            && (ResultAt(start, hz, counts, i) == e
                <==> e < U64 && (counts[i] * t / U64 - start * t / U64) % U32 == 0)
            && (hz >= MICROS ==> (ResultAt(start, hz, counts, i) == e <==> counts[i] * t < U64))
  {
    var t := Ticks(hz);
    ClockTracks(start, hz, counts, i);
    MicrosIs(start, t);
    MicrosIs(counts[i], t);
    SpacedUp(start, counts, i, i);
    WholeGrows(start, counts[i], t);
    ResultExact(Whole(counts[i], t), Whole(start, t));
    if hz >= MICROS {
      TicksBound(hz);
      FirstTurn(start, counts[i], t);
    }
  }

  lemma FirstTurn(start: nat, count: nat, ticks: nat)
    requires start < U32 && start <= count < U64 && ticks <= U32
    ensures start * ticks / U64 == 0 && Elapsed(start, count, ticks) < U64
    ensures (count * ticks / U64 - start * ticks / U64) % U32 == 0 <==> count * ticks < U64
  {
    Times(ticks, U32, start);
    Times(ticks, U32, count);
    var p, b, k := count * ticks, start * ticks, count * ticks / U64;
    assert b < U64 && p < U64 * U32;
    ModIs(b, 0, b, U64);
    Quotient(p, U64);
    assert k < U32;
    ModIs(k, 0, k, U32);
  }

  /** The next call returns an earlier time exactly when the microseconds since the start have come round to
      less of a turn of 2^32: on a clock of 1 MHz or more exactly when a multiple of 2^32 lies between the
      two calls. The 48-bit form does so as well. */
  lemma NextNotBack(start: nat, hz: nat, counts: seq<nat>, i: nat)
    requires start < U32 && hz > 0 && Spaced(start, counts) && i + 1 < |counts| && counts[i + 1] < U64
    ensures var r, r' := ResultAt(start, hz, counts, i), ResultAt(start, hz, counts, i + 1);
            var e, e' := ElapsedAt(start, hz, counts, i), ElapsedAt(start, hz, counts, i + 1);
            && (r <= r' <==> e % U32 <= e' % U32)
            && (r % U48 <= r' % U48 <==> e % U32 <= e' % U32)
            && e <= e' && (hz >= MICROS ==> (r <= r' <==> e / U32 == e' / U32))
  {
    var t := Ticks(hz);
    SpacedUp(start, counts, i, i + 1);
    ResultIs(start, hz, counts, i);
    ResultIs(start, hz, counts, i + 1);
    var e, e' := ElapsedAt(start, hz, counts, i), ElapsedAt(start, hz, counts, i + 1);
    ShownOrder(e % U32, e' % U32, Micros(start, t));
    WholeGrows(start, counts[i], t);
    WholeGrows(counts[i], counts[i + 1], t);
    if hz >= MICROS {
      TicksBound(hz);
      WholeSteps(counts[i], counts[i + 1], t);
      SameTurn(e, e');
    }
  }

  lemma SameTurn(e: nat, f: nat)
    requires e <= f < e + U32
    ensures e % U32 <= f % U32 <==> e / U32 == f / U32
  {
  }

  /** No call of the run returns an earlier time than the one before. */
  ghost predicate NoneBack(start: nat, hz: nat, counts: seq<nat>)
    requires start < U32 && hz > 0
  {
    forall i, j :: 0 <= i < |counts| && j == i + 1 < |counts| ==>
      ResultAt(start, hz, counts, i) <= ResultAt(start, hz, counts, j)
  }

  lemma {:induction false} TurnKept(start: nat, hz: nat, counts: seq<nat>, i: nat)
    requires start < U32 && hz >= MICROS && Spaced(start, counts) && 0 <= i < |counts| && counts[|counts| - 1] < U64
    requires NoneBack(start, hz, counts)
    ensures ElapsedAt(start, hz, counts, 0) / U32 == ElapsedAt(start, hz, counts, i) / U32
    decreases i
  {
    if i > 0 {
      TurnKept(start, hz, counts, i - 1);
      SpacedUp(start, counts, i, |counts| - 1);
      NextNotBack(start, hz, counts, i - 1);
    }
  }

  lemma TurnBetween(start: nat, hz: nat, counts: seq<nat>, i: nat)
    requires start < U32 && hz > 0 && Spaced(start, counts) && i < |counts|
    ensures var n := |counts| - 1;
            && ElapsedAt(start, hz, counts, 0) / U32 <= ElapsedAt(start, hz, counts, i) / U32
            && ElapsedAt(start, hz, counts, i) / U32 <= ElapsedAt(start, hz, counts, n) / U32
  {
    SpacedUp(start, counts, 0, i);
    SpacedUp(start, counts, i, |counts| - 1);
    WholeGrows(counts[0], counts[i], Ticks(hz));
    WholeGrows(counts[i], counts[|counts| - 1], Ticks(hz));
  }

  /** The results of a run of calls less than 2^32 cycles apart never go back exactly when its first and its
      last call fall into the same turn of 2^32 microseconds since the start. */
  lemma NeverBack(start: nat, hz: nat, counts: seq<nat>)
    requires start < U32 && hz >= MICROS && Spaced(start, counts) && counts != [] && counts[|counts| - 1] < U64
    ensures NoneBack(start, hz, counts)
            <==> ElapsedAt(start, hz, counts, 0) / U32 == ElapsedAt(start, hz, counts, |counts| - 1) / U32
  {
    if NoneBack(start, hz, counts) {
      TurnKept(start, hz, counts, |counts| - 1);
    } else {
      var i, j :| 0 <= i < |counts| && j == i + 1 < |counts|
                  && ResultAt(start, hz, counts, i) > ResultAt(start, hz, counts, j);
      SpacedUp(start, counts, j, |counts| - 1);
      NextNotBack(start, hz, counts, i);
      TurnBetween(start, hz, counts, i);
      TurnBetween(start, hz, counts, j);
    }
  }

  // ---- A run that goes back, on every clock ----

  /** Calls 2^31 cycles apart. */
  function Regular(n: nat): (counts: seq<nat>)
    ensures |counts| == n && forall i :: 0 <= i < n ==> counts[i] == (i + 1) * 0x8000_0000
  {
    seq(n, i requires 0 <= i < n => (i + 1) * 0x8000_0000)
  }

  /** On every clock from 1 MHz to 500 THz, regular calls return an earlier time once more than 2^32
      microseconds, which is 71.6 minutes, have gone by. */
  lemma RegularGoesBack(hz: nat, n: nat)
    requires hz >= MICROS && Ticks(hz) >= 8 && n == 2 * U32 / Ticks(hz) + 2
    ensures Spaced(1, Regular(n)) && Regular(n)[n - 1] < U64 && !NoneBack(1, hz, Regular(n))
  {
    var t, counts := Ticks(hz), Regular(n);
    TicksBound(hz);
    TurnsFor(t, n);
    forall i | 0 <= i < n
      ensures Before(1, counts, i) <= counts[i] < Before(1, counts, i) + U32
    {
    }
    NeverBack(1, hz, counts);
  }

  lemma TurnsFor(t: nat, n: nat)
    requires 8 <= t <= U32 && n == 2 * U32 / t + 2
    ensures 0 < n && n * 0x8000_0000 < U64
    ensures Elapsed(1, 1 * 0x8000_0000, t) < U32 <= Elapsed(1, n * 0x8000_0000, t)
  {
    Quotient(2 * U32, t);
    var q := 2 * U32 / t;
    Times(8, t, q);
    assert n * t == q * t + 2 * t && (q + 1) * t == q * t + t;
    assert n * 0x8000_0000 * t == n * t * 0x8000_0000;
  }

  /** On a clock of 1 MHz: three calls less than 2^32 cycles apart, of which the last returns 1. */
  lemma ReturnsOne()
    ensures var counts := [0x8000_0000, 0xFFFF_FFFF, 0x1_0000_0002];
            && Spaced(1, counts)
            && ResultAt(1, MICROS, counts, 1) == 0xFFFF_FFFE && ResultAt(1, MICROS, counts, 2) == 1
  {
    var counts := [0x8000_0000, 0xFFFF_FFFF, 0x1_0000_0002];
    assert Ticks(MICROS) == U32;
    ResultIs(1, MICROS, counts, 1);
    ResultIs(1, MICROS, counts, 2);
  }

  // ---- The code ----

  class Timer {
    var totalCycles: nat
    var lastCycles: nat
    var ticksToUs: nat
    var bootTs: nat

    function State(): Clock
      reads this
    {
      Clock(totalCycles, lastCycles, ticksToUs, bootTs)
    }

    /** `reading` is the cycle counter's first value, or the fallback timer's when that is zero. */
    constructor (reading: nat, hz: nat)
      requires reading < U32 && hz > 0
      ensures State() == Started(reading, hz)
    {
      lastCycles := reading;
      ticksToUs := MICROS * U32 / hz;
      totalCycles := reading;
      bootTs := Micros(reading, MICROS * U32 / hz);
    }

    method GetTimestamp(cycles: nat) returns (ts: nat)
      requires cycles < U32 && lastCycles < U32
      modifies this
      ensures State() == Updated(old(State()), cycles) && ts == Result(State())
    {
      var delta := Delta(cycles, lastCycles);
      totalCycles := (totalCycles + delta) % U64;
      lastCycles := cycles;
      var now := totalCycles * ticksToUs % U64 / U32;
      ts := (now - bootTs) % U64;
    }

    method GetTimestamp48(cycles: nat) returns (ts: nat)
      requires cycles < U32 && lastCycles < U32
      modifies this
      ensures State() == Updated(old(State()), cycles)
      ensures ts == Result(State()) % 0x1_0000_0000_0000
    {
      var full := GetTimestamp(cycles);
      ts := full % U48;
    }
  }
}
