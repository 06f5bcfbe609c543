// kernel/lapic_timer.c: calibration of the local APIC timer against the ACPI
// timer, and the periodic interrupt.
module LapicTimer {
  import opened Bits
  import opened PmTimer

  const INIT_VALUE: U32 := 0x8000_0000
  const CALIBRATION_MSEC: U32 := 1000

  // Times in seconds. ticks(k) is the ACPI tick at the k-th poll, made at time
  // at(k); `start` is the write of initial_count, `end` the read of
  // current_count, and the local APIC counts down at `rate` per second.
  ghost predicate Calibration(ticks: nat -> nat, at: nat -> real, phase: real, k: nat, start: real, end: real) {
    && 0.0 <= phase
    && (forall j: nat :: 0.0 <= at(j) <= at(j + 1) && ticks(j) == (phase + FREQ_HZ as real * at(j)).Floor)
    && start <= at(0) && at(k) <= end
  }

  function Counted(rate: real, start: real, end: real): int { (rate * (end - start)).Floor }

  // current_count: it stops at zero.
  function CurrentCount(rate: real, start: real, end: real): int {
    if Counted(rate, start, end) >= INIT_VALUE then 0 else INIT_VALUE - Counted(rate, start, end)
  }

  // Everything the polling adds to the second it is meant to last: the last
  // gap between polls and the delays around the wait.
  function Overshoot(at: nat -> real, k: nat, start: real, end: real): real
    requires k >= 1
  {
    (at(k) - at(k - 1)) + (at(0) - start) + (end - at(k))
  }

  lemma WaitIsOneSecond(is32: bool)
    ensures WaitTicks(is32, CALIBRATION_MSEC) == FREQ_HZ
  {}

  // The measured span is more than a second less one tick and less than a
  // second plus the overshoot.
  lemma Span(is32: bool, ticks: nat -> nat, at: nat -> real, phase: real, k: nat, start: real, end: real)
    requires Calibration(ticks, at, phase, k, start, end)
    requires k >= 1 && FirstPollAfter(ticks, WaitTicks(is32, CALIBRATION_MSEC), k)
    ensures FREQ_HZ as real * (end - start) > FREQ_HZ as real - 1.0
    ensures end - start < 1.0 + Overshoot(at, k, start, end)
  {
    WaitIsOneSecond(is32);
    var f := FREQ_HZ as real;
    assert ticks(k) >= ticks(0) + FREQ_HZ;
    assert ticks(k - 1) < ticks(0) + FREQ_HZ;
    assert phase + f * at(k) >= ticks(k) as real;
    assert phase + f * at(0) < ticks(0) as real + 1.0;
    assert f * (at(k) - at(0)) > f - 1.0;
    assert f * (at(k) - at(0)) <= f * (end - start);
    assert phase + f * at(k - 1) < ticks(k - 1) as real + 1.0;
    assert f * (at(k - 1) - at(0)) < f;
  }

  // khz is below rate/1000 by less than one plus rate/(1000*FREQ_HZ), and above
  // it by less than the rate times the overshoot.
  predicate Calibrated(khz: int, rate: real, overshoot: real) {
    rate - rate / FREQ_HZ as real - 1000.0 < 1000.0 * khz as real < rate * (1.0 + overshoot)
  }

  // The value that the calibration stores is within its error.
  lemma CalibrationError(is32: bool, ticks: nat -> nat, at: nat -> real, phase: real, k: nat, rate: real,
          start: real, end: real)
    requires Calibration(ticks, at, phase, k, start, end)
    requires k >= 1 && FirstPollAfter(ticks, WaitTicks(is32, CALIBRATION_MSEC), k)
    requires rate > 0.0 && CurrentCount(rate, start, end) != 0
    ensures Calibrated((INIT_VALUE - CurrentCount(rate, start, end)) / 1000, rate, Overshoot(at, k, start, end))
  {
    hide Calibration;
    hide FirstPollAfter;
    Span(is32, ticks, at, phase, k, start, end);
    CountBounds(rate, end - start, FREQ_HZ as real, Counted(rate, start, end), 1.0 + Overshoot(at, k, start, end));
    Thousands(Counted(rate, start, end));
  }

  lemma CountBounds(rate: real, d: real, f: real, n: int, bound: real)
    requires rate > 0.0 && f > 1.0 && f * d > f - 1.0 && d < bound && n == (rate * d).Floor
    ensures n as real > rate - rate / f - 1.0 && n as real < rate * bound && n >= 0
  {
    var u := 1.0 / f;
    assert f * u == 1.0 && rate / f == rate * u;
    var low := 1.0 - u;
    assert f * low == f - f * u;
    if d <= low { TimesMonotone(f, d, low); }
    assert f > 1.0 ==> u < 1.0 by { if u >= 1.0 { TimesMonotone(f, 1.0, u); } }
    TimesMonotone(rate, low, d);
    assert rate * low == rate - rate * u;
    TimesMonotone(rate, d, bound);
    TimesMonotone(rate, 0.0, d);
    FloorBounds(rate * d);
    assert rate * low < rate * d;
  }

  lemma FloorBounds(x: real)
    ensures x - 1.0 < x.Floor as real <= x
  {}

  lemma Thousands(n: nat)
    ensures n as real - 999.0 <= 1000.0 * (n / 1000) as real <= n as real
  {
    assert n - 999 <= 1000 * (n / 1000) <= n;
    assert 1000.0 * (n / 1000) as real == (1000 * (n / 1000)) as real;
  }

  lemma TimesMonotone(f: real, a: real, b: real)
    requires f > 0.0 && a <= b
    ensures f * a <= f * b
    ensures a < b ==> f * a < f * b
  {
    assert f * b == f * a + f * (b - a);
  }

  // --- the periodic count ---

  // A count for msec milliseconds, within msec times the calibration error.
  predicate PeriodWithin(count: int, msec: U32, rate: real, overshoot: real) {
    && msec as real * (rate - rate / FREQ_HZ as real - 1000.0) < 1000.0 * count as real
    && 1000.0 * count as real < msec as real * (rate * (1.0 + overshoot))
  }

  // Whether the 32-bit product overflows can be told before the call.
  predicate FitsCount(msec: U32, khz: U32) { khz > 0 && msec <= (U32_LEN - 1) / khz }

  lemma QuotientBound(n: nat, d: int, x: nat)
    requires d > 0
    ensures n <= x / d <==> n * d <= x
  {
    var q, r := x / d, x % d;
    assert x == q * d + r;
    if n <= q { Products(n, q, d); } else { Products(q + 1, n, d); }
  }

  lemma Products(a: int, b: int, d: int)
    requires a <= b && d > 0
    ensures a * d <= b * d
  {
    assert b * d == a * d + (b - a) * d;
  }

  lemma Reduced(x: nat)
    ensures x % U32_LEN == x <==> x < U32_LEN
    ensures x >= U32_LEN ==> x % U32_LEN <= x - U32_LEN
  {}

  lemma ProductFits(msec: U32, khz: U32)
    requires khz > 0
    ensures msec * khz % U32_LEN == msec * khz <==> FitsCount(msec, khz)
    ensures !FitsCount(msec, khz) ==> msec * khz % U32_LEN <= msec * khz - U32_LEN
  {
    var x := msec * khz;
    assert x >= 0;
    QuotientBound(msec, khz, U32_LEN - 1);
    Reduced(x);
  }

  lemma PeriodScales(msec: U32, khz: U32, rate: real, overshoot: real)
    requires msec > 0 && Calibrated(khz, rate, overshoot)
    ensures PeriodWithin(msec * khz, msec, rate, overshoot)
  {
    var m := msec as real;
    assert 1000.0 * (msec * khz) as real == m * (1000.0 * khz as real);
    TimesMonotone(m, rate - rate / FREQ_HZ as real - 1000.0, 1000.0 * khz as real);
    TimesMonotone(m, 1000.0 * khz as real, rate * (1.0 + overshoot));
  }

  // End to end: after a calibration the periodic count is the true one, within
  // msec times the calibration error, if the product fits 32 bits, which can be
  // told beforehand and holds for every msec up to 2000; otherwise the count is
  // 2^32 or more too small.
  lemma PeriodicError(is32: bool, ticks: nat -> nat, at: nat -> real, phase: real, k: nat, rate: real, start: real,
          end: real,
                      khz: U32, msec: U32)
    requires Calibration(ticks, at, phase, k, start, end)
    requires k >= 1 && FirstPollAfter(ticks, WaitTicks(is32, CALIBRATION_MSEC), k)
    requires rate > 0.0 && CurrentCount(rate, start, end) != 0
    requires khz == (INIT_VALUE - CurrentCount(rate, start, end)) / 1000 && khz > 0 && msec > 0
    ensures var count := msec * khz % 0x1_0000_0000;
            var overshoot := (at(k) - at(k - 1)) + (at(0) - start) + (end - at(k));
            if msec <= 0xFFFF_FFFF / khz then
              && msec as real * (rate - rate / 3579545.0 - 1000.0) < 1000.0 * count as real
              && 1000.0 * count as real < msec as real * (rate * (1.0 + overshoot))
            else count <= msec * khz - 0x1_0000_0000
    ensures msec <= 2000 ==> msec <= 0xFFFF_FFFF / khz
  {
    hide Calibration;
    hide FirstPollAfter;
    hide Calibrated;
    CalibrationError(is32, ticks, at, phase, k, rate, start, end);
    ProductFits(msec, khz);
    PeriodScales(msec, khz, rate, Overshoot(at, k, start, end));
    SpanPositive(is32, ticks, at, phase, k, rate, start, end);
    SmallFits(msec, khz);
  }

  // The counter only counts down.
  lemma SpanPositive(is32: bool, ticks: nat -> nat, at: nat -> real, phase: real, k: nat, rate: real, start: real,
          end: real)
    requires Calibration(ticks, at, phase, k, start, end)
    requires k >= 1 && FirstPollAfter(ticks, WaitTicks(is32, CALIBRATION_MSEC), k) && rate > 0.0
    ensures 0 <= CurrentCount(rate, start, end) <= INIT_VALUE
  {
    hide FirstPollAfter;
    Span(is32, ticks, at, phase, k, start, end);
    CountBounded(rate, start, end);
  }

  lemma SmallFits(msec: U32, khz: U32)
    requires 0 < khz <= INIT_VALUE / 1000
    ensures msec <= 2000 ==> FitsCount(msec, khz)
  {
    if msec <= 2000 {
      Products(msec, 2000, khz);
      QuotientBound(msec, khz, U32_LEN - 1);
    }
  }

  lemma CountBounded(rate: real, start: real, end: real)
    requires rate > 0.0 && start <= end
    ensures 0 <= CurrentCount(rate, start, end) <= INIT_VALUE
  {
    TimesMonotone(rate, 0.0, end - start);
  }

  // --- the registers ---

  const MODE_ONESHOT: U32 := 0
  const MODE_PERIODIC: U32 := 1
  const LAPIC_INTERRUPT_ID: int := 140

  function Vector(lvt: U32): int { lvt % 0x100 }
  function DeliveryStatus(lvt: U32): int { lvt / 0x1000 % 2 }
  predicate Masked(lvt: U32) { lvt / 0x1_0000 % 2 == 1 }
  function Mode(lvt: U32): int { lvt / 0x2_0000 }

  function LvtWord(vector: int, delivery: int, masked: bool, mode: int): int {
    vector + delivery * 0x1000 + (if masked then 0x1_0000 else 0) + mode * 0x2_0000
  }

  lemma LvtFields(vector: int, delivery: int, masked: bool, mode: int)
    requires 0 <= vector < 0x100 && 0 <= delivery < 2 && 0 <= mode < 4
    ensures var w := LvtWord(vector, delivery, masked, mode);
            && 0 <= w < U32_LEN && Vector(w) == vector && DeliveryStatus(w) == delivery && (Masked(w) <==> masked) && Mode(w) == mode
  {
    var b := if masked then 1 else 0;
    var w := LvtWord(vector, delivery, masked, mode);
    DivMod(w, 0x100, delivery * 0x10 + b * 0x100 + mode * 0x200, vector);
    DivMod(w, 0x1000, delivery + b * 0x10 + mode * 0x20, vector);
    DivMod(delivery + b * 0x10 + mode * 0x20, 2, b * 8 + mode * 0x10, delivery);
    DivMod(w, 0x1_0000, b + mode * 2, vector + delivery * 0x1000);
    DivMod(b + mode * 2, 2, mode, b);
    DivMod(w, 0x2_0000, mode, vector + delivery * 0x1000 + b * 0x1_0000);
  }

  // The divisor that bits 3, 1 and 0 select (Intel SDM Vol. 3A, APIC timer).
  function DivideBy(config: U32): int {
    var code := config / 8 % 2 * 4 + config % 4;
    if code == 7 then 1 else 2 * Pow2(code)
  }

  // Clearing bits 3, 1 and 0.
  lemma ClearDivide(x: U32)
    ensures And(x, 0xFFFF_FFF4) == x / 16 * 16 + x / 4 % 2 * 4
  {
    Pow2Sum(16, 12);
    Powers();
    assert Pow2(16) == 0x1_0000;
    AndMask(x / 2 / 2 / 2 / 2, 28);
    DivMod(x / 16, 0x1000_0000, 0, x / 16);
    assert x / 2 / 2 == x / 4 && x / 2 / 2 / 2 / 2 == x / 16;
    assert And(x / 2 / 2 / 2, 0x1FFF_FFFE) == 2 * And(x / 2 / 2 / 2 / 2, 0xFFF_FFFF);
    assert And(x / 2 / 2, 0x3FFF_FFFD) == x / 2 / 2 % 2 + 2 * And(x / 2 / 2 / 2, 0x1FFF_FFFE);
    assert And(x / 2, 0x7FFF_FFFA) == 2 * And(x / 2 / 2, 0x3FFF_FFFD);
  }

  lemma DivideByOne(x: U32)
    ensures var y := x / 16 * 16 + x / 4 % 2 * 4 + 11;
            y < U32_LEN && DivideBy(y) == 1 && y % 4 == 3 && y / 8 % 2 == 1 && y / 16 == x / 16 && y / 4 % 2 == x / 4 % 2
  {
    var q, b := x / 16, x / 4 % 2;
    var y := q * 16 + b * 4 + 11;
    DivMod(y, 16, q, b * 4 + 11);
    DivMod(y, 8, q * 2 + 1, b * 4 + 3);
    DivMod(y, 4, q * 4 + 2 + b, 3);
    DivMod(q * 4 + 2 + b, 2, q * 2 + 1, b);
    DivMod(q * 2 + 1, 2, q, 1);
  }

  class Timer<Callback(==)> {
    var freqKhz: U32
    var lvt: U32
    var divideConfig: U32
    var initialCount: U32
    var callback: seq<Callback> // reserved_callback; empty before the first call

    // An interruptId of -1 masks the timer and clears the vector.
    method SetLvtTimer(mode: U32, interruptId: int)
      requires mode <= 1 && -1 <= interruptId
      modifies this`lvt
      ensures Vector(lvt) == (if interruptId == -1 then 0 else interruptId % 0x100)
      ensures DeliveryStatus(lvt) == DeliveryStatus(old(lvt)) && Mode(lvt) == mode
               && (Masked(lvt) <==> interruptId == -1)
      ensures lvt == (if interruptId == -1 then 0x1_0000 else interruptId % 0x100) + old(lvt) / 0x1000 % 2 * 0x1000 + mode * 0x2_0000
    {
      hide And;
      Powers();
      AndBit(lvt, 12);
      var deliveryStatus := And(lvt, 0x1000);
      LvtFields(if interruptId == -1 then 0 else interruptId % 0x100, DeliveryStatus(lvt), interruptId == -1, mode);
      if interruptId == -1 {
        lvt := deliveryStatus + 0x1_0000 + mode * 0x2_0000;
      } else {
        assert Pow2(8) == 0x100;
        AndMask(interruptId, 8);
        lvt := And(interruptId, 0xFF) + deliveryStatus + mode * 0x2_0000;
      }
    }

    method SetDivideByOne()
      modifies this`divideConfig
      ensures DivideBy(divideConfig) == 1 && divideConfig % 4 == 3 && divideConfig / 8 % 2 == 1
      ensures divideConfig / 16 == old(divideConfig) / 16 && divideConfig / 4 % 2 == old(divideConfig) / 4 % 2
    {
      hide And;
      ClearDivide(divideConfig);
      DivideByOne(divideConfig);
      divideConfig := And(divideConfig, 0xFFFF_FFF4) + 11;
    }

    // raw, ticks, at, phase, rate and start describe the hardware during this
    // call; readAt gives the time of the last read by the number of polls. The
    // result is the return value, 0xffffffff if the counter ran out.
    method MeasureFreqKhz(is32: bool, raw: nat -> U32, ghost ticks: nat -> nat, ghost last: nat,
                          rate: real, start: real, readAt: nat -> real, ghost at: nat -> real, ghost phase: real)
      returns (khz: U32, ghost k: nat)
      requires PollSchedule(is32, raw, ticks, last) && rate > 0.0 && forall j: nat :: start <= readAt(j)
      modifies this
      ensures k >= 1 && FirstPollAfter(ticks, WaitTicks(is32, CALIBRATION_MSEC), k)
      ensures Mode(lvt) == MODE_ONESHOT && Masked(lvt) && Vector(lvt) == 0
               && DeliveryStatus(lvt) == DeliveryStatus(old(lvt))
      ensures lvt == 0x1_0000 + old(lvt) / 0x1000 % 2 * 0x1000 && divideConfig % 4 == 3 && divideConfig / 8 % 2 == 1
      ensures DivideBy(divideConfig) == 1 && initialCount == 0x8000_0000 && callback == old(callback)
      ensures var left := CurrentCount(rate, start, readAt(k));
              if left == 0 then khz == 0xFFFF_FFFF && freqKhz == old(freqKhz)
              else khz == freqKhz == (0x8000_0000 - left) / 1000
      ensures CurrentCount(rate, start, readAt(k)) != 0 && Calibration(ticks, at, phase, k, start, readAt(k))
              ==> Calibrated(freqKhz, rate, Overshoot(at, k, start, readAt(k)))
    {
      hide Calibration;
      hide Calibrated;
      hide FirstPollAfter;
      hide ExitsAt;
      hide Crosses;
      hide Schedule;
      hide SmallGaps;
      hide WaitTicks;
      hide CurrentCount;
      hide Overshoot;
      hide LvtWord;
      hide Masked;
      hide DivideBy;
      SetLvtTimer(MODE_ONESHOT, -1);
      SetDivideByOne();
      initialCount := INIT_VALUE;
      ghost var end := SmallGapsEnd(is32, WaitTicks(is32, CALIBRATION_MSEC), raw, ticks, last);
      var polls := WaitMillisec(is32, CALIBRATION_MSEC, raw, ticks, end);
      k := polls;
      CountBounded(rate, start, readAt(polls));
      var left := CurrentCount(rate, start, readAt(polls));
      if left == 0 {
        return 0xFFFF_FFFF, k;
      }
      freqKhz := (INIT_VALUE - left) / 1000;
      khz := freqKhz;
      if Calibration(ticks, at, phase, k, start, readAt(k)) {
        CalibrationError(is32, ticks, at, phase, k, rate, start, readAt(k));
      }
    }

    // Whatever the rate and overshoot that the stored frequency was calibrated
    // with, the count is right within the calibration error if it fits 32 bits.
    method PeriodicExec(msec: U32, handler: Callback)
      modifies this
      ensures freqKhz == old(freqKhz)
      ensures old(freqKhz) == 0 ==> unchanged(this)
      ensures old(freqKhz) != 0 ==>
                && Mode(lvt) == MODE_PERIODIC && !Masked(lvt) && Vector(lvt) == LAPIC_INTERRUPT_ID && DivideBy(divideConfig) == 1
                && callback == [handler] && initialCount == msec * freqKhz % U32_LEN
                && (initialCount == msec * freqKhz <==> FitsCount(msec, freqKhz))
      ensures old(freqKhz) != 0 ==> lvt == 140 + old(lvt) / 0x1000 % 2 * 0x1000 + 0x2_0000
      ensures FitsCount(msec, freqKhz) && msec > 0 ==>
                forall rate, overshoot :: Calibrated(freqKhz, rate, overshoot) ==> PeriodWithin(initialCount, msec, rate, overshoot)
      ensures freqKhz != 0 && !FitsCount(msec, freqKhz) ==> initialCount <= msec * freqKhz - U32_LEN
    {
      hide Calibrated;
      hide PeriodWithin;
      if freqKhz == 0 {
        return;
      }
      callback := [handler];
      SetLvtTimer(MODE_PERIODIC, LAPIC_INTERRUPT_ID);
      SetDivideByOne();
      ProductFits(msec, freqKhz);
      initialCount := msec * freqKhz % U32_LEN;
      if FitsCount(msec, freqKhz) && msec > 0 {
        forall rate, overshoot | Calibrated(freqKhz, rate, overshoot)
          ensures PeriodWithin(initialCount, msec, rate, overshoot)
        {
          PeriodScales(msec, freqKhz, rate, overshoot);
        }
      }
    }
  }
}
