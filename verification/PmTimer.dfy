// kernel/pm_timer.c: waiting on a wrapping counter.
module PmTimer {
  import opened Bits

  const FREQ_HZ: int := 3579545

  type U32 = x: int | 0 <= x < 0x1_0000_0000

  function Mask(is32: bool): U32 { if is32 then 0xFFFF_FFFF else 0xFF_FFFF }
  function HighestBit(is32: bool): U32 { if is32 then 0x8000_0000 else 0x80_0000 }
  function Period(is32: bool): int { if is32 then 0x1_0000_0000 else 0x100_0000 }

  // -1 if cur is in the half period before target, 1 if in the half after it.
  function HalfState(is32: bool, cur: U32, target: U32): int {
    if And(And((cur - target) % U32_LEN, Mask(is32)), HighestBit(is32)) != 0 then -1 else 1
  }

  lemma MaskIs(is32: bool, x: nat)
    ensures And(x, Mask(is32)) == x % Period(is32)
  {
    Powers();
    AndMask(x, if is32 then 32 else 24);
  }

  lemma HighestBitIs(is32: bool, x: nat)
    requires x < Period(is32)
    ensures And(x, HighestBit(is32)) != 0 <==> x >= Period(is32) / 2
  {
    Powers();
    AndBit(x, if is32 then 31 else 23);
    var h := HighestBit(is32);
    if x >= h { DivMod(x, h, 1, x - h); } else { DivMod(x, h, 0, x); }
  }

  lemma ModPeriod(is32: bool, x: int)
    ensures x % U32_LEN % Period(is32) == x % Period(is32)
  {
    var q, r := x / U32_LEN, x % U32_LEN;
    var p := Period(is32);
    assert x == q * U32_LEN + r;
    if !is32 {
      DivMod(x, p, q * 256 + r / p, r % p);
    } else {
      DivMod(r, p, 0, r);
    }
  }

  lemma HalfStateIs(is32: bool, cur: U32, target: U32)
    ensures HalfState(is32, cur, target) == if (cur - target) % Period(is32) >= Period(is32) / 2 then -1 else 1
  {
    var x := (cur - target) % U32_LEN;
    MaskIs(is32, x);
    ModPeriod(is32, cur - target);
    HighestBitIs(is32, x % Period(is32));
  }

  // --- the target ---

  // t1 as the code computes it: a u64 sum, truncated to u32 and masked.
  function TargetTime(is32: bool, t0: U32, msec: U32): (t1: U32) {
    var sum := (t0 + msec * FREQ_HZ % U64_LEN / 1000) % U64_LEN;
    MaskIs(is32, sum % U32_LEN);
    And(sum % U32_LEN, Mask(is32))
  }

  // The number of ticks in msec milliseconds, as the code rounds it.
  function TickCount(msec: U32): nat { msec * FREQ_HZ / 1000 }

  // How long the loop waits: the count modulo the period, in 1..period.
  function WaitTicks(is32: bool, msec: U32): (w: int)
    ensures 0 < w <= Period(is32)
    ensures 0 < TickCount(msec) <= Period(is32) ==> w == TickCount(msec)
  {
    var n := TickCount(msec) % Period(is32);
    if n == 0 then Period(is32) else n
  }

  lemma WaitTicksCongruent(is32: bool, msec: U32)
    ensures WaitTicks(is32, msec) % Period(is32) == TickCount(msec) % Period(is32)
  {}

  // In numbers: n is msec milliseconds at 3579545 Hz, rounded down, and the wait
  // is n ticks if that is between 1 and a period, and congruent to it otherwise.
  lemma WaitIs(is32: bool, msec: U32)
    ensures var n, w := TickCount(msec), WaitTicks(is32, msec);
            var p := if is32 then 0x1_0000_0000 else 0x100_0000;
            && 1000 * n <= msec * 3579545 < 1000 * (n + 1)
            && 0 < w <= p && w % p == n % p && (0 < n <= p ==> w == n)
  {
    var x := msec * 3579545;
    assert x == 1000 * (x / 1000) + x % 1000;
  }

  // The state seen w - x ticks before the target, or x - w after it.
  function StateAt(is32: bool, w: int, x: int): int {
    if (x - w) % Period(is32) >= Period(is32) / 2 then -1 else 1
  }

  // t is the absolute tick at the first read; the masked reads and the masked
  // target see exactly the elapsed ticks modulo the period.
  lemma ReadState(is32: bool, msec: U32, t: int, x: int, cur: U32, target: U32)
    requires cur % Period(is32) == (t + x) % Period(is32)
    requires target % Period(is32) == (t + TickCount(msec)) % Period(is32)
    ensures HalfState(is32, cur, target) == StateAt(is32, WaitTicks(is32, msec), x)
  {
    var p := Period(is32);
    HalfStateIs(is32, cur, target);
    WaitTicksCongruent(is32, msec);
    Congruent(cur - target, x - WaitTicks(is32, msec), p,
              cur / p - (t + x) / p - (target / p - (t + TickCount(msec)) / p)
              - (TickCount(msec) / p - WaitTicks(is32, msec) / p));
  }

  lemma Congruent(a: int, b: int, p: int, k: int)
    requires p > 0 && a == b + k * p
    ensures a % p == b % p
  {
    assert b == b / p * p + b % p;
    assert a == (b / p + k) * p + b % p;
    DivMod(a, p, b / p + k, b % p);
  }

  // Before the target, the state is -1 exactly in the last half period.
  lemma StateBefore(is32: bool, w: int, x: int)
    requires 0 <= x < w <= Period(is32)
    ensures StateAt(is32, w, x) == -1 <==> w - x <= Period(is32) / 2
  {
    var p := Period(is32);
    if w - x == p {
      DivMod(x - w, p, -1, 0);
    } else {
      DivMod(x - w, p, -1, x - w + p);
    }
  }

  lemma StateAfter(is32: bool, w: int, x: int)
    requires w <= x < w + Period(is32) / 2
    ensures StateAt(is32, w, x) == 1
  {}

  // A pair of polls on either side of the target shows the -1 to 1 transition
  // exactly when each is within half a period of it.
  lemma CrossingSeen(is32: bool, w: int, x: int, y: int)
    requires 0 <= x < w <= y < w + Period(is32) && w <= Period(is32)
    ensures (StateAt(is32, w, x) == -1 && StateAt(is32, w, y) == 1)
            <==> (w - x <= Period(is32) / 2 && y - w < Period(is32) / 2)
  {
    StateBefore(is32, w, x);
    DivMod(y - w, Period(is32), 0, y - w);
  }

  // The bound on the gap between polls is tight: one tick more and a crossing
  // can be missed, whatever the wait.
  lemma GapBoundTight(is32: bool, msec: U32)
    ensures var w, h := WaitTicks(is32, msec), Period(is32) / 2;
            var x, y := w - 1, w + h;
            y - x == h + 1 && !(StateAt(is32, w, x) == -1 && StateAt(is32, w, y) == 1)
  {
    CrossingSeen(is32, WaitTicks(is32, msec), WaitTicks(is32, msec) - 1, WaitTicks(is32, msec) + Period(is32) / 2);
  }

  // --- the loop ---

  // ticks(k) is the absolute tick at the k-th read and raw(k) the value read:
  // any 32-bit value whose low bits are the counter.
  ghost predicate Schedule(is32: bool, raw: nat -> U32, ticks: nat -> nat) {
    && (forall k: nat :: raw(k) % Period(is32) == ticks(k) % Period(is32))
    && (forall k: nat :: ticks(k) <= ticks(k + 1))
  }

  ghost predicate SmallGaps(is32: bool, ticks: nat -> nat) {
    forall k: nat :: ticks(k + 1) <= ticks(k) + Period(is32) / 2
  }

  // Gaps are at most half a period, and the counter keeps running.
  ghost predicate PollSchedule(is32: bool, raw: nat -> U32, ticks: nat -> nat, end: nat) {
    Schedule(is32, raw, ticks) && SmallGaps(is32, ticks) && ticks(end) >= ticks(0) + Period(is32)
  }

  // Polls k - 1 and k show the transition that the loop waits for.
  ghost predicate Crosses(is32: bool, w: int, ticks: nat -> nat, k: nat) {
    k >= 1 && StateAt(is32, w, ticks(k - 1) - ticks(0)) == -1 && StateAt(is32, w, ticks(k) - ticks(0)) == 1
  }

  ghost predicate ExitsAt(is32: bool, w: int, ticks: nat -> nat, k: nat) {
    Crosses(is32, w, ticks, k) && forall j: nat | j < k :: !Crosses(is32, w, ticks, j)
  }

  // The first poll at or after w elapsed ticks.
  ghost predicate FirstPollAfter(ticks: nat -> nat, w: int, k: nat) {
    ticks(k) >= ticks(0) + w && forall j: nat | j < k :: ticks(j) < ticks(0) + w
  }

  lemma {:induction false} TicksMonotone(is32: bool, raw: nat -> U32, ticks: nat -> nat, j: nat, k: nat)
    requires Schedule(is32, raw, ticks) && j <= k
    ensures ticks(j) <= ticks(k)
    decreases k - j
  {
    if j == k {
    } else {
      TicksMonotone(is32, raw, ticks, j + 1, k);
    }
  }

  // Read k, masked, seen against the target.
  lemma PollState(is32: bool, msec: U32, raw: nat -> U32, ticks: nat -> nat, k: nat, target: U32)
    requires Schedule(is32, raw, ticks) && ticks(0) <= ticks(k)
    requires target % Period(is32) == (ticks(0) + TickCount(msec)) % Period(is32)
    ensures 0 <= And(raw(k), Mask(is32)) < U32_LEN
    ensures HalfState(is32, And(raw(k), Mask(is32)), target) == StateAt(is32, WaitTicks(is32, msec), ticks(k) - ticks(0))
  {
    MaskIs(is32, raw(k));
    var cur := raw(k) % Period(is32);
    DivMod(cur, Period(is32), 0, cur);
    ReadState(is32, msec, ticks(0), ticks(k) - ticks(0), cur, target);
  }

  // Whatever the gaps, no transition shows before the target.
  lemma NoEarlyCrossing(is32: bool, w: int, x: int, y: int)
    requires 0 <= x <= y < w <= Period(is32)
    ensures !(StateAt(is32, w, x) == -1 && StateAt(is32, w, y) == 1)
  {
    StateBefore(is32, w, x);
    StateBefore(is32, w, y);
  }

  lemma NeverEarly(is32: bool, w: int, raw: nat -> U32, ticks: nat -> nat, k: nat)
    requires Schedule(is32, raw, ticks) && 0 < w <= Period(is32) && Crosses(is32, w, ticks, k)
    ensures ticks(k) >= ticks(0) + w
  {
    hide StateAt;
    TicksMonotone(is32, raw, ticks, 0, k - 1);
    TicksMonotone(is32, raw, ticks, k - 1, k);
    if ticks(k) < ticks(0) + w {
      NoEarlyCrossing(is32, w, ticks(k - 1) - ticks(0), ticks(k) - ticks(0));
    }
  }

  // For every schedule: the loop ends at the first poll that has reached the
  // target if and only if the poll before it was within half a period of the
  // target and this one is, modulo the period, less than half a period past it.
  lemma ExitsFirstIff(is32: bool, w: int, raw: nat -> U32, ticks: nat -> nat, k: nat)
    requires Schedule(is32, raw, ticks) && 0 < w <= Period(is32) && FirstPollAfter(ticks, w, k)
    ensures k >= 1
    ensures ExitsAt(is32, w, ticks, k) <==>
            && ticks(0) + w - ticks(k - 1) <= Period(is32) / 2
            && (ticks(k) - ticks(0) - w) % Period(is32) < Period(is32) / 2
  {
    TicksMonotone(is32, raw, ticks, 0, k - 1);
    StateBefore(is32, w, ticks(k - 1) - ticks(0));
    forall j: nat | j < k ensures !Crosses(is32, w, ticks, j) {
      if Crosses(is32, w, ticks, j) { NeverEarly(is32, w, raw, ticks, j); }
    }
  }

  // With a gap of at most half a period the transition shows exactly at the
  // first poll that has reached the target.
  lemma Detects(is32: bool, w: int, x: int, y: int)
    requires 0 <= x < w <= Period(is32) && x <= y <= x + Period(is32) / 2
    ensures StateAt(is32, w, x) == -1 && StateAt(is32, w, y) == 1 <==> y >= w
  {
    StateBefore(is32, w, x);
    if y < w { StateBefore(is32, w, y); } else { StateAfter(is32, w, y); }
  }

  lemma {:induction false} BeforeExit(is32: bool, w: int, raw: nat -> U32, ticks: nat -> nat, k: nat, j: nat)
    requires Schedule(is32, raw, ticks) && SmallGaps(is32, ticks) && 0 < w <= Period(is32)
    requires j < k && forall i: nat | i < k :: !Crosses(is32, w, ticks, i)
    ensures ticks(j) < ticks(0) + w
    decreases j
  {
    hide StateAt;
    if j == 0 {
    } else {
      BeforeExit(is32, w, raw, ticks, k, j - 1);
      TicksMonotone(is32, raw, ticks, 0, j - 1);
      TicksMonotone(is32, raw, ticks, j - 1, j);
      assert ticks((j - 1) + 1) <= ticks(j - 1) + Period(is32) / 2;
      Detects(is32, w, ticks(j - 1) - ticks(0), ticks(j) - ticks(0));
      assert !Crosses(is32, w, ticks, j);
    }
  }

  // Under the gap bound the loop ends, and at the first poll after w ticks.
  lemma SmallGapsFirst(is32: bool, w: int, raw: nat -> U32, ticks: nat -> nat, k: nat)
    requires Schedule(is32, raw, ticks) && SmallGaps(is32, ticks) && 0 < w <= Period(is32) && ExitsAt(is32, w, ticks, k)
    ensures FirstPollAfter(ticks, w, k)
  {
    hide StateAt;
    NeverEarly(is32, w, raw, ticks, k);
    forall j: nat | j < k ensures ticks(j) < ticks(0) + w { BeforeExit(is32, w, raw, ticks, k, j); }
  }

  lemma SmallGapsEnd(is32: bool, w: int, raw: nat -> U32, ticks: nat -> nat, end: nat) returns (k: nat)
    requires PollSchedule(is32, raw, ticks, end) && 0 < w <= Period(is32)
    ensures k <= end && Crosses(is32, w, ticks, k)
  {
    if forall i: nat | i < end + 1 :: !Crosses(is32, w, ticks, i) {
      BeforeExit(is32, w, raw, ticks, end + 1, end);
      assert false;
    } else {
      k :| k < end + 1 && Crosses(is32, w, ticks, k);
    }
  }

  // The loop ends if some pair of polls shows the transition, at the first such
  // pair; `end` is one.
  method WaitMillisec(is32: bool, msec: U32, raw: nat -> U32, ghost ticks: nat -> nat, ghost end: nat) returns (k: nat)
    requires Schedule(is32, raw, ticks) && Crosses(is32, WaitTicks(is32, msec), ticks, end)
    ensures k <= end && ExitsAt(is32, WaitTicks(is32, msec), ticks, k)
    ensures k >= 1 && ticks(k) >= ticks(0) + WaitTicks(is32, msec)
    ensures SmallGaps(is32, ticks) ==> FirstPollAfter(ticks, WaitTicks(is32, msec), k)
  {
    hide And;
    hide HalfState;
    hide StateAt;
    hide WaitTicks;
    hide TargetTime;
    hide TickCount;
    hide Mask;
    hide Period;
    hide Schedule;
    hide SmallGaps;
    var t0, t1 := FirstRead(is32, msec, raw, ticks);
    ghost var w := WaitTicks(is32, msec);
    var curState := HalfState(is32, t0, t1);
    k := 0;
    while true
      invariant k < end && forall j: nat | j <= k :: !Crosses(is32, w, ticks, j)
      invariant curState == StateAt(is32, w, ticks(k) - ticks(0))
      decreases end - k
    {
      k := k + 1;
      TicksMonotone(is32, raw, ticks, 0, k);
      PollState(is32, msec, raw, ticks, k, t1);
      var cur: U32 := And(raw(k), Mask(is32));
      var nextState := HalfState(is32, cur, t1);
      if curState == -1 && nextState == 1 {
        break;
      }
      curState := nextState;
    }
    NeverEarly(is32, w, raw, ticks, k);
    if SmallGaps(is32, ticks) { SmallGapsFirst(is32, w, raw, ticks, k); }
  }

  // t0 and t1.
  method FirstRead(is32: bool, msec: U32, raw: nat -> U32, ghost ticks: nat -> nat) returns (t0: U32, t1: U32)
    requires Schedule(is32, raw, ticks)
    ensures t1 % Period(is32) == (ticks(0) + TickCount(msec)) % Period(is32)
    ensures HalfState(is32, t0, t1) == StateAt(is32, WaitTicks(is32, msec), 0)
  {
    hide And;
    hide HalfState;
    hide StateAt;
    hide WaitTicks;
    hide TargetTime;
    hide TickCount;
    hide Mask;
    TargetIs(is32, msec, raw(0), ticks(0));
    MaskIs(is32, raw(0));
    t0 := And(raw(0), Mask(is32));
    t1 := TargetTime(is32, t0, msec);
    PollState(is32, msec, raw, ticks, 0, t1);
  }

  // The u64 product and the u32 truncation keep the target modulo the period.
  lemma TargetIs(is32: bool, msec: U32, raw: U32, t: nat)
    requires raw % Period(is32) == t % Period(is32)
    ensures TargetTime(is32, raw % Period(is32), msec) % Period(is32) == (t + TickCount(msec)) % Period(is32)
  {
    var p := Period(is32);
    var t0 := raw % p;
    var n := TickCount(msec);
    assert msec * FREQ_HZ < U64_LEN && t0 + n < U64_LEN;
    DivMod(msec * FREQ_HZ, U64_LEN, 0, msec * FREQ_HZ);
    DivMod(t0 + n, U64_LEN, 0, t0 + n);
    MaskIs(is32, (t0 + n) % U32_LEN);
    ModPeriod(is32, t0 + n);
    Congruent(t + n, t0 + n, p, t / p);
    var t1 := (t0 + n) % p;
    DivMod(t1, p, 0, t1);
  }

  // With a tick or more between polls there are at most w polls.
  lemma {:induction false} AtMostWPolls(ticks: nat -> nat, w: nat, k: nat)
    requires FirstPollAfter(ticks, w, k) && w > 0
    requires forall j: nat :: ticks(j) + 1 <= ticks(j + 1)
    ensures k <= w
  {
    if k == 0 {
    } else {
      AtLeastOneEach(ticks, k - 1);
      assert ticks(k - 1) < ticks(0) + w;
    }
  }

  lemma {:induction false} AtLeastOneEach(ticks: nat -> nat, k: nat)
    requires forall j: nat :: ticks(j) + 1 <= ticks(j + 1)
    ensures ticks(k) >= ticks(0) + k
  {
    if k == 0 {
    } else {
      AtLeastOneEach(ticks, k - 1);
    }
  }
}
