// The virtqueue layout macros of kernel/virtio.c against the legacy layout of
// VIRTIO 1.1, section 2.6.2.
module VirtqLayout {
  import opened Bits

  const PAGE: int := 0x1000
  const VIRTQ_RX: int := 0x70ff_0000
  const VIRTQ_TX: int := 0x71ff_0000

  // ((x) + 0x1000) & ~(0x1000 - 1), in 64 bits.
  function Align(x: nat): nat { And((x + PAGE) % U64_LEN, U64_LEN - PAGE) }

  // What the specification's ALIGN means.
  function RoundUp(x: nat): nat { (x + PAGE - 1) / PAGE * PAGE }

  lemma AlignIs(x: nat)
    requires x < U64_LEN - PAGE
    ensures Align(x) == (x / PAGE + 1) * PAGE
    ensures x < Align(x) <= x + PAGE && Align(x) % 4 == 0
  {
    Powers();
    Pow2Sum(32, 32);
    DivMod(x + PAGE, U64_LEN, 0, x + PAGE);
    AndHigh(x + PAGE, 12, 64);
    DivMod(x + PAGE, PAGE, x / PAGE + 1, x % PAGE);
    DivMod((x / PAGE + 1) * PAGE, 4, (x / PAGE + 1) * 1024, 0);
  }

  // The macro rounds up correctly except on exact multiples of a page.
  lemma AlignIsRoundUp(x: nat)
    requires x < U64_LEN - PAGE
    ensures Align(x) == RoundUp(x) <==> x % PAGE != 0
  {
    AlignIs(x);
    var q, r := x / PAGE, x % PAGE;
    if r == 0 { DivMod(x + PAGE - 1, PAGE, q, PAGE - 1); } else { DivMod(x + PAGE - 1, PAGE, q + 1, r - 1); }
  }

  // --- offsets from the start of a queue of q entries ---

  function DescEnd(q: nat): nat { 16 * q }
  function AvailStart(q: nat): nat { 16 * q }
  function AvailEnd(q: nat): nat { 16 * q + 2 * (3 + q) } // with used_event
  function UsedStart(q: nat): nat { Align(16 * q + 2 * (3 + q)) }
  function UsedEnd(q: nat): nat { UsedStart(q) + 2 * 3 + 8 * q } // with avail_event
  function VirtqSize(q: nat): nat { Align(16 * q + 2 * (3 + q)) + Align(2 * 3 + 8 * q) }

  // VIRTQ_AVAIL_USED_EVENT and VIRTQ_USED_USED_EVENT.
  function UsedEvent(q: nat): nat { AvailStart(q) + 2 * (2 + q) }
  function AvailEvent(q: nat): nat { UsedStart(q) + 2 * 2 + 8 * q }

  lemma {:induction false} PowerEven(k: nat)
    requires k >= 1
    ensures Pow2(k) % 2 == 0
  {}

  // Both operands of ALIGN are even but not multiples of four, or the queue
  // has a single entry.
  lemma OperandsNotAligned(k: nat)
    requires k <= 15
    ensures (18 * Pow2(k) + 6) % PAGE != 0 && (8 * Pow2(k) + 6) % PAGE != 0
  {
    var q := Pow2(k);
    var a, b := 18 * q + 6, 8 * q + 6;
    if k == 0 {
      assert a == 24 && b == 14;
    } else {
      PowerEven(k);
      DivMod(a, 4, 9 * (q / 2) + 1, 2);
      DivMod(b, 4, 2 * q + 1, 2);
      if a % PAGE == 0 { DivMod(a, 4, a / PAGE * 1024, 0); }
      if b % PAGE == 0 { DivMod(b, 4, b / PAGE * 1024, 0); }
    }
  }

  // The three parts, each with its event word, are disjoint, aligned as section
  // 2.6 requires and inside VIRTQ_SIZE, and the two queues do not overlap.
  ghost predicate PartsOk(q: nat) {
    && DescEnd(q) <= AvailStart(q) && AvailEnd(q) <= UsedStart(q) && UsedEnd(q) <= VirtqSize(q)
    && UsedEvent(q) + 2 == AvailEnd(q) && AvailEvent(q) + 2 == UsedEnd(q)
    && VIRTQ_RX % PAGE == 0 && VIRTQ_TX % PAGE == 0
    && AvailStart(q) % 2 == 0 && UsedStart(q) % 4 == 0
    && VIRTQ_RX + VirtqSize(q) <= VIRTQ_TX
  }

  lemma Parts(q: nat)
    requires 1 <= q <= 32768
    ensures PartsOk(q)
  {
    hide Align;
    var a, b := 16 * q + 2 * (3 + q), 2 * 3 + 8 * q;
    AlignIs(a);
    AlignIs(b);
    DivMod(16 * q, 2, 8 * q, 0);
  }

  // Both macros are the specification's rounding when neither operand is a
  // multiple of the page size, and only then.
  lemma Rounding(q: nat)
    requires 1 <= q <= 32768
    ensures (UsedStart(q) == RoundUp(AvailEnd(q)) && VirtqSize(q) == RoundUp(AvailEnd(q)) + RoundUp(6 + 8 * q))
            <==> (18 * q + 6) % PAGE != 0 && (8 * q + 6) % PAGE != 0
  {
    hide Align;
    hide RoundUp;
    assert 16 * q + 2 * (3 + q) == 18 * q + 6;
    AlignIsRoundUp(18 * q + 6);
    AlignIsRoundUp(8 * q + 6);
  }

  // So for every power of two up to 32768 the layout is the standard's.
  lemma PowerOfTwoLayout(k: nat)
    requires k <= 15
    ensures var q := Pow2(k);
            && UsedStart(q) == RoundUp(AvailEnd(q)) && VirtqSize(q) == RoundUp(AvailEnd(q)) + RoundUp(6 + 8 * q)
            && PartsOk(q)
  {
    hide PartsOk;
    hide UsedStart;
    hide RoundUp;
    hide VirtqSize;
    PowersBounded(k);
    OperandsNotAligned(k);
    Parts(Pow2(k));
    Rounding(Pow2(k));
  }

  // In numbers: where each part and each event word is, up to the rounding.
  lemma LayoutInNumbers(q: nat)
    requires 1 <= q <= 32768
    ensures AvailStart(q) == 16 * q && UsedEvent(q) == 16 * q + 2 * (2 + q)
    ensures UsedStart(q) % 4096 == 0 && 18 * q + 6 < UsedStart(q) <= 18 * q + 6 + 4096
    ensures AvailEvent(q) == UsedStart(q) + 4 + 8 * q
    ensures VirtqSize(q) % 4096 == 0 && UsedStart(q) + 8 * q + 6 < VirtqSize(q) <= UsedStart(q) + 8 * q + 6 + 4096
    ensures 0x70ff_0000 + VirtqSize(q) <= 0x71ff_0000
  {
    hide Align;
    AlignIs(18 * q + 6);
    AlignIs(8 * q + 6);
    assert 16 * q + 2 * (3 + q) == 18 * q + 6;
    var a, b := (18 * q + 6) / PAGE + 1, (8 * q + 6) / PAGE + 1;
    DivMod(a * PAGE, PAGE, a, 0);
    DivMod((a + b) * PAGE, PAGE, a + b, 0);
  }

  lemma {:induction false} PowersBounded(k: nat)
    requires k <= 15
    ensures Pow2(k) <= 32768
    decreases 15 - k
  {
    if k == 15 {
      Pow2Sum(8, 7);
      assert Pow2(8) == 256 && Pow2(7) == 128;
    } else {
      PowersBounded(k + 1);
    }
  }

  // Where ring[idx] is stored, from the start of the queue.
  function AvailSlot(q: nat, idx: nat): nat { AvailStart(q) + 2 * 2 + 2 * idx }

  // The code does not reduce the available index modulo the queue size. The
  // store lands in the slot that section 2.6.6 asks for exactly while the index
  // is below the queue size; the first index beyond it hits used_event.
  lemma UnreducedIndex(q: nat, idx: nat)
    requires q >= 1
    ensures AvailSlot(q, idx) == AvailSlot(q, idx % q) <==> idx < q
    ensures AvailSlot(q, idx) + 2 <= UsedEvent(q) <==> idx < q
    ensures AvailSlot(q, idx) == UsedEvent(q) <==> idx == q
  {
    if idx < q { DivMod(idx, q, 0, idx); }
  }
}
