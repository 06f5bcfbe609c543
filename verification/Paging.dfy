// The page tables of kernel/memory.c: where they lie in physical memory, the
// processor's 4-level walk over them, and what each task's tree translates.
module Paging {
  import opened Bytes
  import opened Wrappers
  import opened Bits

  const N_TASKS: int := 3
  const N_PAGES_IN_TABLE: int := 512
  const PDP_LEN: int := 0x80_0000_0000
  const PD_LEN: int := 0x4000_0000
  const PT_LEN: int := 0x20_0000
  const PAGE_LEN: int := 0x1000

  const TASK_VADDR_START: int := 0x4000_0000
  const TASK_MEM_LEN: int := 0x100_0000
  const TASK_VADDR_END: int := TASK_VADDR_START + TASK_MEM_LEN
  const FRAME_BUF_ADDR: int := 0xc000_0000
  const FRAME_BUF_LEN: int := 0x20_0000
  const LAPIC_BUF_ADDR: int := 0xfee0_0000
  const KERNEL_MEM_ADDR: int := 0x1_0000_0000
  const KERNEL_MEM_LEN: int := 0x100_0000
  const KERNEL_MEM_END: int := KERNEL_MEM_ADDR + KERNEL_MEM_LEN
  const N_TASK_PTS: int := 8
  const N_KERNEL_PTS: int := 8

  const ADDITIONAL_PAGE_START: int := 0x3_0000_0000
  const ADDITIONAL_PHYS_ADDR_START: int := 0x1_0100_0000

  type TaskId = i: int | 0 <= i < N_TASKS

  function TaskPhysAddr(i: TaskId): int {
    if i == 0 then 0x1_0400_0000 else if i == 1 then 0x1_0500_0000 else 0x1_0600_0000
  }

  // --- page-table entries (the bit fields of struct Entry) ---

  predicate Present(w: Word) { w % 2 == 1 }
  predicate WritableBit(w: Word) { w / 2 % 2 == 1 }
  predicate HugePage(w: Word) { w / 0x80 % 2 == 1 }
  function PhysicalAddress(w: Word): int { w / 0x1000 % 0x100_0000_0000 * 0x1000 }

  // The three assignments of init_entry; every other bit is kept.
  function InitEntryBits(w: Word, addr: int): (w': Word)
    requires 0 <= addr
  {
    var low := w % 0x1000 - w % 4 + 3;
    var page := addr / 0x1000 % 0x100_0000_0000;
    var high := w / 0x10_0000_0000_0000;
    low + page * 0x1000 + high * 0x10_0000_0000_0000
  }

  // What init_entry is for: a present, writable, ordinary entry for addr.
  predicate PointsTo(w: Word, addr: int) {
    Present(w) && WritableBit(w) && !HugePage(w) && PhysicalAddress(w) == addr
  }

  // It is one exactly when the entry was not a huge page before: that bit, like
  // every other outside the three fields, is kept.
  lemma InitEntryPointsTo(w: Word, addr: int)
    requires 0 <= addr < 0x10_0000_0000_0000 && addr % PAGE_LEN == 0
    ensures PointsTo(InitEntryBits(w, addr), addr) <==> !HugePage(w)
    ensures OtherBits(InitEntryBits(w, addr)) == OtherBits(w)
    ensures var w' := InitEntryBits(w, addr);
            w' % 2 == 1 && w' / 2 % 2 == 1 && w' / 0x80 % 2 == w / 0x80 % 2 && w' / 0x1000 % 0x100_0000_0000 == addr / 0x1000
  {
    var low := w % 0x1000 - w % 4 + 3;
    var high := w / 0x10_0000_0000_0000;
    var w' := low + addr + high * 0x10_0000_0000_0000;
    assert InitEntryBits(w, addr) == w';
    LowBits(w);
    BitsOf(low, addr / 0x1000, high);
    DivMod(w', 0x10_0000_0000_0000, high, low + addr);
    DivMod(w', 0x1000, addr / 0x1000 + high * 0x100_0000_0000, low);
  }

  // Bits 2 to 11 and 52 to 63.
  function OtherBits(w: Word): (int, int) { (w % 0x1000 / 4, w / 0x10_0000_0000_0000) }

  lemma LowBits(w: Word)
    ensures var low := w % 0x1000 - w % 4 + 3;
            0 <= low < 0x1000 && low % 2 == 1 && low / 2 % 2 == 1 && low / 0x80 % 2 == w / 0x80 % 2
  {
    var q, x := w / 0x1000, w % 0x1000;
    var r, s := x / 0x80, x % 0x80;
    var u, v := s / 4, s % 4;
    DivMod(w, 4, q * 1024 + r * 32 + u, v);
    DivMod(w, 0x80, q * 32 + r, s);
    var low := r * 0x80 + u * 4 + 3;
    assert low == x - w % 4 + 3;
    DivMod(low, 0x80, r, u * 4 + 3);
    DivMod(low, 2, r * 64 + u * 2 + 1, 1);
    DivMod(r * 64 + u * 2 + 1, 2, r * 32 + u, 1);
    DivMod(q * 32 + r, 2, q * 16 + r / 2, r % 2);
  }

  lemma HalfBits(low: int, q: int)
    requires 0 <= low < 0x1000
    ensures (low + q * 0x1000) / 2 % 2 == low / 2 % 2
  {
    var h, b := low / 2, low % 2;
    DivMod(low + q * 0x1000, 2, h + q * 0x800, b);
    DivMod(h + q * 0x800, 2, h / 2 + q * 0x400, h % 2);
  }

  lemma PsBit(low: int, q: int)
    requires 0 <= low < 0x1000
    ensures (low + q * 0x1000) / 0x80 % 2 == low / 0x80 % 2
  {
    var r, s := low / 0x80, low % 0x80;
    DivMod(low + q * 0x1000, 0x80, q * 32 + r, s);
    DivMod(q * 32 + r, 2, q * 16 + r / 2, r % 2);
  }

  lemma BitsOf(low: int, page: int, high: int)
    requires 0 <= low < 0x1000 && 0 <= page < 0x100_0000_0000 && 0 <= high < 0x1000
    ensures var w := low + page * 0x1000 + high * 0x10_0000_0000_0000;
            && w % 2 == low % 2 && w / 2 % 2 == low / 2 % 2 && w / 0x80 % 2 == low / 0x80 % 2
            && w / 0x1000 % 0x100_0000_0000 == page
  {
    var q := page + high * 0x100_0000_0000;
    assert low + page * 0x1000 + high * 0x10_0000_0000_0000 == low + q * 0x1000;
    DivMod(low + q * 0x1000, 0x1000, q, low);
    DivMod(low + q * 0x1000, 2, low / 2 + q * 0x800, low % 2);
    DivMod(q, 0x100_0000_0000, high, page);
    HalfBits(low, q);
    PsBit(low, q);
  }

  // --- the walk (Intel SDM Vol. 3A, section 4.5) ---

  datatype Translation = NotPresent | Mapped(addr: int, writable: bool)

  function WalkPt(m: Mem, pt: int, va: int, writable: bool): Translation {
    var e := Load64(m, pt + 8 * (va / PAGE_LEN % 512));
    if !Present(e) then NotPresent
    else Mapped(PhysicalAddress(e) + va % PAGE_LEN, writable && WritableBit(e))
  }

  function WalkPd(m: Mem, pd: int, va: int, writable: bool): Translation {
    var e := Load64(m, pd + 8 * (va / PT_LEN % 512));
    var w := writable && WritableBit(e);
    if !Present(e) then NotPresent
    else if HugePage(e) then Mapped(PhysicalAddress(e) / PT_LEN * PT_LEN + va % PT_LEN, w)
    else WalkPt(m, PhysicalAddress(e), va, w)
  }

  function WalkPdp(m: Mem, pdp: int, va: int, writable: bool): Translation {
    var e := Load64(m, pdp + 8 * (va / PD_LEN % 512));
    var w := writable && WritableBit(e);
    if !Present(e) then NotPresent
    else if HugePage(e) then Mapped(PhysicalAddress(e) / PD_LEN * PD_LEN + va % PD_LEN, w)
    else WalkPd(m, PhysicalAddress(e), va, w)
  }

  // The translation of a 48-bit address by the tree whose root is in CR3.
  function Walk(m: Mem, root: int, va: int): Translation {
    var e := Load64(m, root + 8 * (va / PDP_LEN % 512));
    if !Present(e) then NotPresent
    else WalkPdp(m, PhysicalAddress(e), va, WritableBit(e))
  }

  // --- where the kernel's arrays lie ---

  // Physical addresses of the kernel's globals. Memory layout is the linker's
  // choice; LayoutOk says what memory.c relies on.
  datatype Layout = Layout(
    pml4s: int, pdps: int, pds: int, pts: int,
    kernelPd: int, kernelPts: int, ioPd: int, fbPt: int, lapicPt: int,
    additionalPt: int, additionalPd: int,
    taskCr3s: int, tasks: int, curTask: int,
    kernelCr3: int) // the value of CR3 while the firmware's tables are in use

  datatype Table =
    | Pml4(task: TaskId) | Pdp(task: TaskId) | Pd(task: TaskId) | Pt(task: TaskId, j: int)
    | KernelPd | KernelPt(j: int) | IoPd | FbPt | LapicPt
    | AdditionalPt | AdditionalPd

  predicate IsTable(t: Table) {
    match t
    case Pt(_, j) => 0 <= j < N_TASK_PTS
    case KernelPt(j) => 0 <= j < N_KERNEL_PTS
    case _ => true
  }

  // The kernel's arrays as (start, length in bytes).
  function Arrays(l: Layout): (s: seq<(int, int)>)
    ensures |s| == 14
  {
    [(l.pml4s, 0x3000), (l.pdps, 0x3000), (l.pds, 0x3000), (l.pts, 0x18000),
     (l.kernelPd, 0x1000), (l.kernelPts, 0x8000), (l.ioPd, 0x1000), (l.fbPt, 0x1000),
     (l.lapicPt, 0x1000), (l.additionalPt, 0x1000), (l.additionalPd, 0x1000),
     (l.taskCr3s, 24), (l.tasks, 48), (l.curTask, 4)]
  }

  ghost predicate LayoutOk(l: Layout) {
    && (forall k :: 0 <= k < 11 ==> Arrays(l)[k].0 % PAGE_LEN == 0)
    && l.taskCr3s % 8 == 0 && l.tasks % 8 == 0 && l.curTask % 4 == 0
    && (forall k :: 0 <= k < 14 ==> KERNEL_MEM_ADDR <= Arrays(l)[k].0 && Arrays(l)[k].0 + Arrays(l)[k].1 <= KERNEL_MEM_END)
    && (forall j, k :: 0 <= j < k < 14 ==>
          Arrays(l)[j].0 + Arrays(l)[j].1 <= Arrays(l)[k].0 || Arrays(l)[k].0 + Arrays(l)[k].1 <= Arrays(l)[j].0)
    && (forall i: TaskId :: l.kernelCr3 != Base(l, Pml4(i)))
  }

  // One such layout: the arrays one after the other, from 1 MiB into kernel memory.
  function PackedLayout(): Layout {
    var a := KERNEL_MEM_ADDR + 0x10_0000;
    Layout(a, a + 0x3000, a + 0x6000, a + 0x9000, a + 0x2_1000, a + 0x2_2000, a + 0x2_a000, a + 0x2_b000, a + 0x2_c000,
           a + 0x2_d000, a + 0x2_e000, a + 0x2_f000, a + 0x2_f020, a + 0x2_f050, 0x1000)
  }

  lemma LayoutExists()
    ensures LayoutOk(PackedLayout())
  {
    hide Arrays;
    PackedArrays();
    var s := Arrays(PackedLayout());
    forall j, k | 0 <= j < k < 14 ensures s[j].0 + s[j].1 <= s[k].0 { InOrder(s, j, k); }
    forall k | 0 <= k < 14 ensures KERNEL_MEM_ADDR <= s[k].0 && s[k].0 + s[k].1 <= KERNEL_MEM_END {
      if k > 0 { InOrder(s, 0, k); }
      if k < 13 { InOrder(s, k, 13); }
    }
  }

  lemma PackedArrays()
    ensures var l := PackedLayout();
            var s := Arrays(l);
            && (forall k :: 0 <= k < 14 ==> s[k].1 > 0) && (forall k :: 0 <= k < 13 ==> s[k].0 + s[k].1 <= s[k + 1].0)
            && (forall k :: 0 <= k < 11 ==> s[k].0 % PAGE_LEN == 0)
            && l.taskCr3s % 8 == 0 && l.tasks % 8 == 0 && l.curTask % 4 == 0
            && KERNEL_MEM_ADDR <= s[0].0 && s[13].0 + s[13].1 <= KERNEL_MEM_END && l.kernelCr3 < KERNEL_MEM_ADDR <= l.pml4s
  {}

  lemma {:induction false} InOrder(s: seq<(int, int)>, j: int, k: int)
    requires forall i :: 0 <= i < |s| ==> s[i].1 > 0
    requires forall i :: 0 <= i < |s| - 1 ==> s[i].0 + s[i].1 <= s[i + 1].0
    requires 0 <= j < k < |s|
    ensures s[j].0 + s[j].1 <= s[k].0
    decreases k - j
  {
    if j + 1 == k {
    } else {
      InOrder(s, j, k - 1);
    }
  }

  predicate InArray(l: Layout, k: int, a: int)
    requires 0 <= k < 14
  {
    Arrays(l)[k].0 <= a < Arrays(l)[k].0 + Arrays(l)[k].1
  }

  function ArrayOf(t: Table): int {
    match t
    case Pml4(_) => 0 case Pdp(_) => 1 case Pd(_) => 2 case Pt(_, _) => 3
    case KernelPd => 4 case KernelPt(_) => 5 case IoPd => 6 case FbPt => 7
    case LapicPt => 8 case AdditionalPt => 9 case AdditionalPd => 10
  }

  function OffsetOf(t: Table): int {
    match t
    case Pml4(i) => i * 0x1000 case Pdp(i) => i * 0x1000 case Pd(i) => i * 0x1000
    case Pt(i, j) => (i * 8 + j) * 0x1000
    case KernelPt(j) => j * 0x1000
    case _ => 0
  }

  function Base(l: Layout, t: Table): int {
    Arrays(l)[ArrayOf(t)].0 + OffsetOf(t)
  }

  // The arrays in numbers.
  lemma TablesAt(l: Layout, i: TaskId, j: int)
    ensures Base(l, Pml4(i)) == l.pml4s + 4096 * i && Base(l, Pdp(i)) == l.pdps + 4096 * i && Base(l, Pd(i)) == l.pds + 4096 * i
    ensures Base(l, Pt(i, j)) == l.pts + 4096 * (8 * i + j) && Base(l, KernelPt(j)) == l.kernelPts + 4096 * j
    ensures Base(l, KernelPd) == l.kernelPd && Base(l, IoPd) == l.ioPd && Base(l, FbPt) == l.fbPt && Base(l, LapicPt) == l.lapicPt
    ensures Base(l, AdditionalPt) == l.additionalPt && Base(l, AdditionalPd) == l.additionalPd
  {}

  lemma BaseRange(l: Layout, t: Table)
    requires LayoutOk(l) && IsTable(t)
    ensures Base(l, t) % PAGE_LEN == 0
    ensures KERNEL_MEM_ADDR <= Base(l, t) <= KERNEL_MEM_END - PAGE_LEN
    ensures Arrays(l)[ArrayOf(t)].0 <= Base(l, t) <= Arrays(l)[ArrayOf(t)].0 + Arrays(l)[ArrayOf(t)].1 - PAGE_LEN
  {
    var k := ArrayOf(t);
    assert 0 <= k < 11;
    assert Arrays(l)[k].0 % PAGE_LEN == 0;
    assert KERNEL_MEM_ADDR <= Arrays(l)[k].0 && Arrays(l)[k].0 + Arrays(l)[k].1 <= KERNEL_MEM_END;
    assert 0 <= OffsetOf(t) <= Arrays(l)[k].1 - 0x1000;
  }

  lemma TablesDisjoint(l: Layout, t: Table, t': Table)
    requires LayoutOk(l) && IsTable(t) && IsTable(t') && t != t'
    ensures Base(l, t) + PAGE_LEN <= Base(l, t') || Base(l, t') + PAGE_LEN <= Base(l, t)
  {
    BaseRange(l, t);
    BaseRange(l, t');
    if ArrayOf(t) == ArrayOf(t') {
      assert OffsetOf(t) != OffsetOf(t');
    }
  }

  // --- table contents ---

  // The physical address that entry k of table t must name, if any. `extra`
  // says whether the page-fault handler has mapped the additional page.
  function Target(l: Layout, extra: bool, t: Table, k: int): Option<int> {
    match t
    case Pml4(i) => if k == 0 then Some(Base(l, Pdp(i))) else None
    case Pdp(i) =>
      if k == 1 then Some(Base(l, Pd(i)))
      else if k == 3 then Some(Base(l, IoPd))
      else if k == 4 then Some(Base(l, KernelPd))
      else if k == 12 && i == 0 && extra then Some(Base(l, AdditionalPd))
      else None
    case Pd(i) => if k < N_TASK_PTS then Some(Base(l, Pt(i, k))) else None
    case Pt(i, j) => Some(TaskPhysAddr(i) + (j * 512 + k) * PAGE_LEN)
    case KernelPd => if k < N_KERNEL_PTS then Some(Base(l, KernelPt(k))) else None
    case KernelPt(j) => Some(KERNEL_MEM_ADDR + (j * 512 + k) * PAGE_LEN)
    case IoPd => if k == 0 then Some(Base(l, FbPt)) else if k == 503 then Some(Base(l, LapicPt)) else None
    case FbPt => Some(FRAME_BUF_ADDR + k * PAGE_LEN)
    case LapicPt => if k == 0 then Some(LAPIC_BUF_ADDR) else None
    case AdditionalPd => if extra && k == 0 then Some(Base(l, AdditionalPt)) else None
    case AdditionalPt => if extra && k == 0 then Some(ADDITIONAL_PHYS_ADDR_START) else None
  }

  function Entry(l: Layout, m: Mem, t: Table, k: int): Word {
    Load64(m, Base(l, t) + 8 * k)
  }

  predicate WordOk(target: Option<int>, w: Word) {
    match target
    case Some(addr) => PointsTo(w, addr)
    case None => !Present(w) && !HugePage(w)
  }

  ghost predicate EntryOk(l: Layout, m: Mem, extra: bool, t: Table, k: int) {
    WordOk(Target(l, extra, t, k), Entry(l, m, t, k))
  }

  ghost predicate TablesOk(l: Layout, m: Mem, extra: bool) {
    forall t, k | IsTable(t) && 0 <= k < 512 :: EntryOk(l, m, extra, t, k)
  }

  // --- what the trees translate ---

  predicate InWindow(va: int) { TASK_VADDR_START <= va < TASK_VADDR_END }
  predicate InAdditionalPage(va: int) { ADDITIONAL_PAGE_START <= va < ADDITIONAL_PAGE_START + PAGE_LEN }
  predicate InSharedMemory(va: int) {
    || FRAME_BUF_ADDR <= va < FRAME_BUF_ADDR + FRAME_BUF_LEN
    || LAPIC_BUF_ADDR <= va < LAPIC_BUF_ADDR + PAGE_LEN
    || KERNEL_MEM_ADDR <= va < KERNEL_MEM_END
  }

  function AddressSpace(i: TaskId, extra: bool, va: int): Translation {
    if InWindow(va) then Mapped(TaskPhysAddr(i) + (va - TASK_VADDR_START), true)
    else if InSharedMemory(va) then Mapped(va, true)
    else if i == 0 && extra && InAdditionalPage(va) then
      Mapped(ADDITIONAL_PHYS_ADDR_START + (va - ADDITIONAL_PAGE_START), true)
    else NotPresent
  }

  lemma Split(va: int) returns (i4: int, i3: int, i2: int, i1: int, off: int)
    requires 0 <= va < 0x1_0000_0000_0000
    ensures i4 == va / PDP_LEN % 512 && i3 == va / PD_LEN % 512 && i2 == va / PT_LEN % 512
    ensures i1 == va / PAGE_LEN % 512 && off == va % PAGE_LEN
    ensures 0 <= i4 < 512 && 0 <= i3 < 512 && 0 <= i2 < 512 && 0 <= i1 < 512 && 0 <= off < PAGE_LEN
    ensures va == i4 * PDP_LEN + i3 * PD_LEN + i2 * PT_LEN + i1 * PAGE_LEN + off
  {
    i4 := va / PDP_LEN % 512;
    i3 := va / PD_LEN % 512;
    i2 := va / PT_LEN % 512;
    i1 := va / PAGE_LEN % 512;
    off := va % PAGE_LEN;
    var q1 := va / PAGE_LEN;
    DivMod(va, PT_LEN, q1 / 512, q1 % 512 * PAGE_LEN + off);
    var q2 := q1 / 512;
    DivMod(va, PD_LEN, q2 / 512, q2 % 512 * PT_LEN + va % PT_LEN);
    var q3 := q2 / 512;
    DivMod(va, PDP_LEN, q3 / 512, q3 % 512 * PD_LEN + va % PD_LEN);
  }

  lemma WalkPtOk(l: Layout, m: Mem, extra: bool, t: Table, va: int)
    requires LayoutOk(l) && TablesOk(l, m, extra) && IsTable(t)
    ensures WalkPt(m, Base(l, t), va, true) ==
            match Target(l, extra, t, va / PAGE_LEN % 512)
            case Some(addr) => Mapped(addr + va % PAGE_LEN, true)
            case None => NotPresent
  {
    assert EntryOk(l, m, extra, t, va / PAGE_LEN % 512);
  }

  lemma WalkPdOk(l: Layout, m: Mem, extra: bool, t: Table, va: int)
    requires LayoutOk(l) && TablesOk(l, m, extra) && IsTable(t)
    ensures WalkPd(m, Base(l, t), va, true) ==
            match Target(l, extra, t, va / PT_LEN % 512)
            case Some(addr) => WalkPt(m, addr, va, true)
            case None => NotPresent
  {
    assert EntryOk(l, m, extra, t, va / PT_LEN % 512);
  }

  lemma WalkPdpOk(l: Layout, m: Mem, extra: bool, i: TaskId, va: int)
    requires LayoutOk(l) && TablesOk(l, m, extra)
    requires va / PDP_LEN % 512 == 0
    ensures Walk(m, Base(l, Pml4(i)), va) ==
            match Target(l, extra, Pdp(i), va / PD_LEN % 512)
            case Some(addr) => WalkPd(m, addr, va, true)
            case None => NotPresent
  {
    assert EntryOk(l, m, extra, Pml4(i), 0);
    assert EntryOk(l, m, extra, Pdp(i), va / PD_LEN % 512);
  }

  // The same translation by table indices.
  function IndexSpace(i: TaskId, extra: bool, i4: int, i3: int, i2: int, i1: int, off: int): Translation {
    if i4 != 0 then NotPresent
    else if i3 == 1 && i2 < 8 then Mapped(TaskPhysAddr(i) + (i2 * 512 + i1) * PAGE_LEN + off, true)
    else if i3 == 3 && i2 == 0 then Mapped(FRAME_BUF_ADDR + i1 * PAGE_LEN + off, true)
    else if i3 == 3 && i2 == 503 && i1 == 0 then Mapped(LAPIC_BUF_ADDR + off, true)
    else if i3 == 4 && i2 < 8 then Mapped(KERNEL_MEM_ADDR + (i2 * 512 + i1) * PAGE_LEN + off, true)
    else if i3 == 12 && i2 == 0 && i1 == 0 && i == 0 && extra then Mapped(ADDITIONAL_PHYS_ADDR_START + off, true)
    else NotPresent
  }

  // A page-directory entry that names a page table, or none.
  lemma WalkTwoLevels(l: Layout, m: Mem, extra: bool, pd: Table, va: int, pt: Table)
    requires LayoutOk(l) && TablesOk(l, m, extra) && IsTable(pd) && IsTable(pt)
    requires Target(l, extra, pd, va / PT_LEN % 512) == Some(Base(l, pt))
    ensures WalkPd(m, Base(l, pd), va, true) ==
            match Target(l, extra, pt, va / PAGE_LEN % 512)
            case Some(addr) => Mapped(addr + va % PAGE_LEN, true)
            case None => NotPresent
  {
    WalkPdOk(l, m, extra, pd, va);
    WalkPtOk(l, m, extra, pt, va);
  }

  lemma WalkIo(l: Layout, m: Mem, extra: bool, i: TaskId, va: int)
    requires LayoutOk(l) && TablesOk(l, m, extra)
    ensures WalkPd(m, Base(l, IoPd), va, true) ==
            IndexSpace(i, extra, 0, 3, va / PT_LEN % 512, va / PAGE_LEN % 512, va % PAGE_LEN)
  {
    var i2 := va / PT_LEN % 512;
    if i2 == 0 {
      WalkTwoLevels(l, m, extra, IoPd, va, FbPt);
    } else if i2 == 503 {
      WalkTwoLevels(l, m, extra, IoPd, va, LapicPt);
    } else {
      WalkPdOk(l, m, extra, IoPd, va);
    }
  }

  lemma WalkWindowOrKernel(l: Layout, m: Mem, extra: bool, i: TaskId, va: int)
    requires LayoutOk(l) && TablesOk(l, m, extra)
    ensures WalkPd(m, Base(l, Pd(i)), va, true) ==
            IndexSpace(i, extra, 0, 1, va / PT_LEN % 512, va / PAGE_LEN % 512, va % PAGE_LEN)
    ensures WalkPd(m, Base(l, KernelPd), va, true) ==
            IndexSpace(i, extra, 0, 4, va / PT_LEN % 512, va / PAGE_LEN % 512, va % PAGE_LEN)
  {
    var i2 := va / PT_LEN % 512;
    if i2 < 8 {
      WalkTwoLevels(l, m, extra, Pd(i), va, Pt(i, i2));
      WalkTwoLevels(l, m, extra, KernelPd, va, KernelPt(i2));
    } else {
      WalkPdOk(l, m, extra, Pd(i), va);
      WalkPdOk(l, m, extra, KernelPd, va);
    }
  }

  lemma WalkAdditional(l: Layout, m: Mem, va: int)
    requires LayoutOk(l) && TablesOk(l, m, true)
    ensures WalkPd(m, Base(l, AdditionalPd), va, true) ==
            IndexSpace(0, true, 0, 12, va / PT_LEN % 512, va / PAGE_LEN % 512, va % PAGE_LEN)
  {
    if va / PT_LEN % 512 == 0 {
      WalkTwoLevels(l, m, true, AdditionalPd, va, AdditionalPt);
    } else {
      WalkPdOk(l, m, true, AdditionalPd, va);
    }
  }

  lemma WalkByIndex(l: Layout, m: Mem, extra: bool, i: TaskId, va: int)
    requires LayoutOk(l) && TablesOk(l, m, extra)
    ensures Walk(m, Base(l, Pml4(i)), va) ==
            IndexSpace(i, extra, va / PDP_LEN % 512, va / PD_LEN % 512, va / PT_LEN % 512, va / PAGE_LEN % 512, va % PAGE_LEN)
  {
    if va / PDP_LEN % 512 != 0 {
      assert EntryOk(l, m, extra, Pml4(i), va / PDP_LEN % 512);
    } else {
      WalkPdpOk(l, m, extra, i, va);
      WalkWindowOrKernel(l, m, extra, i, va);
      WalkIo(l, m, extra, i, va);
      if extra { WalkAdditional(l, m, va); }
    }
  }

  // After init_virtual_memory, and after any number of repaired page faults,
  // each tree translates every 48-bit address as AddressSpace says.
  lemma ExactTranslation(l: Layout, m: Mem, extra: bool, i: TaskId, va: int)
    requires LayoutOk(l) && TablesOk(l, m, extra)
    requires 0 <= va < 0x1_0000_0000_0000
    ensures Walk(m, Base(l, Pml4(i)), va) == AddressSpace(i, extra, va)
  {
    WalkByIndex(l, m, extra, i, va);
    var i4, i3, i2, i1, off := Split(va);
    assert IndexSpace(i, extra, i4, i3, i2, i1, off) == AddressSpace(i, extra, va);
  }

  // The whole map in numbers: each window shows the image that the boot loader
  // put at 0x104000000, 0x105000000 and 0x106000000 (bootloader/bootloader.c:18-20),
  // the shared regions map to themselves, and there is nothing else.
  lemma AddressMap(l: Layout, m: Mem, extra: bool, i: TaskId, va: int)
    requires LayoutOk(l) && TablesOk(l, m, extra) && 0 <= va < 0x1_0000_0000_0000
    ensures Walk(m, Base(l, Pml4(i)), va) ==
            if 0x4000_0000 <= va < 0x4100_0000 then
              Mapped((if i == 0 then 0x1_0400_0000 else if i == 1 then 0x1_0500_0000 else 0x1_0600_0000) + (va - 0x4000_0000), true)
            else if 0xc000_0000 <= va < 0xc020_0000 || 0xfee0_0000 <= va < 0xfee0_1000 || 0x1_0000_0000 <= va < 0x1_0100_0000 then
              Mapped(va, true)
            else if i == 0 && extra && 0x3_0000_0000 <= va < 0x3_0000_1000 then
              Mapped(0x1_0100_0000 + (va - 0x3_0000_0000), true)
            else NotPresent
  {
    ExactTranslation(l, m, extra, i, va);
  }

  // Two mapped addresses, of one tree or of two, name the same byte only if they
  // are the same address, and in two trees only if it is one that all share.
  lemma Injective(l: Layout, m: Mem, extra: bool, i: TaskId, va: int, j: TaskId, vb: int)
    requires LayoutOk(l) && TablesOk(l, m, extra) && 0 <= va < 0x1_0000_0000_0000 && 0 <= vb < 0x1_0000_0000_0000
    requires Walk(m, Base(l, Pml4(i)), va).Mapped? && Walk(m, Base(l, Pml4(j)), vb).Mapped?
    ensures Walk(m, Base(l, Pml4(i)), va).addr == Walk(m, Base(l, Pml4(j)), vb).addr
            <==> va == vb && (i == j || InSharedMemory(va))
  {
    hide TablesOk;
    hide LayoutOk;
    hide Walk;
    ExactTranslation(l, m, extra, i, va);
    ExactTranslation(l, m, extra, j, vb);
  }

  // Kernel code, the page tables, tasks[], the local APIC and the frame buffer
  // translate alike in every task's space, before and after the fault handler
  // has run, so the CR3 change inside the timer handler is invisible to it.
  lemma SharedTranslation(l: Layout, m: Mem, extra: bool, i: TaskId, j: TaskId, va: int)
    requires LayoutOk(l) && TablesOk(l, m, extra) && InSharedMemory(va)
    ensures Walk(m, Base(l, Pml4(i)), va) == Walk(m, Base(l, Pml4(j)), va) == Mapped(va, true)
  {
    ExactTranslation(l, m, extra, i, va);
    ExactTranslation(l, m, extra, j, va);
  }

  lemma PixelIndex(width: nat, height: nat, x: nat, y: nat)
    requires x < height && y < width
    ensures 0 <= width * x + y < width * height
  {
    var rest := height - 1 - x;
    assert width * height == width * x + width + width * rest;
    assert width * rest >= 0 && width * x >= 0;
  }

  // Every byte of every pixel lies in the mapped frame buffer, if the whole
  // buffer starts at 0xc0000000 and fits 2 MiB.
  lemma PixelsMapped(l: Layout, m: Mem, extra: bool, i: TaskId, width: nat, height: nat, x: nat, y: nat, b: nat)
    requires LayoutOk(l) && TablesOk(l, m, extra)
    requires 4 * (width * height) <= FRAME_BUF_LEN && x < height && y < width && b < 4
    ensures var a := FRAME_BUF_ADDR + 4 * (width * x + y) + b;
            Walk(m, Base(l, Pml4(i)), a) == Mapped(a, true)
  {
    PixelIndex(width, height, x, y);
    SharedTranslation(l, m, extra, i, i, FRAME_BUF_ADDR + 4 * (width * x + y) + b);
  }

  // init_virtual_memory divides by the page size where the size of a page
  // table's range is meant; for a page-aligned window that is the intended
  // index exactly when the window starts on a 1 GiB boundary.
  lemma PtIndexBase(start: nat)
    requires start % PAGE_LEN == 0
    ensures start % PD_LEN / PAGE_LEN == start % PD_LEN / PT_LEN <==> start % PD_LEN == 0
  {
    var x := start % PD_LEN;
    var q := x / PAGE_LEN;
    DivMod(x, PT_LEN, q / 512, q % 512 * PAGE_LEN + x % PAGE_LEN);
    DivMod(start, PAGE_LEN, start / PD_LEN * 0x4_0000 + q, x % PAGE_LEN);
  }
}
