// Saved contexts and the scheduler's record: the stack frames that the
// interrupt handlers push and pop, the array tasks[] and cur_task, and what one
// timer interrupt, system call or page fault does to the whole machine.
module Contexts {
  import opened Bytes
  import opened Paging
  import opened VirtualMemory

  // gpr lists the registers in the order the handlers push them:
  // rax rbx rcx rdx rdi rsi rbp r8 .. r15.
  datatype CpuState = CpuState(gpr: seq<Word>, rip: Word, rsp: Word, rflags: Word, cs: Word, ss: Word)

  type Cpu = c: CpuState | |c.gpr| == 15 && c.cs < 0x1_0000 && c.ss < 0x1_0000
    witness CpuState(seq(15, _ => 0), 0, 0, 0, 0, 0)

  // The words of a frame, highest address first: five pushed by the processor
  // (Intel SDM Vol. 3A, section 6.14), fifteen by the handler.
  const FRAME_WORDS: int := 20
  const FRAME_LEN: int := 160

  function HardwareWords(c: Cpu): seq<Word> { [c.ss, c.rsp, c.rflags, c.cs, c.rip] }

  function FrameWords(c: Cpu): (ws: seq<Word>)
    ensures |ws| == FRAME_WORDS
  {
    HardwareWords(c) + c.gpr
  }

  // The context that the pops and iretq take from a frame that ends at `top`;
  // iretq uses the low 16 bits of the CS and SS words.
  function FrameWord(m: Mem, top: int, k: int): Word { Load64(m, top - 8 * (k + 1)) }

  function FrameAt(m: Mem, top: int): Cpu {
    CpuState(seq(15, k requires 0 <= k < 15 => FrameWord(m, top, 5 + k)),
             FrameWord(m, top, 4), FrameWord(m, top, 1), FrameWord(m, top, 2),
             FrameWord(m, top, 3) % 0x1_0000, FrameWord(m, top, 0) % 0x1_0000)
  }

  // In 64-bit mode the processor aligns RSP to 16 before it pushes.
  function Align16(a: int): int { a - a % 16 }

  lemma SavedAligned(a: int)
    ensures (Align16(a) - FRAME_LEN) % 16 == 0 && Align16(a) <= a
  {}

  function PushWords(m: Mem, top: int, ws: seq<Word>): Mem
    decreases |ws|
  {
    if ws == [] then m else PushWords(Store64(m, top - 8, ws[0]), top - 8, ws[1..])
  }

  lemma {:induction false} PushedElsewhere(m: Mem, top: int, ws: seq<Word>, a: int)
    requires a < top - 8 * |ws| || top <= a
    ensures At(PushWords(m, top, ws), a) == At(m, a)
    decreases |ws|
  {
    if ws == [] {
    } else {
      PushedElsewhere(Store64(m, top - 8, ws[0]), top - 8, ws[1..], a);
      Store64Elsewhere(m, top - 8, ws[0], a);
    }
  }

  lemma {:induction false} PushedWord(m: Mem, top: int, ws: seq<Word>, k: nat)
    requires k < |ws|
    ensures Load64(PushWords(m, top, ws), top - 8 * (k + 1)) == ws[k]
    decreases |ws|
  {
    var m1 := Store64(m, top - 8, ws[0]);
    var m2 := PushWords(m1, top - 8, ws[1..]);
    if k == 0 {
      forall a | top - 8 <= a < top ensures At(m2, a) == At(m1, a) { PushedElsewhere(m1, top - 8, ws[1..], a); }
      Load64Same(m2, m1, top - 8);
      Load64Store64(m, top - 8, ws[0]);
    } else {
      PushedWord(m1, top - 8, ws[1..], k - 1);
    }
  }

  // One more push at the low end.
  lemma {:induction false} PushOneMore(m: Mem, top: int, ws: seq<Word>, w: Word)
    ensures PushWords(m, top, ws + [w]) == Store64(PushWords(m, top, ws), top - 8 * |ws| - 8, w)
    decreases |ws|
  {
    if ws == [] {
      assert (ws + [w])[1..] == [];
    } else {
      assert (ws + [w])[1..] == ws[1..] + [w];
      PushOneMore(Store64(m, top - 8, ws[0]), top - 8, ws[1..], w);
    }
  }

  lemma {:induction false} PushAppend(m: Mem, top: int, ws: seq<Word>, more: seq<Word>)
    ensures PushWords(m, top, ws + more) == PushWords(PushWords(m, top, ws), top - 8 * |ws|, more)
    decreases |ws|
  {
    if ws == [] {
      assert ws + more == more;
    } else {
      assert (ws + more)[1..] == ws[1..] + more;
      PushAppend(Store64(m, top - 8, ws[0]), top - 8, ws[1..], more);
    }
  }

  // Saving and restoring is the identity, whatever is pushed further down.
  lemma FrameRoundTrip(m: Mem, top: int, c: Cpu, below: seq<Word>)
    ensures FrameAt(PushWords(m, top, FrameWords(c) + below), top) == c
  {
    var ws := FrameWords(c) + below;
    var m' := PushWords(m, top, ws);
    forall k: nat | k < FRAME_WORDS ensures FrameWord(m', top, k) == FrameWords(c)[k] { PushedWord(m, top, ws, k); }
    var c' := FrameAt(m', top);
    forall k | 0 <= k < 15 ensures c'.gpr[k] == c.gpr[k] { assert FrameWords(c)[5 + k] == c.gpr[k]; }
    assert c'.gpr == c.gpr;
  }

  lemma FrameSame(m: Mem, m': Mem, top: int)
    requires SameBytes(m, m', top - FRAME_LEN, top)
    ensures FrameAt(m, top) == FrameAt(m', top)
  {
    forall k | 0 <= k < FRAME_WORDS ensures FrameWord(m, top, k) == FrameWord(m', top, k) {
      Load64Same(m, m', top - 8 * (k + 1));
    }
    assert FrameAt(m, top).gpr == FrameAt(m', top).gpr;
  }

  // --- each task's own memory ---

  // The virtual addresses a task is confined to: its window and, for task 0,
  // the page that the fault handler gives it.
  predicate InConfines(i: TaskId, va: int) {
    InWindow(va) || (i == 0 && InAdditionalPage(va))
  }

  function PhysOf(i: TaskId, va: int): int
    requires InConfines(i, va)
  {
    if InWindow(va) then TaskPhysAddr(i) + (va - TASK_VADDR_START)
    else ADDITIONAL_PHYS_ADDR_START + (va - ADDITIONAL_PAGE_START)
  }

  // Isolation: no two confined addresses share a byte of physical memory, and
  // none lies in kernel memory, where the tables and tasks[] are, in the frame
  // buffer or at the local APIC.
  lemma Isolation(i: TaskId, va: int, j: TaskId, vb: int)
    requires InConfines(i, va) && InConfines(j, vb)
    ensures PhysOf(i, va) == PhysOf(j, vb) <==> i == j && va == vb
    ensures KERNEL_MEM_END <= PhysOf(i, va) && !InSharedMemory(PhysOf(i, va))
  {}

  // The window's image is contiguous.
  function WindowPhys(i: TaskId, va: int): int { TaskPhysAddr(i) + (va - TASK_VADDR_START) }

  // --- the scheduler's record, in kernel memory ---

  function CurOf(l: Layout, m: Mem): int { Load(m, l.curTask, 4) }
  function SpOf(l: Layout, m: Mem, i: int): Word { Load64(m, l.tasks + 16 * i) }
  function Cr3Of(l: Layout, m: Mem, i: int): Word { Load64(m, l.tasks + 16 * i + 8) }

  // struct task_t: sp, then cr3.
  lemma RecordAt(l: Layout, m: Mem, i: TaskId)
    ensures SpOf(l, m, i) == Load64(m, l.tasks + 16 * i) && Cr3Of(l, m, i) == Load64(m, l.tasks + 16 * i + 8)
    ensures CurOf(l, m) == Load(m, l.curTask, 4)
  {}

  // Whether the additional page has been mapped.
  function Extra(l: Layout, m: Mem): bool { Present(Entry(l, m, Pdp(0), 12)) }

  ghost predicate KernelSame(m: Mem, m': Mem) {
    SameBytes(m, m', KERNEL_MEM_ADDR, KERNEL_MEM_END)
  }

  lemma KernelSameEntry(l: Layout, m: Mem, m': Mem, t: Table, k: int)
    requires LayoutOk(l) && KernelSame(m, m') && IsTable(t) && 0 <= k < 512
    ensures Entry(l, m', t, k) == Entry(l, m, t, k)
  {
    BaseRange(l, t);
    Load64Same(m, m', Base(l, t) + 8 * k);
  }

  lemma EntriesSameTables(l: Layout, m: Mem, m': Mem, extra: bool)
    requires TablesOk(l, m, extra)
    requires forall t, k | IsTable(t) && 0 <= k < 512 :: Entry(l, m', t, k) == Entry(l, m, t, k)
    ensures TablesOk(l, m', extra)
  {
    forall t, k | IsTable(t) && 0 <= k < 512 ensures EntryOk(l, m', extra, t, k) { assert EntryOk(l, m, extra, t, k); }
  }

  lemma RecordRange(l: Layout)
    requires LayoutOk(l)
    ensures KERNEL_MEM_ADDR <= l.tasks <= KERNEL_MEM_END - 48
    ensures KERNEL_MEM_ADDR <= l.curTask <= KERNEL_MEM_END - 4
    ensures l.tasks + 48 <= l.curTask || l.curTask + 4 <= l.tasks
  {
    assert Arrays(l)[12] == (l.tasks, 48) && Arrays(l)[13] == (l.curTask, 4);
  }

  // Memory that agrees on kernel memory agrees on the tables and the record.
  lemma KernelSameReads(l: Layout, m: Mem, m': Mem, i: TaskId)
    requires LayoutOk(l) && KernelSame(m, m')
    ensures CurOf(l, m') == CurOf(l, m) && Extra(l, m') == Extra(l, m)
    ensures SpOf(l, m', i) == SpOf(l, m, i) && Cr3Of(l, m', i) == Cr3Of(l, m, i)
  {
    RecordRange(l);
    LoadSame(m, m', l.curTask, 4);
    Load64Same(m, m', l.tasks + 16 * i);
    Load64Same(m, m', l.tasks + 16 * i + 8);
    KernelSameEntry(l, m, m', Pdp(0), 12);
  }

  lemma KernelSameTables(l: Layout, m: Mem, m': Mem, extra: bool)
    requires LayoutOk(l) && KernelSame(m, m') && TablesOk(l, m, extra)
    ensures TablesOk(l, m', extra)
  {
    forall t, k | IsTable(t) && 0 <= k < 512
      ensures Entry(l, m', t, k) == Entry(l, m, t, k)
    {
      KernelSameEntry(l, m, m', t, k);
    }
    EntriesSameTables(l, m, m', extra);
  }

  function SetSp(l: Layout, m: Mem, i: int, sp: Word): Mem { Store64(m, l.tasks + 16 * i, sp) }
  function SetCur(l: Layout, m: Mem, i: nat): Mem { Store(m, l.curTask, 4, i) }

  lemma SetSpEffect(l: Layout, m: Mem, i: TaskId, sp: Word, j: TaskId)
    requires LayoutOk(l)
    ensures var m' := SetSp(l, m, i, sp);
            && SpOf(l, m', j) == (if i == j then sp else SpOf(l, m, j))
            && Cr3Of(l, m', j) == Cr3Of(l, m, j) && CurOf(l, m') == CurOf(l, m)
            && Extra(l, m') == Extra(l, m)
            && (forall a :: !InArray(l, 12, a) ==> At(m', a) == At(m, a))
  {
    RecordRange(l);
    var a := l.tasks + 16 * i;
    var m' := SetSp(l, m, i, sp);
    assert Arrays(l)[12] == (l.tasks, 48);
    forall x | x < a || a + 8 <= x ensures At(m', x) == At(m, x) { Store64Elsewhere(m, a, sp, x); }
    if i == j { Load64Store64(m, a, sp); } else { Load64Same(m, m', l.tasks + 16 * j); }
    Load64Same(m, m', l.tasks + 16 * j + 8);
    LoadSame(m, m', l.curTask, 4);
    EntryKept(l, m, m', 12, Pdp(0), 12);
  }

  lemma SetCurEffect(l: Layout, m: Mem, i: TaskId, j: TaskId)
    requires LayoutOk(l)
    ensures var m' := SetCur(l, m, i);
            && SpOf(l, m', j) == SpOf(l, m, j) && Cr3Of(l, m', j) == Cr3Of(l, m, j)
            && CurOf(l, m') == i && Extra(l, m') == Extra(l, m)
            && (forall a :: !InArray(l, 13, a) ==> At(m', a) == At(m, a))
  {
    RecordRange(l);
    var m' := SetCur(l, m, i);
    assert Arrays(l)[13] == (l.curTask, 4);
    forall x | x < l.curTask || l.curTask + 4 <= x
      ensures At(m', x) == At(m, x)
    {
      StoreElsewhere(m, l.curTask, 4, i, x);
    }
    assert Pow256(4) == 0x1_0000_0000;
    LoadStore(m, l.curTask, 4, i);
    Load64Same(m, m', l.tasks + 16 * j);
    Load64Same(m, m', l.tasks + 16 * j + 8);
    EntryKept(l, m, m', 13, Pdp(0), 12);
  }

  lemma RecordTables(l: Layout, m: Mem, m': Mem, extra: bool, k: int)
    requires LayoutOk(l) && TablesOk(l, m, extra) && (k == 12 || k == 13)
    requires forall a :: !InArray(l, k, a) ==> At(m', a) == At(m, a)
    ensures TablesOk(l, m', extra)
  {
    EntriesKept(l, m, m', k);
    EntriesSameTables(l, m, m', extra);
  }

  // The two assignments of schedule().
  function SetRecord(l: Layout, m: Mem, c: TaskId, sp: Word, n: TaskId): Mem { SetCur(l, SetSp(l, m, c, sp), n) }

  lemma SetRecordReads(l: Layout, m: Mem, c: TaskId, sp: Word, n: TaskId, j: TaskId)
    requires LayoutOk(l)
    ensures var m' := SetRecord(l, m, c, sp, n);
            && SpOf(l, m', j) == (if c == j then sp else SpOf(l, m, j))
            && Cr3Of(l, m', j) == Cr3Of(l, m, j) && CurOf(l, m') == n
            && Extra(l, m') == Extra(l, m)
            && (forall a :: !InArray(l, 12, a) && !InArray(l, 13, a) ==> At(m', a) == At(m, a))
  {
    hide LayoutOk;
    SetSpEffect(l, m, c, sp, j);
    SetCurEffect(l, SetSp(l, m, c, sp), n, j);
  }

  lemma SetRecordTables(l: Layout, m: Mem, c: TaskId, sp: Word, n: TaskId, extra: bool)
    requires LayoutOk(l) && TablesOk(l, m, extra)
    ensures TablesOk(l, SetRecord(l, m, c, sp, n), extra)
  {
    hide LayoutOk;
    hide TablesOk;
    SetSpEffect(l, m, c, sp, c);
    SetCurEffect(l, SetSp(l, m, c, sp), n, c);
    RecordTables(l, m, SetSp(l, m, c, sp), extra, 12);
    RecordTables(l, SetSp(l, m, c, sp), SetRecord(l, m, c, sp, n), extra, 13);
  }

  // --- the machine ---

  datatype State = State(mem: Mem, cpu: Cpu, cr3: int)

  // The lowest address that each task's stack, with the frames and the C calls
  // that interrupts put on it, may reach.
  ghost predicate LimitsOk(limits: seq<int>) {
    |limits| == N_TASKS && forall i :: 0 <= i < N_TASKS ==> TASK_VADDR_START <= limits[i] <= TASK_VADDR_END - FRAME_LEN
  }

  // A non-running task has a complete frame in its own window.
  ghost predicate Suspended(l: Layout, m: Mem, limits: seq<int>, j: TaskId)
    requires LimitsOk(limits)
  {
    SpOf(l, m, j) % 16 == 0 && limits[j] <= SpOf(l, m, j) <= TASK_VADDR_END - FRAME_LEN
  }

  ghost predicate Inv(l: Layout, s: State, limits: seq<int>) {
    && LayoutOk(l) && LimitsOk(limits)
    && TablesOk(l, s.mem, Extra(l, s.mem))
    && 0 <= CurOf(l, s.mem) < N_TASKS
    && s.cr3 == Base(l, Pml4(CurOf(l, s.mem)))
    && (forall i: TaskId :: Cr3Of(l, s.mem, i) == Base(l, Pml4(i)))
    && (forall j: TaskId :: j != CurOf(l, s.mem) ==> Suspended(l, s.mem, limits, j))
  }

  function ResumeCpu(l: Layout, m: Mem, j: TaskId): Cpu {
    FrameAt(m, WindowPhys(j, SpOf(l, m, j) + FRAME_LEN))
  }

  // The context of task j: live in the processor or saved on its stack.
  function CpuOf(l: Layout, s: State, j: TaskId): Cpu {
    if j == CurOf(l, s.mem) then s.cpu else ResumeCpu(l, s.mem, j)
  }

  // Room for n pushed words below RSP.
  ghost predicate StackRoom(limits: seq<int>, i: TaskId, rsp: int, n: nat)
    requires LimitsOk(limits)
  {
    limits[i] + 8 * n <= Align16(rsp) && rsp <= TASK_VADDR_END
  }

  // Kernel memory outside the record, and all memory but the dead part of task
  // i's stack, is kept.
  ghost predicate OnlyStackChanged(m: Mem, m': Mem, i: TaskId, lo: int, hi: int) {
    forall a :: !(WindowPhys(i, lo) <= a < WindowPhys(i, hi)) ==> At(m', a) == At(m, a)
  }

  lemma PushKept(m: Mem, i: TaskId, limits: seq<int>, rsp: int, ws: seq<Word>)
    requires LimitsOk(limits) && StackRoom(limits, i, rsp, |ws|)
    ensures var m' := PushWords(m, WindowPhys(i, Align16(rsp)), ws);
            OnlyStackChanged(m, m', i, limits[i], Align16(rsp)) && KernelSame(m, m')
  {
    var top := WindowPhys(i, Align16(rsp));
    var m' := PushWords(m, top, ws);
    forall a | !(WindowPhys(i, limits[i]) <= a < top) ensures At(m', a) == At(m, a) { PushedElsewhere(m, top, ws, a); }
  }

  // One timer interrupt: the frame and the C code's words (`scratch`) go on the
  // running task's stack, schedule() records RSP and advances cur_task, and the
  // next task's CR3 and frame are loaded.
  function Tick(l: Layout, s: State, scratch: seq<Word>): State
    requires 0 <= CurOf(l, s.mem) < N_TASKS && FRAME_LEN <= Align16(s.cpu.rsp)
  {
    var c: TaskId := CurOf(l, s.mem);
    var top := Align16(s.cpu.rsp);
    var m1 := PushWords(s.mem, WindowPhys(c, top), FrameWords(s.cpu) + scratch);
    var n: TaskId := (c + 1) % N_TASKS;
    var m2 := SetRecord(l, m1, c, top - FRAME_LEN, n);
    State(m2, ResumeCpu(l, m2, n), Cr3Of(l, m2, n))
  }

  ghost predicate TickKeeps(l: Layout, m: Mem, m': Mem, i: TaskId, lo: int, hi: int) {
    forall a :: !InArray(l, 12, a) && !InArray(l, 13, a) && !(WindowPhys(i, lo) <= a < WindowPhys(i, hi)) ==> At(m', a) == At(m, a)
  }

  lemma TickMemory(l: Layout, s: State, limits: seq<int>, scratch: seq<Word>)
    requires Inv(l, s, limits) && StackRoom(limits, CurOf(l, s.mem), s.cpu.rsp, FRAME_WORDS + |scratch|)
    ensures var m := s.mem;
            var c: TaskId := CurOf(l, m);
            var m' := Tick(l, s, scratch).mem;
            && TickKeeps(l, m, m', c, limits[c], Align16(s.cpu.rsp))
            && TablesOk(l, m', Extra(l, m')) && CurOf(l, m') == (c + 1) % N_TASKS
            && SpOf(l, m', c) == Align16(s.cpu.rsp) - FRAME_LEN
            && FrameAt(m', WindowPhys(c, Align16(s.cpu.rsp))) == s.cpu
            && Extra(l, m') == Extra(l, m)
  {
    hide TablesOk;
    hide Load64;
    hide FrameAt;
    var c: TaskId := CurOf(l, s.mem);
    var top := Align16(s.cpu.rsp);
    var ws := FrameWords(s.cpu) + scratch;
    var m1 := PushWords(s.mem, WindowPhys(c, top), ws);
    PushKept(s.mem, c, limits, s.cpu.rsp, ws);
    var n: TaskId := (c + 1) % N_TASKS;
    var m2 := SetRecord(l, m1, c, top - FRAME_LEN, n);
    KernelSameReads(l, s.mem, m1, c);
    SetRecordReads(l, m1, c, top - FRAME_LEN, n, c);
    KernelSameTables(l, s.mem, m1, Extra(l, s.mem));
    SetRecordTables(l, m1, c, top - FRAME_LEN, n, Extra(l, s.mem));
    FrameRoundTrip(s.mem, WindowPhys(c, top), s.cpu, scratch);
    RecordApart(l, m1, m2);
    FrameSame(m1, m2, WindowPhys(c, top));
  }

  // What one tick leaves in the record for each task.
  lemma TickRecord(l: Layout, s: State, limits: seq<int>, scratch: seq<Word>, j: TaskId)
    requires Inv(l, s, limits) && StackRoom(limits, CurOf(l, s.mem), s.cpu.rsp, FRAME_WORDS + |scratch|)
    ensures var m' := Tick(l, s, scratch).mem;
            && Cr3Of(l, m', j) == Cr3Of(l, s.mem, j)
            && SpOf(l, m', j) == (if j == CurOf(l, s.mem) then Align16(s.cpu.rsp) - FRAME_LEN else SpOf(l, s.mem, j))
  {
    hide TablesOk;
    hide Load64;
    var c: TaskId := CurOf(l, s.mem);
    var ws := FrameWords(s.cpu) + scratch;
    var m1 := PushWords(s.mem, WindowPhys(c, Align16(s.cpu.rsp)), ws);
    PushKept(s.mem, c, limits, s.cpu.rsp, ws);
    KernelSameReads(l, s.mem, m1, j);
    SetRecordReads(l, m1, c, Align16(s.cpu.rsp) - FRAME_LEN, (c + 1) % N_TASKS, j);
  }

  // A suspended task's context survives a tick.
  lemma TickResume(l: Layout, s: State, limits: seq<int>, scratch: seq<Word>, j: TaskId)
    requires Inv(l, s, limits) && StackRoom(limits, CurOf(l, s.mem), s.cpu.rsp, FRAME_WORDS + |scratch|)
    ensures ResumeCpu(l, Tick(l, s, scratch).mem, j) == CpuOf(l, s, j)
  {
    hide TablesOk;
    hide Load64;
    hide FrameAt;
    var m, m' := s.mem, Tick(l, s, scratch).mem;
    TickMemory(l, s, limits, scratch);
    TickRecord(l, s, limits, scratch, j);
    if j != CurOf(l, m) {
      assert Suspended(l, m, limits, j);
      RecordRange(l);
      assert Arrays(l)[12] == (l.tasks, 48) && Arrays(l)[13] == (l.curTask, 4);
      FrameSame(m, m', WindowPhys(j, SpOf(l, m, j) + FRAME_LEN));
    }
  }

  lemma RecordApart(l: Layout, m: Mem, m': Mem)
    requires LayoutOk(l)
    requires forall a :: !InArray(l, 12, a) && !InArray(l, 13, a) ==> At(m', a) == At(m, a)
    ensures forall a :: KERNEL_MEM_END <= a ==> At(m', a) == At(m, a)
  {
    RecordRange(l);
    assert Arrays(l)[12] == (l.tasks, 48) && Arrays(l)[13] == (l.curTask, 4);
  }

  // The suspended-task invariant is kept by every switch; the interrupted
  // context is saved exactly, the next one is resumed exactly, and the third
  // task's is untouched.
  lemma TickSwitches(l: Layout, s: State, limits: seq<int>, scratch: seq<Word>)
    requires Inv(l, s, limits) && StackRoom(limits, CurOf(l, s.mem), s.cpu.rsp, FRAME_WORDS + |scratch|)
    ensures var s' := Tick(l, s, scratch);
            && Inv(l, s', limits)
            && CurOf(l, s'.mem) == (CurOf(l, s.mem) + 1) % N_TASKS
            && (forall j: TaskId :: CpuOf(l, s', j) == CpuOf(l, s, j))
  {
    hide LayoutOk;
    hide TablesOk;
    hide Load64;
    hide FrameAt;
    var s' := Tick(l, s, scratch);
    TickMemory(l, s, limits, scratch);
    forall j: TaskId
      ensures CpuOf(l, s', j) == CpuOf(l, s, j) && Cr3Of(l, s'.mem, j) == Base(l, Pml4(j))
      ensures j != CurOf(l, s'.mem) ==> Suspended(l, s'.mem, limits, j)
    {
      TickRecord(l, s, limits, scratch, j);
      TickResume(l, s, limits, scratch, j);
      SavedAligned(s.cpu.rsp);
      assert j != CurOf(l, s.mem) ==> Suspended(l, s.mem, limits, j);
    }
  }

  // --- interrupts that return to the same task ---

  // Bytes that the console code may write: kernel data outside the modelled
  // arrays, and the frame buffer.
  ghost predicate ConsoleByte(l: Layout, a: int) {
    || (KERNEL_MEM_ADDR <= a < KERNEL_MEM_END && forall k | 0 <= k < 14 :: !InArray(l, k, a))
    || FRAME_BUF_ADDR <= a < FRAME_BUF_ADDR + FRAME_BUF_LEN
  }

  ghost predicate ConsoleOnly(l: Layout, console: Mem) {
    forall a | a in console :: ConsoleByte(l, a)
  }

  // With an error code the processor pushes six words; the handler's SP is
  // then the address of the last register it pushed.
  function FaultWords(c: Cpu, error: Word): seq<Word> {
    HardwareWords(c) + [error] + c.gpr
  }

  const FAULT_WORDS: int := 21

  // The pops, `add $8, %rsp` and iretq of page_fault_handler.
  function FaultFrameAt(m: Mem, top: int): Cpu {
    CpuState(seq(15, k requires 0 <= k < 15 => FrameWord(m, top, 6 + k)),
             FrameWord(m, top, 4), FrameWord(m, top, 1), FrameWord(m, top, 2),
             FrameWord(m, top, 3) % 0x1_0000, FrameWord(m, top, 0) % 0x1_0000)
  }

  lemma FaultRoundTrip(m: Mem, top: int, c: Cpu, error: Word, below: seq<Word>)
    ensures var m' := PushWords(m, top, FaultWords(c, error) + below);
            && FaultFrameAt(m', top) == c
            && Load64(m', top - 8 * FAULT_WORDS + 8 * 15) == error // sp[15]
  {
    var ws := FaultWords(c, error) + below;
    var m' := PushWords(m, top, ws);
    forall k: nat | k < FAULT_WORDS
      ensures FrameWord(m', top, k) == FaultWords(c, error)[k]
    {
      PushedWord(m, top, ws, k);
    }
    var c' := FaultFrameAt(m', top);
    forall k | 0 <= k < 15 ensures c'.gpr[k] == c.gpr[k] { assert FaultWords(c, error)[6 + k] == c.gpr[k]; }
    assert c'.gpr == c.gpr;
    assert FrameWord(m', top, 5) == error;
  }

  // One repaired page fault.
  function Fault(l: Layout, s: State, error: Word, scratch: seq<Word>, console: Mem): State
    requires LayoutOk(l) && 0 <= CurOf(l, s.mem) < N_TASKS
  {
    var top := WindowPhys(CurOf(l, s.mem), Align16(s.cpu.rsp));
    var m1 := PushWords(s.mem, top, FaultWords(s.cpu, error) + scratch);
    var m2 := MapAdditionalPage(l, m1 + console);
    State(m2, FaultFrameAt(m2, top), s.cr3)
  }

  const SYSCALL_PUTS: int := 1 // common/syscall_ids.h

  // syscall_handler saves every register but RAX, which carries the result.
  function SyscallWords(c: Cpu): seq<Word> {
    HardwareWords(c) + c.gpr[1..]
  }

  const SYSCALL_WORDS: int := 19

  function SyscallFrameAt(m: Mem, top: int, rax: Word): Cpu {
    CpuState([rax] + seq(14, k requires 0 <= k < 14 => FrameWord(m, top, 5 + k)),
             FrameWord(m, top, 4), FrameWord(m, top, 1), FrameWord(m, top, 2),
             FrameWord(m, top, 3) % 0x1_0000, FrameWord(m, top, 0) % 0x1_0000)
  }

  lemma SyscallRoundTrip(m: Mem, top: int, c: Cpu, rax: Word, below: seq<Word>)
    ensures SyscallFrameAt(PushWords(m, top, SyscallWords(c) + below), top, rax) == c.(gpr := c.gpr[0 := rax])
  {
    var ws := SyscallWords(c) + below;
    var m' := PushWords(m, top, ws);
    forall k: nat | k < SYSCALL_WORDS ensures FrameWord(m', top, k) == SyscallWords(c)[k] { PushedWord(m, top, ws, k); }
    var c' := SyscallFrameAt(m', top, rax);
    forall k | 1 <= k < 15 ensures c'.gpr[k] == c.gpr[k] { assert SyscallWords(c)[4 + k] == c.gpr[k]; }
    assert c'.gpr == c.gpr[0 := rax];
  }

  function Syscall(l: Layout, s: State, rax: Word, scratch: seq<Word>, console: Mem): State
    requires 0 <= CurOf(l, s.mem) < N_TASKS
  {
    var top := WindowPhys(CurOf(l, s.mem), Align16(s.cpu.rsp));
    var m1 := PushWords(s.mem, top, SyscallWords(s.cpu) + scratch) + console;
    State(m1, SyscallFrameAt(m1, top, rax), s.cr3)
  }

  // What any event that does not switch must leave alone for the other tasks.
  lemma NoSwitch(l: Layout, s: State, s': State, limits: seq<int>)
    requires Inv(l, s, limits) && s'.cr3 == s.cr3
    requires TablesOk(l, s'.mem, Extra(l, s'.mem))
    requires forall a :: InArray(l, 12, a) || InArray(l, 13, a) ==> At(s'.mem, a) == At(s.mem, a)
    requires forall j: TaskId, va | j != CurOf(l, s.mem)
             && InWindow(va) :: At(s'.mem, WindowPhys(j, va)) == At(s.mem, WindowPhys(j, va))
    ensures Inv(l, s', limits) && CurOf(l, s'.mem) == CurOf(l, s.mem)
    ensures forall j: TaskId | j != CurOf(l, s.mem) :: CpuOf(l, s', j) == CpuOf(l, s, j)
  {
    hide TablesOk;
    hide FrameAt;
    hide LayoutOk;
    hide Extra;
    hide Load64;
    hide InArray;
    hide CurOf;
    hide SpOf;
    hide Cr3Of;
    forall j: TaskId
      ensures CurOf(l, s'.mem) == CurOf(l, s.mem)
      ensures Cr3Of(l, s'.mem, j) == Cr3Of(l, s.mem, j) && SpOf(l, s'.mem, j) == SpOf(l, s.mem, j)
      ensures j != CurOf(l, s.mem) ==> Suspended(l, s'.mem, limits, j) && CpuOf(l, s', j) == CpuOf(l, s, j)
    {
      RecordSame(l, s.mem, s'.mem, j);
      if j != CurOf(l, s.mem) {
        assert Suspended(l, s.mem, limits, j);
        WindowFrame(s.mem, s'.mem, j, SpOf(l, s.mem, j));
      }
    }
    RecordSame(l, s.mem, s'.mem, 0);
  }

  lemma RecordSame(l: Layout, m: Mem, m': Mem, j: TaskId)
    requires LayoutOk(l) && forall a :: InArray(l, 12, a) || InArray(l, 13, a) ==> At(m', a) == At(m, a)
    ensures CurOf(l, m') == CurOf(l, m) && SpOf(l, m', j) == SpOf(l, m, j) && Cr3Of(l, m', j) == Cr3Of(l, m, j)
  {
    hide LayoutOk;
    assert Arrays(l)[12] == (l.tasks, 48) && Arrays(l)[13] == (l.curTask, 4);
    LoadSame(m, m', l.curTask, 4);
    Load64Same(m, m', l.tasks + 16 * j);
    Load64Same(m, m', l.tasks + 16 * j + 8);
  }

  // The frame at sp in a window whose bytes are the same.
  lemma WindowFrame(m: Mem, m': Mem, j: TaskId, sp: int)
    requires TASK_VADDR_START <= sp <= TASK_VADDR_END - FRAME_LEN
    requires forall va | InWindow(va) :: At(m', WindowPhys(j, va)) == At(m, WindowPhys(j, va))
    ensures FrameAt(m', WindowPhys(j, sp + FRAME_LEN)) == FrameAt(m, WindowPhys(j, sp + FRAME_LEN))
  {
    hide FrameAt;
    var top := WindowPhys(j, sp + FRAME_LEN);
    forall a | top - FRAME_LEN <= a < top
      ensures At(m', a) == At(m, a)
    {
      assert a == WindowPhys(j, sp + (a - (top - FRAME_LEN)));
    }
    FrameSame(m, m', top);
  }

  // A write of console bytes, seen from the modelled arrays.
  lemma ConsoleKept(l: Layout, m: Mem, console: Mem, extra: bool)
    requires LayoutOk(l) && ConsoleOnly(l, console) && TablesOk(l, m, extra)
    ensures TablesOk(l, m + console, extra)
    ensures forall a :: KERNEL_MEM_END <= a ==> At(m + console, a) == At(m, a)
    ensures forall k, a | 0 <= k < 14 && InArray(l, k, a) :: At(m + console, a) == At(m, a)
  {
    var m' := m + console;
    forall k, a | 0 <= k < 14 && InArray(l, k, a) ensures At(m', a) == At(m, a) {
      assert KERNEL_MEM_ADDR <= Arrays(l)[k].0 && Arrays(l)[k].0 + Arrays(l)[k].1 <= KERNEL_MEM_END;
      assert !ConsoleByte(l, a);
      assert a in console ==> ConsoleByte(l, a);
    }
    forall t, n | IsTable(t) && 0 <= n < 512 ensures Entry(l, m', t, n) == Entry(l, m, t, n) {
      BaseRange(l, t);
      forall a | Base(l, t) + 8 * n <= a < Base(l, t) + 8 * n + 8 ensures At(m', a) == At(m, a) {
        assert InArray(l, ArrayOf(t), a);
      }
      Load64Same(m, m', Base(l, t) + 8 * n);
    }
    EntriesSameTables(l, m, m', extra);
  }

  // A task's memory outside the dead part of its stack.
  ghost predicate TaskBytesKept(m: Mem, m': Mem, c: TaskId, lo: int, hi: int) {
    forall j: TaskId, va | InConfines(j, va) && !(j == c && lo <= va < hi) :: At(m', PhysOf(j, va)) == At(m, PhysOf(j, va))
  }

  lemma HighBytesKept(m: Mem, m1: Mem, m2: Mem, c: TaskId, limits: seq<int>, rsp: int)
    requires LimitsOk(limits) && rsp <= TASK_VADDR_END
    requires OnlyStackChanged(m, m1, c, limits[c], Align16(rsp))
    requires forall a :: KERNEL_MEM_END <= a ==> At(m2, a) == At(m1, a)
    ensures TaskBytesKept(m, m2, c, limits[c], rsp)
  {
    SavedAligned(rsp);
    forall j: TaskId, va | InConfines(j, va) && !(j == c && limits[c] <= va < rsp)
      ensures At(m2, PhysOf(j, va)) == At(m, PhysOf(j, va))
    {
      var a := PhysOf(j, va);
      assert KERNEL_MEM_END <= a;
      assert !(WindowPhys(c, limits[c]) <= a < WindowPhys(c, Align16(rsp)));
    }
  }

  lemma WindowsKept(m: Mem, m': Mem, c: TaskId, lo: int, hi: int, j: TaskId, va: int)
    requires TaskBytesKept(m, m', c, lo, hi) && j != c && InWindow(va)
    ensures At(m', WindowPhys(j, va)) == At(m, WindowPhys(j, va))
  {
    assert PhysOf(j, va) == WindowPhys(j, va);
  }

  lemma TickTaskBytes(l: Layout, s: State, limits: seq<int>, scratch: seq<Word>)
    requires Inv(l, s, limits) && StackRoom(limits, CurOf(l, s.mem), s.cpu.rsp, FRAME_WORDS + |scratch|)
    ensures TaskBytesKept(s.mem, Tick(l, s, scratch).mem, CurOf(l, s.mem), limits[CurOf(l, s.mem)], s.cpu.rsp)
  {
    hide TablesOk;
    hide Extra;
    hide Tick;
    hide LayoutOk;
    TickMemory(l, s, limits, scratch);
    TickKeepsBytes(l, s.mem, Tick(l, s, scratch).mem, CurOf(l, s.mem), limits[CurOf(l, s.mem)], s.cpu.rsp);
  }

  lemma TickKeepsBytes(l: Layout, m: Mem, m': Mem, c: TaskId, limit: int, rsp: int)
    requires LayoutOk(l) && TickKeeps(l, m, m', c, limit, Align16(rsp))
    requires TASK_VADDR_START <= limit && rsp <= TASK_VADDR_END
    ensures TaskBytesKept(m, m', c, limit, rsp)
  {
    hide LayoutOk;
    RecordRange(l);
    assert Arrays(l)[12] == (l.tasks, 48) && Arrays(l)[13] == (l.curTask, 4);
    SavedAligned(rsp);
    forall j: TaskId, va | InConfines(j, va) && !(j == c && limit <= va < rsp)
      ensures At(m', PhysOf(j, va)) == At(m, PhysOf(j, va))
    {
      assert !(WindowPhys(c, limit) <= PhysOf(j, va) < WindowPhys(c, Align16(rsp)));
    }
  }

  // The memory side shared by system calls and page faults: pushes below RSP,
  // console output and, for a fault, the three table entries.
  lemma HandlerMemory(l: Layout, s: State, limits: seq<int>, ws: seq<Word>, console: Mem, repair: bool)
    requires Inv(l, s, limits) && ConsoleOnly(l, console)
    requires StackRoom(limits, CurOf(l, s.mem), s.cpu.rsp, |ws|)
    ensures var c: TaskId := CurOf(l, s.mem);
            var m1 := PushWords(s.mem, WindowPhys(c, Align16(s.cpu.rsp)), ws);
            var m3 := if repair then MapAdditionalPage(l, m1 + console) else m1 + console;
            && TablesOk(l, m3, repair || Extra(l, s.mem))
            && (forall a :: KERNEL_MEM_END <= a ==> At(m3, a) == At(m1, a))
            && (forall a :: InArray(l, 12, a) || InArray(l, 13, a) ==> At(m3, a) == At(s.mem, a))
            && TaskBytesKept(s.mem, m3, c, limits[c], s.cpu.rsp)
  {
    hide TablesOk;
    hide MapAdditionalPage;
    var c: TaskId := CurOf(l, s.mem);
    var m1 := PushWords(s.mem, WindowPhys(c, Align16(s.cpu.rsp)), ws);
    PushKept(s.mem, c, limits, s.cpu.rsp, ws);
    KernelSameTables(l, s.mem, m1, Extra(l, s.mem));
    ConsoleKept(l, m1, console, Extra(l, s.mem));
    var m2 := m1 + console;
    var m3 := if repair then MapAdditionalPage(l, m2) else m2;
    if repair {
      MapAdditionalTables(l, m2, Extra(l, s.mem));
      MapAdditionalFrame(l, m2);
    }
    RecordRange(l);
    assert Arrays(l)[12] == (l.tasks, 48) && Arrays(l)[13] == (l.curTask, 4);
    ArraysBelow(l, m2, m3);
    HighBytesKept(s.mem, m1, m3, c, limits, s.cpu.rsp);
  }

  lemma ArraysBelow(l: Layout, m: Mem, m': Mem)
    requires LayoutOk(l) && OnlyArraysChanged(l, 11, m, m')
    ensures forall a :: KERNEL_MEM_END <= a ==> At(m', a) == At(m, a)
    ensures forall a :: InArray(l, 12, a) || InArray(l, 13, a) ==> At(m', a) == At(m, a)
  {
    forall a | KERNEL_MEM_END <= a || InArray(l, 12, a) || InArray(l, 13, a) ensures At(m', a) == At(m, a) {
      forall k | 0 <= k < 11 ensures !InArray(l, k, a) {
        assert KERNEL_MEM_ADDR <= Arrays(l)[k].0 && Arrays(l)[k].0 + Arrays(l)[k].1 <= KERNEL_MEM_END;
      }
    }
  }

  lemma ExtraIs(l: Layout, m: Mem, extra: bool)
    requires TablesOk(l, m, extra)
    ensures Extra(l, m) == extra
  {
    assert EntryOk(l, m, extra, Pdp(0), 12);
  }

  // A repaired fault restarts the faulting instruction in exactly the same
  // context, with one page more and nothing else changed for any task.
  lemma FaultRestarts(l: Layout, s: State, limits: seq<int>, error: Word, scratch: seq<Word>, console: Mem)
    requires Inv(l, s, limits) && ConsoleOnly(l, console)
    requires StackRoom(limits, CurOf(l, s.mem), s.cpu.rsp, FAULT_WORDS + |scratch|)
    ensures var s' := Fault(l, s, error, scratch, console);
            && Inv(l, s', limits) && CurOf(l, s'.mem) == CurOf(l, s.mem) && Extra(l, s'.mem)
            && (forall j: TaskId :: CpuOf(l, s', j) == CpuOf(l, s, j))
            && TaskBytesKept(s.mem, s'.mem, CurOf(l, s.mem), limits[CurOf(l, s.mem)], s.cpu.rsp)
  {
    hide TablesOk;
    hide MapAdditionalPage;
    var c: TaskId := CurOf(l, s.mem);
    var top := WindowPhys(c, Align16(s.cpu.rsp));
    var ws := FaultWords(s.cpu, error) + scratch;
    var s' := Fault(l, s, error, scratch, console);
    HandlerMemory(l, s, limits, ws, console, true);
    ExtraIs(l, s'.mem, true);
    FaultRoundTrip(s.mem, top, s.cpu, error, scratch);
    var m1 := PushWords(s.mem, top, ws);
    forall k | 0 <= k < FAULT_WORDS ensures FrameWord(s'.mem, top, k) == FrameWord(m1, top, k) {
      Load64Same(s'.mem, m1, top - 8 * (k + 1));
    }
    assert s'.cpu.gpr == FaultFrameAt(m1, top).gpr;
    forall j: TaskId, va | j != c && InWindow(va)
      ensures At(s'.mem, WindowPhys(j, va)) == At(s.mem, WindowPhys(j, va))
    {
      WindowsKept(s.mem, s'.mem, c, limits[c], s.cpu.rsp, j, va);
    }
    NoSwitch(l, s, s', limits);
  }

  lemma SyscallReturns(l: Layout, s: State, limits: seq<int>, rax: Word, scratch: seq<Word>, console: Mem)
    requires Inv(l, s, limits) && ConsoleOnly(l, console)
    requires StackRoom(limits, CurOf(l, s.mem), s.cpu.rsp, SYSCALL_WORDS + |scratch|)
    ensures var s' := Syscall(l, s, rax, scratch, console);
            && Inv(l, s', limits) && CurOf(l, s'.mem) == CurOf(l, s.mem) && Extra(l, s'.mem) == Extra(l, s.mem)
            && s'.cpu == s.cpu.(gpr := s.cpu.gpr[0 := rax])
            && (forall j: TaskId | j != CurOf(l, s.mem) :: CpuOf(l, s', j) == CpuOf(l, s, j))
            && TaskBytesKept(s.mem, s'.mem, CurOf(l, s.mem), limits[CurOf(l, s.mem)], s.cpu.rsp)
  {
    hide TablesOk;
    var c: TaskId := CurOf(l, s.mem);
    var top := WindowPhys(c, Align16(s.cpu.rsp));
    var ws := SyscallWords(s.cpu) + scratch;
    var s' := Syscall(l, s, rax, scratch, console);
    HandlerMemory(l, s, limits, ws, console, false);
    ExtraIs(l, s'.mem, Extra(l, s.mem));
    SyscallRoundTrip(s.mem, top, s.cpu, rax, scratch);
    var m1 := PushWords(s.mem, top, ws);
    forall k | 0 <= k < SYSCALL_WORDS ensures FrameWord(s'.mem, top, k) == FrameWord(m1, top, k) {
      Load64Same(s'.mem, m1, top - 8 * (k + 1));
    }
    assert s'.cpu.gpr == SyscallFrameAt(m1, top, rax).gpr;
    forall j: TaskId, va | j != c && InWindow(va)
      ensures At(s'.mem, WindowPhys(j, va)) == At(s.mem, WindowPhys(j, va))
    {
      WindowsKept(s.mem, s'.mem, c, limits[c], s.cpu.rsp, j, va);
    }
    NoSwitch(l, s, s', limits);
  }
}
