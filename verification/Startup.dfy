// The initial stacks that prepare_stack builds (kernel/sched.c).
module Startup {
  import opened Bytes
  import opened Bits
  import opened Paging
  import opened VirtualMemory
  import opened Contexts

  const ENTRY_POINT: int := 0x4000_0000
  const STACK_START: int := ENTRY_POINT + 0x100_0000

  // tasks[id].sp -= 8; then n bytes of v at the new tasks[id].sp, in the
  // address space of task id.
  function PushTo(l: Layout, m: Mem, id: TaskId, n: nat, v: nat): Mem
    requires SpOf(l, m, id) >= 8
  {
    var sp := SpOf(l, m, id) - 8;
    Store(SetSp(l, m, id, sp), WindowPhys(id, sp), n, v)
  }

  // What a step of prepare_stack leaves alone.
  ghost predicate OnlyTask(l: Layout, m: Mem, m': Mem, id: TaskId, lo: int, hi: int) {
    && (forall j: TaskId :: Cr3Of(l, m', j) == Cr3Of(l, m, j) && (j != id ==> SpOf(l, m', j) == SpOf(l, m, j)))
    && CurOf(l, m') == CurOf(l, m) && Extra(l, m') == Extra(l, m)
    && (TablesOk(l, m, Extra(l, m)) ==> TablesOk(l, m', Extra(l, m')))
    && (forall a :: !InArray(l, 12, a) && !(WindowPhys(id, lo) <= a < WindowPhys(id, hi)) ==> At(m', a) == At(m, a))
  }

  lemma SetSpOnly(l: Layout, m: Mem, id: TaskId, sp: Word, lo: int, hi: int)
    requires LayoutOk(l)
    ensures OnlyTask(l, m, SetSp(l, m, id, sp), id, lo, hi)
    ensures SpOf(l, SetSp(l, m, id, sp), id) == sp
    ensures forall a :: KERNEL_MEM_END <= a ==> At(SetSp(l, m, id, sp), a) == At(m, a)
  {
    hide LayoutOk;
    hide TablesOk;
    var m' := SetSp(l, m, id, sp);
    forall j: TaskId
      ensures Cr3Of(l, m', j) == Cr3Of(l, m, j) && SpOf(l, m', j) == (if id == j then sp else SpOf(l, m, j))
    {
      SetSpEffect(l, m, id, sp, j);
    }
    SetSpEffect(l, m, id, sp, id);
    if TablesOk(l, m, Extra(l, m)) { RecordTables(l, m, m', Extra(l, m), 12); }
    RecordRange(l);
    assert Arrays(l)[12] == (l.tasks, 48);
  }

  lemma WindowStoreOnly(l: Layout, m: Mem, id: TaskId, va: int, n: nat, v: nat)
    requires LayoutOk(l) && TASK_VADDR_START <= va && n <= 8 && va + 8 <= TASK_VADDR_END
    ensures OnlyTask(l, m, Store(m, WindowPhys(id, va), n, v), id, va, va + 8)
    ensures SpOf(l, Store(m, WindowPhys(id, va), n, v), id) == SpOf(l, m, id)
  {
    hide TablesOk;
    var p := WindowPhys(id, va);
    var m' := Store(m, p, n, v);
    forall a | !(p <= a < p + n) ensures At(m', a) == At(m, a) { StoreElsewhere(m, p, n, v, a); }
    assert KernelSame(m, m');
    if TablesOk(l, m, Extra(l, m)) { KernelSameTables(l, m, m', Extra(l, m)); }
    forall j: TaskId
      ensures Cr3Of(l, m', j) == Cr3Of(l, m, j) && SpOf(l, m', j) == SpOf(l, m, j)
    {
      KernelSameReads(l, m, m', j);
    }
    KernelSameReads(l, m, m', id);
  }

  lemma OnlyTaskTwice(l: Layout, m: Mem, m1: Mem, m2: Mem, id: TaskId, lo: int, mid: int, hi: int)
    requires OnlyTask(l, m, m1, id, mid, hi) && OnlyTask(l, m1, m2, id, lo, mid) && lo <= mid <= hi
    ensures OnlyTask(l, m, m2, id, lo, hi)
  {
    hide TablesOk;
  }

  lemma PushToEffect(l: Layout, m: Mem, id: TaskId, n: nat, v: nat, sp: int)
    requires LayoutOk(l) && SpOf(l, m, id) == sp && TASK_VADDR_START + 8 <= sp <= TASK_VADDR_END
    requires n <= 8 && v < Pow256(n)
    ensures var m' := PushTo(l, m, id, n, v);
            && SpOf(l, m', id) == sp - 8
            && OnlyTask(l, m, m', id, sp - 8, sp)
            && Load(m', WindowPhys(id, sp - 8), n) == v
  {
    hide OnlyTask;
    hide LayoutOk;
    var m1 := SetSp(l, m, id, sp - 8);
    SetSpOnly(l, m, id, sp - 8, sp, sp);
    WindowStoreOnly(l, m1, id, sp - 8, n, v);
    OnlyTaskTwice(l, m, m1, PushTo(l, m, id, n, v), id, sp - 8, sp, sp);
    LoadStore(m1, WindowPhys(id, sp - 8), n, v);
  }

  // prepare_stack: SS, RSP, RFLAGS, CS and RIP, then room for the 15 general
  // registers, whose initial values are whatever the stack held.
  function Prepare(l: Layout, m: Mem, id: TaskId, k: Cpu, rip: Word): Mem
    requires LayoutOk(l) && SpOf(l, m, id) == STACK_START
  {
    var m1 := PushTo(l, m, id, 2, k.ss);
    PrepareSs(l, m, id, k);
    var m2 := PushTo(l, m1, id, 8, STACK_START);
    PushToSp(l, m1, id, 8, STACK_START, STACK_START - 8);
    var m3 := PushTo(l, m2, id, 8, k.rflags);
    PushToSp(l, m2, id, 8, k.rflags, STACK_START - 16);
    var m4 := PushTo(l, m3, id, 2, k.cs);
    PushToSp(l, m3, id, 2, k.cs, STACK_START - 24);
    var m5 := PushTo(l, m4, id, 8, rip);
    PushToSp(l, m4, id, 8, rip, STACK_START - 32);
    SetSp(l, m5, id, SpOf(l, m5, id) - 8 * 15)
  }

  lemma Bounds(k: Cpu)
    ensures k.ss < Pow256(2) && k.cs < Pow256(2) && Pow256(8) == 0x1_0000_0000_0000_0000
  {}

  lemma PrepareSs(l: Layout, m: Mem, id: TaskId, k: Cpu)
    requires LayoutOk(l) && SpOf(l, m, id) == STACK_START
    ensures SpOf(l, PushTo(l, m, id, 2, k.ss), id) == STACK_START - 8
  {
    PushToSp(l, m, id, 2, k.ss, STACK_START);
  }

  lemma PushToSp(l: Layout, m: Mem, id: TaskId, n: nat, v: nat, sp: int)
    requires LayoutOk(l) && SpOf(l, m, id) == sp && TASK_VADDR_START + 8 <= sp <= TASK_VADDR_END && n <= 8
    ensures SpOf(l, PushTo(l, m, id, n, v), id) == sp - 8
  {
    hide TablesOk;
    SetSpOnly(l, m, id, sp - 8, sp, sp);
    WindowStoreOnly(l, SetSp(l, m, id, sp - 8), id, sp - 8, n, v);
  }

  lemma Low16(m: Mem, a: int)
    ensures Load64(m, a) % 0x1_0000 == Load(m, a, 2)
  {
    var low, rest := At(m, a) + 256 * At(m, a + 1), Load(m, a + 2, 6);
    LowTwoBytes(m, a, 8);
    LowTwoBytes(m, a, 2);
    DivMod(low + 0x1_0000 * rest, 0x1_0000, rest, low);
  }

  lemma LowTwoBytes(m: Mem, a: int, n: nat)
    requires n >= 2
    ensures Load(m, a, n) == At(m, a) + 256 * At(m, a + 1) + 0x1_0000 * Load(m, a + 2, n - 2)
  {}

  lemma WindowLoadSame(l: Layout, m: Mem, m': Mem, id: TaskId, lo: int, hi: int, va: int, n: nat)
    requires LayoutOk(l) && OnlyTask(l, m, m', id, lo, hi) && hi <= va && TASK_VADDR_START <= va
    ensures Load(m', WindowPhys(id, va), n) == Load(m, WindowPhys(id, va), n)
  {
    hide TablesOk;
    RecordRange(l);
    assert Arrays(l)[12] == (l.tasks, 48);
    var p := WindowPhys(id, va);
    forall a | p <= a < p + n ensures At(m', a) == At(m, a) {}
    LoadSame(m', m, p, n);
  }

  // The prepared frame resumes task id at its entry point with an empty
  // stack and the kernel's flags and segments.
  lemma PrepareEffect(l: Layout, m: Mem, id: TaskId, k: Cpu, rip: Word)
    requires LayoutOk(l) && SpOf(l, m, id) == STACK_START
    ensures var m' := Prepare(l, m, id, k, rip);
            var c := ResumeCpu(l, m', id);
            && SpOf(l, m', id) == STACK_START - FRAME_LEN
            && OnlyTask(l, m, m', id, STACK_START - 40, STACK_START)
            && c.rip == rip && c.rsp == STACK_START && c.rflags == k.rflags && c.cs == k.cs && c.ss == k.ss
  {
    hide TablesOk;
    hide OnlyTask;
    hide LayoutOk;
    Bounds(k);
    var m1 := PushTo(l, m, id, 2, k.ss);
    PushToEffect(l, m, id, 2, k.ss, STACK_START);
    var m2 := PushTo(l, m1, id, 8, STACK_START);
    PushToEffect(l, m1, id, 8, STACK_START, STACK_START - 8);
    OnlyTaskTwice(l, m, m1, m2, id, STACK_START - 16, STACK_START - 8, STACK_START);
    var m3 := PushTo(l, m2, id, 8, k.rflags);
    PushToEffect(l, m2, id, 8, k.rflags, STACK_START - 16);
    OnlyTaskTwice(l, m, m2, m3, id, STACK_START - 24, STACK_START - 16, STACK_START);
    var m4 := PushTo(l, m3, id, 2, k.cs);
    PushToEffect(l, m3, id, 2, k.cs, STACK_START - 24);
    OnlyTaskTwice(l, m, m3, m4, id, STACK_START - 32, STACK_START - 24, STACK_START);
    var m5 := PushTo(l, m4, id, 8, rip);
    PushToEffect(l, m4, id, 8, rip, STACK_START - 32);
    OnlyTaskTwice(l, m, m4, m5, id, STACK_START - 40, STACK_START - 32, STACK_START);
    var m6 := SetSp(l, m5, id, STACK_START - FRAME_LEN);
    SetSpOnly(l, m5, id, STACK_START - FRAME_LEN, STACK_START - 40, STACK_START - 40);
    OnlyTaskTwice(l, m, m5, m6, id, STACK_START - 40, STACK_START - 40, STACK_START);
    OnlyTaskTwice(l, m4, m5, m6, id, STACK_START - 40, STACK_START - 40, STACK_START - 32);
    OnlyTaskTwice(l, m3, m4, m6, id, STACK_START - 40, STACK_START - 32, STACK_START - 24);
    OnlyTaskTwice(l, m2, m3, m6, id, STACK_START - 40, STACK_START - 24, STACK_START - 16);
    OnlyTaskTwice(l, m1, m2, m6, id, STACK_START - 40, STACK_START - 16, STACK_START - 8);
    WindowLoadSame(l, m1, m6, id, STACK_START - 40, STACK_START - 8, STACK_START - 8, 2);
    WindowLoadSame(l, m2, m6, id, STACK_START - 40, STACK_START - 16, STACK_START - 16, 8);
    WindowLoadSame(l, m3, m6, id, STACK_START - 40, STACK_START - 24, STACK_START - 24, 8);
    WindowLoadSame(l, m4, m6, id, STACK_START - 40, STACK_START - 32, STACK_START - 32, 2);
    WindowLoadSame(l, m5, m6, id, STACK_START - 40, STACK_START - 40, STACK_START - 40, 8);
    var top := WindowPhys(id, STACK_START);
    Low16(m6, top - 8);
    Low16(m6, top - 32);
  }

  // --- init_tasks ---

  function SetCr3(l: Layout, m: Mem, i: int, cr3: Word): Mem { Store64(m, l.tasks + 16 * i + 8, cr3) }

  // The record and windows of the other tasks are untouched.
  ghost predicate OthersKept(l: Layout, m: Mem, m': Mem, i: TaskId) {
    && (forall j: TaskId | j != i :: SpOf(l, m', j) == SpOf(l, m, j) && Cr3Of(l, m', j) == Cr3Of(l, m, j))
    && Extra(l, m') == Extra(l, m)
    && (TablesOk(l, m, Extra(l, m)) ==> TablesOk(l, m', Extra(l, m')))
    && (forall a :: !InArray(l, 12, a) && !(WindowPhys(i, STACK_START - 40) <= a < WindowPhys(i, STACK_START)) ==> At(m', a) == At(m, a))
  }

  lemma SetCr3Only(l: Layout, m: Mem, i: TaskId, cr3: Word)
    requires LayoutOk(l)
    ensures OthersKept(l, m, SetCr3(l, m, i, cr3), i)
    ensures SpOf(l, SetCr3(l, m, i, cr3), i) == SpOf(l, m, i) && Cr3Of(l, SetCr3(l, m, i, cr3), i) == cr3
  {
    hide TablesOk;
    RecordRange(l);
    var a := l.tasks + 16 * i + 8;
    var m' := SetCr3(l, m, i, cr3);
    assert Arrays(l)[12] == (l.tasks, 48);
    forall x | x < a || a + 8 <= x ensures At(m', x) == At(m, x) { Store64Elsewhere(m, a, cr3, x); }
    Load64Store64(m, a, cr3);
    forall j: TaskId ensures SpOf(l, m', j) == SpOf(l, m, j) && (j != i ==> Cr3Of(l, m', j) == Cr3Of(l, m, j)) {
      Load64Same(m, m', l.tasks + 16 * j);
      if j != i { Load64Same(m, m', l.tasks + 16 * j + 8); }
    }
    EntryKept(l, m, m', 12, Pdp(0), 12);
    if TablesOk(l, m, Extra(l, m)) { RecordTables(l, m, m', Extra(l, m), 12); }
  }

  // A task that is ready to be started or switched to for the first time.
  ghost predicate Ready(l: Layout, m: Mem, j: TaskId, k: Cpu) {
    && Cr3Of(l, m, j) == Base(l, Pml4(j))
    && if j == 0 then SpOf(l, m, j) == STACK_START
       else
         && SpOf(l, m, j) == STACK_START - FRAME_LEN
         && var c := ResumeCpu(l, m, j);
            c.rip == ENTRY_POINT && c.rsp == STACK_START && c.rflags == k.rflags && c.cs == k.cs && c.ss == k.ss
  }

  lemma ReadyKept(l: Layout, m: Mem, m': Mem, i: TaskId, j: TaskId, k: Cpu)
    requires LayoutOk(l) && OthersKept(l, m, m', i) && i != j && Ready(l, m, j, k)
    ensures Ready(l, m', j, k)
  {
    hide TablesOk;
    hide FrameAt;
    RecordRange(l);
    assert Arrays(l)[12] == (l.tasks, 48);
    if j != 0 { FrameSame(m, m', WindowPhys(j, STACK_START)); }
  }

  lemma OnlyTaskOthers(l: Layout, m: Mem, m': Mem, i: TaskId, lo: int, hi: int)
    requires OnlyTask(l, m, m', i, lo, hi) && STACK_START - 40 <= lo && hi <= STACK_START
    ensures OthersKept(l, m, m', i) && Cr3Of(l, m', i) == Cr3Of(l, m, i)
  {
    hide TablesOk;
  }

  lemma OthersKeptTwice(l: Layout, m: Mem, m1: Mem, m2: Mem, i: TaskId)
    requires OthersKept(l, m, m1, i) && OthersKept(l, m1, m2, i)
    ensures OthersKept(l, m, m2, i)
  {
    hide TablesOk;
  }

  // One pass of init_tasks' loop.
  lemma InitOneTask(l: Layout, m: Mem, i: TaskId, k: Cpu)
    requires LayoutOk(l)
    ensures var m1 := SetCr3(l, SetSp(l, m, i, STACK_START), i, InRoot(l, i));
            && SpOf(l, m1, i) == STACK_START
            && var m2 := if i == 0 then m1 else Prepare(l, m1, i, k, ENTRY_POINT);
               Ready(l, m2, i, k) && OthersKept(l, m, m1, i) && OthersKept(l, m, m2, i)
  {
    hide TablesOk;
    hide LayoutOk;
    hide OnlyTask;
    hide OthersKept;
    hide Prepare;
    var m0 := SetSp(l, m, i, STACK_START);
    SetSpOnly(l, m, i, STACK_START, STACK_START, STACK_START);
    OnlyTaskOthers(l, m, m0, i, STACK_START, STACK_START);
    var m1 := SetCr3(l, m0, i, InRoot(l, i));
    SetCr3Only(l, m0, i, InRoot(l, i));
    OthersKeptTwice(l, m, m0, m1, i);
    if i != 0 {
      PrepareEffect(l, m1, i, k, ENTRY_POINT);
      var m2 := Prepare(l, m1, i, k, ENTRY_POINT);
      OnlyTaskOthers(l, m1, m2, i, STACK_START - 40, STACK_START);
      OthersKeptTwice(l, m, m1, m2, i);
    }
  }

  function InRoot(l: Layout, i: TaskId): Word
    requires LayoutOk(l)
  {
    BaseRange(l, Pml4(i));
    Base(l, Pml4(i))
  }

  predicate InInitialFrame(a: int) {
    exists i: TaskId :: WindowPhys(i, STACK_START - 40) <= a < WindowPhys(i, STACK_START)
  }

  // Everything below the initial frames is as the loader left it.
  ghost predicate ImagesKept(l: Layout, m: Mem, m': Mem) {
    forall a | !InArray(l, 12, a) && !InArray(l, 13, a) && !InInitialFrame(a) :: At(m', a) == At(m, a)
  }

  lemma ImagesKeptMore(l: Layout, m: Mem, m1: Mem, m2: Mem, i: TaskId)
    requires ImagesKept(l, m, m1) && OthersKept(l, m1, m2, i)
    ensures ImagesKept(l, m, m2)
  {
    hide TablesOk;
  }

  // task_cr3s is not touched.
  lemma RootsKept(l: Layout, m: Mem, m': Mem, i: TaskId, j: TaskId)
    requires LayoutOk(l) && OthersKept(l, m, m', i)
    ensures Load64(m', l.taskCr3s + 8 * j) == Load64(m, l.taskCr3s + 8 * j)
  {
    hide TablesOk;
    assert Arrays(l)[11] == (l.taskCr3s, 24) && Arrays(l)[12] == (l.tasks, 48);
    Load64Same(m', m, l.taskCr3s + 8 * j);
  }

  lemma SetCurKeepsReady(l: Layout, m: Mem, j: TaskId, k: Cpu)
    requires LayoutOk(l) && Ready(l, m, j, k)
    ensures Ready(l, SetCur(l, m, 0), j, k)
  {
    hide FrameAt;
    RecordRange(l);
    assert Arrays(l)[13] == (l.curTask, 4);
    SetCurEffect(l, m, 0, j);
    if j != 0 { FrameSame(m, SetCur(l, m, 0), WindowPhys(j, STACK_START)); }
  }

  lemma SetCurKeeps(l: Layout, m0: Mem, m: Mem)
    requires LayoutOk(l) && ImagesKept(l, m0, m) && TablesOk(l, m, Extra(l, m))
    ensures var m' := SetCur(l, m, 0);
            ImagesKept(l, m0, m') && CurOf(l, m') == 0 && Extra(l, m') == Extra(l, m) && TablesOk(l, m', Extra(l, m'))
  {
    hide TablesOk;
    SetCurEffect(l, m, 0, 0);
    RecordTables(l, m, SetCur(l, m, 0), Extra(l, m), 13);
  }
}
