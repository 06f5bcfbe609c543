// kernel/memory.c: building the page tables and extending them on a fault.
module VirtualMemory {
  import opened Bytes
  import opened Wrappers
  import opened Hex
  import opened Text
  import opened Paging
  import Bits

  // --- one init_entry call, seen from the other entries ---

  lemma EntryElsewhere(l: Layout, m: Mem, t: Table, k: int, w: Word, t': Table, k': int)
    requires LayoutOk(l) && IsTable(t) && IsTable(t') && 0 <= k < 512 && 0 <= k' < 512
    ensures Entry(l, Store64(m, Base(l, t) + 8 * k, w), t', k') == if (t, k) == (t', k') then w else Entry(l, m, t', k')
  {
    var a, a' := Base(l, t) + 8 * k, Base(l, t') + 8 * k';
    var m' := Store64(m, a, w);
    if (t, k) == (t', k') {
      Load64Store64(m, a, w);
    } else {
      if t != t' { TablesDisjoint(l, t, t'); }
      forall x | a' <= x < a' + 8 ensures At(m', x) == At(m, x) { Store64Elsewhere(m, a, w, x); }
      Load64Same(m', m, a');
    }
  }

  // The entries in `done` are as the finished tables need them; the others
  // are still zero.
  ghost predicate Filled(l: Layout, m: Mem, done: set<(Table, int)>) {
    forall t, k | IsTable(t) && 0 <= k < 512 ::
      if (t, k) in done then EntryOk(l, m, false, t, k) else Entry(l, m, t, k) == 0
  }

  ghost predicate Slots(t: Table, n: int, done: set<(Table, int)>) {
    forall k :: 0 <= k < n ==> (t, k) in done
  }

  // Only bytes of the first n arrays differ: n = 11 for the tables, 12 for the
  // tables and task_cr3s.
  ghost predicate OnlyArraysChanged(l: Layout, n: int, m: Mem, m': Mem)
    requires 0 <= n <= 14
  {
    forall a :: (forall k | 0 <= k < n :: !InArray(l, k, a)) ==> At(m, a) == At(m', a)
  }

  // The table that the entry names, when it names one.
  function Child(t: Table, k: int): Table {
    match t
    case Pml4(i) => Pdp(i)
    case Pdp(i) => if k == 1 then Pd(i) else if k == 3 then IoPd else if k == 4 then KernelPd else AdditionalPd
    case Pd(i) => Pt(i, k)
    case KernelPd => KernelPt(k)
    case IoPd => if k == 0 then FbPt else LapicPt
    case _ => AdditionalPt
  }

  lemma PageMultiple(base: int, n: int)
    requires base % PAGE_LEN == 0
    ensures (base + n * PAGE_LEN) % PAGE_LEN == 0
  {
    Bits.DivMod(base + n * PAGE_LEN, PAGE_LEN, base / PAGE_LEN + n, 0);
  }

  lemma ChildIsTarget(l: Layout, extra: bool, t: Table, k: int)
    requires IsTable(t) && 0 <= k < 512 && Target(l, extra, t, k).Some?
    requires !t.Pt? && !t.KernelPt? && !t.FbPt? && !t.LapicPt? && !t.AdditionalPt?
    ensures IsTable(Child(t, k)) && Target(l, extra, t, k).value == Base(l, Child(t, k))
  {
    hide Base;
  }

  lemma TargetRange(l: Layout, extra: bool, t: Table, k: int)
    requires LayoutOk(l) && IsTable(t) && 0 <= k < 512 && Target(l, extra, t, k).Some?
    ensures var a := Target(l, extra, t, k).value; 0 <= a < 0x10_0000_0000_0000 && a % PAGE_LEN == 0
  {
    hide LayoutOk;
    match t
    case Pt(i, j) => PageMultiple(TaskPhysAddr(i), j * 512 + k);
    case KernelPt(j) => PageMultiple(KERNEL_MEM_ADDR, j * 512 + k);
    case FbPt => PageMultiple(FRAME_BUF_ADDR, k);
    case LapicPt =>
    case AdditionalPt =>
    case _ =>
      ChildIsTarget(l, extra, t, k);
      BaseRange(l, Child(t, k));
  }

  lemma EntryStoreFrame(l: Layout, m: Mem, t: Table, k: int, w: Word)
    requires LayoutOk(l) && IsTable(t) && 0 <= k < 512
    ensures OnlyArraysChanged(l, 11, m, Store64(m, Base(l, t) + 8 * k, w))
  {
    BaseRange(l, t);
    var m' := Store64(m, Base(l, t) + 8 * k, w);
    forall a | forall j | 0 <= j < 11 :: !InArray(l, j, a) ensures At(m, a) == At(m', a) {
      assert !InArray(l, ArrayOf(t), a);
      Store64Elsewhere(m, Base(l, t) + 8 * k, w, a);
    }
  }

  lemma FilledStep(l: Layout, m: Mem, done: set<(Table, int)>, t: Table, k: int, addr: int)
    requires LayoutOk(l) && IsTable(t) && 0 <= k < 512 && Filled(l, m, done)
    requires Target(l, false, t, k) == Some(addr)
    requires 0 <= addr < 0x10_0000_0000_0000 && addr % PAGE_LEN == 0
    ensures Filled(l, Store64(m, Base(l, t) + 8 * k, InitEntryBits(Entry(l, m, t, k), addr)), done + {(t, k)})
  {
    var before := Entry(l, m, t, k);
    var w := InitEntryBits(before, addr);
    var m' := Store64(m, Base(l, t) + 8 * k, w);
    assert !HugePage(before) by { assert (t, k) in done ==> EntryOk(l, m, false, t, k); }
    InitEntryPointsTo(before, addr);
    forall t', k' | IsTable(t') && 0 <= k' < 512
      ensures if (t', k') in done + {(t, k)} then EntryOk(l, m', false, t', k') else Entry(l, m', t', k') == 0
    {
      EntryElsewhere(l, m, t, k, w, t', k');
      if (t', k') != (t, k) {
        assert if (t', k') in done then EntryOk(l, m, false, t', k') else Entry(l, m, t', k') == 0;
      }
    }
  }

  // A change inside one of the other kernel arrays leaves every entry alone.
  lemma EntriesKept(l: Layout, m: Mem, m': Mem, k: int)
    requires LayoutOk(l) && 11 <= k < 14
    requires forall a :: !InArray(l, k, a) ==> At(m, a) == At(m', a)
    ensures forall t, n | IsTable(t) && 0 <= n < 512 :: Entry(l, m', t, n) == Entry(l, m, t, n)
  {
    forall t, n | IsTable(t) && 0 <= n < 512 ensures Entry(l, m', t, n) == Entry(l, m, t, n) {
      EntryKept(l, m, m', k, t, n);
    }
  }

  lemma EntryKept(l: Layout, m: Mem, m': Mem, k: int, t: Table, n: int)
    requires LayoutOk(l) && 11 <= k < 14 && IsTable(t) && 0 <= n < 512
    requires forall a :: !InArray(l, k, a) ==> At(m, a) == At(m', a)
    ensures Entry(l, m', t, n) == Entry(l, m, t, n)
  {
    BaseRange(l, t);
    var a := Base(l, t) + 8 * n;
    forall x | a <= x < a + 8 ensures At(m, x) == At(m', x) {
      assert InArray(l, ArrayOf(t), x);
      assert !InArray(l, k, x);
    }
    Load64Same(m, m', a);
  }

  // Writing task_cr3s[i] leaves every entry and every other root as it was.
  lemma Cr3Store(l: Layout, m: Mem, i: TaskId, w: Word)
    requires LayoutOk(l)
    ensures var m' := Store64(m, l.taskCr3s + 8 * i, w);
            && OnlyArraysChanged(l, 12, m, m')
            && (forall t, k | IsTable(t) && 0 <= k < 512 :: Entry(l, m', t, k) == Entry(l, m, t, k))
  {
    var a := l.taskCr3s + 8 * i;
    var m' := Store64(m, a, w);
    assert Arrays(l)[11] == (l.taskCr3s, 24);
    forall x | !InArray(l, 11, x) ensures At(m, x) == At(m', x) { Store64Elsewhere(m, a, w, x); }
    EntriesKept(l, m, m', 11);
  }

  lemma Cr3StoreRoots(l: Layout, m: Mem, i: TaskId, w: Word, j: TaskId)
    ensures Load64(Store64(m, l.taskCr3s + 8 * i, w), l.taskCr3s + 8 * j) == if i == j then w else Load64(m, l.taskCr3s + 8 * j)
  {
    if i == j { Load64Store64(m, l.taskCr3s + 8 * i, w); } else { StoreApart(m, l.taskCr3s + 8 * i, w, l.taskCr3s + 8 * j); }
  }

  lemma Cr3Kept(l: Layout, m: Mem, m': Mem, i: TaskId)
    requires LayoutOk(l) && OnlyArraysChanged(l, 11, m, m')
    ensures Load64(m', l.taskCr3s + 8 * i) == Load64(m, l.taskCr3s + 8 * i)
  {
    assert Arrays(l)[11] == (l.taskCr3s, 24);
    forall x | l.taskCr3s <= x < l.taskCr3s + 24 ensures At(m, x) == At(m', x) {
      forall k | 0 <= k < 11 ensures !InArray(l, k, x) {}
    }
    Load64Same(m, m', l.taskCr3s + 8 * i);
  }

  ghost predicate IoDone(done: set<(Table, int)>) {
    (LapicPt, 0) in done && (IoPd, 503) in done && (IoPd, 0) in done && Slots(FbPt, 512, done)
  }

  ghost predicate KernelDone(done: set<(Table, int)>) {
    Slots(KernelPd, 8, done) && forall j :: 0 <= j < 8 ==> Slots(KernelPt(j), 512, done)
  }

  ghost predicate TaskDone(i: TaskId, done: set<(Table, int)>) {
    && (Pml4(i), 0) in done && (Pdp(i), 1) in done && (Pdp(i), 3) in done && (Pdp(i), 4) in done
    && Slots(Pd(i), 8, done)
    && (forall j :: 0 <= j < 8 ==> Slots(Pt(i, j), 512, done))
  }

  // Once every loop has run, each slot with a target has been filled.
  lemma AllDone(l: Layout, done: set<(Table, int)>, t: Table, k: int)
    requires IoDone(done) && KernelDone(done) && forall i: TaskId :: TaskDone(i, done)
    requires IsTable(t) && 0 <= k < 512 && Target(l, false, t, k).Some?
    ensures (t, k) in done
  {
    match t
    case Pml4(i) => assert TaskDone(i, done);
    case Pdp(i) => assert TaskDone(i, done);
    case Pd(i) => assert TaskDone(i, done);
    case Pt(i, j) => assert TaskDone(i, done); assert Slots(Pt(i, j), 512, done);
    case KernelPt(j) => assert Slots(KernelPt(j), 512, done);
    case _ =>
  }

  lemma FilledAll(l: Layout, m: Mem, done: set<(Table, int)>)
    requires Filled(l, m, done)
    requires IoDone(done) && KernelDone(done) && forall i: TaskId :: TaskDone(i, done)
    ensures TablesOk(l, m, false)
  {
    forall t, k | IsTable(t) && 0 <= k < 512 ensures EntryOk(l, m, false, t, k) {
      if (t, k) in done {
      } else {
        assert Entry(l, m, t, k) == 0;
        if Target(l, false, t, k).Some? { AllDone(l, done, t, k); }
      }
    }
  }

  // Everything before task i is in place.
  ghost predicate BuiltUpTo(l: Layout, m: Mem, done: set<(Table, int)>, i: int) {
    && Filled(l, m, done) && IoDone(done) && KernelDone(done)
    && (forall j: TaskId | j < i :: TaskDone(j, done) && Load64(m, l.taskCr3s + 8 * j) == Base(l, Pml4(j)))
  }

  lemma BuiltOneMore(l: Layout, m: Mem, done: set<(Table, int)>, i: TaskId, m1: Mem, done1: set<(Table, int)>)
    requires LayoutOk(l) && BuiltUpTo(l, m, done, i) && done <= done1
    requires Filled(l, m1, done1) && TaskDone(i, done1) && OnlyArraysChanged(l, 11, m, m1)
    ensures 0 <= Base(l, Pml4(i)) < 0x1_0000_0000_0000_0000
    ensures var m2 := Store64(m1, l.taskCr3s + 8 * i, Base(l, Pml4(i)));
            BuiltUpTo(l, m2, done1, i + 1) && OnlyArraysChanged(l, 12, m1, m2)
  {
    BaseRange(l, Pml4(i));
    var root := Base(l, Pml4(i));
    var m2 := Store64(m1, l.taskCr3s + 8 * i, root);
    Cr3Store(l, m1, i, root);
    FilledSame(l, m1, m2, done1);
    forall j: TaskId | j < i + 1 ensures TaskDone(j, done1) && Load64(m2, l.taskCr3s + 8 * j) == Base(l, Pml4(j)) {
      Cr3StoreRoots(l, m1, i, root, j);
      if j < i {
        Cr3Kept(l, m, m1, j);
        TaskDoneMore(j, done, done1);
      }
    }
    assert IoDone(done1) && KernelDone(done1);
  }

  lemma TaskDoneMore(j: TaskId, done: set<(Table, int)>, done1: set<(Table, int)>)
    requires TaskDone(j, done) && done <= done1
    ensures TaskDone(j, done1)
  {}

  lemma BuiltNone(l: Layout, m: Mem, done: set<(Table, int)>)
    requires Filled(l, m, done) && IoDone(done) && KernelDone(done)
    ensures BuiltUpTo(l, m, done, 0)
  {}

  lemma BuiltFilled(l: Layout, m: Mem, done: set<(Table, int)>, i: int)
    requires BuiltUpTo(l, m, done, i)
    ensures Filled(l, m, done)
  {}

  lemma BuiltAll(l: Layout, m: Mem, done: set<(Table, int)>)
    requires BuiltUpTo(l, m, done, N_TASKS)
    ensures TablesOk(l, m, false)
    ensures forall i: TaskId :: Load64(m, l.taskCr3s + 8 * i) == Base(l, Pml4(i))
  {
    FilledAll(l, m, done);
  }

  lemma FilledSame(l: Layout, m: Mem, m': Mem, done: set<(Table, int)>)
    requires Filled(l, m, done)
    requires forall t, k | IsTable(t) && 0 <= k < 512 :: Entry(l, m', t, k) == Entry(l, m, t, k)
    ensures Filled(l, m', done)
  {
    forall t, k | IsTable(t) && 0 <= k < 512
      ensures if (t, k) in done then EntryOk(l, m', false, t, k) else Entry(l, m', t, k) == 0
    {
      assert if (t, k) in done then EntryOk(l, m, false, t, k) else Entry(l, m, t, k) == 0;
    }
  }

  // --- the page-fault handler ---

  function InitEntryAt(m: Mem, entry: int, addr: int): Mem
    requires 0 <= addr
  {
    Store64(m, entry, InitEntryBits(Load64(m, entry), addr))
  }

  // The three init_entry calls of page_fault_handler_internal.
  function MapAdditionalPage(l: Layout, m: Mem): Mem
    requires LayoutOk(l)
  {
    BaseRange(l, AdditionalPt);
    BaseRange(l, AdditionalPd);
    var m1 := InitEntryAt(m, Base(l, AdditionalPt), ADDITIONAL_PHYS_ADDR_START);
    var m2 := InitEntryAt(m1, Base(l, AdditionalPd), Base(l, AdditionalPt));
    InitEntryAt(m2, Base(l, Pdp(0)) + 8 * (ADDITIONAL_PAGE_START / PD_LEN), Base(l, AdditionalPd))
  }

  lemma MapAdditionalEntries(l: Layout, m: Mem, t: Table, k: int)
    requires LayoutOk(l) && IsTable(t) && 0 <= k < 512
    ensures 0 <= Base(l, AdditionalPt) && 0 <= Base(l, AdditionalPd)
    ensures Entry(l, MapAdditionalPage(l, m), t, k) ==
            if (t, k) == (AdditionalPt, 0) then InitEntryBits(Entry(l, m, t, k), ADDITIONAL_PHYS_ADDR_START)
            else if (t, k) == (AdditionalPd, 0) then InitEntryBits(Entry(l, m, t, k), Base(l, AdditionalPt))
            else if (t, k) == (Pdp(0), 12) then InitEntryBits(Entry(l, m, t, k), Base(l, AdditionalPd))
            else Entry(l, m, t, k)
  {
    BaseRange(l, AdditionalPt);
    BaseRange(l, AdditionalPd);
    var w0 := InitEntryBits(Entry(l, m, AdditionalPt, 0), ADDITIONAL_PHYS_ADDR_START);
    var m1 := Store64(m, Base(l, AdditionalPt) + 8 * 0, w0);
    EntryElsewhere(l, m, AdditionalPt, 0, w0, t, k);
    EntryElsewhere(l, m, AdditionalPt, 0, w0, AdditionalPd, 0);
    EntryElsewhere(l, m, AdditionalPt, 0, w0, Pdp(0), 12);
    var w1 := InitEntryBits(Entry(l, m1, AdditionalPd, 0), Base(l, AdditionalPt));
    var m2 := Store64(m1, Base(l, AdditionalPd) + 8 * 0, w1);
    EntryElsewhere(l, m1, AdditionalPd, 0, w1, t, k);
    EntryElsewhere(l, m1, AdditionalPd, 0, w1, Pdp(0), 12);
    var w2 := InitEntryBits(Entry(l, m2, Pdp(0), 12), Base(l, AdditionalPd));
    EntryElsewhere(l, m2, Pdp(0), 12, w2, t, k);
  }

  lemma MapAdditionalTables(l: Layout, m: Mem, extra: bool)
    requires LayoutOk(l) && TablesOk(l, m, extra)
    ensures TablesOk(l, MapAdditionalPage(l, m), true)
  {
    var m' := MapAdditionalPage(l, m);
    forall t, k | IsTable(t) && 0 <= k < 512 ensures EntryOk(l, m', true, t, k) {
      MapAdditionalEntries(l, m, t, k);
      assert EntryOk(l, m, extra, t, k);
      if (t, k) == (AdditionalPt, 0) || (t, k) == (AdditionalPd, 0) || (t, k) == (Pdp(0), 12) {
        TargetRange(l, true, t, k);
        InitEntryPointsTo(Entry(l, m, t, k), Target(l, true, t, k).value);
      }
    }
  }

  lemma MapAdditionalFrame(l: Layout, m: Mem)
    requires LayoutOk(l)
    ensures OnlyArraysChanged(l, 11, m, MapAdditionalPage(l, m))
  {
    BaseRange(l, AdditionalPt);
    BaseRange(l, AdditionalPd);
    var w0 := InitEntryBits(Entry(l, m, AdditionalPt, 0), ADDITIONAL_PHYS_ADDR_START);
    EntryStoreFrame(l, m, AdditionalPt, 0, w0);
    var m1 := Store64(m, Base(l, AdditionalPt), w0);
    var w1 := InitEntryBits(Entry(l, m1, AdditionalPd, 0), Base(l, AdditionalPt));
    EntryStoreFrame(l, m1, AdditionalPd, 0, w1);
    var m2 := Store64(m1, Base(l, AdditionalPd), w1);
    EntryStoreFrame(l, m2, Pdp(0), 12, InitEntryBits(Entry(l, m2, Pdp(0), 12), Base(l, AdditionalPd)));
  }

  // Handling a fault adds exactly one page, to task 0, and changes no other
  // translation of any task; handling it again changes nothing.
  lemma FaultExtension(l: Layout, m: Mem, extra: bool, i: TaskId, va: int)
    requires LayoutOk(l) && TablesOk(l, m, extra)
    requires 0 <= va < 0x1_0000_0000_0000
    ensures var m' := MapAdditionalPage(l, m);
            && Walk(m', Base(l, Pml4(i)), va) ==
               (if i == 0 && InAdditionalPage(va)
                then Mapped(ADDITIONAL_PHYS_ADDR_START + (va - ADDITIONAL_PAGE_START), true)
                else Walk(m, Base(l, Pml4(i)), va))
            && Walk(MapAdditionalPage(l, m'), Base(l, Pml4(i)), va) == Walk(m', Base(l, Pml4(i)), va)
  {
    var m' := MapAdditionalPage(l, m);
    MapAdditionalTables(l, m, extra);
    MapAdditionalTables(l, m', true);
    ExactTranslation(l, m, extra, i, va);
    ExactTranslation(l, m', true, i, va);
    ExactTranslation(l, MapAdditionalPage(l, m'), true, i, va);
  }

  // The handler always patches the tree of task 0, so a fault at the
  // additional page is repaired exactly when task 0 took it.
  lemma FaultRepairedOnlyForTask0(l: Layout, m: Mem, extra: bool, i: TaskId, va: int)
    requires LayoutOk(l) && TablesOk(l, m, extra) && InAdditionalPage(va)
    ensures Walk(MapAdditionalPage(l, m), Base(l, Pml4(i)), va).Mapped? <==> i == 0
  {
    FaultExtension(l, m, extra, i, va);
    ExactTranslation(l, m, extra, i, va);
  }

  // --- while the handler runs ---

  // The entries that the handler writes, and the rest of its two tables.
  predicate Repaired(t: Table, k: int) { t == AdditionalPt || t == AdditionalPd || (t == Pdp(0) && k == 12) }

  // Every other entry is as always, also between the handler's stores.
  ghost predicate SharedOk(l: Layout, m: Mem) {
    forall t, k | IsTable(t) && 0 <= k < 512 && !Repaired(t, k) :: EntryOk(l, m, false, t, k)
  }

  lemma SharedFromTables(l: Layout, m: Mem, extra: bool)
    requires TablesOk(l, m, extra)
    ensures SharedOk(l, m)
  {
    forall t, k | IsTable(t) && 0 <= k < 512 && !Repaired(t, k) ensures EntryOk(l, m, false, t, k) {
      assert EntryOk(l, m, extra, t, k);
    }
  }

  lemma SharedKept(l: Layout, m: Mem, t: Table, k: int, w: Word)
    requires LayoutOk(l) && SharedOk(l, m) && IsTable(t) && 0 <= k < 512 && Repaired(t, k)
    ensures SharedOk(l, Store64(m, Base(l, t) + 8 * k, w))
  {
    var m' := Store64(m, Base(l, t) + 8 * k, w);
    forall t', k' | IsTable(t') && 0 <= k' < 512 && !Repaired(t', k') ensures EntryOk(l, m', false, t', k') {
      EntryElsewhere(l, m, t, k, w, t', k');
      assert EntryOk(l, m, false, t', k');
    }
  }

  // Kernel memory stays mapped to itself in every tree all along.
  lemma SharedWalk(l: Layout, m: Mem, i: TaskId, va: int)
    requires LayoutOk(l) && SharedOk(l, m) && KERNEL_MEM_ADDR <= va < KERNEL_MEM_END
    ensures Walk(m, Base(l, Pml4(i)), va) == Mapped(va, true)
  {
    hide LayoutOk;
    hide Load64;
    hide PointsTo;
    hide Walk;
    var i2, i1 := KernelIndices(va);
    assert EntryOk(l, m, false, Pml4(i), 0) && EntryOk(l, m, false, Pdp(i), 4);
    assert EntryOk(l, m, false, KernelPd, i2) && EntryOk(l, m, false, KernelPt(i2), i1);
    WalkThrough(m, Base(l, Pml4(i)), va, Base(l, Pdp(i)), Base(l, KernelPd), Base(l, KernelPt(i2)), va - va % PAGE_LEN);
  }

  lemma KernelIndices(va: int) returns (i2: int, i1: int)
    requires KERNEL_MEM_ADDR <= va < KERNEL_MEM_END
    ensures va / PDP_LEN % 512 == 0 && va / PD_LEN % 512 == 4
    ensures i2 == va / PT_LEN % 512 && 0 <= i2 < 8 && i1 == va / PAGE_LEN % 512 && 0 <= i1 < 512
    ensures KERNEL_MEM_ADDR + (i2 * 512 + i1) * PAGE_LEN == va - va % PAGE_LEN
  {
    var i4, i3, off;
    i4, i3, i2, i1, off := Split(va);
  }

  // Four entries that name the next table, and the page.
  lemma WalkThrough(m: Mem, root: int, va: int, pdp: int, pd: int, pt: int, page: int)
    requires PointsTo(Load64(m, root + 8 * (va / PDP_LEN % 512)), pdp)
             && PointsTo(Load64(m, pdp + 8 * (va / PD_LEN % 512)), pd)
    requires PointsTo(Load64(m, pd + 8 * (va / PT_LEN % 512)), pt)
             && PointsTo(Load64(m, pt + 8 * (va / PAGE_LEN % 512)), page)
    ensures Walk(m, root, va) == Mapped(page + va % PAGE_LEN, true)
  {
    hide Load64;
  }

  // What the handler prints.
  function FaultMessage(code: Word): string {
    if code / 16 % 2 == 1 then "Page fault(instruction fetch)\n"
    else if code / 2 % 2 == 1 then "Page fault(data write)\n"
    else "Page fault(data read)\n"
  }

  function FaultText(code: Word, addr: Word): seq<Byte> {
    Messages();
    if InAdditionalPage(addr) then Ascii("! kernel: mapping additional page\n")
    else Ascii(FaultMessage(code)) + Ascii("addr:") + Padded(addr, 16) + Ascii("\n")
  }

  lemma Messages()
    ensures IsAscii("! kernel: mapping additional page\n") && IsAscii("addr:") && IsAscii("\n")
    ensures IsAscii("Page fault(instruction fetch)\n") && IsAscii("Page fault(data write)\n") && IsAscii("Page fault(data read)\n")
  {
    hide IsAscii;
    MappingMessage();
    FetchMessage();
    DataMessages();
  }

  lemma MappingMessage()
    ensures IsAscii("! kernel: mapping additional page\n") && IsAscii("addr:") && IsAscii("\n")
  {}

  lemma FetchMessage()
    ensures IsAscii("Page fault(instruction fetch)\n")
  {}

  lemma DataMessages()
    ensures IsAscii("Page fault(data write)\n") && IsAscii("Page fault(data read)\n")
  {}

  class Memory {
    const l: Layout
    var mem: Mem

    constructor (l: Layout, mem: Mem)
      ensures this.l == l && this.mem == mem
    {
      this.l := l;
      this.mem := mem;
    }

    // The entry becomes an ordinary one for addr exactly when it was not a huge
    // page, keeps its other bits, and nothing else in memory changes.
    method InitEntry(entry: int, addr: int)
      requires 0 <= addr && addr % PAGE_LEN == 0
      modifies `mem
      ensures Load64(mem, entry) == InitEntryBits(Load64(old(mem), entry), addr)
      ensures addr < 0x10_0000_0000_0000 ==>
                && (PointsTo(Load64(mem, entry), addr) <==> !HugePage(Load64(old(mem), entry)))
                && OtherBits(Load64(mem, entry)) == OtherBits(Load64(old(mem), entry))
      ensures forall a | !(entry <= a < entry + 8) :: At(mem, a) == At(old(mem), a)
      ensures mem == InitEntryAt(old(mem), entry, addr)
    {
      hide InitEntryBits;
      hide Load64;
      hide Store64;
      hide PointsTo;
      hide HugePage;
      hide OtherBits;
      ghost var before, w := mem, InitEntryBits(Load64(mem, entry), addr);
      mem := Store64(mem, entry, InitEntryBits(Load64(mem, entry), addr));
      Load64Store64(before, entry, w);
      if addr < 0x10_0000_0000_0000 { InitEntryPointsTo(Load64(before, entry), addr); }
      forall a | !(entry <= a < entry + 8)
        ensures At(mem, a) == At(before, a)
      {
        Store64Elsewhere(before, entry, w, a);
      }
    }

    // init_entry on entry k of table t while the tables are being built.
    method Fill(t: Table, k: int, addr: int, ghost done: set<(Table, int)>) returns (ghost done': set<(Table, int)>)
      requires LayoutOk(l) && IsTable(t) && 0 <= k < 512 && Filled(l, mem, done)
      requires Target(l, false, t, k) == Some(addr)
      modifies `mem
      ensures done' == done + {(t, k)} && Filled(l, mem, done')
      ensures OnlyArraysChanged(l, 11, old(mem), mem)
    {
      hide LayoutOk;
      hide Filled;
      hide Target;
      hide OnlyArraysChanged;
      hide Load64;
      hide Store64;
      hide Base;
      hide InitEntryBits;
      hide PointsTo;
      hide HugePage;
      hide OtherBits;
      hide At;
      TargetRange(l, false, t, k);
      FilledStep(l, mem, done, t, k, addr);
      EntryStoreFrame(l, mem, t, k, InitEntryBits(Entry(l, mem, t, k), addr));
      InitEntry(Base(l, t) + 8 * k, addr);
      done' := done + {(t, k)};
    }

    // The LAPIC page and the frame buffer (lines 87-105).
    method InitIo() returns (ghost done: set<(Table, int)>)
      requires LayoutOk(l) && Filled(l, mem, {})
      modifies `mem
      ensures Filled(l, mem, done) && IoDone(done)
      ensures OnlyArraysChanged(l, 11, old(mem), mem)
    {
      hide Filled;
      hide LayoutOk;
      var lapicPageIndex := LAPIC_BUF_ADDR % PT_LEN / PAGE_LEN;
      var lapicPtIndex := LAPIC_BUF_ADDR % PD_LEN / PT_LEN;
      done := Fill(LapicPt, lapicPageIndex, LAPIC_BUF_ADDR, {});

      var fbPageBase := FRAME_BUF_ADDR % PT_LEN / PAGE_LEN;
      var nFbPages := FRAME_BUF_LEN / PAGE_LEN;
      var fbPtIndex := FRAME_BUF_ADDR % PD_LEN / PT_LEN;
      for i := 0 to nFbPages
        invariant Filled(l, mem, done) && OnlyArraysChanged(l, 11, old(mem), mem)
        invariant (LapicPt, 0) in done && Slots(FbPt, i, done)
      {
        done := Fill(FbPt, fbPageBase + i, FRAME_BUF_ADDR + i * PAGE_LEN, done);
      }
      done := Fill(IoPd, lapicPtIndex, Base(l, LapicPt), done);
      done := Fill(IoPd, fbPtIndex, Base(l, FbPt), done);
    }

    // Kernel memory (lines 107-115).
    method InitKernel(ghost done0: set<(Table, int)>) returns (ghost done: set<(Table, int)>)
      requires LayoutOk(l) && Filled(l, mem, done0)
      modifies `mem
      ensures Filled(l, mem, done) && done0 <= done && KernelDone(done)
      ensures OnlyArraysChanged(l, 11, old(mem), mem)
    {
      hide Filled;
      hide LayoutOk;
      done := done0;
      var kernelPtBase := KERNEL_MEM_ADDR % PD_LEN / PT_LEN;
      for i := 0 to N_KERNEL_PTS
        invariant Filled(l, mem, done) && OnlyArraysChanged(l, 11, old(mem), mem) && done0 <= done
        invariant Slots(KernelPd, i, done) && forall j :: 0 <= j < i ==> Slots(KernelPt(j), 512, done)
      {
        ghost var before := done;
        for j := 0 to N_PAGES_IN_TABLE
          invariant Filled(l, mem, done) && OnlyArraysChanged(l, 11, old(mem), mem)
          invariant before <= done && Slots(KernelPt(i), j, done)
        {
          done := Fill(KernelPt(i), j, KERNEL_MEM_ADDR + (i * N_PAGES_IN_TABLE + j) * PAGE_LEN, done);
        }
        done := Fill(KernelPd, i + kernelPtBase, Base(l, KernelPt(i)), done);
      }
    }

    // One task's window and its links to the shared tables (lines 118-138).
    method InitTask(i: TaskId, ghost done0: set<(Table, int)>) returns (ghost done: set<(Table, int)>)
      requires LayoutOk(l) && Filled(l, mem, done0)
      modifies `mem
      ensures Filled(l, mem, done) && done0 <= done && TaskDone(i, done)
      ensures OnlyArraysChanged(l, 11, old(mem), mem)
    {
      hide Filled;
      hide LayoutOk;
      done := done0;
      var pdpIndex := TASK_VADDR_START / PDP_LEN;
      var pdIndex := TASK_VADDR_START % PDP_LEN / PD_LEN;
      var ptIndexBase := TASK_VADDR_START % PD_LEN / PAGE_LEN;
      var ioPdIndex := LAPIC_BUF_ADDR % PDP_LEN / PD_LEN;
      var kernelPdIndex := KERNEL_MEM_ADDR / PD_LEN;
      var physBase := TaskPhysAddr(i);
      for j := 0 to N_TASK_PTS
        invariant Filled(l, mem, done) && OnlyArraysChanged(l, 11, old(mem), mem) && done0 <= done
        invariant Slots(Pd(i), j, done) && forall j' :: 0 <= j' < j ==> Slots(Pt(i, j'), 512, done)
      {
        ghost var before := done;
        for k := 0 to N_PAGES_IN_TABLE
          invariant Filled(l, mem, done) && OnlyArraysChanged(l, 11, old(mem), mem)
          invariant before <= done && Slots(Pt(i, j), k, done)
        {
          done := Fill(Pt(i, j), k, physBase + (j * N_PAGES_IN_TABLE + k) * PAGE_LEN, done);
        }
        done := Fill(Pd(i), j + ptIndexBase, Base(l, Pt(i, j)), done);
      }
      done := Fill(Pdp(i), pdIndex, Base(l, Pd(i)), done);
      done := Fill(Pdp(i), ioPdIndex, Base(l, IoPd), done);
      done := Fill(Pdp(i), kernelPdIndex, Base(l, KernelPd), done);
      done := Fill(Pml4(i), pdpIndex, Base(l, Pdp(i)), done);
    }

    method InitVirtualMemory()
      requires LayoutOk(l) && Filled(l, mem, {}) // the arrays are zeroed .bss
      modifies `mem
      ensures TablesOk(l, mem, false)
      ensures forall i: TaskId :: Load64(mem, l.taskCr3s + 8 * i) == Base(l, Pml4(i))
      ensures OnlyArraysChanged(l, 12, old(mem), mem)
    {
      hide Filled;
      hide LayoutOk;
      hide BuiltUpTo;
      hide TaskDone;
      ghost var done := InitIo();
      done := InitKernel(done);
      BuiltNone(l, mem, done);
      for i := 0 to N_TASKS
        invariant BuiltUpTo(l, mem, done, i) && OnlyArraysChanged(l, 12, old(mem), mem)
      {
        BuiltFilled(l, mem, done, i);
        ghost var before, m := done, mem;
        done := InitTask(i, done);
        BuiltOneMore(l, m, before, i, mem, done);
        BaseRange(l, Pml4(i));
        mem := Store64(mem, l.taskCr3s + 8 * i, Base(l, Pml4(i)) / PAGE_LEN * PAGE_LEN); // get_cr3_value
      }
      BuiltAll(l, mem, done);
    }
  }
}
