// Whole runs: any interleaving of the tasks' own instructions with timer
// interrupts, system calls and page faults, against each task running alone.
module Runs {
  import opened Bytes
  import opened Paging
  import opened VirtualMemory
  import opened Contexts

  // --- programs ---

  // What one instruction does: a context, the bytes it stores and the
  // addresses it touches; or `int $0x80`, with the context that is saved.
  datatype Effect =
    | Compute(cpu: Cpu, writes: Mem, touched: set<int>)
    | CallKernel(cpu: Cpu)

  type Program = (Cpu, Mem) -> Effect

  function ConfineSet(i: TaskId): set<int> {
    set va | TASK_VADDR_START <= va < ADDITIONAL_PAGE_START + PAGE_LEN && InConfines(i, va)
  }

  lemma ConfineSetIs(i: TaskId, va: int)
    ensures va in ConfineSet(i) <==> InConfines(i, va)
    ensures va in ConfineSet(i) <==> 0x4000_0000 <= va < 0x4100_0000 || (i == 0 && 0x3_0000_0000 <= va < 0x3_0000_1000)
  {}

  // A task's own memory as physical memory holds it.
  function View(m: Mem, i: TaskId): Mem {
    map va | va in ConfineSet(i) :: ConfineSetIs(i, va); At(m, PhysOf(i, va))
  }

  // --- running alone ---

  // `live` are the addresses whose contents the program may rely on: those
  // outside its dead stack, minus what was below RSP and not stored since.
  datatype Solo = Solo(cpu: Cpu, mem: Mem, live: set<int>)

  predicate Dead(limit: int, rsp: int, va: int) { limit <= va < rsp }

  function SoloStart(l: Layout, s: State, limit: int, i: TaskId): Solo {
    var cpu := CpuOf(l, s, i);
    Solo(cpu, View(s.mem, i), set va | va in ConfineSet(i) && !Dead(limit, cpu.rsp, va))
  }

  function SoloStep(p: Program, limit: int, z: Solo): Solo {
    match p(z.cpu, z.mem)
    case Compute(cpu, writes, _) =>
      Solo(cpu, z.mem + writes, set va | va in z.live + writes.Keys && !Dead(limit, cpu.rsp, va))
    case CallKernel(cpu) => z.(cpu := cpu.(gpr := cpu.gpr[0 := 0])) // puts returns 0
  }

  // After an instruction a program may rely on what it could before and on what
  // it has stored, except between its limit and its RSP; a system call changes
  // RAX, and its saved RIP, only.
  lemma SoloStepIs(p: Program, limit: int, z: Solo)
    ensures match p(z.cpu, z.mem)
            case Compute(cpu, writes, _) =>
              var z' := SoloStep(p, limit, z);
              && z'.cpu == cpu && z'.mem == z.mem + writes
              && forall va :: va in z'.live <==> (va in z.live || va in writes) && !(limit <= va < cpu.rsp)
            case CallKernel(cpu) => SoloStep(p, limit, z) == z.(cpu := cpu.(gpr := cpu.gpr[0 := 0]))
  {}

  function SoloRun(p: Program, limit: int, z: Solo, n: nat): Solo {
    if n == 0 then z else SoloStep(p, limit, SoloRun(p, limit, z, n - 1))
  }

  // The program stays in its confines, and neither reads what lies below its
  // RSP nor what it has not stored since it last lay there.
  ghost predicate Disciplined(p: Program, i: TaskId, z: Solo) {
    && (forall v: Mem | v.Keys == z.mem.Keys && (forall va | va in z.live && va in v && va in z.mem :: v[va] == z.mem[va]) ::
          p(z.cpu, v) == p(z.cpu, z.mem))
    && match p(z.cpu, z.mem)
       case Compute(cpu, writes, touched) => writes.Keys <= touched <= ConfineSet(i)
       case CallKernel(cpu) => cpu == z.cpu.(rip := cpu.rip) && cpu.gpr[4] == SYSCALL_PUTS
  }

  // --- the machine's steps ---

  datatype Event =
    | Step
    | TimerTick(scratch: seq<Word>)
    | SystemCall(scratch: seq<Word>, console: Mem)
    | PageFault(cr2: int, error: Word, scratch: seq<Word>, console: Mem)

  // The stores of one instruction, each sent where the MMU maps it.
  ghost predicate Stored(s: State, writes: Mem, m': Mem) {
    && (forall va | va in writes :: Walk(s.mem, s.cr3, va).Mapped? && At(m', Walk(s.mem, s.cr3, va).addr) == writes[va])
    && (forall a :: (forall va | va in writes :: Walk(s.mem, s.cr3, va) != Mapped(a, true)) ==> At(m', a) == At(s.mem, a))
  }

  ghost predicate Next(l: Layout, limits: seq<int>, progs: seq<Program>, s: State, e: Event, s': State)
    requires LayoutOk(l) && LimitsOk(limits) && |progs| == N_TASKS
  {
    && 0 <= CurOf(l, s.mem) < N_TASKS
    && var c: TaskId := CurOf(l, s.mem);
       var eff := progs[c](s.cpu, View(s.mem, c));
       match e
       case Step =>
         && eff.Compute?
         && (forall va | va in eff.touched :: Walk(s.mem, s.cr3, va).Mapped?)
         && Stored(s, eff.writes, s'.mem) && s'.cpu == eff.cpu && s'.cr3 == s.cr3
       case TimerTick(scratch) =>
         && StackRoom(limits, c, s.cpu.rsp, FRAME_WORDS + |scratch|)
         && FRAME_LEN <= Align16(s.cpu.rsp) && s' == Tick(l, s, scratch)
       case SystemCall(scratch, console) =>
         && eff.CallKernel? && ConsoleOnly(l, console)
         && StackRoom(limits, c, s.cpu.rsp, SYSCALL_WORDS + |scratch|)
         && s' == Syscall(l, s.(cpu := eff.cpu), 0, scratch, console)
       case PageFault(cr2, error, scratch, console) =>
         && eff.Compute? && cr2 in eff.touched && Walk(s.mem, s.cr3, cr2) == NotPresent
         && InAdditionalPage(cr2) && ConsoleOnly(l, console)
         && StackRoom(limits, c, s.cpu.rsp, FAULT_WORDS + |scratch|)
         && s' == Fault(l, s, error, scratch, console)
  }

  ghost predicate Run(l: Layout, limits: seq<int>, progs: seq<Program>, ss: seq<State>, es: seq<Event>)
    requires LayoutOk(l) && LimitsOk(limits) && |progs| == N_TASKS
  {
    |ss| == |es| + 1 && forall k :: 0 <= k < |es| ==> Next(l, limits, progs, ss[k], es[k], ss[k + 1])
  }

  // How many instructions task i has completed, and how many ticks there were.
  function Completed(l: Layout, ss: seq<State>, es: seq<Event>, i: TaskId): nat
    requires |ss| == |es| + 1
  {
    if es == [] then 0 else
    var n := |es| - 1;
    Completed(l, ss[..n + 1], es[..n], i) +
    (if CurOf(l, ss[n].mem) == i && (es[n].Step? || es[n].SystemCall?) then 1 else 0)
  }

  function Ticks(es: seq<Event>): nat {
    if es == [] then 0 else Ticks(es[..|es| - 1]) + (if es[|es| - 1].TimerTick? then 1 else 0)
  }

  function Faults(es: seq<Event>): nat {
    if es == [] then 0 else Faults(es[..|es| - 1]) + (if es[|es| - 1].PageFault? then 1 else 0)
  }

  // --- the machine shows task i what it would see alone ---

  ghost predicate Matches(l: Layout, s: State, limit: int, i: TaskId, z: Solo) {
    && CpuOf(l, s, i) == z.cpu
    && z.mem.Keys == ConfineSet(i) && z.live <= ConfineSet(i)
    && (forall va | va in z.live :: !Dead(limit, z.cpu.rsp, va))
    && (forall va | va in z.live :: InConfines(i, va) && At(s.mem, PhysOf(i, va)) == z.mem[va])
  }

  lemma StartMatches(l: Layout, s: State, limit: int, i: TaskId)
    ensures Matches(l, s, limit, i, SoloStart(l, s, limit, i))
  {
    forall va | va in ConfineSet(i) ensures InConfines(i, va) { ConfineSetIs(i, va); }
  }

  // Under the invariant the MMU maps every confined address to its place.
  lemma ConfinedWalk(l: Layout, s: State, limits: seq<int>, va: int)
    requires Inv(l, s, limits) && InConfines(CurOf(l, s.mem), va)
    ensures Walk(s.mem, s.cr3, va) ==
            if InAdditionalPage(va) && !Extra(l, s.mem) then NotPresent else Mapped(PhysOf(CurOf(l, s.mem), va), true)
  {
    ExactTranslation(l, s.mem, Extra(l, s.mem), CurOf(l, s.mem), va);
  }

  // The instruction sees its live bytes, so it does what it does alone.
  lemma SameEffect(l: Layout, s: State, limit: int, p: Program, i: TaskId, z: Solo)
    requires Matches(l, s, limit, i, z) && Disciplined(p, i, z)
    ensures p(z.cpu, View(s.mem, i)) == p(z.cpu, z.mem)
  {
    var v := View(s.mem, i);
    assert v.Keys == z.mem.Keys;
  }

  // An event that keeps task i's context and live bytes keeps the match.
  lemma MatchKept(l: Layout, s: State, s': State, limit: int, i: TaskId, z: Solo)
    requires Matches(l, s, limit, i, z)
    requires CpuOf(l, s', i) == CpuOf(l, s, i)
    requires forall va | InConfines(i, va)
             && !Dead(limit, z.cpu.rsp, va) :: At(s'.mem, PhysOf(i, va)) == At(s.mem, PhysOf(i, va))
    ensures Matches(l, s', limit, i, z)
  {}

  // Where the stores of a confined instruction land.
  lemma StepStores(l: Layout, s: State, limits: seq<int>, eff: Effect, s': State)
    requires Inv(l, s, limits) && eff.Compute?
    requires eff.writes.Keys <= eff.touched <= ConfineSet(CurOf(l, s.mem))
    requires forall va | va in eff.touched :: Walk(s.mem, s.cr3, va).Mapped?
    requires Stored(s, eff.writes, s'.mem)
    ensures KernelSame(s.mem, s'.mem)
    ensures forall j: TaskId, va | InConfines(j, va) :: At(s'.mem, PhysOf(j, va)) ==
              if j == CurOf(l, s.mem) && va in eff.writes then eff.writes[va] else At(s.mem, PhysOf(j, va))
  {
    var c: TaskId := CurOf(l, s.mem);
    forall va | va in eff.writes ensures InConfines(c, va) && Walk(s.mem, s.cr3, va) == Mapped(PhysOf(c, va), true) {
      ConfineSetIs(c, va);
      ConfinedWalk(l, s, limits, va);
    }
    forall a | KERNEL_MEM_ADDR <= a < KERNEL_MEM_END ensures At(s'.mem, a) == At(s.mem, a) {
      forall va | va in eff.writes ensures Walk(s.mem, s.cr3, va) != Mapped(a, true) { Isolation(c, va, c, va); }
    }
    forall j: TaskId, va | InConfines(j, va)
      ensures At(s'.mem, PhysOf(j, va)) == if j == c
               && va in eff.writes then eff.writes[va] else At(s.mem, PhysOf(j, va))
    {
      if !(j == c && va in eff.writes) {
        forall vb | vb in eff.writes
          ensures Walk(s.mem, s.cr3, vb) != Mapped(PhysOf(j, va), true)
        {
          Isolation(j, va, c, vb);
        }
      }
    }
  }

  lemma StepKeepsInv(l: Layout, s: State, limits: seq<int>, eff: Effect, s': State)
    requires Inv(l, s, limits) && eff.Compute?
    requires eff.writes.Keys <= eff.touched <= ConfineSet(CurOf(l, s.mem))
    requires forall va | va in eff.touched :: Walk(s.mem, s.cr3, va).Mapped?
    requires Stored(s, eff.writes, s'.mem) && s'.cr3 == s.cr3
    ensures Inv(l, s', limits) && CurOf(l, s'.mem) == CurOf(l, s.mem) && Extra(l, s'.mem) == Extra(l, s.mem)
    ensures forall j: TaskId | j != CurOf(l, s.mem) :: CpuOf(l, s', j) == CpuOf(l, s, j)
  {
    hide TablesOk;
    StepStores(l, s, limits, eff, s');
    KernelSameTables(l, s.mem, s'.mem, Extra(l, s.mem));
    KernelSameReads(l, s.mem, s'.mem, 0);
    RecordRange(l);
    assert Arrays(l)[12] == (l.tasks, 48) && Arrays(l)[13] == (l.curTask, 4);
    forall j: TaskId, va | j != CurOf(l, s.mem) && InWindow(va)
      ensures At(s'.mem, WindowPhys(j, va)) == At(s.mem, WindowPhys(j, va))
    {
      assert WindowPhys(j, va) == PhysOf(j, va);
    }
    NoSwitch(l, s, s', limits);
  }

  // The bookkeeping part of an event's effect.
  ghost predicate Moved(l: Layout, limits: seq<int>, s: State, e: Event, s': State) {
    && Inv(l, s, limits) && Inv(l, s', limits)
    && CurOf(l, s'.mem) == (if e.TimerTick? then (CurOf(l, s.mem) + 1) % N_TASKS else CurOf(l, s.mem))
    && Extra(l, s'.mem) == (Extra(l, s.mem) || e.PageFault?)
    && (e.PageFault? ==> CurOf(l, s.mem) == 0 && !Extra(l, s.mem))
  }

  function Advance(p: Program, limit: int, e: Event, running: bool, z: Solo): Solo {
    if running && (e.Step? || e.SystemCall?) then SoloStep(p, limit, z) else z
  }

  lemma StepEvent(l: Layout, limits: seq<int>, progs: seq<Program>, s: State, s': State, i: TaskId, zc: Solo, z: Solo)
    requires |progs| == N_TASKS && Inv(l, s, limits) && Next(l, limits, progs, s, Step, s')
    requires var c: TaskId := CurOf(l, s.mem);
             Matches(l, s, limits[c], c, zc) && Disciplined(progs[c], c, zc)
    requires Matches(l, s, limits[i], i, z) && (i == CurOf(l, s.mem) ==> z == zc)
    ensures Moved(l, limits, s, Step, s')
    ensures Matches(l, s', limits[i], i, Advance(progs[i], limits[i], Step, i == CurOf(l, s.mem), z))
  {
    hide Inv;
    hide Disciplined;
    InvParts(l, s, limits);
    var c: TaskId := CurOf(l, s.mem);
    SameEffect(l, s, limits[c], progs[c], c, zc);
    var eff := progs[c](zc.cpu, zc.mem);
    assert eff.writes.Keys <= eff.touched <= ConfineSet(c) by { EffectConfined(progs[c], c, zc); }
    StepStores(l, s, limits, eff, s');
    StepKeepsInv(l, s, limits, eff, s');
    if i == c {
      var z' := SoloStep(progs[c], limits[c], zc);
      forall va | va in z'.live
        ensures InConfines(c, va) && At(s'.mem, PhysOf(c, va)) == z'.mem[va]
      {
        ConfineSetIs(c, va);
      }
      assert z'.mem.Keys == ConfineSet(c);
    } else {
      MatchKept(l, s, s', limits[i], i, z);
    }
  }

  lemma EffectConfined(p: Program, i: TaskId, z: Solo)
    requires Disciplined(p, i, z)
    ensures match p(z.cpu, z.mem)
            case Compute(cpu, writes, touched) => writes.Keys <= touched <= ConfineSet(i)
            case CallKernel(cpu) => cpu == z.cpu.(rip := cpu.rip)
  {}

  lemma InvParts(l: Layout, s: State, limits: seq<int>)
    requires Inv(l, s, limits)
    ensures LayoutOk(l) && LimitsOk(limits) && 0 <= CurOf(l, s.mem) < N_TASKS
  {}

  lemma TickEvent(l: Layout, limits: seq<int>, progs: seq<Program>, s: State, e: Event, s': State, i: TaskId, z: Solo)
    requires |progs| == N_TASKS && Inv(l, s, limits) && e.TimerTick? && Next(l, limits, progs, s, e, s')
    requires Matches(l, s, limits[i], i, z)
    ensures Moved(l, limits, s, e, s') && Matches(l, s', limits[i], i, z)
  {
    hide TablesOk;
    hide LayoutOk;
    hide Load64;
    hide Extra;
    hide FrameAt;
    TickSwitches(l, s, limits, e.scratch);
    TickMemory(l, s, limits, e.scratch);
    TickTaskBytes(l, s, limits, e.scratch);
    MatchKept(l, s, s', limits[i], i, z);
  }

  lemma SystemCallEvent(l: Layout, limits: seq<int>, progs: seq<Program>, s: State, e: Event, s': State, i: TaskId,
          zc: Solo, z: Solo)
    requires |progs| == N_TASKS && Inv(l, s, limits) && e.SystemCall? && Next(l, limits, progs, s, e, s')
    requires var c: TaskId := CurOf(l, s.mem);
             Matches(l, s, limits[c], c, zc) && Disciplined(progs[c], c, zc)
    requires Matches(l, s, limits[i], i, z) && (i == CurOf(l, s.mem) ==> z == zc)
    ensures Moved(l, limits, s, e, s')
    ensures Matches(l, s', limits[i], i, Advance(progs[i], limits[i], e, i == CurOf(l, s.mem), z))
  {
    hide TablesOk;
    hide LayoutOk;
    hide Extra;
    hide FrameAt;
    hide Load64;
    hide Inv;
    hide StackRoom;
    hide Disciplined;
    InvParts(l, s, limits);
    var c: TaskId := CurOf(l, s.mem);
    SameEffect(l, s, limits[c], progs[c], c, zc);
    EffectConfined(progs[c], c, zc);
    var eff := progs[c](zc.cpu, zc.mem);
    var s1 := s.(cpu := eff.cpu);
    OtherCpu(l, s, limits, eff.cpu);
    SyscallReturns(l, s1, limits, 0, e.scratch, e.console);
    if i == c {
      CallerMatches(l, s, s', limits, progs[c], c, zc);
    } else {
      MatchKept(l, s, s', limits[i], i, z);
    }
  }

  lemma OtherCpu(l: Layout, s: State, limits: seq<int>, cpu: Cpu)
    requires Inv(l, s, limits)
    ensures Inv(l, s.(cpu := cpu), limits)
  {
    hide TablesOk;
    hide LayoutOk;
  }

  lemma CallerMatches(l: Layout, s: State, s': State, limits: seq<int>, p: Program, c: TaskId, z: Solo)
    requires LimitsOk(limits) && Matches(l, s, limits[c], c, z) && c == CurOf(l, s.mem) == CurOf(l, s'.mem)
    requires p(z.cpu, z.mem).CallKernel? && p(z.cpu, z.mem).cpu.rsp == z.cpu.rsp == s.cpu.rsp
    requires s'.cpu == p(z.cpu, z.mem).cpu.(gpr := p(z.cpu, z.mem).cpu.gpr[0 := 0])
    requires TaskBytesKept(s.mem, s'.mem, c, limits[c], s.cpu.rsp)
    ensures Matches(l, s', limits[c], c, SoloStep(p, limits[c], z))
  {
    hide CurOf;
  }

  lemma PageFaultEvent(l: Layout, limits: seq<int>, progs: seq<Program>, s: State, e: Event, s': State, i: TaskId,
          zc: Solo, z: Solo)
    requires |progs| == N_TASKS && Inv(l, s, limits) && e.PageFault? && Next(l, limits, progs, s, e, s')
    requires var c: TaskId := CurOf(l, s.mem);
             Matches(l, s, limits[c], c, zc) && Disciplined(progs[c], c, zc)
    requires Matches(l, s, limits[i], i, z)
    ensures Moved(l, limits, s, e, s') && Matches(l, s', limits[i], i, z)
  {
    hide TablesOk;
    var c: TaskId := CurOf(l, s.mem);
    SameEffect(l, s, limits[c], progs[c], c, zc);
    EffectConfined(progs[c], c, zc);
    ConfineSetIs(c, e.cr2);
    ConfinedWalk(l, s, limits, e.cr2);
    FaultRestarts(l, s, limits, e.error, e.scratch, e.console);
    MatchKept(l, s, s', limits[i], i, z);
  }

  // An instruction can go on exactly when it leaves the additional page alone
  // or that page has been mapped.
  lemma StepOrFault(l: Layout, limits: seq<int>, p: Program, s: State, zc: Solo)
    requires Inv(l, s, limits)
    requires var c: TaskId := CurOf(l, s.mem);
             Matches(l, s, limits[c], c, zc) && Disciplined(p, c, zc) && p(s.cpu, View(s.mem, c)).Compute?
    ensures var eff := p(s.cpu, View(s.mem, CurOf(l, s.mem)));
            (forall va | va in eff.touched :: Walk(s.mem, s.cr3, va).Mapped?)
            <==> Extra(l, s.mem) || (forall va | va in eff.touched :: !InAdditionalPage(va))
  {
    hide Inv;
    hide Disciplined;
    hide Extra;
    InvParts(l, s, limits);
    var c: TaskId := CurOf(l, s.mem);
    SameEffect(l, s, limits[c], p, c, zc);
    EffectConfined(p, c, zc);
    forall va | va in p(s.cpu, View(s.mem, c)).touched
      ensures Walk(s.mem, s.cr3, va).Mapped? <==> Extra(l, s.mem) || !InAdditionalPage(va)
    {
      ConfineSetIs(c, va);
      ConfinedWalk(l, s, limits, va);
    }
  }

  // A repaired fault makes progress: the same instruction, with the same
  // effect, can now go on.
  lemma FaultProgress(l: Layout, limits: seq<int>, progs: seq<Program>, s: State, e: Event, s': State, zc: Solo)
    requires |progs| == N_TASKS && Inv(l, s, limits) && e.PageFault? && Next(l, limits, progs, s, e, s')
    requires var c: TaskId := CurOf(l, s.mem);
             Matches(l, s, limits[c], c, zc) && Disciplined(progs[c], c, zc)
    ensures CurOf(l, s'.mem) == CurOf(l, s.mem) == 0
    ensures var eff := progs[0](s.cpu, View(s.mem, 0));
            && progs[0](s'.cpu, View(s'.mem, 0)) == eff && eff.Compute?
            && forall va | va in eff.touched :: Walk(s'.mem, s'.cr3, va).Mapped?
  {
    hide Inv;
    hide Disciplined;
    hide Extra;
    hide Matches;
    hide Fault;
    InvParts(l, s, limits);
    PageFaultEvent(l, limits, progs, s, e, s', CurOf(l, s.mem), zc, zc);
    MatchedCpu(l, s, limits[0], 0, zc);
    MatchedCpu(l, s', limits[0], 0, zc);
    SameEffect(l, s, limits[0], progs[0], 0, zc);
    SameEffect(l, s', limits[0], progs[0], 0, zc);
    StepOrFault(l, limits, progs[0], s', zc);
  }

  lemma MatchedCpu(l: Layout, s: State, limit: int, i: TaskId, z: Solo)
    requires Matches(l, s, limit, i, z) && CurOf(l, s.mem) == i
    ensures s.cpu == z.cpu
  {}

  lemma AnyEvent(l: Layout, limits: seq<int>, progs: seq<Program>, s: State, e: Event, s': State, i: TaskId,
          zc: Solo, z: Solo)
    requires |progs| == N_TASKS && Inv(l, s, limits) && Next(l, limits, progs, s, e, s')
    requires var c: TaskId := CurOf(l, s.mem);
             Matches(l, s, limits[c], c, zc) && Disciplined(progs[c], c, zc)
    requires Matches(l, s, limits[i], i, z) && (i == CurOf(l, s.mem) ==> z == zc)
    ensures Moved(l, limits, s, e, s')
    ensures Matches(l, s', limits[i], i, Advance(progs[i], limits[i], e, i == CurOf(l, s.mem), z))
  {
    hide Inv;
    hide Next;
    hide Matches;
    hide Disciplined;
    match e
    case Step => StepEvent(l, limits, progs, s, s', i, zc, z);
    case TimerTick(_) => TickEvent(l, limits, progs, s, e, s', i, z);
    case SystemCall(_, _) => SystemCallEvent(l, limits, progs, s, e, s', i, zc, z);
    case PageFault(_, _, _, _) => PageFaultEvent(l, limits, progs, s, e, s', i, zc, z);
  }

  // The state of task i running alone after what it has completed in a run.
  function Alone(l: Layout, limits: seq<int>, progs: seq<Program>, ss: seq<State>, es: seq<Event>, i: TaskId): Solo
    requires |progs| == N_TASKS && |limits| == N_TASKS && |ss| == |es| + 1
  {
    SoloRun(progs[i], limits[i], SoloStart(l, ss[0], limits[i], i), Completed(l, ss, es, i))
  }

  ghost predicate AllDisciplined(l: Layout, limits: seq<int>, progs: seq<Program>, s: State)
    requires |progs| == N_TASKS && |limits| == N_TASKS
  {
    forall i: TaskId, n: nat :: Disciplined(progs[i], i, SoloRun(progs[i], limits[i], SoloStart(l, s, limits[i], i), n))
  }

  // At the end of the run: the invariant holds; each task's context and live
  // memory are those of running alone for the instructions it has completed;
  // cur_task has advanced by one per tick, modulo 3; and the additional page has
  // faulted once if it was mapped during the run, else never.
  ghost predicate TransparentAt(l: Layout, limits: seq<int>, progs: seq<Program>, ss: seq<State>, es: seq<Event>)
    requires |progs| == N_TASKS && LimitsOk(limits) && |ss| == |es| + 1
  {
    var s := ss[|es|];
    && Inv(l, s, limits)
    && (forall i: TaskId :: Matches(l, s, limits[i], i, Alone(l, limits, progs, ss, es, i)))
    && CurOf(l, s.mem) == (CurOf(l, ss[0].mem) + Ticks(es)) % N_TASKS
    && (Extra(l, ss[0].mem) ==> Extra(l, s.mem))
    && Faults(es) == (if Extra(l, s.mem) && !Extra(l, ss[0].mem) then 1 else 0)
  }

  // The main theorem: preemption, system calls and demand paging are
  // transparent in every run, of any length and any interleaving.
  lemma {:induction false} Transparent(l: Layout, limits: seq<int>, progs: seq<Program>, ss: seq<State>, es: seq<Event>)
    requires |progs| == N_TASKS && LayoutOk(l) && LimitsOk(limits) && Run(l, limits, progs, ss, es)
    requires Inv(l, ss[0], limits) && AllDisciplined(l, limits, progs, ss[0])
    ensures TransparentAt(l, limits, progs, ss, es)
    decreases |es|
  {
    hide Inv;
    hide Matches;
    hide Next;
    if es == [] {
      InvParts(l, ss[0], limits);
      forall i: TaskId ensures Matches(l, ss[0], limits[i], i, Alone(l, limits, progs, ss, es, i)) {
        StartMatches(l, ss[0], limits[i], i);
      }
    } else {
      var n := |es| - 1;
      RunPrefix(l, limits, progs, ss, es);
      Transparent(l, limits, progs, ss[..n + 1], es[..n]);
      TransparentStep(l, limits, progs, ss, es);
    }
  }

  // From the state that start-up leaves, number k mod 3 runs after k ticks, and
  // the additional page faults at most once, when it is mapped.
  lemma FromBoot(l: Layout, limits: seq<int>, progs: seq<Program>, ss: seq<State>, es: seq<Event>)
    requires |progs| == N_TASKS && LayoutOk(l) && LimitsOk(limits) && Run(l, limits, progs, ss, es)
    requires Inv(l, ss[0], limits) && AllDisciplined(l, limits, progs, ss[0])
    requires CurOf(l, ss[0].mem) == 0 && !Extra(l, ss[0].mem)
    ensures CurOf(l, ss[|es|].mem) == Ticks(es) % N_TASKS
    ensures Faults(es) == if Extra(l, ss[|es|].mem) then 1 else 0
  {
    hide Inv;
    hide Matches;
    hide Next;
    hide Run;
    hide AllDisciplined;
    hide Alone;
    hide LayoutOk;
    hide CurOf;
    hide Extra;
    hide Ticks;
    hide Faults;
    Transparent(l, limits, progs, ss, es);
  }

  lemma RunPrefix(l: Layout, limits: seq<int>, progs: seq<Program>, ss: seq<State>, es: seq<Event>)
    requires |progs| == N_TASKS && LayoutOk(l) && LimitsOk(limits) && Run(l, limits, progs, ss, es) && es != []
    ensures Run(l, limits, progs, ss[..|es|], es[..|es| - 1])
  {
    hide Next;
    var n := |es| - 1;
    forall k | 0 <= k < n ensures Next(l, limits, progs, ss[..n + 1][k], es[..n][k], ss[..n + 1][k + 1]) {
      assert Next(l, limits, progs, ss[k], es[k], ss[k + 1]);
    }
  }

  lemma TransparentStep(l: Layout, limits: seq<int>, progs: seq<Program>, ss: seq<State>, es: seq<Event>)
    requires |progs| == N_TASKS && LayoutOk(l) && LimitsOk(limits) && Run(l, limits, progs, ss, es) && es != []
    requires AllDisciplined(l, limits, progs, ss[0])
    requires TransparentAt(l, limits, progs, ss[..|es|], es[..|es| - 1])
    ensures TransparentAt(l, limits, progs, ss, es)
  {
    hide Inv;
    hide Matches;
    hide Next;
    hide Alone;
    hide AllDisciplined;
    var n := |es| - 1;
    assert ss[..n + 1][n] == ss[n] && ss[..n + 1][0] == ss[0];
    forall i: TaskId ensures Matches(l, ss[|es|], limits[i], i, Alone(l, limits, progs, ss, es, i)) {
      OneMoreEvent(l, limits, progs, ss, es, i);
    }
    OneMoreEvent(l, limits, progs, ss, es, 0);
    NextTurn(CurOf(l, ss[0].mem), Ticks(es[..n]));
  }

  lemma NextTurn(c: int, k: int)
    ensures ((c + k) % N_TASKS + 1) % N_TASKS == (c + k + 1) % N_TASKS
  {}

  // One more event, for one task.
  lemma OneMoreEvent(l: Layout, limits: seq<int>, progs: seq<Program>, ss: seq<State>, es: seq<Event>, i: TaskId)
    requires |progs| == N_TASKS && LayoutOk(l) && LimitsOk(limits) && Run(l, limits, progs, ss, es) && es != []
    requires AllDisciplined(l, limits, progs, ss[0])
    requires TransparentAt(l, limits, progs, ss[..|es|], es[..|es| - 1])
    ensures Moved(l, limits, ss[|es| - 1], es[|es| - 1], ss[|es|])
    ensures Matches(l, ss[|es|], limits[i], i, Alone(l, limits, progs, ss, es, i))
  {
    hide Inv;
    hide Matches;
    hide Disciplined;
    hide Moved;
    hide Next;
    hide SoloRun;
    hide SoloStart;
    hide Completed;
    hide Advance;
    var n := |es| - 1;
    var s, e, s' := ss[n], es[n], ss[n + 1];
    assert Next(l, limits, progs, s, e, s');
    InvParts(l, s, limits);
    var c: TaskId := CurOf(l, s.mem);
    var zc := Alone(l, limits, progs, ss[..n + 1], es[..n], c);
    var z := Alone(l, limits, progs, ss[..n + 1], es[..n], i);
    assert Disciplined(progs[c], c, zc);
    assert Matches(l, s, limits[c], c, zc) && Matches(l, s, limits[i], i, z);
    AnyEvent(l, limits, progs, s, e, s', i, zc, z);
    AloneOneMore(l, limits, progs, ss, es, i);
  }

  lemma AloneOneMore(l: Layout, limits: seq<int>, progs: seq<Program>, ss: seq<State>, es: seq<Event>, i: TaskId)
    requires |progs| == N_TASKS && |limits| == N_TASKS && |ss| == |es| + 1 && es != []
    ensures var n := |es| - 1;
            Alone(l, limits, progs, ss, es, i) ==
            Advance(progs[i], limits[i], es[n], i == CurOf(l, ss[n].mem), Alone(l, limits, progs, ss[..n + 1], es[..n], i))
  {
    hide SoloStart;
    hide SoloStep;
    hide CurOf;
  }

  // --- isolation over runs ---

  // One event leaves every byte that a non-running task owns.
  lemma OthersUntouched(l: Layout, limits: seq<int>, progs: seq<Program>, s: State, e: Event, s': State, zc: Solo,
          j: TaskId)
    requires |progs| == N_TASKS && Inv(l, s, limits) && Next(l, limits, progs, s, e, s')
    requires var c: TaskId := CurOf(l, s.mem);
             Matches(l, s, limits[c], c, zc) && Disciplined(progs[c], c, zc)
    requires j != CurOf(l, s.mem)
    ensures forall va | InConfines(j, va) :: At(s'.mem, PhysOf(j, va)) == At(s.mem, PhysOf(j, va))
  {
    hide TablesOk;
    hide LayoutOk;
    hide Extra;
    hide Load64;
    var c: TaskId := CurOf(l, s.mem);
    SameEffect(l, s, limits[c], progs[c], c, zc);
    EffectConfined(progs[c], c, zc);
    var eff := progs[c](zc.cpu, zc.mem);
    match e
    case Step => StepStores(l, s, limits, eff, s');
    case TimerTick(scratch) => TickTaskBytes(l, s, limits, scratch);
    case SystemCall(scratch, console) => SyscallReturns(l, s.(cpu := eff.cpu), limits, 0, scratch, console);
    case PageFault(_, error, scratch, console) => FaultRestarts(l, s, limits, error, scratch, console);
  }

  // However long the others run, a task that does not run keeps every byte of
  // its memory, live or dead.
  lemma {:induction false} SuspendedMemory(l: Layout, limits: seq<int>, progs: seq<Program>, ss: seq<State>,
          es: seq<Event>, j: TaskId)
    requires |progs| == N_TASKS && LayoutOk(l) && LimitsOk(limits) && Run(l, limits, progs, ss, es)
    requires Inv(l, ss[0], limits) && AllDisciplined(l, limits, progs, ss[0])
    requires forall k | 0 <= k < |es| :: CurOf(l, ss[k].mem) != j
    ensures forall va | InConfines(j, va) :: At(ss[|es|].mem, PhysOf(j, va)) == At(ss[0].mem, PhysOf(j, va))
    decreases |es|
  {
    hide Inv;
    hide Next;
    hide Matches;
    hide Disciplined;
    if es == [] {
    } else {
      var n := |es| - 1;
      var pss, pes := ss[..|es|], es[..n];
      RunPrefix(l, limits, progs, ss, es);
      SuspendedMemory(l, limits, progs, pss, pes, j);
      Transparent(l, limits, progs, pss, pes);
      InvParts(l, ss[n], limits);
      var c: TaskId := CurOf(l, ss[n].mem);
      var zc := Alone(l, limits, progs, pss, pes, c);
      assert Matches(l, pss[n], limits[c], c, zc) && Disciplined(progs[c], c, zc);
      assert Next(l, limits, progs, ss[n], es[n], ss[n + 1]);
      OthersUntouched(l, limits, progs, ss[n], es[n], ss[n + 1], zc, j);
    }
  }

  // --- the tables over runs ---

  ghost predicate EntriesSame(l: Layout, m: Mem, m': Mem) {
    forall t, k | IsTable(t) && 0 <= k < 512 && !Repaired(t, k) :: Entry(l, m', t, k) == Entry(l, m, t, k)
  }

  lemma KernelSameEntries(l: Layout, m: Mem, m': Mem)
    requires LayoutOk(l) && KernelSame(m, m')
    ensures EntriesSame(l, m, m')
  {
    forall t, k | IsTable(t) && 0 <= k < 512
      ensures Entry(l, m', t, k) == Entry(l, m, t, k)
    {
      KernelSameEntry(l, m, m', t, k);
    }
  }

  lemma TickEntries(l: Layout, s: State, limits: seq<int>, scratch: seq<Word>)
    requires Inv(l, s, limits) && StackRoom(limits, CurOf(l, s.mem), s.cpu.rsp, FRAME_WORDS + |scratch|)
    ensures EntriesSame(l, s.mem, Tick(l, s, scratch).mem)
  {
    hide TablesOk;
    hide LayoutOk;
    hide Extra;
    hide Load64;
    var c: TaskId := CurOf(l, s.mem);
    var ws := FrameWords(s.cpu) + scratch;
    var m1 := PushWords(s.mem, WindowPhys(c, Align16(s.cpu.rsp)), ws);
    PushKept(s.mem, c, limits, s.cpu.rsp, ws);
    KernelSameEntries(l, s.mem, m1);
    var n: TaskId := (c + 1) % N_TASKS;
    var sp: Word := Align16(s.cpu.rsp) - FRAME_LEN;
    SetSpEffect(l, m1, c, sp, c);
    SetCurEffect(l, SetSp(l, m1, c, sp), n, c);
    EntriesKept(l, m1, SetSp(l, m1, c, sp), 12);
    EntriesKept(l, SetSp(l, m1, c, sp), SetRecord(l, m1, c, sp, n), 13);
  }

  lemma HandlerEntries(l: Layout, s: State, limits: seq<int>, ws: seq<Word>, console: Mem, repair: bool)
    requires Inv(l, s, limits) && ConsoleOnly(l, console) && StackRoom(limits, CurOf(l, s.mem), s.cpu.rsp, |ws|)
    ensures var m := PushWords(s.mem, WindowPhys(CurOf(l, s.mem), Align16(s.cpu.rsp)), ws) + console;
            EntriesSame(l, s.mem, if repair then MapAdditionalPage(l, m) else m)
  {
    hide TablesOk;
    hide LayoutOk;
    hide Extra;
    hide Load64;
    hide MapAdditionalPage;
    var c: TaskId := CurOf(l, s.mem);
    var m1 := PushWords(s.mem, WindowPhys(c, Align16(s.cpu.rsp)), ws);
    PushKept(s.mem, c, limits, s.cpu.rsp, ws);
    KernelSameEntries(l, s.mem, m1);
    KernelSameTables(l, s.mem, m1, Extra(l, s.mem));
    forall t, k | IsTable(t) && 0 <= k < 512 && !Repaired(t, k)
      ensures Entry(l, m1 + console, t, k) == Entry(l, m1, t, k)
              && Entry(l, MapAdditionalPage(l, m1 + console), t, k) == Entry(l, m1 + console, t, k)
    {
      ConsoleEntry(l, m1, console, Extra(l, s.mem), t, k);
      MapAdditionalEntries(l, m1 + console, t, k);
    }
  }

  lemma ConsoleEntry(l: Layout, m: Mem, console: Mem, extra: bool, t: Table, k: int)
    requires LayoutOk(l) && ConsoleOnly(l, console) && TablesOk(l, m, extra) && IsTable(t) && 0 <= k < 512
    ensures Entry(l, m + console, t, k) == Entry(l, m, t, k)
  {
    hide TablesOk;
    ConsoleKept(l, m, console, extra);
    BaseRange(l, t);
    forall a | Base(l, t) + 8 * k <= a < Base(l, t) + 8 * k + 8 ensures At(m + console, a) == At(m, a) {
      assert InArray(l, ArrayOf(t), a);
    }
    Load64Same(m, m + console, Base(l, t) + 8 * k);
  }

  lemma EventEntries(l: Layout, limits: seq<int>, progs: seq<Program>, s: State, e: Event, s': State, zc: Solo)
    requires |progs| == N_TASKS && Inv(l, s, limits) && Next(l, limits, progs, s, e, s')
    requires var c: TaskId := CurOf(l, s.mem);
             Matches(l, s, limits[c], c, zc) && Disciplined(progs[c], c, zc)
    ensures EntriesSame(l, s.mem, s'.mem)
  {
    hide Inv;
    hide TablesOk;
    hide LayoutOk;
    hide Extra;
    hide Load64;
    hide EntriesSame;
    hide MapAdditionalPage;
    hide Disciplined;
    InvParts(l, s, limits);
    var c: TaskId := CurOf(l, s.mem);
    SameEffect(l, s, limits[c], progs[c], c, zc);
    EffectConfined(progs[c], c, zc);
    var eff := progs[c](zc.cpu, zc.mem);
    match e
    case Step =>
      StepStores(l, s, limits, eff, s');
      KernelSameEntries(l, s.mem, s'.mem);
    case TimerTick(scratch) => TickEntries(l, s, limits, scratch);
    case SystemCall(scratch, console) => SyscallEntries(l, s, limits, eff.cpu, scratch, console);
    case PageFault(_, error, scratch, console) => HandlerEntries(l, s, limits, FaultWords(s.cpu, error) + scratch, console, true);
  }

  lemma SyscallEntries(l: Layout, s: State, limits: seq<int>, cpu: Cpu, scratch: seq<Word>, console: Mem)
    requires Inv(l, s, limits) && ConsoleOnly(l, console) && cpu.rsp == s.cpu.rsp
    requires StackRoom(limits, CurOf(l, s.mem), s.cpu.rsp, SYSCALL_WORDS + |scratch|)
    ensures EntriesSame(l, s.mem, Syscall(l, s.(cpu := cpu), 0, scratch, console).mem)
  {
    hide TablesOk;
    hide LayoutOk;
    hide EntriesSame;
    HandlerEntries(l, s, limits, SyscallWords(cpu) + scratch, console, false);
  }

  // Over a whole run no table entry changes but those that the fault handler
  // repairs.
  lemma {:induction false} TablesOverRuns(l: Layout, limits: seq<int>, progs: seq<Program>, ss: seq<State>,
          es: seq<Event>)
    requires |progs| == N_TASKS && LayoutOk(l) && LimitsOk(limits) && Run(l, limits, progs, ss, es)
    requires Inv(l, ss[0], limits) && AllDisciplined(l, limits, progs, ss[0])
    ensures EntriesSame(l, ss[0].mem, ss[|es|].mem)
    decreases |es|
  {
    hide Inv;
    hide Next;
    hide Matches;
    hide Disciplined;
    if es == [] {
    } else {
      var n := |es| - 1;
      var pss, pes := ss[..|es|], es[..n];
      RunPrefix(l, limits, progs, ss, es);
      TablesOverRuns(l, limits, progs, pss, pes);
      Transparent(l, limits, progs, pss, pes);
      InvParts(l, ss[n], limits);
      var c: TaskId := CurOf(l, ss[n].mem);
      var zc := Alone(l, limits, progs, pss, pes, c);
      assert Matches(l, pss[n], limits[c], c, zc) && Disciplined(progs[c], c, zc);
      assert Next(l, limits, progs, ss[n], es[n], ss[n + 1]);
      EventEntries(l, limits, progs, ss[n], es[n], ss[n + 1], zc);
    }
  }
}
