// Start-up and everything after it.
module System {
  import opened Bytes
  import opened Paging
  import opened Contexts
  import opened Startup
  import opened Kernel
  import opened Runs

  // A program about to run alone: at its entry point, with an empty stack and
  // the kernel's flags and segments, over the bytes that the loader put in its
  // memory; what it may not rely on is the stack below RSP.
  ghost predicate StartsFrom(m0: Mem, k: Cpu, limit: int, i: TaskId, z: Solo) {
    && z.cpu.rip == 0x4000_0000 && z.cpu.rsp == 0x4100_0000
    && z.cpu.rflags == k.rflags && z.cpu.cs == k.cs && z.cpu.ss == k.ss
    && z.live == (set va | va in ConfineSet(i) && !(limit <= va < 0x4100_0000))
    && (forall va | va in z.live :: InConfines(i, va) && va in z.mem && z.mem[va] == At(m0, PhysOf(i, va)))
  }

  lemma StartsClean(l: Layout, m0: Mem, k: Cpu, s: State, limits: seq<int>, i: TaskId)
    requires LimitsOk(limits) && Booted(l, m0, k, s, limits)
    ensures StartsFrom(m0, k, limits[i], i, SoloStart(l, s, limits[i], i))
  {
    hide LayoutOk;
    hide Inv;
    hide Extra;
    hide CpuOf;
    assert Started(l, s, i, k);
    var z := SoloStart(l, s, limits[i], i);
    forall va | va in z.live ensures InConfines(i, va) && va in z.mem && z.mem[va] == At(m0, PhysOf(i, va)) {
      ConfineSetIs(i, va);
    }
  }

  // The whole system. From zeroed tables, whatever the loader put in the
  // windows, and in any interleaving with ticks, system calls and page faults,
  // each program does exactly what it does alone from the image it was loaded
  // with.
  lemma BootedRuns(l: Layout, m0: Mem, k: Cpu, limits: seq<int>, progs: seq<Program>, ss: seq<State>, es: seq<Event>)
    requires |progs| == N_TASKS && LayoutOk(l) && LimitsOk(limits) && Run(l, limits, progs, ss, es)
    requires Booted(l, m0, k, ss[0], limits) && AllDisciplined(l, limits, progs, ss[0])
    ensures TransparentAt(l, limits, progs, ss, es)
    ensures forall i: TaskId :: StartsFrom(m0, k, limits[i], i, SoloStart(l, ss[0], limits[i], i))
    ensures CurOf(l, ss[|es|].mem) == Ticks(es) % 3
    ensures Faults(es) == if Extra(l, ss[|es|].mem) then 1 else 0
  {
    hide LayoutOk;
    hide Inv;
    hide Next;
    hide AllDisciplined;
    hide StartsFrom;
    hide TransparentAt;
    hide Extra;
    hide CurOf;
    Transparent(l, limits, progs, ss, es);
    FromBoot(l, limits, progs, ss, es);
    forall i: TaskId ensures StartsFrom(m0, k, limits[i], i, SoloStart(l, ss[0], limits[i], i)) {
      StartsClean(l, m0, k, ss[0], limits, i);
    }
  }

  // --- the handlers are the steps of a run ---

  method TimerStep(m: Machine, scratch: seq<Word>, clobbered: seq<Word>, ghost limits: seq<int>, ghost progs: seq<Program>)
    requires |progs| == N_TASKS && Inv(m.memory.l, m.S(), limits) && |clobbered| == 15 && !m.inService
    requires StackRoom(limits, CurOf(m.memory.l, m.memory.mem), m.cpu.rsp, FRAME_WORDS + |scratch|)
    modifies m`cpu, m`cr3, m`inService, m.memory
    ensures LayoutOk(m.memory.l) && LimitsOk(limits) && !m.inService
    ensures Next(m.memory.l, limits, progs, old(m.S()), TimerTick(scratch), m.S())
  {
    hide TablesOk;
    hide LayoutOk;
    m.LapicIntrHandler(scratch, clobbered, limits);
  }

  // `s` is the state before `int $0x80`, whose context the processor saves.
  method SystemCallStep(m: Machine, str: seq<Byte>, garbage: Word, scratch: seq<Word>, clobbered: seq<Word>, console: Mem,
      ghost s: State, ghost limits: seq<int>, ghost progs: seq<Program>)
    returns (text: seq<Byte>)
    requires |progs| == N_TASKS && Inv(m.memory.l, s, limits) && |clobbered| == 15 && ConsoleOnly(m.memory.l, console)
    requires var c: TaskId := CurOf(m.memory.l, s.mem);
             var eff := progs[c](s.cpu, View(s.mem, c));
             && eff.CallKernel? && eff.cpu == s.cpu.(rip := eff.cpu.rip) && eff.cpu.gpr[4] == 1
             && m.S() == s.(cpu := eff.cpu)
    requires StackRoom(limits, CurOf(m.memory.l, s.mem), s.cpu.rsp, SYSCALL_WORDS + |scratch|)
    modifies m`cpu, m.memory
    ensures LayoutOk(m.memory.l) && LimitsOk(limits) && text == str
    ensures Next(m.memory.l, limits, progs, s, SystemCall(scratch, console), m.S())
  {
    hide TablesOk;
    hide LayoutOk;
    hide Extra;
    OtherCpu(m.memory.l, s, limits, m.cpu);
    text := m.SyscallHandler(str, garbage, scratch, clobbered, console, limits);
  }

  method PageFaultStep(m: Machine, cr2: Word, error: Word, scratch: seq<Word>, clobbered: seq<Word>, console: Mem,
      ghost limits: seq<int>, ghost progs: seq<Program>)
    returns (resumes: bool, text: seq<Byte>)
    requires |progs| == N_TASKS && Inv(m.memory.l, m.S(), limits) && |clobbered| == 15 && ConsoleOnly(m.memory.l, console)
    requires var c: TaskId := CurOf(m.memory.l, m.memory.mem);
             var eff := progs[c](m.cpu, View(m.memory.mem, c));
             eff.Compute? && cr2 in eff.touched && Walk(m.memory.mem, m.cr3, cr2) == NotPresent && InAdditionalPage(cr2)
    requires StackRoom(limits, CurOf(m.memory.l, m.memory.mem), m.cpu.rsp, FAULT_WORDS + |scratch|)
    modifies m`cpu, m.memory
    ensures LayoutOk(m.memory.l) && LimitsOk(limits) && resumes
    ensures Next(m.memory.l, limits, progs, old(m.S()), PageFault(cr2, error, scratch, console), m.S())
  {
    hide TablesOk;
    hide LayoutOk;
    hide Extra;
    resumes, text := m.PageFaultHandler(cr2, error, scratch, clobbered, console, limits);
  }
}
