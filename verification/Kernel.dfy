// The processor running kernel/sched.c and kernel/interrupt_handler.S: every
// access goes through the MMU, and each handler is proved to have the effect
// that Contexts gives one interrupt.
module Kernel {
  import opened Bytes
  import opened Bits
  import opened Paging
  import opened VirtualMemory
  import opened Contexts
  import opened Startup
  import opened Hex
  import opened Text
  import LapicTimer

  // Each handler's pushes, in order, are the words of its frame.
  lemma PushOrder(c: Cpu, error: Word, scratch: seq<Word>)
    ensures HardwareWords(c) + [] + c.gpr + scratch == FrameWords(c) + scratch
    ensures HardwareWords(c) + [error] + c.gpr + scratch == FaultWords(c, error) + scratch
    ensures HardwareWords(c) + [] + c.gpr[1..] + scratch == SyscallWords(c) + scratch
  {
    assert HardwareWords(c) + [] == HardwareWords(c);
  }

  lemma FaultBits(code: Word)
    ensures And(code, 16) != 0 <==> code / 16 % 2 == 1
    ensures And(code, 2) != 0 <==> code / 2 % 2 == 1
  {
    assert Pow2(1) == 2 && Pow2(4) == 16;
    AndBit(code, 1);
    AndBit(code, 4);
  }

  // What can be read off the report: which message, and the address.
  lemma FaultReportMessage(code: Word, addr: Word)
    requires !InAdditionalPage(addr)
    ensures Begins(FaultText(code, addr), "Page fault(instruction fetch)\n") <==> And(code, 16) != 0
    ensures Begins(FaultText(code, addr), "Page fault(data write)\n") <==> And(code, 16) == 0 && And(code, 2) != 0
    ensures Begins(FaultText(code, addr), "Page fault(data read)\n") <==> And(code, 16) == 0 && And(code, 2) == 0
  {
    hide And;
    hide Ascii;
    hide IsAscii;
    hide Padded;
    hide Begins;
    Messages();
    FaultBits(code);
    var msg, rest := FaultMessage(code), Ascii("addr:") + Padded(addr, 16) + Ascii("\n");
    AsciiSays(msg, rest);
    assert FaultText(code, addr) == Ascii(msg) + rest;
    OneMessage(Ascii(msg) + rest);
  }

  // No text begins with two of the messages.
  lemma OneMessage(t: seq<Byte>)
    ensures !(Begins(t, "Page fault(instruction fetch)\n") && Begins(t, "Page fault(data write)\n"))
    ensures !(Begins(t, "Page fault(instruction fetch)\n") && Begins(t, "Page fault(data read)\n"))
    ensures !(Begins(t, "Page fault(data write)\n") && Begins(t, "Page fault(data read)\n"))
  {
    hide Begins;
    if Begins(t, "Page fault(instruction fetch)\n") { BeginsAt(t, "Page fault(instruction fetch)\n", 16); }
    if Begins(t, "Page fault(data write)\n") { BeginsAt(t, "Page fault(data write)\n", 16); }
    if Begins(t, "Page fault(data read)\n") { BeginsAt(t, "Page fault(data read)\n", 16); }
  }

  lemma BeginsAt(t: seq<Byte>, msg: string, k: nat)
    requires Begins(t, msg) && k < |msg|
    ensures k < |t| && t[k] == msg[k] as int
  {}

  lemma FaultReportAddress(code: Word, addr: Word)
    requires !InAdditionalPage(addr)
    ensures var text := FaultText(code, addr);
            var n := |text|;
            && n >= 22 && Says(text[n - 22..n - 17], "addr:") && text[n - 1] == 10
            && IsHex(text[n - 17..n - 1]) && Parse(text[n - 17..n - 1]) == addr
  {
    hide Ascii;
    hide IsAscii;
    hide Parse;
    hide IsHex;
    hide Padded;
    hide Says;
    Messages();
    RoundTrip(addr, 16);
    AsciiSays("addr:", []);
    AsciiNewline();
    var msg := FaultMessage(code);
    ReportParts(Ascii(msg), Ascii("addr:"), Padded(addr, 16), Ascii("\n"));
  }

  lemma MappingText(code: Word, addr: Word)
    requires InAdditionalPage(addr)
    ensures Says(FaultText(code, addr), "! kernel: mapping additional page\n")
  {
    hide IsAscii;
    hide Says;
    Messages();
    AsciiSays("! kernel: mapping additional page\n", []);
  }

  lemma AsciiNewline()
    ensures IsAscii("\n") && Ascii("\n") == [10]
  {}

  lemma ReportParts(msg: seq<Byte>, tag: seq<Byte>, digits: seq<Byte>, end: seq<Byte>)
    requires |tag| == 5 && |digits| == 16 && |end| == 1
    ensures var text := msg + tag + digits + end;
            var n := |text|;
            && n == |msg| + 22 && text[n - 22..n - 17] == tag && text[n - 17..n - 1] == digits && text[n - 1] == end[0]
  {}

  lemma SameCpu(l: Layout, s: State, s': State)
    requires 0 <= CurOf(l, s.mem) < N_TASKS && CurOf(l, s'.mem) == CurOf(l, s.mem)
    requires forall j: TaskId :: CpuOf(l, s', j) == CpuOf(l, s, j)
    ensures s'.cpu == s.cpu
  {
    assert CpuOf(l, s', CurOf(l, s.mem)) == CpuOf(l, s, CurOf(l, s.mem));
  }

  // Memory after the processor and the page-fault handler have pushed.
  function FaultPushed(m: Mem, c: TaskId, cpu: Cpu, error: Word, scratch: seq<Word>): Mem {
    PushWords(m, WindowPhys(c, Align16(cpu.rsp)), FaultWords(cpu, error) + scratch)
  }

  function FaultMem(l: Layout, s: State, error: Word, scratch: seq<Word>): Mem
    requires 0 <= CurOf(l, s.mem) < N_TASKS
  {
    FaultPushed(s.mem, CurOf(l, s.mem), s.cpu, error, scratch)
  }

  lemma FaultWordsLength(c: Cpu, error: Word)
    ensures |FaultWords(c, error)| == FAULT_WORDS
  {}

  lemma ReturnBounds(l: Layout, s: State, limits: seq<int>, c: TaskId, n: nat)
    requires Inv(l, s, limits) && c == CurOf(l, s.mem) && StackRoom(limits, c, s.cpu.rsp, n)
    ensures Align16(s.cpu.rsp) % 8 == 0 && TASK_VADDR_START + 8 * n <= Align16(s.cpu.rsp) <= TASK_VADDR_END
  {
    hide TablesOk;
    hide LayoutOk;
    hide Extra;
    hide Load64;
    SavedAligned(s.cpu.rsp);
    Multiple16Is8(Align16(s.cpu.rsp));
  }

  lemma UnknownText()
    ensures IsAscii("unknown syscall: ")
  {}

  lemma SyscallWordsLength(c: Cpu)
    ensures |SyscallWords(c)| == SYSCALL_WORDS
  {}

  lemma Multiple16Is8(a: int)
    requires a % 16 == 0
    ensures a % 8 == 0
  {
    DivMod(a, 8, a / 16 * 2, 0);
  }

  // What the second half of the timer handler finds after the pushes.
  lemma TickParts(l: Layout, s: State, limits: seq<int>, scratch: seq<Word>)
    requires Inv(l, s, limits)
    requires StackRoom(limits, CurOf(l, s.mem), s.cpu.rsp, FRAME_WORDS + |scratch|)
    ensures var c: TaskId := CurOf(l, s.mem);
            var n: TaskId := (c + 1) % N_TASKS;
            var m := PushWords(s.mem, WindowPhys(c, Align16(s.cpu.rsp)), FrameWords(s.cpu) + scratch);
            var m' := SetRecord(l, m, c, Align16(s.cpu.rsp) - FRAME_LEN, n);
            && CurOf(l, m) == c
            && Cr3Of(l, m', n) == Base(l, Pml4(n))
            && SpOf(l, m', n) % 8 == 0 && TASK_VADDR_START <= SpOf(l, m', n) <= TASK_VADDR_END - FRAME_LEN
  {
    hide TablesOk;
    hide LayoutOk;
    hide Extra;
    hide Load64;
    hide PushWords;
    hide SetRecord;
    var c: TaskId := CurOf(l, s.mem);
    var n: TaskId := (c + 1) % N_TASKS;
    var m := PushWords(s.mem, WindowPhys(c, Align16(s.cpu.rsp)), FrameWords(s.cpu) + scratch);
    assert n != c;
    assert Suspended(l, s.mem, limits, n);
    Multiple16Is8(SpOf(l, s.mem, n));
    PushKept(s.mem, c, limits, s.cpu.rsp, FrameWords(s.cpu) + scratch);
    KernelSameReads(l, s.mem, m, c);
    KernelSameReads(l, s.mem, m, n);
    SetRecordReads(l, m, c, Align16(s.cpu.rsp) - FRAME_LEN, n, n);
  }

  const LAPIC_EOI: int := 0xfee0_00b0

  class Machine {
    const memory: Memory
    var cpu: Cpu
    var cr3: int
    var kernelCr3: int
    var inService: bool // whether a timer interrupt has been delivered and not ended

    constructor (memory: Memory, cpu: Cpu)
      ensures this.memory == memory && this.cpu == cpu && cr3 == kernelCr3 == memory.l.kernelCr3 && !inService
    {
      this.memory := memory;
      this.cpu := cpu;
      cr3 := memory.l.kernelCr3;
      kernelCr3 := memory.l.kernelCr3;
      inService := false;
    }

    function S(): State
      reads this, memory
    {
      State(memory.mem, cpu, cr3)
    }

    // The firmware's own tables map every address to itself.
    function Translate(va: int): Translation
      reads this`cr3, memory
    {
      if cr3 == memory.l.kernelCr3 then Mapped(va, true) else Walk(memory.mem, cr3, va)
    }

    ghost predicate InTask(c: TaskId)
      reads this`cr3, memory
    {
      && LayoutOk(memory.l) && TablesOk(memory.l, memory.mem, Extra(memory.l, memory.mem))
      && cr3 == Base(memory.l, Pml4(c))
    }

    lemma TaskTranslation(c: TaskId, va: int)
      requires InTask(c) && 0 <= va < 0x1_0000_0000_0000
      ensures Translate(va) == AddressSpace(c, Extra(memory.l, memory.mem), va)
    {
      ExactTranslation(memory.l, memory.mem, Extra(memory.l, memory.mem), c, va);
      assert forall i: TaskId :: memory.l.kernelCr3 != Base(memory.l, Pml4(i));
    }

    // --- memory accesses; an aligned word does not cross a page ---

    method LoadWord(va: int) returns (w: Word)
      requires va % 8 == 0 && Translate(va).Mapped?
      ensures w == Load64(memory.mem, Translate(va).addr)
    {
      w := Load64(memory.mem, Translate(va).addr);
    }

    method StoreBytes(va: int, n: nat, v: nat)
      requires (n == 2 && va % 2 == 0) || (n == 4 && va % 4 == 0) || (n == 8 && va % 8 == 0)
      requires Translate(va).Mapped? && Translate(va).writable
      modifies memory
      ensures memory.mem == Store(old(memory.mem), old(Translate(va)).addr, n, v)
    {
      memory.mem := Store(memory.mem, Translate(va).addr, n, v);
    }

    // --- the stack ---

    lemma StackStore(c: TaskId, va: int, w: Word)
      requires InTask(c) && TASK_VADDR_START <= va && va + 8 <= TASK_VADDR_END
      ensures Translate(va) == Mapped(WindowPhys(c, va), true)
      ensures var m := Store64(memory.mem, WindowPhys(c, va), w);
              Extra(memory.l, m) == Extra(memory.l, memory.mem) && TablesOk(memory.l, m, Extra(memory.l, m))
    {
      hide TablesOk;
      TaskTranslation(c, va);
      var m := Store64(memory.mem, WindowPhys(c, va), w);
      forall a | KERNEL_MEM_ADDR <= a < KERNEL_MEM_END ensures At(m, a) == At(memory.mem, a) {
        Store64Elsewhere(memory.mem, WindowPhys(c, va), w, a);
      }
      KernelSameReads(memory.l, memory.mem, m, c);
      KernelSameTables(memory.l, memory.mem, m, Extra(memory.l, memory.mem));
    }

    method Push(w: Word, ghost c: TaskId)
      requires InTask(c) && cpu.rsp % 8 == 0 && TASK_VADDR_START + 8 <= cpu.rsp <= TASK_VADDR_END
      modifies this`cpu, memory
      ensures cpu == old(cpu).(rsp := old(cpu).rsp - 8) && InTask(c)
      ensures memory.mem == Store64(old(memory.mem), WindowPhys(c, old(cpu).rsp - 8), w)
    {
      hide TablesOk;
      hide LayoutOk;
      hide Extra;
      hide Load64;
      hide Walk;
      StackStore(c, cpu.rsp - 8, w);
      cpu := cpu.(rsp := cpu.rsp - 8);
      StoreBytes(cpu.rsp, 8, w);
    }

    method PushAll(ws: seq<Word>, ghost c: TaskId)
      requires InTask(c) && cpu.rsp % 8 == 0 && TASK_VADDR_START + 8 * |ws| <= cpu.rsp <= TASK_VADDR_END
      modifies this`cpu, memory
      ensures cpu == old(cpu).(rsp := old(cpu).rsp - 8 * |ws|) && InTask(c)
      ensures memory.mem == PushWords(old(memory.mem), WindowPhys(c, old(cpu).rsp), ws)
    {
      hide InTask;
      for k := 0 to |ws|
        invariant cpu == old(cpu).(rsp := old(cpu).rsp - 8 * k) && InTask(c)
        invariant memory.mem == PushWords(old(memory.mem), WindowPhys(c, old(cpu).rsp), ws[..k])
      {
        assert ws[..k + 1] == ws[..k] + [ws[k]];
        PushOneMore(old(memory.mem), WindowPhys(c, old(cpu).rsp), ws[..k], ws[k]);
        Push(ws[k], c);
      }
      assert ws[..|ws|] == ws;
    }

    method Pop(ghost c: TaskId) returns (w: Word)
      requires InTask(c) && cpu.rsp % 8 == 0 && TASK_VADDR_START <= cpu.rsp && cpu.rsp + 8 <= TASK_VADDR_END
      modifies this`cpu
      ensures cpu == old(cpu).(rsp := old(cpu).rsp + 8)
      ensures w == Load64(memory.mem, WindowPhys(c, old(cpu).rsp))
    {
      TaskTranslation(c, cpu.rsp);
      w := LoadWord(cpu.rsp);
      cpu := cpu.(rsp := cpu.rsp + 8);
    }

    method PopAll(n: nat, ghost c: TaskId) returns (ws: seq<Word>)
      requires InTask(c) && cpu.rsp % 8 == 0 && TASK_VADDR_START <= cpu.rsp && cpu.rsp + 8 * n <= TASK_VADDR_END
      modifies this`cpu
      ensures cpu == old(cpu).(rsp := old(cpu).rsp + 8 * n)
      ensures |ws| == n && forall k :: 0 <= k < n ==> ws[k] == Load64(memory.mem, WindowPhys(c, old(cpu).rsp + 8 * k))
    {
      hide TablesOk;
      hide LayoutOk;
      ws := [];
      for k := 0 to n
        invariant cpu == old(cpu).(rsp := old(cpu).rsp + 8 * k)
        invariant |ws| == k
                 && forall j :: 0 <= j < k ==> ws[j] == Load64(memory.mem, WindowPhys(c, old(cpu).rsp + 8 * j))
      {
        var w := Pop(c);
        ws := ws + [w];
      }
    }

    // What the processor pushes when it takes an interrupt or exception.
    method EnterHandler(error: seq<Word>, ghost c: TaskId)
      requires InTask(c) && |error| <= 1
      requires TASK_VADDR_START + 8 * (5 + |error|) <= Align16(cpu.rsp) && cpu.rsp <= TASK_VADDR_END
      modifies this`cpu, memory
      ensures InTask(c) && cpu == old(cpu).(rsp := Align16(old(cpu).rsp) - 8 * (5 + |error|))
      ensures memory.mem == PushWords(old(memory.mem), WindowPhys(c, Align16(old(cpu).rsp)),
                                      HardwareWords(old(cpu)) + error)
    {
      hide TablesOk;
      hide LayoutOk;
      var saved := cpu;
      SavedAligned(cpu.rsp);
      cpu := cpu.(rsp := Align16(cpu.rsp));
      PushAll(HardwareWords(saved) + error, c);
    }

    // --- kernel/sched.c ---

    lemma RecordTranslation(c: TaskId, i: TaskId)
      requires InTask(c)
      ensures var l := memory.l;
              && l.tasks % 8 == 0 && l.curTask % 4 == 0
              && Translate(l.curTask) == Mapped(l.curTask, true)
              && Translate(l.tasks + 16 * i) == Mapped(l.tasks + 16 * i, true)
              && Translate(l.tasks + 16 * i + 8) == Mapped(l.tasks + 16 * i + 8, true)
    {
      var l := memory.l;
      RecordRange(l);
      TaskTranslation(c, l.curTask);
      TaskTranslation(c, l.tasks + 16 * i);
      TaskTranslation(c, l.tasks + 16 * i + 8);
    }

    // A write to the record leaves the running task's translations alone.
    lemma RecordStore(c: TaskId, i: TaskId, sp: Word)
      requires InTask(c)
      ensures var m := SetSp(memory.l, memory.mem, i, sp);
              Extra(memory.l, m) == Extra(memory.l, memory.mem) && TablesOk(memory.l, m, Extra(memory.l, m))
      ensures var m := SetCur(memory.l, memory.mem, i);
              Extra(memory.l, m) == Extra(memory.l, memory.mem) && TablesOk(memory.l, m, Extra(memory.l, m))
    {
      hide TablesOk;
      hide LayoutOk;
      var l, m := memory.l, memory.mem;
      SetSpEffect(l, m, i, sp, i);
      SetCurEffect(l, m, i, i);
      RecordTables(l, m, SetSp(l, m, i, sp), Extra(l, m), 12);
      RecordTables(l, m, SetCur(l, m, i), Extra(l, m), 13);
    }

    // schedule(): save the stack pointer, advance cur_task, and return the
    // address of the next task's record. It runs in the old task's space.
    method Schedule(sp: Word, ghost c: TaskId) returns (rax: int)
      requires InTask(c) && CurOf(memory.l, memory.mem) == c
      modifies memory
      ensures memory.mem == SetRecord(memory.l, old(memory.mem), c, sp, (c + 1) % N_TASKS)
      ensures InTask(c) && rax == memory.l.tasks + 16 * ((c + 1) % N_TASKS)
    {
      hide TablesOk;
      hide LayoutOk;
      hide Extra;
      hide Load64;
      hide Walk;
      RecordTranslation(c, c);
      var cur := Load(memory.mem, Translate(memory.l.curTask).addr, 4);
      RecordStore(c, c, sp);
      StoreBytes(memory.l.tasks + 16 * cur, 8, sp);
      var next := (cur + 1) % N_TASKS;
      RecordTranslation(c, c);
      RecordStore(c, next, 0);
      StoreBytes(memory.l.curTask, 4, next);
      rax := memory.l.tasks + 16 * next;
    }

    // --- kernel/interrupt_handler.S ---

    // `iretq`: RIP, CS, RFLAGS, RSP and SS.
    method Iretq(ghost c: TaskId)
      requires InTask(c) && cpu.rsp % 8 == 0 && TASK_VADDR_START <= cpu.rsp && cpu.rsp + 40 <= TASK_VADDR_END
      modifies this`cpu
      ensures var m, p := memory.mem, WindowPhys(c, old(cpu).rsp);
              cpu == CpuState(old(cpu).gpr, Load64(m, p), Load64(m, p + 24), Load64(m, p + 16),
                              Load64(m, p + 8) % 0x1_0000, Load64(m, p + 32) % 0x1_0000)
    {
      hide TablesOk;
      hide LayoutOk;
      hide Load64;
      var ws := PopAll(5, c);
      cpu := CpuState(cpu.gpr, ws[0], ws[3], ws[2], ws[1] % 0x1_0000, ws[4] % 0x1_0000);
    }

    // `pop %r15` ... `pop %rax`, then `iretq`.
    method RestoreFrame(ghost c: TaskId)
      requires InTask(c) && cpu.rsp % 8 == 0 && TASK_VADDR_START <= cpu.rsp && cpu.rsp + FRAME_LEN <= TASK_VADDR_END
      modifies this`cpu
      ensures cpu == FrameAt(memory.mem, WindowPhys(c, old(cpu).rsp + FRAME_LEN))
    {
      hide TablesOk;
      hide LayoutOk;
      hide Load64;
      var top := cpu.rsp + FRAME_LEN;
      var ws := PopAll(15, c);
      var gpr := seq(15, k requires 0 <= k < 15 => ws[14 - k]);
      cpu := cpu.(gpr := gpr);
      Iretq(c);
      assert cpu.gpr == FrameAt(memory.mem, WindowPhys(c, top)).gpr;
    }

    // Entry of every handler: the processor's words, the handler's pushes, and
    // the words `scratch` that the C code leaves below them; `clobbered` is
    // what it leaves in the registers. Returns the saved stack pointer.
    method SaveContext(error: seq<Word>, regs: seq<Word>, scratch: seq<Word>, clobbered: seq<Word>, ghost c: TaskId)
      returns (sp: Word)
      requires InTask(c) && |error| <= 1 && |clobbered| == 15
      requires TASK_VADDR_START + 8 * (5 + |error|) + 8 * |regs| + 8 * |scratch| <= Align16(cpu.rsp)
               && cpu.rsp <= TASK_VADDR_END
      modifies this`cpu, memory
      ensures InTask(c) && sp == Align16(old(cpu).rsp) - 8 * (5 + |error| + |regs|)
      ensures cpu == old(cpu).(gpr := clobbered, rsp := sp)
      ensures memory.mem == PushWords(old(memory.mem), WindowPhys(c, Align16(old(cpu).rsp)),
                                      HardwareWords(old(cpu)) + error + regs + scratch)
    {
      hide TablesOk;
      hide LayoutOk;
      hide Extra;
      hide PushWords;
      SavedAligned(cpu.rsp);
      ghost var m, top := memory.mem, WindowPhys(c, Align16(cpu.rsp));
      ghost var hw := HardwareWords(cpu) + error;
      PushAppend(m, top, hw, regs);
      PushAppend(m, top, hw + regs, scratch);
      EnterHandler(error, c);
      PushAll(regs, c);
      sp := cpu.rsp;
      PushAll(scratch, c);
      cpu := cpu.(gpr := clobbered, rsp := sp);
    }

    // The call of schedule() and the switch to the record it returns.
    method SwitchTask(sp: Word, ghost c: TaskId, ghost n: TaskId)
      requires InTask(c) && CurOf(memory.l, memory.mem) == c && n == (c + 1) % N_TASKS
      requires Cr3Of(memory.l, SetRecord(memory.l, memory.mem, c, sp, n), n) == Base(memory.l, Pml4(n))
      requires var next := SpOf(memory.l, SetRecord(memory.l, memory.mem, c, sp, n), n);
               next % 8 == 0 && TASK_VADDR_START <= next <= TASK_VADDR_END - FRAME_LEN
      modifies this`cpu, this`cr3, this`inService, memory
      ensures memory.mem == SetRecord(memory.l, old(memory.mem), c, sp, n)
      ensures cpu == ResumeCpu(memory.l, memory.mem, n) && cr3 == Cr3Of(memory.l, memory.mem, n)
      ensures !inService
    {
      hide TablesOk;
      hide LayoutOk;
      hide Extra;
      hide Load64;
      hide Walk;
      hide FrameAt;
      var rax := Schedule(sp, c);
      EndOfInterrupt(c);
      RecordTranslation(c, n);
      var next := LoadWord(rax);
      cpu := cpu.(rsp := next);
      cr3 := LoadWord(rax + 8);
      RestoreFrame(n);
    }

    // The timer interrupt. It is in service from its delivery until the handler
    // ends it, and no other is delivered in between.
    method LapicIntrHandler(scratch: seq<Word>, clobbered: seq<Word>, ghost limits: seq<int>)
      requires Inv(memory.l, S(), limits) && |clobbered| == 15 && !inService
      requires StackRoom(limits, CurOf(memory.l, memory.mem), cpu.rsp, FRAME_WORDS + |scratch|)
      modifies this`cpu, this`cr3, this`inService, memory
      ensures !inService
      ensures S() == Tick(memory.l, old(S()), scratch)
      ensures Inv(memory.l, S(), limits)
      ensures CurOf(memory.l, memory.mem) == (old(CurOf(memory.l, memory.mem)) + 1) % 3
      ensures forall j: TaskId :: CpuOf(memory.l, S(), j) == old(CpuOf(memory.l, S(), j))
    {
      hide TablesOk;
      hide LayoutOk;
      hide Extra;
      hide Load64;
      hide FrameAt;
      hide PushWords;
      ghost var s0, l := S(), memory.l;
      ghost var c: TaskId := CurOf(l, memory.mem);
      inService := true;
      TickParts(l, s0, limits, scratch);
      TickSwitches(l, s0, limits, scratch);
      PushOrder(cpu, 0, scratch);
      var sp := SaveContext([], cpu.gpr, scratch, clobbered, c);
      SwitchTask(sp, c, (c + 1) % N_TASKS);
    }

    // `*lapic_eoi = 0`: a write that reaches the register ends the interrupt.
    method EndOfInterrupt(ghost c: TaskId)
      requires InTask(c)
      modifies this`inService
      ensures !inService
    {
      EoiMapped(c);
      if Translate(LAPIC_EOI) == Mapped(LAPIC_EOI, true) {
        inService := false;
      }
    }

    // `*lapic_eoi = 0` does not fault in any task's space.
    lemma EoiMapped(c: TaskId)
      requires InTask(c)
      ensures Translate(0xfee0_00b0) == Mapped(0xfee0_00b0, true)
    {
      TaskTranslation(c, 0xfee0_00b0);
    }

    lemma HandlerStart(limits: seq<int>, n: nat)
      requires Inv(memory.l, S(), limits) && StackRoom(limits, CurOf(memory.l, memory.mem), cpu.rsp, n)
      ensures 0 <= CurOf(memory.l, memory.mem) < N_TASKS && InTask(CurOf(memory.l, memory.mem))
      ensures TASK_VADDR_START + 8 * n <= Align16(cpu.rsp) && cpu.rsp <= TASK_VADDR_END
    {
      hide TablesOk;
      hide LayoutOk;
    }

    // The C code of a handler writes console bytes; the running task's
    // translations stay.
    lemma AfterHandler(s: State, limits: seq<int>, ws: seq<Word>, console: Mem, repair: bool)
      requires Inv(memory.l, s, limits) && ConsoleOnly(memory.l, console) && cr3 == s.cr3
      requires StackRoom(limits, CurOf(memory.l, s.mem), s.cpu.rsp, |ws|)
      requires memory.mem == (var m := PushWords(s.mem, WindowPhys(CurOf(memory.l, s.mem), Align16(s.cpu.rsp)), ws) + console;
                              if repair then MapAdditionalPage(memory.l, m) else m)
      ensures InTask(CurOf(memory.l, s.mem))
    {
      hide TablesOk;
      hide LayoutOk;
      HandlerMemory(memory.l, s, limits, ws, console, repair);
      ExtraIs(memory.l, memory.mem, repair || Extra(memory.l, s.mem));
    }

    // `pop %r15` ... `pop %rax`, `add $8, %rsp`, `iretq`.
    method RestoreFaultFrame(ghost c: TaskId)
      requires InTask(c) && cpu.rsp % 8 == 0 && TASK_VADDR_START <= cpu.rsp
               && cpu.rsp + 8 * FAULT_WORDS <= TASK_VADDR_END
      modifies this`cpu
      ensures cpu == FaultFrameAt(memory.mem, WindowPhys(c, old(cpu).rsp + 8 * FAULT_WORDS))
    {
      hide TablesOk;
      hide LayoutOk;
      hide Load64;
      ghost var top := cpu.rsp + 8 * FAULT_WORDS;
      var popped := PopAll(15, c);
      cpu := cpu.(gpr := seq(15, k requires 0 <= k < 15 => popped[14 - k]), rsp := cpu.rsp + 8);
      Iretq(c);
      assert cpu.gpr == FaultFrameAt(memory.mem, WindowPhys(c, top)).gpr;
    }

    // Between the handler's stores only the shared entries are known.
    ghost predicate InShared(c: TaskId)
      reads this`cr3, memory
    {
      LayoutOk(memory.l) && SharedOk(memory.l, memory.mem) && cr3 == Base(memory.l, Pml4(c))
    }

    // init_entry on an entry that the handler repairs, through the MMU.
    method InitEntry(t: Table, k: int, addr: int, ghost c: TaskId)
      requires InShared(c) && IsTable(t) && 0 <= k < 512 && Repaired(t, k) && 0 <= addr && addr % PAGE_LEN == 0
      modifies memory
      ensures InShared(c) && memory.mem == InitEntryAt(old(memory.mem), Base(memory.l, t) + 8 * k, addr)
    {
      hide SharedOk;
      hide Load64;
      hide Walk;
      hide InitEntryBits;
      var entry := Base(memory.l, t) + 8 * k;
      BaseRange(memory.l, t);
      SharedWalk(memory.l, memory.mem, c, entry);
      SharedKept(memory.l, memory.mem, t, k, InitEntryBits(Load64(memory.mem, entry), addr));
      assert memory.l.kernelCr3 != Base(memory.l, Pml4(c));
      memory.InitEntry(Translate(entry).addr, addr);
    }

    // page_fault_handler_internal. It returns only for the additional page; for
    // every other address it reports the fault and spins. `text` is what it
    // prints; `console` are the bytes that the printing writes.
    method PageFaultHandlerInternal(sp: Word, errorAddr: Word, console: Mem, ghost c: TaskId) returns (resumes: bool,
            text: seq<Byte>)
      requires InTask(c) && sp % 8 == 0 && TASK_VADDR_START <= sp && sp + 8 * FAULT_WORDS <= TASK_VADDR_END
      requires ConsoleOnly(memory.l, console)
      modifies memory
      ensures resumes == InAdditionalPage(errorAddr)
      ensures resumes ==> Says(text, "! kernel: mapping additional page\n")
      ensures !resumes ==>
                var code := Load64(old(memory.mem), WindowPhys(c, sp + 8 * 15));
                && (Begins(text, "Page fault(instruction fetch)\n") <==> And(code, 16) != 0)
                && (Begins(text, "Page fault(data write)\n") <==> And(code, 16) == 0 && And(code, 2) != 0)
                && (Begins(text, "Page fault(data read)\n") <==> And(code, 16) == 0 && And(code, 2) == 0)
      ensures !resumes ==>
                var n := |text|;
                && n >= 22 && Says(text[n - 22..n - 17], "addr:") && text[n - 1] == 10
                && IsHex(text[n - 17..n - 1]) && Parse(text[n - 17..n - 1]) == errorAddr
      ensures var m := old(memory.mem) + console; memory.mem == if resumes then MapAdditionalPage(memory.l, m) else m
    {
      hide TablesOk;
      hide LayoutOk;
      hide Load64;
      hide Walk;
      hide And;
      hide Ascii;
      hide IsAscii;
      hide Says;
      hide Begins;
      hide IsHex;
      hide Parse;
      hide Padded;
      hide InitEntryBits;
      TaskTranslation(c, sp + 8 * 15);
      var errorCode := LoadWord(sp + 8 * 15);
      Messages();
      SharedAfterConsole(c, console);
      if ADDITIONAL_PAGE_START <= errorAddr < ADDITIONAL_PAGE_START + PAGE_LEN {
        text := Ascii("! kernel: mapping additional page\n");
        MappingText(errorCode, errorAddr);
        memory.mem := memory.mem + console;
        RepairFault(c);
        resumes := true;
      } else {
        FaultBits(errorCode);
        var isWrite, isInstFetch := 2, 16;
        var msg := if And(errorCode, isInstFetch) != 0 then "Page fault(instruction fetch)\n"
                   else if And(errorCode, isWrite) != 0 then "Page fault(data write)\n"
                   else "Page fault(data read)\n";
        text := Ascii(msg) + Ascii("addr:") + Padded(errorAddr, 16) + Ascii("\n");
        FaultReportMessage(errorCode, errorAddr);
        FaultReportAddress(errorCode, errorAddr);
        memory.mem := memory.mem + console;
        resumes := false;
      }
    }

    lemma SharedAfterConsole(c: TaskId, console: Mem)
      requires InTask(c) && ConsoleOnly(memory.l, console)
      ensures SharedOk(memory.l, memory.mem + console)
    {
      hide TablesOk;
      hide LayoutOk;
      ConsoleKept(memory.l, memory.mem, console, Extra(memory.l, memory.mem));
      SharedFromTables(memory.l, memory.mem + console, Extra(memory.l, memory.mem));
    }

    // The three init_entry calls.
    method RepairFault(ghost c: TaskId)
      requires InShared(c)
      modifies memory
      ensures InShared(c) && memory.mem == MapAdditionalPage(memory.l, old(memory.mem))
    {
      hide SharedOk;
      hide InitEntryAt;
      BaseRange(memory.l, AdditionalPt);
      BaseRange(memory.l, AdditionalPd);
      InitEntry(AdditionalPt, 0, ADDITIONAL_PHYS_ADDR_START, c);
      InitEntry(AdditionalPd, 0, Base(memory.l, AdditionalPt), c);
      InitEntry(Pdp(0), ADDITIONAL_PAGE_START / PD_LEN, Base(memory.l, AdditionalPd), c);
    }

    // The page-fault handler; for an address outside the additional page it
    // does not return, and only the frame has been pushed and the report made.
    method PageFaultHandler(cr2: Word, error: Word, scratch: seq<Word>, clobbered: seq<Word>, console: Mem,
            ghost limits: seq<int>)
      returns (resumes: bool, text: seq<Byte>)
      requires Inv(memory.l, S(), limits) && |clobbered| == 15 && ConsoleOnly(memory.l, console)
      requires StackRoom(limits, CurOf(memory.l, memory.mem), cpu.rsp, FAULT_WORDS + |scratch|)
      modifies this`cpu, memory
      ensures resumes <==> 0x3_0000_0000 <= cr2 < 0x3_0000_1000
      ensures resumes ==> Says(text, "! kernel: mapping additional page\n")
      ensures !resumes ==>
                && (Begins(text, "Page fault(instruction fetch)\n") <==> And(error, 16) != 0)
                && (Begins(text, "Page fault(data write)\n") <==> And(error, 16) == 0 && And(error, 2) != 0)
                && (Begins(text, "Page fault(data read)\n") <==> And(error, 16) == 0 && And(error, 2) == 0)
      ensures !resumes ==>
                var n := |text|;
                && n >= 22 && Says(text[n - 22..n - 17], "addr:") && text[n - 1] == 10
                && IsHex(text[n - 17..n - 1]) && Parse(text[n - 17..n - 1]) == cr2
      ensures resumes ==> S() == Fault(memory.l, old(S()), error, scratch, console)
      ensures resumes ==> cpu == old(cpu) && Inv(memory.l, S(), limits) && Extra(memory.l, memory.mem)
                          && CurOf(memory.l, memory.mem) == old(CurOf(memory.l, memory.mem))
      ensures !resumes ==> memory.mem == FaultMem(memory.l, old(S()), error, scratch) + console
    {
      hide TablesOk;
      hide LayoutOk;
      hide Extra;
      hide Load64;
      hide Walk;
      hide PushWords;
      hide MapAdditionalPage;
      hide FaultFrameAt;
      hide FaultWords;
      hide FaultText;
      hide Inv;
      hide StackRoom;
      hide Fault;
      hide IsHex;
      hide Parse;
      hide Ascii;
      hide IsAscii;
      hide And;
      hide Says;
      hide Begins;
      Messages();
      ghost var s0, l := S(), memory.l;
      HandlerStart(limits, FAULT_WORDS + |scratch|);
      ghost var c: TaskId := CurOf(l, memory.mem);
      FaultWordsLength(cpu, error);
      SavedAligned(cpu.rsp);
      var sp := FaultEntry(error, scratch, clobbered, c);
      resumes, text := PageFaultHandlerInternal(sp, cr2, console, c);
      if resumes {
        FaultReturn(s0, error, scratch, console, limits, c);
        FaultRestarts(l, s0, limits, error, scratch, console);
        SameCpu(l, s0, S());
      }
    }

    // The end of the page-fault handler.
    method FaultReturn(ghost s: State, ghost error: Word, ghost scratch: seq<Word>, ghost console: Mem,
            ghost limits: seq<int>, ghost c: TaskId)
      requires Inv(memory.l, s, limits) && ConsoleOnly(memory.l, console) && cr3 == s.cr3 && c == CurOf(memory.l, s.mem)
      requires StackRoom(limits, c, s.cpu.rsp, FAULT_WORDS + |scratch|)
      requires cpu.rsp == Align16(s.cpu.rsp) - 8 * FAULT_WORDS
      requires memory.mem == MapAdditionalPage(memory.l, FaultMem(memory.l, s, error, scratch) + console)
      modifies this`cpu
      ensures S() == Fault(memory.l, s, error, scratch, console)
    {
      hide TablesOk;
      hide LayoutOk;
      hide Extra;
      hide Load64;
      hide Walk;
      hide PushWords;
      hide MapAdditionalPage;
      hide FaultFrameAt;
      hide FaultWords;
      FaultWordsLength(s.cpu, error);
      hide Inv;
      hide StackRoom;
      ReturnBounds(memory.l, s, limits, c, FAULT_WORDS + |scratch|);
      AfterHandler(s, limits, FaultWords(s.cpu, error) + scratch, console, true);
      RestoreFaultFrame(c);
    }

    // The pushes of the page-fault handler: sp[15] is the error code.
    method FaultEntry(error: Word, scratch: seq<Word>, clobbered: seq<Word>, ghost c: TaskId) returns (sp: Word)
      requires InTask(c) && |clobbered| == 15
      requires TASK_VADDR_START + 8 * (FAULT_WORDS + |scratch|) <= Align16(cpu.rsp) && cpu.rsp <= TASK_VADDR_END
      modifies this`cpu, memory
      ensures sp == Align16(old(cpu).rsp) - 8 * FAULT_WORDS && InTask(c)
      ensures Load64(memory.mem, WindowPhys(c, sp + 8 * 15)) == error
      ensures cpu == old(cpu).(gpr := clobbered, rsp := sp)
      ensures memory.mem == FaultPushed(old(memory.mem), c, old(cpu), error, scratch)
    {
      hide TablesOk;
      hide LayoutOk;
      hide Extra;
      hide Load64;
      hide Walk;
      hide PushWords;
      hide FaultFrameAt;
      SavedAligned(cpu.rsp);
      FaultRoundTrip(memory.mem, WindowPhys(c, Align16(cpu.rsp)), cpu, error, scratch);
      PushOrder(cpu, error, scratch);
      sp := SaveContext([error], cpu.gpr, scratch, clobbered, c);
    }

    // syscall_handler_internal. `str` is the string at the first argument, and
    // `garbage` what is in `ret` when nothing assigns it; `text` is printed.
    method SyscallHandlerInternal(id: Word, str: seq<Byte>, garbage: Word) returns (ret: Word, text: seq<Byte>)
      ensures id == 1 ==> ret == 0 && text == str
      ensures id != 1 ==> ret == garbage
      ensures id != 1 ==>
                && |text| >= 22 && Begins(text, "unknown syscall: ") && text[|text| - 1] == 10
                && IsHex(text[17..|text| - 1]) && Parse(text[17..|text| - 1]) == id
    {
      if id == SYSCALL_PUTS {
        ret, text := 0, str;
      } else {
        ret := garbage;
        RoundTrip(id, 4);
        UnknownText();
        text := Ascii("unknown syscall: ") + Padded(id, 4) + [10];
        AsciiSays("unknown syscall: ", Padded(id, 4) + [10]);
        assert text == Ascii("unknown syscall: ") + (Padded(id, 4) + [10]);
        assert text[17..|text| - 1] == Padded(id, 4);
      }
    }

    // `pop %r15` ... `pop %rbx`, `iretq`, with the result in RAX.
    method RestoreSyscallFrame(result: Word, ghost c: TaskId)
      requires InTask(c) && cpu.rsp % 8 == 0 && TASK_VADDR_START <= cpu.rsp
               && cpu.rsp + 8 * SYSCALL_WORDS <= TASK_VADDR_END
      modifies this`cpu
      ensures cpu == SyscallFrameAt(memory.mem, WindowPhys(c, old(cpu).rsp + 8 * SYSCALL_WORDS), result)
    {
      hide TablesOk;
      hide LayoutOk;
      hide Load64;
      ghost var top := cpu.rsp + 8 * SYSCALL_WORDS;
      var popped := PopAll(14, c);
      cpu := cpu.(gpr := [result] + seq(14, k requires 0 <= k < 14 => popped[13 - k]));
      Iretq(c);
      assert cpu.gpr == SyscallFrameAt(memory.mem, WindowPhys(c, top), result).gpr;
    }

    method SyscallHandler(str: seq<Byte>, garbage: Word, scratch: seq<Word>, clobbered: seq<Word>, console: Mem,
        ghost limits: seq<int>)
      returns (text: seq<Byte>)
      requires Inv(memory.l, S(), limits) && |clobbered| == 15 && ConsoleOnly(memory.l, console)
      requires StackRoom(limits, CurOf(memory.l, memory.mem), cpu.rsp, SYSCALL_WORDS + |scratch|)
      modifies this`cpu, memory
      ensures old(cpu).gpr[4] == 1 ==> cpu == old(cpu).(gpr := old(cpu).gpr[0 := 0]) && text == str
      ensures old(cpu).gpr[4] != 1 ==> cpu == old(cpu).(gpr := old(cpu).gpr[0 := garbage])
      ensures Inv(memory.l, S(), limits) && CurOf(memory.l, memory.mem) == old(CurOf(memory.l, memory.mem))
      ensures S() == Syscall(memory.l, old(S()), if old(cpu).gpr[4] == 1 then 0 else garbage, scratch, console)
    {
      hide TablesOk;
      hide LayoutOk;
      hide Extra;
      hide Load64;
      hide Walk;
      hide PushWords;
      hide SyscallFrameAt;
      hide SyscallWords;
      hide Inv;
      hide StackRoom;
      hide Syscall;
      ghost var s0, l := S(), memory.l;
      HandlerStart(limits, SYSCALL_WORDS + |scratch|);
      ghost var c: TaskId := CurOf(l, memory.mem);
      SyscallWordsLength(cpu);
      var ret;
      ret, text := SyscallHandlerInternal(cpu.gpr[4], str, garbage);
      SyscallEntry(scratch, clobbered, c);
      memory.mem := memory.mem + console;
      SyscallReturn(s0, ret, scratch, console, limits, c);
      SyscallReturns(l, s0, limits, ret, scratch, console);
    }

    // The end of the system-call handler.
    method SyscallReturn(ghost s: State, result: Word, ghost scratch: seq<Word>, ghost console: Mem,
            ghost limits: seq<int>, ghost c: TaskId)
      requires Inv(memory.l, s, limits) && ConsoleOnly(memory.l, console) && cr3 == s.cr3 && c == CurOf(memory.l, s.mem)
      requires StackRoom(limits, c, s.cpu.rsp, SYSCALL_WORDS + |scratch|)
      requires cpu.rsp == Align16(s.cpu.rsp) - 8 * SYSCALL_WORDS
      requires memory.mem == PushWords(s.mem, WindowPhys(c, Align16(s.cpu.rsp)), SyscallWords(s.cpu) + scratch) + console
      modifies this`cpu
      ensures S() == Syscall(memory.l, s, result, scratch, console)
    {
      hide TablesOk;
      hide LayoutOk;
      hide Extra;
      hide Load64;
      hide Walk;
      hide PushWords;
      hide SyscallFrameAt;
      hide SyscallWords;
      SyscallWordsLength(s.cpu);
      hide Inv;
      hide StackRoom;
      ReturnBounds(memory.l, s, limits, c, SYSCALL_WORDS + |scratch|);
      AfterHandler(s, limits, SyscallWords(s.cpu) + scratch, console, false);
      RestoreSyscallFrame(result, c);
    }

    method SyscallEntry(scratch: seq<Word>, clobbered: seq<Word>, ghost c: TaskId)
      requires InTask(c) && |clobbered| == 15
      requires TASK_VADDR_START + 8 * (SYSCALL_WORDS + |scratch|) <= Align16(cpu.rsp) && cpu.rsp <= TASK_VADDR_END
      modifies this`cpu, memory
      ensures InTask(c)
      ensures cpu == old(cpu).(gpr := clobbered, rsp := Align16(old(cpu).rsp) - 8 * SYSCALL_WORDS)
      ensures memory.mem == PushWords(old(memory.mem), WindowPhys(c, Align16(old(cpu).rsp)), SyscallWords(old(cpu)) + scratch)
    {
      hide TablesOk;
      hide LayoutOk;
      hide Extra;
      hide Load64;
      hide Walk;
      hide PushWords;
      SavedAligned(cpu.rsp);
      PushOrder(cpu, 0, scratch);
      var sp := SaveContext([], cpu.gpr[1..], scratch, clobbered, c);
    }

    // --- start-up (kernel/sched.c) ---

    // tasks[id].sp -= n, in task id's space.
    method DropSp(id: TaskId, n: nat) returns (sp: int)
      requires InTask(id) && n % 8 == 0 && n <= SpOf(memory.l, memory.mem, id)
      modifies memory
      ensures sp == old(SpOf(memory.l, memory.mem, id)) - n
      ensures memory.mem == SetSp(memory.l, old(memory.mem), id, sp) && InTask(id)
    {
      hide TablesOk;
      hide LayoutOk;
      hide Extra;
      hide Load64;
      hide Walk;
      RecordTranslation(id, id);
      sp := LoadWord(memory.l.tasks + 16 * id);
      sp := sp - n;
      RecordStore(id, id, sp);
      StoreBytes(memory.l.tasks + 16 * id, 8, sp);
    }

    // A store to task id's stack, in its space.
    method StackBytes(id: TaskId, va: int, n: nat, v: nat)
      requires InTask(id) && (n == 2 || n == 8) && va % 8 == 0 && TASK_VADDR_START <= va && va + 8 <= TASK_VADDR_END
      modifies memory
      ensures memory.mem == Store(old(memory.mem), WindowPhys(id, va), n, v) && InTask(id)
    {
      hide TablesOk;
      hide LayoutOk;
      hide Extra;
      hide Load64;
      hide Walk;
      TaskTranslation(id, va);
      WindowStoreOnly(memory.l, memory.mem, id, va, n, v);
      StoreBytes(va, n, v);
    }

    method DropAndStore(id: TaskId, n: nat, v: nat)
      requires InTask(id) && (n == 2 || n == 8)
      requires var sp := SpOf(memory.l, memory.mem, id); sp % 8 == 0 && TASK_VADDR_START + 8 <= sp <= TASK_VADDR_END
      modifies memory
      ensures memory.mem == PushTo(memory.l, old(memory.mem), id, n, v) && InTask(id)
      ensures SpOf(memory.l, memory.mem, id) == old(SpOf(memory.l, memory.mem, id)) - 8
    {
      hide TablesOk;
      hide LayoutOk;
      hide Extra;
      hide Load64;
      hide Walk;
      hide SetSp;
      hide Store;
      PushToSp(memory.l, memory.mem, id, n, v, SpOf(memory.l, memory.mem, id));
      var sp := DropSp(id, 8);
      StackBytes(id, sp, n, v);
    }

    lemma RootAligned(i: TaskId)
      requires LayoutOk(memory.l)
      ensures (memory.l.taskCr3s + 8 * i) % 8 == 0
    {
      var q := memory.l.taskCr3s / 8;
      DivMod(memory.l.taskCr3s + 8 * i, 8, q + i, 0);
    }

    method PrepareStack(id: TaskId, rip: Word)
      requires LayoutOk(memory.l) && TablesOk(memory.l, memory.mem, Extra(memory.l, memory.mem))
      requires Load64(memory.mem, memory.l.taskCr3s + 8 * id) == Base(memory.l, Pml4(id))
      requires SpOf(memory.l, memory.mem, id) == STACK_START && cr3 == kernelCr3 == memory.l.kernelCr3
      modifies this`cr3, memory
      ensures memory.mem == Prepare(memory.l, old(memory.mem), id, cpu, rip) && cr3 == kernelCr3
    {
      hide TablesOk;
      hide LayoutOk;
      hide Extra;
      hide Load64;
      hide Walk;
      hide PushTo;
      hide SetSp;
      RootAligned(id);
      cr3 := LoadWord(memory.l.taskCr3s + 8 * id);
      RecordTranslation(id, id);
      var initialSp := LoadWord(memory.l.tasks + 16 * id);
      DropAndStore(id, 2, cpu.ss);
      DropAndStore(id, 8, initialSp);
      DropAndStore(id, 8, cpu.rflags);
      DropAndStore(id, 2, cpu.cs);
      DropAndStore(id, 8, rip);
      var sp := DropSp(id, 8 * 15);
      cr3 := kernelCr3;
    }

    ghost predicate KernelMode()
      reads this, memory
    {
      && LayoutOk(memory.l) && cr3 == kernelCr3 == memory.l.kernelCr3
      && TablesOk(memory.l, memory.mem, Extra(memory.l, memory.mem))
      && forall i: TaskId :: Load64(memory.mem, memory.l.taskCr3s + 8 * i) == InRoot(memory.l, i)
    }

    // One pass of init_tasks' loop.
    method InitOne(i: TaskId)
      requires KernelMode()
      modifies this`cr3, memory
      ensures KernelMode() && OthersKept(memory.l, old(memory.mem), memory.mem, i)
               && Ready(memory.l, memory.mem, i, cpu)
    {
      hide TablesOk;
      hide LayoutOk;
      hide Extra;
      hide Load64;
      hide Prepare;
      hide Ready;
      hide OthersKept;
      ghost var l, m := memory.l, memory.mem;
      ghost var root := InRoot(l, i);
      InitOneTask(l, m, i, cpu);
      RecordAligned();
      StoreBytes(memory.l.tasks + 16 * i, 8, STACK_START);
      SetSpOthers(m, i);
      RootAligned(i);
      var taskCr3 := LoadWord(memory.l.taskCr3s + 8 * i);
      StoreBytes(memory.l.tasks + 16 * i + 8, 8, taskCr3);
      assert memory.mem == SetCr3(l, SetSp(l, m, i, STACK_START), i, root);
      StillKernelMode(m, i);
      if i != 0 {
        PrepareStack(i, ENTRY_POINT);
      }
      StillKernelMode(m, i);
    }

    lemma RecordAligned()
      requires LayoutOk(memory.l)
      ensures memory.l.tasks % 8 == 0 && memory.l.curTask % 4 == 0
    {}

    lemma SetSpOthers(m: Mem, i: TaskId)
      requires LayoutOk(memory.l)
      ensures Load64(SetSp(memory.l, m, i, STACK_START), memory.l.taskCr3s + 8 * i) == Load64(m, memory.l.taskCr3s + 8 * i)
    {
      var l := memory.l;
      SetSpOnly(l, m, i, STACK_START, STACK_START, STACK_START);
      OnlyTaskOthers(l, m, SetSp(l, m, i, STACK_START), i, STACK_START, STACK_START);
      RootsKept(l, m, SetSp(l, m, i, STACK_START), i, i);
    }

    lemma StillKernelMode(m: Mem, i: TaskId)
      requires LayoutOk(memory.l) && cr3 == kernelCr3 == memory.l.kernelCr3
      requires TablesOk(memory.l, m, Extra(memory.l, m)) && OthersKept(memory.l, m, memory.mem, i)
      requires forall j: TaskId :: Load64(m, memory.l.taskCr3s + 8 * j) == InRoot(memory.l, j)
      ensures KernelMode()
    {
      forall j: TaskId ensures Load64(memory.mem, memory.l.taskCr3s + 8 * j) == InRoot(memory.l, j) {
        RootsKept(memory.l, m, memory.mem, i, j);
      }
    }

    method InitTasks()
      requires KernelMode()
      modifies this`cr3, memory
      ensures KernelMode() && CurOf(memory.l, memory.mem) == 0
      ensures Extra(memory.l, memory.mem) == old(Extra(memory.l, memory.mem))
      ensures forall j: TaskId :: Ready(memory.l, memory.mem, j, cpu)
      ensures ImagesKept(memory.l, old(memory.mem), memory.mem)
    {
      hide TablesOk;
      hide LayoutOk;
      hide Extra;
      hide Load64;
      hide Ready;
      hide ImagesKept;
      hide OthersKept;
      hide KernelMode;
      ghost var l, m0 := memory.l, memory.mem;
      KernelModeLayout();
      ImagesSame(l, m0);
      for i := 0 to N_TASKS
        invariant KernelMode() && ImagesKept(l, m0, memory.mem) && Extra(l, memory.mem) == Extra(l, m0)
        invariant forall j: TaskId | j < i :: Ready(l, memory.mem, j, cpu)
      {
        ghost var m := memory.mem;
        InitOne(i);
        ImagesKeptMore(l, m0, m, memory.mem, i);
        SameExtra(l, m, memory.mem, i);
        forall j: TaskId | j < i ensures Ready(l, memory.mem, j, cpu) { ReadyKept(l, m, memory.mem, i, j, cpu); }
      }
      KernelModeLayout();
      SetCurKeeps(l, m0, memory.mem);
      forall j: TaskId ensures Ready(l, SetCur(l, memory.mem, 0), j, cpu) { SetCurKeepsReady(l, memory.mem, j, cpu); }
      ghost var m := memory.mem;
      StoreBytes(memory.l.curTask, 4, 0);
      SetCurKernelMode(m);
    }

    lemma KernelModeLayout()
      requires KernelMode()
      ensures LayoutOk(memory.l) && memory.l.curTask % 4 == 0 && cr3 == kernelCr3 == memory.l.kernelCr3
      ensures TablesOk(memory.l, memory.mem, Extra(memory.l, memory.mem))
      ensures forall i: TaskId :: Load64(memory.mem, memory.l.taskCr3s + 8 * i) == InRoot(memory.l, i)
      ensures Translate(memory.l.curTask) == Mapped(memory.l.curTask, true)
    {}

    lemma SetCurKernelMode(m: Mem)
      requires LayoutOk(memory.l) && cr3 == kernelCr3 == memory.l.kernelCr3
      requires TablesOk(memory.l, memory.mem, Extra(memory.l, memory.mem))
      requires forall i: TaskId :: Load64(m, memory.l.taskCr3s + 8 * i) == InRoot(memory.l, i)
      requires memory.mem == SetCur(memory.l, m, 0)
      ensures KernelMode()
    {
      hide TablesOk;
      var l := memory.l;
      SetCurEffect(l, m, 0, 0);
      assert Arrays(l)[11] == (l.taskCr3s, 24) && Arrays(l)[13] == (l.curTask, 4);
      forall i: TaskId ensures Load64(memory.mem, l.taskCr3s + 8 * i) == InRoot(l, i) {
        Load64Same(memory.mem, m, l.taskCr3s + 8 * i);
      }
    }

    // start_task0(): task 0 begins at its entry point with an empty stack.
    method StartTask0()
      requires KernelMode() && Ready(memory.l, memory.mem, 0, cpu)
      modifies this`cpu, this`cr3, memory
      ensures memory.mem == SetCur(memory.l, old(memory.mem), 0)
      ensures cpu == old(cpu).(rsp := STACK_START, rip := ENTRY_POINT) && cr3 == Base(memory.l, Pml4(0))
    {
      hide TablesOk;
      hide Load64;
      StoreBytes(memory.l.curTask, 4, 0);
      SetCurEffect(memory.l, old(memory.mem), 0, 0);
      RecordAligned();
      var sp := LoadWord(memory.l.tasks);
      var root := LoadWord(memory.l.tasks + 8);
      cpu := cpu.(rsp := sp);
      cr3 := root;
      cpu := cpu.(rip := ENTRY_POINT);
    }

    // init_virtual_memory, with CR3 saved first.
    method InitVirtualMemory()
      requires LayoutOk(memory.l) && Filled(memory.l, memory.mem, {}) && cr3 == memory.l.kernelCr3
      modifies this`kernelCr3, memory
      ensures KernelMode() && !Extra(memory.l, memory.mem)
               && OnlyArraysChanged(memory.l, 12, old(memory.mem), memory.mem)
    {
      hide TablesOk;
      hide LayoutOk;
      hide Filled;
      hide Extra;
      hide Load64;
      hide OnlyArraysChanged;
      kernelCr3 := cr3;
      memory.InitVirtualMemory();
      ExtraIs(memory.l, memory.mem, false);
    }

    // Start-up in the order of kernel.c: page tables, tasks, timer, task 0. The
    // first tick comes after the last store.
    method Boot(timer: LapicTimer.Timer<Callback>, ghost limits: seq<int>)
      requires LayoutOk(memory.l) && Filled(memory.l, memory.mem, {}) && LimitsOk(limits) && cr3 == memory.l.kernelCr3
      modifies this, memory, timer
      ensures Booted(memory.l, old(memory.mem), old(cpu), S(), limits)
      ensures timer.freqKhz == old(timer.freqKhz)
      ensures timer.freqKhz != 0 ==>
                && timer.callback == [Callback.Schedule] && LapicTimer.Mode(timer.lvt) == LapicTimer.MODE_PERIODIC && !LapicTimer.Masked(timer.lvt)
                && timer.initialCount == 1000 * timer.freqKhz % U32_LEN
    {
      hide TablesOk;
      hide LayoutOk;
      hide Filled;
      hide Extra;
      hide Load64;
      hide Ready;
      hide ImagesKept;
      hide OnlyArraysChanged;
      hide KernelMode;
      hide Started;
      hide ImageLoaded;
      hide Inv;
      ghost var l, m0 := memory.l, memory.mem;
      InitVirtualMemory();
      ghost var m1 := memory.mem;
      InitTasks();
      ghost var m2 := memory.mem;
      timer.PeriodicExec(1000, Callback.Schedule);
      KernelModeLayout();
      BootRecord(l, m2, cpu, limits);
      StartTask0();
      BootImages(l, m0, m1, m2);
    }
  }

  // What lapic_periodic_exec can be given.
  datatype Callback = Schedule

  // What start-up leaves, from memory m0 and the kernel's context k.
  ghost predicate Booted(l: Layout, m0: Mem, k: Cpu, s: State, limits: seq<int>) {
    && LayoutOk(l) && Inv(l, s, limits) && CurOf(l, s.mem) == 0 && !Extra(l, s.mem)
    && (forall j: TaskId :: Started(l, s, j, k))
    && ImageLoaded(l, m0, s.mem)
  }

  // Task j stands at its entry point with an empty stack and, unless it is the
  // first, with the kernel's flags and segments.
  ghost predicate Started(l: Layout, s: State, j: TaskId, k: Cpu) {
    var c := CpuOf(l, s, j);
    c.rip == ENTRY_POINT && c.rsp == STACK_START && c.rflags == k.rflags && c.cs == k.cs && c.ss == k.ss
  }

  // Every byte of every task's window below its initial frame, and the page
  // that task 0 may be given, is as the boot loader left it.
  ghost predicate ImageLoaded(l: Layout, m: Mem, m': Mem) {
    forall j: TaskId, va | InConfines(j, va) && !(STACK_START - 40 <= va < STACK_START) :: At(m', PhysOf(j, va)) == At(m, PhysOf(j, va))
  }

  lemma BootRecord(l: Layout, m: Mem, k: Cpu, limits: seq<int>)
    requires LayoutOk(l) && LimitsOk(limits) && TablesOk(l, m, Extra(l, m)) && CurOf(l, m) == 0
    requires forall j: TaskId :: Ready(l, m, j, k)
    ensures var s := State(SetCur(l, m, 0), k.(rsp := STACK_START, rip := ENTRY_POINT), Base(l, Pml4(0)));
            && Inv(l, s, limits) && CurOf(l, s.mem) == 0 && Extra(l, s.mem) == Extra(l, m)
            && forall j: TaskId :: Started(l, s, j, k)
  {
    hide TablesOk;
    hide FrameAt;
    hide LayoutOk;
    var s := State(SetCur(l, m, 0), k.(rsp := STACK_START, rip := ENTRY_POINT), Base(l, Pml4(0)));
    SetCurEffect(l, m, 0, 0);
    RecordTables(l, m, s.mem, Extra(l, m), 13);
    forall j: TaskId ensures Ready(l, s.mem, j, k) { SetCurKeepsReady(l, m, j, k); }
    forall j: TaskId
      ensures Started(l, s, j, k) && Cr3Of(l, s.mem, j) == Base(l, Pml4(j))
               && (j != 0 ==> Suspended(l, s.mem, limits, j))
    {
      assert Ready(l, s.mem, j, k);
    }
  }

  lemma BootImages(l: Layout, m0: Mem, m1: Mem, m2: Mem)
    requires LayoutOk(l) && OnlyArraysChanged(l, 12, m0, m1) && ImagesKept(l, m1, m2)
    ensures ImageLoaded(l, m0, SetCur(l, m2, 0))
  {
    SetCurEffect(l, m2, 0, 0);
    forall j: TaskId, va | InConfines(j, va) && !(STACK_START - 40 <= va < STACK_START)
      ensures At(SetCur(l, m2, 0), PhysOf(j, va)) == At(m0, PhysOf(j, va))
    {
      var a := PhysOf(j, va);
      Isolation(j, va, j, va);
      forall k | 0 <= k < 14 ensures !InArray(l, k, a) {
        assert KERNEL_MEM_ADDR <= Arrays(l)[k].0 && Arrays(l)[k].0 + Arrays(l)[k].1 <= KERNEL_MEM_END;
      }
      assert !InInitialFrame(a);
    }
  }

  lemma ImagesSame(l: Layout, m: Mem)
    ensures ImagesKept(l, m, m)
  {}

  lemma SameExtra(l: Layout, m: Mem, m': Mem, i: TaskId)
    requires OthersKept(l, m, m', i)
    ensures Extra(l, m') == Extra(l, m)
  {}
}
