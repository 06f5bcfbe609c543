# A verified model of a small x86-64 teaching kernel

Dafny models and proofs for the four stateful parts of the kernel: address
spaces with preemptive task switching, the ACPI/LAPIC timers, the virtio
network queues, and the scrolling console.

## What is modelled

**Address spaces and task switching** (`kernel/memory.c`, `kernel/sched.c`,
`kernel/interrupt_handler.S`).
Physical memory is a byte map (`Bytes`). `Paging` gives the page-table entry
bits, where the linker may place the kernel's arrays (`LayoutOk`), and the
4-level walk of the Intel SDM, Vol. 3A, section 4.5. `VirtualMemory.Memory` runs
`init_virtual_memory`'s loops over that memory.
`Kernel.Machine` is the processor: every push, pop, load and store of the
handlers, of the page-fault repair and of `sched.c`, but not what the printing
code writes, goes through the walk of the tree that is in CR3 at that moment, and
each handler is proved to have the effect that `Contexts` gives one interrupt
(`Tick`, `Fault`, `Syscall`). `Runs` is about whole runs: three arbitrary
programs, interleaved in any way with timer interrupts, system calls and page
faults; `Runs.Transparent` is the main theorem. `System.BootedRuns` joins it to
start-up.

A program may use its own 16 MiB window and, for number 0, the additional page.
Interrupt frames and the C code of the handlers use the running stack below RSP,
down to a limit that is a parameter of each run; a program must not rely on what
lies between its limit and its RSP until it has stored there again. Everything
else it owns (code, data, heap, live stack) is preserved.

**Timers** (`kernel/pm_timer.c`, `kernel/lapic_timer.c`). The polling loop over a
24-bit or 32-bit wrapping counter: for every poll schedule when it ends, and that
it ends in time if gaps are at most half a period; and the calibration of the local
APIC timer with real-valued times and rates, down to the periodic count.

**Virtio network** (`kernel/virtio.c`). `VirtqLayout` is the layout arithmetic.
`VirtioRx` is the receive queue as single stores of driver and device in any
interleaving. `VirtioDriver` has the driver's own loops, each access of which is
one step of that state machine, with the device running before it, down to the
text on the console, which `VirtioReport` reads back. `VirtioTx` is `send_packet`, over the bytes of the queue.

**Console** (`kernel/util.c`). `Terminal` says what `putc` does to the grid and
what a whole history leaves in it; `Util` has the pixels, the drawing loops and
`puts`/`puth`; `Hex` the numerals.

## Assumptions about the machine

- Interrupt gates have type 0x0E (`kernel/interrupt.c:47`), so a handler runs
  without interruption; one interrupt is one step.
- Before `init_virtual_memory` the firmware's tables map every address to itself,
  and CR3 does not hold the address of one of the kernel's own roots. The arrays
  are zeroed, page aligned, disjoint and inside the 16 MiB kernel region.
- In 64-bit mode the processor aligns RSP to 16 before it pushes a frame.
- The multitasking run is the one that `kernel/kernel.c:52-60` has in a comment:
  `init_tasks`, `lapic_periodic_exec(…, schedule)`, `start_task0`. The callback of
  the timer interrupt is therefore `schedule`. The first tick comes after
  `start_task0`.
- C code called by a handler may put any words below the handler's frame and leave
  any values in the registers that the handler restores. What it prints goes to
  the frame buffer or to kernel data outside the arrays that are modelled.
- The walk ignores the accessed and dirty bits.
- `QUEUE_SIZE` is at least 16; `kernel/virtio.c` does not check this.
- The screen has room for at least one character, and no NUL is written to it.

## Where the code falls short of its intent

Each of these is a lemma that says exactly when the code is right.

- `Paging.PtIndexBase`: `pt_index_base` divides by the page length; right exactly
  when the window starts on a 1 GiB boundary, as it does.
- `VirtualMemory.FaultRepairedOnlyForTask0`: the fault handler always patches the
  first tree, so a fault at the additional page is repaired exactly for number 0.
- `Terminal.StaleTail`: a scroll clears only column 0 of the last row. Over every
  history, a row shows exactly its line if and only if the line began before the
  first scroll, is empty, or is at least as long as every line from number
  `n_lines - 1` on; otherwise the tail of a longer one is still there.
  `Terminal.StaleExample`: on one line of three columns, "ab", a newline and "c"
  leave "cb".
- `PmTimer.ExitsFirstIff`: for every poll schedule, exactly when the wait ends at the
  first poll that has reached the target; `PmTimer.GapBoundTight`: one tick beyond
  half a period between polls can lose it.
- `LapicTimer.ProductFits`: the periodic count is exact if and only if msec is at most
  (2^32 - 1) / khz, otherwise it is 2^32 or more too small.
- `VirtqLayout.AlignIsRoundUp`: `ALIGN` is wrong exactly on multiples of a page;
  `VirtqLayout.PowerOfTwoLayout`: no power-of-two queue size up to 32768 leads to one.
- `VirtqLayout.UnreducedIndex`: the available index is not reduced modulo the queue
  size; the slot is right exactly below it, and the next store hits the event word.
  `VirtioTx.OfferEffect`: the device finds the packet all the same, because every
  ring entry names descriptor 0.
- `VirtioRx.MoreIsRightIff`: the note that a frame has more bytes than were shown is
  right unless the used length is 257 to 266.
- `VirtioTx.AcceptedIff`, `VirtioTx.PacketRoundTrip`: the assertion lets through the
  lengths -24 to -1, and the buffer holds both headers exactly when the length is
  not negative.
- `VirtioTx.NetworkOrderIff`: the length field is stored low byte first; in network
  order it reads as the length exactly when its two bytes are equal.

## Model

| member | source | states |
|---|---|---|
| Paging.InitEntryPointsTo | kernel/memory.c:78-82 | `init_entry` makes an entry a present, writable, ordinary one whose 40-bit address field names exactly the given page if and only if it was not a huge page, and keeps all its other bits. |
| Paging.TablesDisjoint | kernel/memory.c:48-63 | Any two of the kernel's page tables occupy different pages. |
| Paging.TablesAt | kernel/memory.c:48-63 | Where each table is: page i of its array, and page 8*i + j for the page tables of the windows. |
| Paging.LayoutExists | kernel/memory.c:45-63 | A placement of the arrays that meets all the requirements exists. |
| Paging.ExactTranslation | kernel/memory.c:29-38 | For every tree and every 48-bit address, before and after repaired faults, the walk gives the window image, the identity on frame buffer, local APIC page and kernel region, the additional page for number 0 once mapped, and not-present everywhere else. |
| Paging.AddressMap | kernel/memory.c:29-42 | The same in numbers: window 0x40000000 shows 0x104000000, 0x105000000 or 0x106000000, where the boot loader put the three programs; frame buffer, local APIC page and kernel region map to themselves; 0x300000000 shows 0x101000000; nothing else is present. |
| Paging.Injective | kernel/memory.c:29-42 | Two mapped addresses, of one tree or of two, name the same byte if and only if they are the same address and, in different trees, one that all share. |
| Paging.SharedTranslation | kernel/interrupt_handler.S:18-22 | The addresses that the timer handler uses around its change of CR3 translate alike in all three trees. |
| Paging.PixelsMapped | kernel/util.c:57-71 | Every byte of every pixel is mapped and writable in every tree, if the buffer starts at 0xc0000000 and fits 2 MiB. |
| Paging.PtIndexBase | kernel/memory.c:121 | Dividing by the page length gives the intended page-table index if and only if the page-aligned window starts on a 1 GiB boundary. |
| VirtualMemory.FilledStep | kernel/memory.c:78-82 | One `init_entry` call brings one more entry to its final value and leaves every other entry of every table alone. |
| VirtualMemory.Memory.InitEntry | kernel/memory.c:78-82 | In memory: afterwards the entry names the page if and only if it was not a huge page before, its other bits are kept, and no byte outside it changes. |
| VirtualMemory.Memory.InitIo | kernel/memory.c:87-105 | The loops for the local APIC page and the frame buffer fill exactly the I/O tables. |
| VirtualMemory.Memory.InitKernel | kernel/memory.c:107-115 | The nested loops fill every kernel page table and its directory. |
| VirtualMemory.Memory.InitTask | kernel/memory.c:117-138 | The nested loops fill one tree and link the shared subtrees into it. |
| VirtualMemory.Memory.InitVirtualMemory | kernel/memory.c:87-143 | From zeroed arrays, every entry of every table is as the address spaces need it, `task_cr3s` names the roots, and no other byte of memory changes. |
| VirtualMemory.MapAdditionalTables | kernel/memory.c:157-162 | The repair keeps every table valid and adds the additional page. |
| VirtualMemory.FaultExtension | kernel/memory.c:152-162 | Afterwards the first tree has exactly one page more, every other translation of all trees is as before, and a second repair changes nothing. |
| VirtualMemory.FaultRepairedOnlyForTask0 | kernel/memory.c:162 | The additional page is mapped after the repair if and only if the faulting tree is the first. |
| VirtualMemory.SharedWalk | kernel/memory.c:107-115 | Kernel memory stays mapped to itself in every tree in every state between the stores of the repair. |
| Contexts.FrameRoundTrip | kernel/interrupt_handler.S:3-38 | What the pops and `iretq` take from a pushed frame is the context that was pushed, whatever is pushed below it. |
| Contexts.Isolation | kernel/memory.c:29-42 | Two addresses in the confines of two programs share a physical byte only if they are the same address of the same program; none lies in kernel memory, the frame buffer or the local APIC. |
| Contexts.SetRecordReads | kernel/sched.c:84-87 | After the two assignments of `schedule`, every field of the record, the current number and all other memory. |
| Contexts.RecordAt | kernel/sched.c:18-27 | The record: sp at offset 0 and cr3 at offset 8 of entry i, 16 bytes each, and the four bytes of `cur_task`. |
| Contexts.TickMemory | kernel/interrupt_handler.S:3-22 | One tick keeps the tables, and all memory but the record and the dead stack of the interrupted program, where its complete frame now is. |
| Contexts.TickSwitches | kernel/interrupt_handler.S:2-38 | One tick keeps the invariant (each suspended program has its root in `tasks[].cr3` and a complete 160-byte frame in its own window), advances `cur_task`, and preserves all three contexts. |
| Contexts.TickTaskBytes | kernel/interrupt_handler.S:3-19 | No program loses a byte of its memory except below RSP of the interrupted one. |
| Contexts.FaultRoundTrip | kernel/interrupt_handler.S:75-108 | With an error code: `sp[15]` is the error code, and the pops, `add $8` and `iretq` give back the faulting context. |
| Contexts.FaultRestarts | kernel/interrupt_handler.S:74-108 | A repaired fault keeps the invariant and every context and live byte; the faulting instruction is restarted with all registers as they were. |
| Contexts.SyscallRoundTrip | kernel/interrupt_handler.S:42-71 | The system-call frame gives back the context with only RAX replaced. |
| Contexts.SyscallReturns | kernel/interrupt_handler.S:41-71 | A system call keeps the invariant, all other contexts and all live bytes, and changes only RAX of its caller. |
| Runs.StepStores | kernel/memory.c:117-142 | The stores of a confined instruction land in its own physical memory only: kernel memory, with the tables and the record, and all other programs' bytes keep their values. |
| Runs.SoloStepIs | kernel/interrupt_handler.S:2-71 | What running alone means: the instruction's own effect on registers and memory, reliance lost exactly between the limit and RSP, and 0 in RAX after a call of `puts`. |
| Runs.AnyEvent | kernel/interrupt_handler.S:2-108 | Whatever happens next, the invariant holds and each program still sees what it would see running alone. |
| Runs.StepOrFault | kernel/memory.c:145-162 | A confined instruction can go on if and only if the additional page is mapped or it does not touch it. |
| Runs.FaultProgress | kernel/interrupt_handler.S:92-108 | After a repaired fault the same instruction, with the same effect, finds every page it touches mapped. |
| Runs.Transparent | kernel/interrupt_handler.S:2-108 | Over every run of any length: each program's registers, RIP, RSP, flags, segments and live memory are those of running alone for the instructions it has completed; after k ticks the current number has advanced by k modulo 3; the additional page faults at most once. |
| Runs.FromBoot | kernel/sched.c:84-89 | From the state that start-up leaves, number k mod 3 is current after k ticks, and the number of faults is 1 or 0 as the additional page is mapped or not. |
| Runs.OthersUntouched | kernel/memory.c:117-142 | No event changes a byte that belongs to a program other than the current one. |
| Runs.SuspendedMemory | kernel/memory.c:117-142 | While a program is not the current one, in runs of any length, none of its bytes changes. |
| Runs.TablesOverRuns | kernel/memory.c:48-63 | Over runs of any length no table entry changes but those that the page-fault handler repairs. |
| System.BootedRuns | kernel/kernel.c:52-60 | Start-up and every run after it: each program does exactly what it does alone, started at its entry point with an empty stack over the bytes that the loader put in its memory; number k mod 3 runs after k ticks; at most one fault. |
| System.TimerStep | kernel/interrupt_handler.S:2-38 | The timer handler on the machine is a timer step of a run. |
| System.SystemCallStep | kernel/interrupt_handler.S:41-71 | The system-call handler on the machine is a system-call step of a run, for every program whose instruction is that call of `puts`. |
| System.PageFaultStep | kernel/interrupt_handler.S:74-108 | The page-fault handler on the machine is a page-fault step of a run, for every program whose instruction touches the unmapped additional page. |
| Startup.PrepareEffect | kernel/sched.c:33-66 | The prepared stack resumes at the given RIP with RSP at the end of the window and the kernel's flags and segments, and nothing outside the 40 bytes written and the record changes. |
| Startup.InitOneTask | kernel/sched.c:68-72 | One pass of the loop makes its program ready to be started or resumed and leaves the others alone. |
| Kernel.Machine.Schedule | kernel/sched.c:84-89 | Through the old address space: SP saved, `cur_task` advanced modulo 3, and the address of the next record returned. |
| Kernel.Machine.SaveContext | kernel/interrupt_handler.S:3-18 | The processor's words and the pushes of a handler are the words of its frame, in order, and the stack pointer passed on is that of the last one. |
| Kernel.Machine.SwitchTask | kernel/interrupt_handler.S:19-38 | RSP is loaded in the old address space, CR3 after it, and the pops in the new one give the context saved there. |
| Kernel.Machine.RestoreFrame | kernel/interrupt_handler.S:23-38 | Fifteen pops and `iretq` put each word in its register. |
| Kernel.Machine.LapicIntrHandler | kernel/interrupt_handler.S:2-38 | The handler, access by access through the MMU, has exactly the effect of one tick, keeps the invariant, advances the current number modulo 3, preserves every context, and ends the interrupt. |
| Kernel.Machine.EndOfInterrupt | kernel/lapic_timer.c:73 | The write reaches the register and the interrupt is no longer in service. |
| Kernel.Machine.EoiMapped | kernel/lapic_timer.c:71-75 | The write that ends the interrupt does not fault in any address space. |
| Kernel.Machine.PageFaultHandler | kernel/interrupt_handler.S:74-108 | The handler returns if and only if the address is in the additional page, and then restarts in the same context with the effect of one repaired fault; otherwise only its frame and its report have been written. The report begins with the message for an instruction fetch, a write or a read exactly when the bits of the error code say so, and ends with sixteen digits that read as the address. |
| Kernel.Machine.PageFaultHandlerInternal | kernel/memory.c:152-174 | It reads the error code and makes its three stores through the MMU; the new tables, which message begins its text for which error code, the address that the text ends with, and whether it returns. |
| Kernel.Machine.RepairFault | kernel/memory.c:157-162 | None of the three stores faults although the tables are unfinished between them, and together they are the repair that `VirtualMemory.FaultExtension` is about. |
| Kernel.Machine.FaultEntry | kernel/interrupt_handler.S:75-91 | After the pushes `sp[15]` is the error code that the processor pushed. |
| Kernel.Machine.RestoreFaultFrame | kernel/interrupt_handler.S:92-108 | The pops skip the error code. |
| Kernel.Machine.SyscallHandler | kernel/interrupt_handler.S:41-71 | The handler restores the whole context but RAX, which is 0 for number 1, with the string printed, and an arbitrary value for any other number; the effect is exactly one system call and the invariant is kept. |
| Kernel.Machine.SyscallHandlerInternal | kernel/syscall.c:4-25 | Number 1 prints the string and returns 0; any other prints a note that ends with digits that read as the number, and returns what was in the variable. |
| Kernel.Machine.DropAndStore | kernel/sched.c:39-44 | One push of `prepare_stack`, through the program's own tree. |
| Kernel.Machine.PrepareStack | kernel/sched.c:33-66 | The method builds exactly the stack that `Startup.PrepareEffect` is about, and CR3 is back to the kernel's. |
| Kernel.Machine.InitOne | kernel/sched.c:68-72 | One pass of the loop on the machine. |
| Kernel.Machine.InitTasks | kernel/sched.c:67-74 | Every program is ready, number 0 is current, and no byte outside the record and the initial frames changes. |
| Kernel.Machine.StartTask0 | kernel/sched.c:76-82 | Number 0 starts at its entry point, in its own tree, with an empty stack. |
| Kernel.Machine.InitVirtualMemory | kernel/memory.c:83-143 | The old CR3 is saved, and the tables and roots are those that `sched.c` relies on. |
| Kernel.Machine.Boot | kernel/kernel.c:52-60 | From zeroed arrays: the invariant of `Runs.Transparent` holds, all three programs stand at their entry points, what the loader put in the windows is unchanged, and a calibrated timer calls `schedule` periodically. |
| PmTimer.MaskIs | kernel/pm_timer.c:36-38 | Masking is reduction modulo the period. |
| PmTimer.HalfStateIs | kernel/pm_timer.c:47-51 | The sign is -1 exactly when the current value is in the second half of the period after the target, for either width and unmasked arguments. |
| PmTimer.TargetIs | kernel/pm_timer.c:54-56 | The 64-bit product and the 32-bit truncation never change the target modulo the period, for any 32-bit argument. |
| PmTimer.WaitIs | kernel/pm_timer.c:53-56 | In numbers: the tick count n satisfies 1000*n <= msec*3579545 < 1000*(n + 1); the wait is n if that is between 1 and 2^24 or 2^32, and congruent to it otherwise. |
| PmTimer.CrossingSeen | kernel/pm_timer.c:61-63 | Two polls on either side of the target show the -1 to 1 transition if and only if each is within half a period of it. |
| PmTimer.GapBoundTight | kernel/pm_timer.c:62 | With a gap of one tick more than half a period the crossing can be missed. |
| PmTimer.Detects | kernel/pm_timer.c:61-64 | With gaps of at most half a period, the transition shows exactly at the first poll that has reached the target. |
| PmTimer.NeverEarly | kernel/pm_timer.c:59-65 | For every schedule, whatever the gaps, the loop does not end before W ticks. |
| PmTimer.ExitsFirstIff | kernel/pm_timer.c:59-65 | For every schedule the loop ends at the first poll at or after W ticks if and only if the poll before it was within half a period of the target and this one is, modulo the period, less than half a period past it. |
| PmTimer.SmallGapsFirst | kernel/pm_timer.c:62-63 | With gaps of at most half a period the poll at which the loop ends is the first at or after W ticks. |
| PmTimer.SmallGapsEnd | kernel/pm_timer.c:62-63 | With such gaps, and a counter that keeps running, the loop ends. |
| PmTimer.WaitMillisec | kernel/pm_timer.c:53-66 | For every schedule in which some pair of polls shows the transition the loop ends, at the first such pair and never before W ticks, where 0 < W <= period and W is congruent to the tick count (a count of 0 waits a full period); under the gap bound that is the first poll at or after W ticks. |
| PmTimer.AtMostWPolls | kernel/pm_timer.c:59-65 | With at least one tick between polls there are at most W of them. |
| LapicTimer.Timer.MeasureFreqKhz | kernel/lapic_timer.c:38-54 | A masked one-shot timer without a vector, whose delivery status is kept; the stored frequency is within the calibration error of the true rate, or -1 is returned without a store when the counter reached zero. |
| LapicTimer.Timer.SetLvtTimer | kernel/lapic_timer.c:23-28 | The fields read back from the register: vector, mode and mask as asked, the delivery status as it was, nothing else set. |
| LapicTimer.Timer.SetDivideByOne | kernel/lapic_timer.c:29-35 | The register selects division by one and keeps its other bits. |
| LapicTimer.Timer.PeriodicExec | kernel/lapic_timer.c:56-68 | Nothing happens before calibration; otherwise, whatever rate and overshoot the frequency was calibrated with, the count is that of msec milliseconds within the calibration error if it fits 32 bits, and 2^32 or more too small if it does not. |
| LapicTimer.Span | kernel/pm_timer.c:53-66 | The span between the two counter accesses is more than a second less one tick, and less than a second plus the overshoot. |
| LapicTimer.CalibrationError | kernel/lapic_timer.c:44-53 | The stored value is below the true rate by less than one kHz and one tick's share, and above it by less than the rate times the overshoot. |
| LapicTimer.PeriodicError | kernel/lapic_timer.c:48-67 | End to end from the calibration: the periodic count is above msec times the rate less a tick's share and one kHz, and below msec times the rate with the overshoot, if msec <= (2^32 - 1) / khz, which every msec up to 2000 meets. |
| LapicTimer.ProductFits | kernel/lapic_timer.c:67 | The 32-bit product is exact if and only if msec is at most (2^32 - 1) / khz. |
| Terminal.StrcpyString | kernel/util.c:30-33 | The copy is the same C string, whatever was in the destination. |
| Terminal.PutChar | kernel/util.c:99-100 | A character without a break extends the last line of the history, over what its row held. |
| Terminal.PutBreak | kernel/util.c:89-95 | A break above the last row starts the next line of the history. |
| Terminal.PutScroll | kernel/util.c:85-97 | A break on the last row moves the text of every line up and starts a new line over what the last row held. |
| Terminal.LinesAre | kernel/util.c:83-100 | The lines, joined with the newlines between them, are the input; none is longer than a row or holds a newline, and a line ends without a newline only where one more character follows a full line. |
| Terminal.OnlySplitting | kernel/util.c:83-100 | There is no other such splitting. |
| Terminal.TerminalHistory | kernel/util.c:82-102 | For every sequence of non-NUL characters each row shows exactly the overlay of the lines of the deferred-wrap splitting that were written in it, the latest on top, and nothing if its line is empty. |
| Terminal.StaleTail | kernel/util.c:82-102 | Over every history each row begins with its line, and it is exactly that line if and only if the line began before the first scroll, is empty, or is at least as long as every line from number `n_lines - 1` on. |
| Terminal.VisibleExact | kernel/util.c:87-100 | The overlay is the line itself exactly in those cases. |
| Terminal.StaleExample | kernel/util.c:87-100 | On a screen of one line and three columns "ab", a newline and "c" leave "cb". |
| Terminal.CellIsEnd | kernel/util.c:94-100 | Until the first scroll the next character goes to the end of its row's string. |
| Util.Display.SetPixel | kernel/util.c:65-68 | The element at width*x + y gets the colour, its reserved byte and all other pixels stay. |
| Util.Display.PixelAt | kernel/util.c:65 | Pixel (x, y) is the element at width*x + y of the frame buffer. |
| Util.Display.Fill | kernel/util.c:38-47 | Every pixel gets the colour. |
| Util.InkOneMore | kernel/util.c:99-100 | Writing a character at the end of a row's string adds exactly its glyph to what a redraw would draw. |
| Util.Console.constructor | kernel/util.c:48-56 | The numbers of lines and columns, an empty history and a black screen. |
| Util.Console.DrawChar | kernel/util.c:57-71 | In the cell at the offset, pixel (i, j) gets the colour if and only if bit 7 - j of row i of the glyph is set; every other pixel stays, and codes from 128 draw nothing. |
| Util.Console.CellPixel | kernel/util.c:73-81 | After a redraw pixel (8r + i, 8k + j) is white if and only if row r's string has a k-th character and bit 7 - j of row i of its glyph is set, and black otherwise. |
| Util.Console.TextPixel | kernel/util.c:82-102 | Until the first scroll, the same for the k-th character of line r of everything written. |
| Util.Console.MyStrcpy | kernel/util.c:30-33 | In place: one row becomes the copy, the others stay. |
| Util.Console.RedrawTerminal | kernel/util.c:73-81 | Every pixel is white or black as the strings in the grid say. |
| Util.Console.ShiftLines | kernel/util.c:86-87 | The loop of copies moves every line up by one and empties the last string. |
| Util.Console.PutBody | kernel/util.c:82-102 | The whole new grid and cursor; the screen is that of a full redraw after a scroll, and stays so without one if the character goes to the end of its row's string. |
| Util.Console.Putc | kernel/util.c:82-102 | Until the first scroll the incrementally drawn screen is that of a full redraw; the grid is that of the whole history. |
| Util.Console.Puts | kernel/util.c:104-106 | The string is written, and the grid shows the last lines of everything written. |
| Util.Console.FillDigits | kernel/util.c:112-117 | The backwards loop stays inside the 17-byte buffer and leaves the numeral and its NUL. |
| Util.Console.Puth | kernel/util.c:111-124 | What is written is the padded numeral. |
| Hex.DigitsLength | kernel/util.c:117 | A positive number has n digits if and only if it is between 16^(n-1) and 16^n. |
| Hex.HexChars | kernel/util.c:108-110 | The sixteen digits are 0 to 9 and A to F. |
| Hex.RoundTrip | kernel/util.c:108-124 | For every 64-bit value and every width: the output is a hexadecimal numeral as long as the wider of the two, and reading it gives the value back. |
| VirtqLayout.AlignIsRoundUp | kernel/virtio.c:89 | The macro rounds up to a page if and only if its argument is not a multiple of one. |
| VirtqLayout.Parts | kernel/virtio.c:89-94 | For every size up to 32768 the three parts, with their event words, are disjoint, aligned and inside `VIRTQ_SIZE`, and the two queues do not overlap. |
| VirtqLayout.Rounding | kernel/virtio.c:92-94 | Both uses of `ALIGN` are the standard's rounding if and only if neither operand is a multiple of a page. |
| VirtqLayout.PowerOfTwoLayout | kernel/virtio.c:89-130 | For every power of two up to 32768 the layout is that of VIRTIO 1.1, section 2.6.2. |
| VirtqLayout.LayoutInNumbers | kernel/virtio.c:67-94 | The offset of each part and event word of a queue, up to the rounding, which goes to the next page boundary. |
| VirtqLayout.UnreducedIndex | kernel/virtio.c:195 | The store at an unreduced index lands in the standard's slot if and only if the index is below the queue size, and in the event word if and only if it equals it. |
| VirtioRx.InitialiseInv | kernel/virtio.c:193-210 | Every store of the initialisation keeps the invariant. |
| VirtioRx.ReceiveInv | kernel/virtio.c:244-267 | Every access of `receive_packet` keeps the invariant. |
| VirtioRx.NextInv | kernel/virtio.c:193-267 | Every step of driver or device keeps it: rings, descriptors, ownership of each buffer, the contents of what was handed back, and what has been printed. |
| VirtioRx.ExactlyOnce | kernel/virtio.c:243-267 | In every interleaving `0 <= receive_head <= used.idx <= avail.idx <= 16 <= QUEUE_SIZE`; what is printed is what the device handed back, in used-ring order, no buffer twice; an idle driver has printed exactly the first `receive_head`. |
| VirtioRx.TakenDescribed | kernel/virtio.c:193-210 | Although indices are published first, each buffer that a device waiting for `DRIVER_OK` takes is new, and its descriptor is writable, not chained, and names exactly the 4096 bytes at rx_buffer + 4096*id, so that any length up to 4096 can be handed back. |
| VirtioRx.MoreIsRightIff | kernel/virtio.c:258-263 | The note that there is more is right if and only if the used length is not 257 to 266. |
| VirtioDriver.Driver.Publish | kernel/virtio.c:195-196 | The two stores are two steps of the state machine. |
| VirtioDriver.DeviceWaits | kernel/virtio.c:193-210 | Until `DRIVER_OK` a device that waits for it does nothing, so the loops of the initialisation have the queue to themselves. |
| VirtioDriver.Driver.InitRx | kernel/virtio.c:190-210 | The loops leave entry i of the ring naming descriptor i, and that one address rx_buffer + 4096*i, length 4096, flags 2 and next 0, for all sixteen; they take exactly the fifty steps of the state machine and leave its invariant with the driver idle. |
| VirtioDriver.Driver.PutContent | kernel/virtio.c:258-262 | With the device running before each read, the bytes shown, in lines of sixteen, are those that the state machine reads. |
| VirtioDriver.Driver.Wait | kernel/virtio.c:248-249 | If the used index ever moves the wait ends, and the index read after it is beyond `receive_head`. |
| VirtioDriver.Driver.PutFrame | kernel/virtio.c:254-264 | The text for one buffer reads back as its used length less the ten header bytes, the bytes shown, and the note if the length is above 256. |
| VirtioDriver.Driver.ReceivePacket | kernel/virtio.c:244-267 | With the device doing anything before every access, one call takes the steps of the state machine, and what it prints reads back as every buffer completed since the last when it read the index, once and in order: the length without the header, the bytes that the device handed over after the header, up to 256, and the note that there are more. |
| VirtioReport.FrameReads | kernel/virtio.c:254-264 | A reader of the text, who knows its fixed words, newlines and pairs of digits, gets back the number, the bytes and the note. |
| VirtioReport.LogReports | kernel/virtio.c:250-265 | The text for any sequence of buffers reads back as that sequence. |
| VirtioTx.AcceptedIff | kernel/virtio.c:215 | The assertion holds if and only if the length is -24 to 4072. |
| VirtioTx.PacketRoundTrip | kernel/virtio.c:217-234 | Reading the buffer back gives the header, addresses, length and data that were passed in if and only if the length is not negative. |
| VirtioTx.NetworkOrderIff | kernel/virtio.c:228 | In network order the length field reads as the length if and only if its two bytes are equal. |
| VirtioTx.DescRoundTrip | kernel/virtio.c:232-237 | The descriptor in memory reads back as it was stored. |
| VirtioTx.OfferEffect | kernel/virtio.c:237-239 | One offer in memory: the descriptor, the index modulo 2^16, every byte that changes, and that the entry at the index modulo the queue size names descriptor 0 although the store goes to the unreduced index. |
| VirtioTx.OfferAnnounced | kernel/virtio.c:232-239 | By the bytes that the device reads: the descriptor at 0x71ff0000, the index at 16*q + 2 grown by one, the flags before it unchanged, and 0 in the entry that it looks for next. |
| VirtioTx.Transmitter.PrepareBuffer | kernel/virtio.c:217-229 | The stores and the three copying loops leave exactly the header, the frame and the old rest of the buffer. |
| VirtioTx.Transmitter.SendPacket | kernel/virtio.c:214-241 | A rejected packet changes nothing; however many were sent before, an accepted one leaves the frame, its descriptor, the entry where the device looks for it and the next index, changes no other byte, and reads back as the packet. |

## Left out

- The boot loader: UEFI calls, file I/O and ELF loading. The windows hold arbitrary images.
- The summation on the other processors in the boot loader; its lock is only a comment.
- Port I/O, PCI scanning, ACPI tables, and loading of GDT and IDT; they are assumptions or parameters.
- Font contents: the glyphs are an arbitrary function.
- `kernel/sched.c.kadaiB`: superseded, and does not match the handlers.
- TLB and cache timing, weak memory ordering, elapsed seconds outside the calibration bound.
- Non-canonical addresses, user/supervisor and no-execute bits, and faults other than not-present ones.
- A system call's string argument is taken to be mapped; what is printed by a system call or a fault is an arbitrary write to console memory in `Runs`, while `Util` says what `puts` writes.
- A program other than number 0 that faults at the additional page repeats the fault for ever; `Runs` has no such step.
- `kernel_cr3` and `reserved_callback` are fields of the model, not bytes of kernel memory.
- Kernel.Machine.DropAndStore: for RFLAGS the source stores the word before it lowers `tasks[id].sp`; the model lowers it first, with the same final memory.
- Kernel.Machine.PageFaultHandler: the spin after a report is a `false` result, and the bytes that the printing writes are a parameter.
- LapicTimer.Timer.MeasureFreqKhz: the delivery status does not change between the read and the write of its register.
- VirtioRx.ExactlyOnce: buffers are not offered again and the 16-bit used index does not wrap, as in the code.
- VirtioDriver.Driver.ReceivePacket: the used index is taken to move at some access; if it never does, the wait spins for ever.
- VirtioTx.Transmitter.SendPacket: what the device writes to the transmit queue, and what else lies where entries past the ring are stored.
- The register accesses of `init_virtio_net` before the queues are cleared, and the MAC address.
