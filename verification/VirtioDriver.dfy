// The receive half of kernel/virtio.c as it is written: the loops that set up
// the queue, and receive_packet printing to the console, with the device running
// between any two accesses. Each access is one step of the state machine VirtioRx.
module VirtioDriver {
  import opened Bytes
  import opened Hex
  import opened Text
  import opened VirtioReport
  import opened Wrappers
  import opened VirtioRx
  import Bits
  import Terminal
  import Util

  // --- the device between two accesses ---

  predicate IsDevice(e: Event) { !e.DriverStep? }

  // The device's events, one after the other; one that is not enabled does not
  // happen.
  ghost function Device(s: Rx, es: seq<Event>): Rx
    decreases |es|
  {
    if es == [] then s
    else Device(if IsDevice(es[0]) && Enabled(s, es[0]) then Next(s, es[0]) else s, es[1..])
  }

  ghost predicate OnlyDevice(s: Rx, s': Rx) {
    && s' == s.(mem := s'.mem, used := s'.used, usedIdx := s'.usedIdx, taken := s'.taken, inflight := s'.inflight,
                history := s'.history)
    && |s'.used| == |s.used|
  }

  lemma {:induction false} DeviceOnly(s: Rx, es: seq<Event>)
    ensures OnlyDevice(s, Device(s, es))
    decreases |es|
  {
    if es == [] {
    } else {
      DeviceOnly(if IsDevice(es[0]) && Enabled(s, es[0]) then Next(s, es[0]) else s, es[1..]);
    }
  }

  lemma {:induction false} DeviceInv(s: Rx, es: seq<Event>)
    requires Inv(s)
    ensures Inv(Device(s, es))
    decreases |es|
  {
    hide Inv;
    hide Next;
    hide Enabled;
    if es == [] {
    } else if IsDevice(es[0]) && Enabled(s, es[0]) {
      NextInv(s, es[0]);
      DeviceInv(Next(s, es[0]), es[1..]);
    } else {
      DeviceInv(s, es[1..]);
    }
  }

  // Until DRIVER_OK the device does nothing, so the initialisation has the
  // queue to itself.
  lemma {:induction false} DeviceWaits(s: Rx, es: seq<Event>)
    requires Inv(s) && !s.driverOk
    ensures Device(s, es) == s
    decreases |es|
  {
    hide QueueOk;
    hide DataOk;
    hide PhaseOk;
    if es == [] {
    } else {
      assert s.inflight == {} by { assert forall id :: id in s.inflight ==> 0 <= id < s.taken; }
      DeviceWaits(s, es[1..]);
    }
  }

  // dev(n) is what the device does before the driver's n-th access.
  ghost function ReceiveSteps(s: Rx, dev: nat -> seq<Event>, n: nat): Rx {
    if n == 0 then s else Receive(Device(ReceiveSteps(s, dev, n - 1), dev(n - 1)), true)
  }

  // The state that the n-th access sees.
  ghost function Seen(s: Rx, dev: nat -> seq<Event>, n: nat): Rx { Device(ReceiveSteps(s, dev, n), dev(n)) }

  lemma OneStep(s: Rx, dev: nat -> seq<Event>, n: nat)
    ensures ReceiveSteps(s, dev, n + 1) == Receive(Seen(s, dev, n), true)
    ensures OnlyDevice(ReceiveSteps(s, dev, n), Seen(s, dev, n))
  {
    DeviceOnly(ReceiveSteps(s, dev, n), dev(n));
  }

  lemma NoStep(s: Rx, dev: nat -> seq<Event>)
    ensures ReceiveSteps(s, dev, 0) == s
  {}

  // These are runs of the state machine: the invariant holds throughout.
  lemma {:induction false} StepsInv(s: Rx, dev: nat -> seq<Event>, n: nat)
    requires Inv(s) && !Initialising(s.phase)
    ensures Inv(ReceiveSteps(s, dev, n)) && !Initialising(ReceiveSteps(s, dev, n).phase)
    ensures Inv(Seen(s, dev, n))
    decreases n
  {
    hide Inv;
    hide Device;
    hide Receive;
    hide ReceiveSteps;
    if n == 0 {
      NoStep(s, dev);
    } else {
      StepsInv(s, dev, n - 1);
      OneStep(s, dev, n - 1);
      ReceiveInv(Seen(s, dev, n - 1), true);
      ReceiveInitialised(Seen(s, dev, n - 1));
    }
    DeviceInv(ReceiveSteps(s, dev, n), dev(n));
  }

  lemma ReceiveInitialised(s: Rx)
    requires !Initialising(s.phase)
    ensures !Initialising(Receive(s, true).phase)
  {}

  // The shared memory that an access finds.
  datatype Shared = Shared(mem: Mem, used: seq<UsedElem>, usedIdx: int)

  ghost predicate Finds(s: Rx, dev: nat -> seq<Event>, env: nat -> Shared) {
    forall n: nat :: env(n) == Shared(Seen(s, dev, n).mem, Seen(s, dev, n).used, Seen(s, dev, n).usedIdx)
  }

  lemma FindsAt(s: Rx, dev: nat -> seq<Event>, env: nat -> Shared, n: nat)
    requires Finds(s, dev, env)
    ensures env(n) == Shared(Seen(s, dev, n).mem, Seen(s, dev, n).used, Seen(s, dev, n).usedIdx)
  {}

  function InitSteps(s: Rx, n: nat): Rx { if n == 0 then s else Initialise(InitSteps(s, n - 1)) }

  lemma NoSteps(s: Rx)
    ensures InitSteps(s, 0) == s
  {}

  lemma PublishSteps(s: Rx, i: nat)
    requires i < N_RX_BUFFERS && InitSteps(s, 2 * i).phase == PutRing(i)
             && InitSteps(s, 2 * i).availIdx == i < |InitSteps(s, 2 * i).ring|
    ensures InitSteps(s, 2 * (i + 1)) == Initialise(Initialise(InitSteps(s, 2 * i)))
    ensures InitSteps(s, 2 * (i + 1)).phase == if i + 1 < N_RX_BUFFERS then PutRing(i + 1) else Notify
  {
    assert InitSteps(s, 2 * i + 1) == Initialise(InitSteps(s, 2 * i));
    assert InitSteps(s, 2 * i + 2) == Initialise(InitSteps(s, 2 * i + 1));
  }

  lemma NotifySteps(s: Rx)
    requires InitSteps(s, 2 * N_RX_BUFFERS).phase == Notify
    ensures InitSteps(s, 2 * N_RX_BUFFERS + 1) == InitSteps(s, 2 * N_RX_BUFFERS).(phase := PutDesc(0))
  {}

  lemma DescribeSteps(s: Rx, i: nat)
    requires i < N_RX_BUFFERS && i < |InitSteps(s, 2 * N_RX_BUFFERS + 1 + i).descs|
    requires InitSteps(s, 2 * N_RX_BUFFERS + 1 + i).phase == PutDesc(i)
    ensures InitSteps(s, 2 * N_RX_BUFFERS + 1 + (i + 1)) == Initialise(InitSteps(s, 2 * N_RX_BUFFERS + 1 + i))
    ensures InitSteps(s, 2 * N_RX_BUFFERS + 1 + (i + 1)).phase == if i + 1 < N_RX_BUFFERS then PutDesc(i + 1) else SetDriverOk
  {
    var n := 2 * N_RX_BUFFERS + 1 + i;
    assert InitSteps(s, n + 1) == Initialise(InitSteps(s, n));
  }

  lemma DoneSteps(s: Rx)
    requires var s1 := InitSteps(s, 49); s1.phase == SetDriverOk && Inv(s)
    ensures InitSteps(s, 50) == InitSteps(s, 49).(driverOk := true, phase := Idle) && Inv(InitSteps(s, 50))
  {
    hide Inv;
    InitStepsInv(s, 50);
  }

  lemma IdleQueue(s: Rx)
    requires Inv(s) && s.phase.Idle?
    ensures |s.ring| >= 16 && |s.descs| >= 16
    ensures forall i | 0 <= i < 16 :: s.ring[i] == i && s.descs[i] == Desc(s.base + 4096 * i, 4096, 2, 0)
  {
    hide DeviceOk;
  }

  // Initialise stays put once it is done, so any number of steps keeps Inv.
  lemma {:induction false} InitStepsInv(s: Rx, n: nat)
    requires Inv(s)
    ensures Inv(InitSteps(s, n))
    decreases n
  {
    hide Inv;
    if n == 0 {
    } else {
      InitStepsInv(s, n - 1);
      if Initialising(InitSteps(s, n - 1).phase) { InitialiseInv(InitSteps(s, n - 1)); }
    }
  }

  // What the accesses of the inner loop and of the wait do.
  lemma ShowMore(s: Rx)
    requires s.phase.Show? && MoreToShow(s.phase.elem, s.phase.k)
    ensures var b := At(s.mem, s.phase.desc.addr + s.phase.k + NET_HDR_LEN);
            Receive(s, true) == s.(phase := s.phase.(k := s.phase.k + 1, shown := s.phase.shown + [b]))
  {}

  lemma PollStep(s: Rx)
    requires s.phase.Idle? || s.phase.Poll? || s.phase.ReadIdx?
    ensures Receive(s, true) ==
            if s.phase.Idle? then s.(phase := Poll)
            else if s.phase.ReadIdx? then s.(phase := Scan(s.head, s.usedIdx))
            else if s.usedIdx == s.head then s else s.(phase := ReadIdx)
  {}

  // The reads in the loop are inside their tables.
  lemma ScanBounds(s: Rx)
    requires Inv(s) && s.phase.Scan? && s.phase.i < s.phase.idx
    ensures 0 <= s.phase.i && 0 < |s.used| == |s.descs|
  {
    hide DeviceOk;
  }

  lemma ReadDescBounds(s: Rx)
    requires Inv(s) && s.phase.ReadDesc?
    ensures 0 <= s.phase.elem.id < |s.descs|
  {
    hide QueueOk;
    hide DeviceOk;
    DriverSizes(s);
  }

  lemma ReadIdxBounds(s: Rx)
    requires Inv(s) && s.phase.ReadIdx?
    ensures 0 <= s.head < s.usedIdx
  {}

  lemma LogIs(s: Rx)
    requires Inv(s) && s.phase.Idle?
    ensures 0 <= s.head == |s.log| <= s.usedIdx == |s.history|
  {
    hide Holds;
    hide AsPrinted;
  }

  lemma LogAt(s: Rx, j: int)
    requires Inv(s) && 0 <= j < |s.log|
    ensures j < |s.history| && s.log[j] == AsPrinted(s.history[j])
  {
    hide Holds;
    hide AsPrinted;
  }

  // ps is what the device handed back from number receive_head on, in order.
  ghost predicate NewlyPrinted(s: Rx, s': Rx, ps: seq<Printed>) {
    && 0 <= s.head < s'.head <= |s'.history| && |ps| == s'.head - s.head && s'.log == s.log + ps
    && forall k :: 0 <= k < |ps| ==> ps[k] == AsPrinted(s'.history[s.head + k])
  }

  // What the device handed back from number receive_head on.
  function HandedOver(s: Rx, s': Rx): seq<Completion> {
    if 0 <= s.head <= s'.head <= |s'.history| then s'.history[s.head..s'.head] else []
  }

  lemma HistoryBound(s: Rx, j: int)
    requires Inv(s) && 0 <= j < |s.history|
    ensures |s.history[j].data| <= BUFFER_LEN
  {
    hide IdsOk;
    hide PhaseOk;
    hide QueueOk;
    hide AsPrinted;
    assert Holds(s.mem, s.base, s.history[j]);
  }

  lemma NewReports(s: Rx, s': Rx, ps: seq<Printed>)
    requires Inv(s') && NewlyPrinted(s, s', ps)
    ensures |HandedOver(s, s')| == s'.head - s.head > 0 && Reports(LogText(ps), HandedOver(s, s'))
  {
    hide Inv;
    hide AsPrinted;
    hide LogText;
    hide Reports;
    var cs := HandedOver(s, s');
    forall k | 0 <= k < |cs| ensures |cs[k].data| <= BUFFER_LEN && ps[k] == AsPrinted(cs[k]) {
      assert cs[k] == s'.history[s.head + k];
      HistoryBound(s', s.head + k);
    }
    LogReports(ps, cs);
  }

  lemma NewEntries(s: Rx, s': Rx, ps: seq<Printed>)
    requires Inv(s) && s.phase.Idle? && Inv(s') && s'.phase.Idle? && s'.log == s.log + ps && s.head < s'.head
    ensures NewlyPrinted(s, s', ps)
  {
    hide Inv;
    hide AsPrinted;
    LogIs(s);
    LogIs(s');
    forall k | 0 <= k < |ps| ensures ps[k] == AsPrinted(s'.history[s.head + k]) {
      LogAt(s', s.head + k);
    }
  }

  lemma HeadStarts(s: Rx)
    requires Inv(s) && s.phase.Idle?
    ensures 0 <= s.head
  {}

  // The last store of receive_packet.
  lemma Finished(s: Rx, dev: nat -> seq<Event>, n: nat, idx: int, ps: seq<Printed>)
    requires Inv(s) && s.phase.Idle? && s.head < idx
    requires OnlyDevice(s.(phase := Scan(idx, idx), log := s.log + ps), ReceiveSteps(s, dev, n))
    ensures var s1, s' := Seen(s, dev, n), ReceiveSteps(s, dev, n + 1);
            s' == s1.(head := idx, phase := Idle) && Inv(s') && NewlyPrinted(s, s', ps)
  {
    hide Inv;
    hide ReceiveSteps;
    hide Seen;
    hide AsPrinted;
    OneStep(s, dev, n);
    StepsInv(s, dev, n + 1);
    NewEntries(s, ReceiveSteps(s, dev, n + 1), ps);
    LogIs(s);
  }

  lemma WholeFrame(p: Printed)
    ensures ReadOne(FrameText(p)) == Some((Received(p.len, p.content, p.more), []))
    ensures FrameText(p) == LengthText(p) + ContentText(p.content) + MoreText(p)
  {
    hide ReadOne;
    FrameReads(p, []);
    assert FrameText(p) + [] == FrameText(p);
  }

  // The frame is about to be printed.
  predicate ShowsFirst(p: Phase, elem: UsedElem, desc: Desc) {
    p.Show? && p.elem == elem && p.desc == desc && p.k == 0 && p.shown == []
  }

  class Driver {
    const console: Util.Console
    const base: int
    const ring: array<int>
    const descs: array<Desc>
    const used: array<UsedElem>
    var mem: Mem
    var availIdx: int
    var usedIdx: int
    var head: int

    constructor (console: Util.Console, base: int, mem: Mem, q: nat)
      requires q >= N_RX_BUFFERS
      ensures this.console == console && this.base == base && this.mem == mem && head == 0
      ensures Apart() && ring.Length == q && fresh(ring) && fresh(descs) && fresh(used)
    {
      this.console, this.base, this.mem := console, base, mem;
      ring := new int[q];
      descs := new Desc[q](_ => Desc(0, 0, 0, 0));
      used := new UsedElem[q](_ => UsedElem(0, 0));
      availIdx, usedIdx, head := 0, 0, 0;
    }

    ghost predicate Apart() {
      && ring.Length == descs.Length == used.Length >= N_RX_BUFFERS
      && {ring as object, descs, used, this} !! {console as object, console.buf, console.display.base}
    }

    // The shared memory and the driver's counter are those of s.
    ghost predicate Agrees(s: Rx)
      reads this, ring, descs, used
    {
      && base == s.base && mem == s.mem && ring[..] == s.ring && availIdx == s.availIdx
      && descs[..] == s.descs && used[..] == s.used && usedIdx == s.usedIdx && head == s.head
    }

    method ZeroQueue()
      requires Apart() && head == 0
      modifies this`availIdx, this`usedIdx, ring, descs, used
      ensures Agrees(Start(base, mem, ring.Length))
    {
      availIdx, usedIdx := 0, 0;
      for i := 0 to ring.Length
        invariant availIdx == 0 && usedIdx == 0
        invariant forall k :: 0 <= k < i ==> ring[k] == 0 && descs[k] == Desc(0, 0, 0, 0) && used[k] == UsedElem(0, 0)
      {
        ring[i] := 0;
        descs[i] := Desc(0, 0, 0, 0);
        used[i] := UsedElem(0, 0);
      }
    }

    // VIRTQ_AVAIL(virtq_rx).ring[idx] = i; idx++.
    method Publish(i: int, ghost s: Rx)
      requires Apart() && Agrees(s) && s.phase == PutRing(i) && 0 <= availIdx < ring.Length
      modifies this`availIdx, ring
      ensures Agrees(Initialise(Initialise(s))) && availIdx == old(availIdx) + 1
    {
      ring[availIdx] := i;
      assert Agrees(Initialise(s));
      availIdx := availIdx + 1;
    }

    method Describe(i: int, ghost s: Rx)
      requires Apart() && Agrees(s) && s.phase == PutDesc(i) && 0 <= i < descs.Length
      modifies descs
      ensures Agrees(Initialise(s))
    {
      descs[i] := Desc(base + BUFFER_LEN * i, BUFFER_LEN, DESC_F_WRITE, 0);
    }

    method PublishAll(ghost s0: Rx)
      requires Apart() && Agrees(s0) && s0.phase == PutRing(0) && availIdx == 0 && usedIdx == 0
      modifies this`availIdx, ring
      ensures Agrees(InitSteps(s0, 2 * N_RX_BUFFERS)) && availIdx == N_RX_BUFFERS
      ensures InitSteps(s0, 2 * N_RX_BUFFERS).phase == Notify
    {
      hide InitSteps;
      hide Initialise;
      NoSteps(s0);
      for i := 0 to N_RX_BUFFERS
        invariant availIdx == i && Agrees(InitSteps(s0, 2 * i))
        invariant InitSteps(s0, 2 * i).phase == if i < N_RX_BUFFERS then PutRing(i) else Notify
      {
        PublishSteps(s0, i);
        Publish(i, InitSteps(s0, 2 * i));
      }
    }

    method DescribeAll(ghost s0: Rx)
      requires Apart() && Agrees(InitSteps(s0, 2 * N_RX_BUFFERS + 1))
      requires InitSteps(s0, 2 * N_RX_BUFFERS + 1).phase == PutDesc(0)
      modifies descs
      ensures Agrees(InitSteps(s0, 2 * N_RX_BUFFERS + 1 + N_RX_BUFFERS))
      ensures InitSteps(s0, 2 * N_RX_BUFFERS + 1 + N_RX_BUFFERS).phase == SetDriverOk
    {
      hide InitSteps;
      hide Initialise;
      for i := 0 to N_RX_BUFFERS
        invariant Agrees(InitSteps(s0, 2 * N_RX_BUFFERS + 1 + i))
        invariant InitSteps(s0, 2 * N_RX_BUFFERS + 1 + i).phase == if i < N_RX_BUFFERS then PutDesc(i) else SetDriverOk
      {
        DescribeSteps(s0, i);
        Describe(i, InitSteps(s0, 2 * N_RX_BUFFERS + 1 + i));
      }
    }

    // Every store is one step of the state machine, and the whole leaves its
    // invariant established with the driver idle.
    method InitRx() returns (ghost s: Rx)
      requires Apart() && head == 0
      modifies this`availIdx, this`usedIdx, ring, descs, used
      ensures Agrees(s) && s == InitSteps(Start(base, mem, ring.Length), 2 * N_RX_BUFFERS + 1 + N_RX_BUFFERS + 1)
      ensures Inv(s) && s.phase.Idle? && s.driverOk && availIdx == 16 && usedIdx == 0
      ensures forall i | 0 <= i < 16 :: ring[i] == i && descs[i] == Desc(base + 4096 * i, 4096, 2, 0)
    {
      hide Inv;
      hide InitSteps;
      hide Initialise;
      ZeroQueue();
      ghost var s0 := Start(base, mem, ring.Length);
      StartInv(base, mem, ring.Length);
      PublishAll(s0);
      NotifySteps(s0);
      DescribeAll(s0);
      s := InitSteps(s0, 2 * N_RX_BUFFERS + 1 + N_RX_BUFFERS + 1);
      DoneSteps(s0);
      IdleQueue(s);
    }

    method PutText(s: string)
      requires Apart() && console.Valid() && IsAscii(s)
      modifies console`curLine, console`curPos, console`written, console.buf, console.display.base
      ensures console.Valid() && console.written == old(console.written) + Ascii(s)
    {
      hide Util.Console.Valid;
      console.Puts(Ascii(s));
    }

    method PutByte(i: nat, b: Byte)
      requires Apart() && console.Valid()
      modifies console`curLine, console`curPos, console`written, console.buf, console.display.base
      ensures console.Valid() && console.written == old(console.written) + ByteText(i, b)
    {
      hide Util.Console.Valid;
      hide Padded;
      console.Puth(b, 2);
      if i % 0x10 == 0xF { PutText("\n"); } else { PutText(" "); }
    }

    // What the device does before the n-th access.
    method DeviceTurn(env: nat -> Shared, n: nat, ghost s: Rx, ghost dev: nat -> seq<Event>)
      requires Apart() && Agrees(ReceiveSteps(s, dev, n)) && Finds(s, dev, env)
      modifies this`mem, this`usedIdx, used
      ensures Agrees(Seen(s, dev, n))
    {
      hide ReceiveSteps;
      hide Receive;
      hide Device;
      hide Finds;
      OneStep(s, dev, n);
      var found := env(n);
      FindsAt(s, dev, env, n);
      mem, usedIdx := found.mem, found.usedIdx;
      forall i | 0 <= i < used.Length {
        used[i] := found.used[i];
      }
    }

    // The inner loop, from the first byte to the last that is shown.
    method PutContent(elem: UsedElem, desc: Desc, env: nat -> Shared, ghost s0: Rx, ghost dev: nat -> seq<Event>,
            n0: nat)
      returns (n: nat, ghost shown: seq<Byte>)
      requires Apart() && console.Valid() && Finds(s0, dev, env) && Agrees(ReceiveSteps(s0, dev, n0))
      requires ShowsFirst(ReceiveSteps(s0, dev, n0).phase, elem, desc)
      modifies this`mem, this`usedIdx, used, console`curLine, console`curPos, console`written, console.buf,
               console.display.base
      ensures console.Valid() && Agrees(ReceiveSteps(s0, dev, n))
      ensures var s := ReceiveSteps(s0, dev, n0);
              !MoreToShow(elem, |shown|) && OnlyDevice(s.(phase := s.phase.(k := |shown|, shown := shown)), ReceiveSteps(s0, dev, n))
      ensures console.written == old(console.written) + ContentText(shown)
    {
      hide Util.Console.Valid;
      hide ReceiveSteps;
      hide Seen;
      hide Finds;
      hide ContentText;
      hide ByteText;
      hide Receive;
      n := n0;
      ghost var s := ReceiveSteps(s0, dev, n0);
      shown := [];
      NoContent();
      var i := 0;
      while i + NET_HDR_LEN < elem.len && i < SHOWN_MAX
        invariant console.Valid() && 0 <= i == |shown| && Agrees(ReceiveSteps(s0, dev, n))
        invariant OnlyDevice(s.(phase := s.phase.(k := i, shown := shown)), ReceiveSteps(s0, dev, n))
        invariant console.written == old(console.written) + ContentText(shown)
        decreases SHOWN_MAX - i
      {
        OneStep(s0, dev, n);
        DeviceTurn(env, n, s0, dev);
        ShowMore(Seen(s0, dev, n));
        var b := At(mem, desc.addr + i + NET_HDR_LEN);
        PutByte(i, b);
        ContentMore(shown, b);
        i, n, shown := i + 1, n + 1, shown + [b];
      }
    }

    method PutLength(p: Printed)
      requires Apart() && console.Valid()
      modifies console`curLine, console`curPos, console`written, console.buf, console.display.base
      ensures console.Valid() && console.written == old(console.written) + LengthText(p)
    {
      hide Util.Console.Valid;
      hide Padded;
      hide Ascii;
      Literals();
      PutText(LENGTH_TEXT);
      console.Puth(p.len, 4);
      PutText("\n");
      PutText(CONTENT_TEXT);
    }

    method PutMore(p: Printed)
      requires Apart() && console.Valid()
      modifies console`curLine, console`curPos, console`written, console.buf, console.display.base
      ensures console.Valid() && console.written == old(console.written) + MoreText(p)
    {
      hide Util.Console.Valid;
      hide Ascii;
      Literals();
      if p.more { PutText(MORE_TEXT); }
      PutText("\n");
    }

    // One buffer: its length, its content and whether there is more.
    method PutFrame(elem: UsedElem, desc: Desc, env: nat -> Shared, ghost s0: Rx, ghost dev: nat -> seq<Event>, n0: nat)
      returns (n: nat, ghost p: Printed)
      requires Apart() && console.Valid() && Finds(s0, dev, env) && Agrees(ReceiveSteps(s0, dev, n0))
      requires ShowsFirst(ReceiveSteps(s0, dev, n0).phase, elem, desc)
      modifies this`mem, this`usedIdx, used, console`curLine, console`curPos, console`written, console.buf,
               console.display.base
      ensures console.Valid() && Agrees(ReceiveSteps(s0, dev, n))
      ensures var s := ReceiveSteps(s0, dev, n0);
              OnlyDevice(s.(phase := Scan(s.phase.i + 1, s.phase.idx), log := s.log + [p]), ReceiveSteps(s0, dev, n))
      ensures console.written == old(console.written) + FrameText(p)
      ensures ReadOne(FrameText(p)) == Some((Received(p.len, p.content, p.more), []))
      ensures 10 <= elem.len < 0x1_0000_0000 ==> p.len == elem.len - 10
      ensures p.more <==> elem.len > 256
    {
      hide Util.Console.Valid;
      hide ReceiveSteps;
      hide ReadOne;
      hide FrameText;
      hide Seen;
      hide Finds;
      hide ContentText;
      hide LengthText;
      hide MoreText;
      hide MoreToShow;
      ghost var shown;
      PutLength(PrintOf(elem.len, []));
      n, shown := PutContent(elem, desc, env, s0, dev, n0);
      PutMore(PrintOf(elem.len, []));
      OneStep(s0, dev, n);
      DeviceTurn(env, n, s0, dev);
      p := PrintOf(elem.len, shown);
      n := n + 1;
      SameHeader(elem.len, shown);
      WholeFrame(p);
    }

    // The two reads of one pass of the outer loop.
    method ReadFrame(i: int, idx: int, env: nat -> Shared, ghost s: Rx, ghost dev: nat -> seq<Event>, n0: nat)
      returns (elem: UsedElem, desc: Desc)
      requires Apart() && Finds(s, dev, env) && Inv(s) && !Initialising(s.phase)
      requires Agrees(ReceiveSteps(s, dev, n0)) && ReceiveSteps(s, dev, n0).phase == Scan(i, idx) && i < idx
      modifies this`mem, this`usedIdx, used
      ensures Agrees(ReceiveSteps(s, dev, n0 + 2))
      ensures OnlyDevice(ReceiveSteps(s, dev, n0).(phase := Show(i, idx, elem, desc, 0, [])), ReceiveSteps(s, dev, n0 + 2))
    {
      hide Inv;
      hide ReceiveSteps;
      hide Seen;
      hide Finds;
      OneStep(s, dev, n0);
      OneStep(s, dev, n0 + 1);
      StepsInv(s, dev, n0);
      StepsInv(s, dev, n0 + 1);
      ScanBounds(Seen(s, dev, n0));
      DeviceTurn(env, n0, s, dev);
      elem := used[i % used.Length];
      DeviceTurn(env, n0 + 1, s, dev);
      ReadDescBounds(Seen(s, dev, n0 + 1));
      desc := descs[elem.id];
    }

    // One pass of the outer loop.
    method PutNext(i: int, idx: int, env: nat -> Shared, ghost s: Rx, ghost dev: nat -> seq<Event>, n0: nat)
      returns (n: nat, ghost p: Printed)
      requires Apart() && console.Valid() && Finds(s, dev, env) && Inv(s) && !Initialising(s.phase)
      requires Agrees(ReceiveSteps(s, dev, n0)) && ReceiveSteps(s, dev, n0).phase == Scan(i, idx) && i < idx
      modifies this`mem, this`usedIdx, used, console`curLine, console`curPos, console`written, console.buf,
               console.display.base
      ensures console.Valid() && Agrees(ReceiveSteps(s, dev, n))
      ensures var s1 := ReceiveSteps(s, dev, n0);
              OnlyDevice(s1.(phase := Scan(i + 1, idx), log := s1.log + [p]), ReceiveSteps(s, dev, n))
      ensures console.written == old(console.written) + FrameText(p)
    {
      hide Inv;
      hide Util.Console.Valid;
      hide FrameText;
      hide ReceiveSteps;
      hide Receive;
      hide Finds;
      var elem, desc := ReadFrame(i, idx, env, s, dev, n0);
      n, p := PutFrame(elem, desc, env, s, dev, n0 + 2);
    }

    // The outer loop.
    method PutNew(idx: int, env: nat -> Shared, ghost s: Rx, ghost dev: nat -> seq<Event>, n0: nat)
      returns (n: nat, ghost ps: seq<Printed>)
      requires Apart() && console.Valid() && Finds(s, dev, env) && Inv(s) && !Initialising(s.phase) && head <= idx
      requires Agrees(ReceiveSteps(s, dev, n0)) && ReceiveSteps(s, dev, n0).phase == Scan(head, idx)
      modifies this`mem, this`usedIdx, used, console`curLine, console`curPos, console`written, console.buf,
               console.display.base
      ensures console.Valid() && Agrees(ReceiveSteps(s, dev, n))
      ensures var s1 := ReceiveSteps(s, dev, n0);
              OnlyDevice(s1.(phase := Scan(idx, idx), log := s1.log + ps), ReceiveSteps(s, dev, n))
      ensures console.written == old(console.written) + LogText(ps)
    {
      hide Inv;
      hide Util.Console.Valid;
      hide FrameText;
      hide ReceiveSteps;
      hide Receive;
      hide LogText;
      hide Finds;
      n := n0;
      ghost var s1 := ReceiveSteps(s, dev, n0);
      ps := [];
      NoLog();
      var i := head;
      while i < idx
        invariant console.Valid() && s1.head <= i <= idx && Agrees(ReceiveSteps(s, dev, n))
        invariant OnlyDevice(s1.(phase := Scan(i, idx), log := s1.log + ps), ReceiveSteps(s, dev, n))
        invariant console.written == old(console.written) + LogText(ps)
      {
        ghost var p;
        n, p := PutNext(i, idx, env, s, dev, n);
        LogMore(ps, p);
        i, ps := i + 1, ps + [p];
      }
    }

    // The wait, and the second read of the index. It ends if the index moves;
    // `moved` is an access that finds it so.
    method Wait(env: nat -> Shared, ghost s: Rx, ghost dev: nat -> seq<Event>, ghost moved: nat) returns (n: nat,
            idx: int)
      requires Apart() && Finds(s, dev, env) && Inv(s) && s.phase.Idle? && Agrees(s)
      requires moved >= 1 && env(moved).usedIdx != head
      modifies this`mem, this`usedIdx, used
      ensures Agrees(ReceiveSteps(s, dev, n)) && s.head < idx
      ensures OnlyDevice(s.(phase := Scan(s.head, idx)), ReceiveSteps(s, dev, n))
    {
      hide Inv;
      hide ReceiveSteps;
      hide Seen;
      hide Receive;
      hide Finds;
      NoStep(s, dev);
      OneStep(s, dev, 0);
      PollStep(Seen(s, dev, 0));
      DeviceTurn(env, 0, s, dev);
      n := 1;
      while true
        invariant 1 <= n <= moved && Agrees(ReceiveSteps(s, dev, n))
        invariant OnlyDevice(s.(phase := Poll), ReceiveSteps(s, dev, n))
        decreases moved - n
      {
        OneStep(s, dev, n);
        PollStep(Seen(s, dev, n));
        FindsAt(s, dev, env, n);
        DeviceTurn(env, n, s, dev);
        n := n + 1;
        if usedIdx != head {
          break;
        }
      }
      StepsInv(s, dev, n);
      OneStep(s, dev, n);
      PollStep(Seen(s, dev, n));
      DeviceTurn(env, n, s, dev);
      ReadIdxBounds(Seen(s, dev, n));
      idx := usedIdx;
      n := n + 1;
    }

    // receive_packet, with the device running before every access. It prints
    // every buffer completed since the last call when it read the index, once,
    // in used-ring order, as the device handed it over, and so does the state
    // machine.
    method ReceivePacket(env: nat -> Shared, ghost s: Rx, ghost dev: nat -> seq<Event>, ghost moved: nat)
      returns (n: nat, ghost ps: seq<Printed>)
      requires Apart() && console.Valid() && Finds(s, dev, env) && Agrees(s) && Inv(s) && s.phase.Idle?
      requires moved >= 1 && env(moved).usedIdx != head
      modifies this`head, this`mem, this`usedIdx, used, console`curLine, console`curPos, console`written,
               console.buf, console.display.base
      ensures console.Valid() && Agrees(ReceiveSteps(s, dev, n)) && Inv(ReceiveSteps(s, dev, n))
               && ReceiveSteps(s, dev, n).phase.Idle?
      ensures NewlyPrinted(s, ReceiveSteps(s, dev, n), ps)
      ensures console.written == old(console.written) + LogText(ps)
      ensures |HandedOver(s, ReceiveSteps(s, dev, n))| == head - s.head > 0
      ensures Reports(LogText(ps), HandedOver(s, ReceiveSteps(s, dev, n)))
    {
      hide Inv;
      hide Util.Console.Valid;
      hide ReceiveSteps;
      hide Receive;
      hide Seen;
      hide Reports;
      hide HandedOver;
      hide LogText;
      hide AsPrinted;
      hide Finds;
      HeadStarts(s);
      var idx;
      n, idx := Wait(env, s, dev, moved);
      n, ps := PutNew(idx, env, s, dev, n);
      DeviceTurn(env, n, s, dev);
      Finished(s, dev, n, idx, ps);
      head := idx;
      n := n + 1;
      NewReports(s, ReceiveSteps(s, dev, n), ps);
    }
  }
}
