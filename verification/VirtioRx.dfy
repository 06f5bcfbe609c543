// The receive queue of kernel/virtio.c as driver and device steps over shared
// memory: initialisation, then any number of receive_packet calls, with the
// device running between any two accesses of the driver.
module VirtioRx {
  import opened Bytes
  import Bits

  const N_RX_BUFFERS: int := 16
  const BUFFER_LEN: int := 0x1000
  const NET_HDR_LEN: int := 10 // sizeof(virtio_net_hdr)
  const SHOWN_MAX: int := 0x100
  const DESC_F_WRITE: int := 2

  datatype Desc = Desc(addr: int, len: int, flags: int, next: int)
  datatype UsedElem = UsedElem(id: int, len: int)

  // A buffer as the device handed it over.
  datatype Completion = Completion(id: int, data: seq<Byte>)

  // What receive_packet prints for one buffer: its length, which is an
  // unsigned 64-bit difference, up to 256 bytes, and whether it adds "(more)".
  datatype Printed = Printed(len: Word, content: seq<Byte>, more: bool)

  function PrintOf(len: int, content: seq<Byte>): Printed {
    Printed((len - NET_HDR_LEN) % Bits.U64_LEN, content, len > SHOWN_MAX)
  }

  datatype Phase =
    | PutRing(i: int) | BumpIdx(i: int) | Notify | PutDesc(i: int) | SetDriverOk
    | Idle | Poll | ReadIdx
    | Scan(i: int, idx: int) | ReadDesc(i: int, idx: int, elem: UsedElem)
    | Show(i: int, idx: int, elem: UsedElem, desc: Desc, k: int, shown: seq<Byte>)

  // base is the address of rx_buffer. taken, inflight and history belong to the
  // device and to the specification; log is what has been printed.
  datatype Rx = Rx(
    base: int, mem: Mem, phase: Phase, driverOk: bool,
    ring: seq<int>, availIdx: int, descs: seq<Desc>, used: seq<UsedElem>, usedIdx: int, head: int,
    taken: int, inflight: set<int>, history: seq<Completion>, log: seq<Printed>)

  function RxDesc(base: int, i: int): Desc { Desc(base + BUFFER_LEN * i, BUFFER_LEN, DESC_F_WRITE, 0) }

  // After the two zeroing loops.
  function Start(base: int, mem: Mem, q: nat): Rx {
    Rx(base, mem, PutRing(0), false, seq(q, _ => 0), 0, seq(q, _ => Desc(0, 0, 0, 0)), seq(q, _ => UsedElem(0, 0)), 0, 0,
       0, {}, [], [])
  }

  // --- the driver: one shared access per step ---

  predicate MoreToShow(elem: UsedElem, k: int) { k + NET_HDR_LEN < elem.len && k < SHOWN_MAX }

  // The receive path; `calls` is whether an idle driver calls receive_packet.
  function Receive(s: Rx, calls: bool): Rx {
    match s.phase
    case Idle => if calls then s.(phase := Poll) else s
    case Poll => if s.usedIdx == s.head then s else s.(phase := ReadIdx)
    case ReadIdx => s.(phase := Scan(s.head, s.usedIdx))
    case Scan(i, idx) =>
      if i >= idx then s.(head := idx, phase := Idle)
      else if 0 <= i && s.used != [] then s.(phase := ReadDesc(i, idx, s.used[i % |s.used|])) else s
    case ReadDesc(i, idx, elem) =>
      if 0 <= elem.id < |s.descs| then s.(phase := Show(i, idx, elem, s.descs[elem.id], 0, [])) else s
    case Show(i, idx, elem, desc, k, shown) =>
      if MoreToShow(elem, k) then
        s.(phase := Show(i, idx, elem, desc, k + 1, shown + [At(s.mem, desc.addr + k + NET_HDR_LEN)]))
      else s.(log := s.log + [PrintOf(elem.len, shown)], phase := Scan(i + 1, idx))
    case _ => s
  }

  predicate Initialising(p: Phase) { p.PutRing? || p.BumpIdx? || p.Notify? || p.PutDesc? || p.SetDriverOk? }

  // init_virtio_net from the first store to the available ring: the indices
  // are published and notified before the descriptors are written.
  function Initialise(s: Rx): Rx {
    match s.phase
    case PutRing(i) =>
      if 0 <= s.availIdx < |s.ring| then s.(ring := s.ring[s.availIdx := i], phase := BumpIdx(i)) else s
    case BumpIdx(i) => s.(availIdx := s.availIdx + 1, phase := if i + 1 < N_RX_BUFFERS then PutRing(i + 1) else Notify)
    case Notify => s.(phase := PutDesc(0))
    case PutDesc(i) =>
      if 0 <= i < |s.descs| then
        s.(descs := s.descs[i := RxDesc(s.base, i)], phase := if i + 1 < N_RX_BUFFERS then PutDesc(i + 1) else SetDriverOk)
      else s
    case SetDriverOk => s.(driverOk := true, phase := Idle)
    case _ => s
  }

  // --- the device ---

  datatype Event =
    | DriverStep(calls: bool)
    | Take                                  // take the next available buffer
    | Fill(id: int, offset: int, b: Byte)   // write one byte of a taken buffer
    | Complete(id: int, len: int)           // hand a taken buffer back

  function Contents(m: Mem, a: int, n: nat): (s: seq<Byte>)
    ensures |s| == n && forall k :: 0 <= k < n ==> s[k] == At(m, a + k)
  {
    seq<Byte>(n, k requires 0 <= k < n => At(m, a + k))
  }

  // A device waits for DRIVER_OK (VIRTIO 1.1, section 2.1.2), takes published
  // entries in order, writes only device-writable buffers it holds, and hands
  // each back once, in any order.
  ghost predicate Enabled(s: Rx, e: Event) {
    match e
    case DriverStep(_) => true
    case Take => s.driverOk && s.taken < s.availIdx && s.ring != []
    case Fill(id, offset, _) =>
      id in s.inflight && 0 <= id < |s.descs| && s.descs[id].flags == DESC_F_WRITE && 0 <= offset < s.descs[id].len
    case Complete(id, len) => id in s.inflight && 0 <= id < |s.descs| && 0 <= len <= s.descs[id].len && s.used != []
  }

  function Next(s: Rx, e: Event): Rx
    requires Enabled(s, e)
  {
    match e
    case DriverStep(calls) => if Initialising(s.phase) then Initialise(s) else Receive(s, calls)
    case Take => s.(inflight := s.inflight + {s.ring[s.taken % |s.ring|]}, taken := s.taken + 1)
    case Fill(id, offset, b) => s.(mem := s.mem[s.descs[id].addr + offset := b])
    case Complete(id, len) =>
      s.(used := s.used[s.usedIdx % |s.used| := UsedElem(id, len)], usedIdx := s.usedIdx + 1, inflight := s.inflight - {id},
         history := s.history + [Completion(id, Contents(s.mem, s.descs[id].addr, len))])
  }

  // --- what every step keeps ---

  // How many indices are published and how many descriptors written.
  function Published(p: Phase): int {
    match p
    case PutRing(i) => i case BumpIdx(i) => i case _ => N_RX_BUFFERS
  }

  function Described(p: Phase): int {
    match p
    case PutDesc(i) => i
    case _ => if p.PutRing? || p.BumpIdx? || p.Notify? then 0 else N_RX_BUFFERS
  }

  ghost predicate QueueOk(s: Rx) {
    && |s.ring| == |s.descs| == |s.used| && |s.ring| >= N_RX_BUFFERS
    && s.availIdx == Published(s.phase) && 0 <= s.availIdx <= N_RX_BUFFERS
    && (forall j :: 0 <= j < s.availIdx ==> s.ring[j] == j)
    && (s.phase.PutRing? || s.phase.BumpIdx? || s.phase.PutDesc? ==> 0 <= s.phase.i < N_RX_BUFFERS)
    && (s.phase.BumpIdx? ==> s.ring[s.phase.i] == s.phase.i)
    && (forall j :: 0 <= j < Described(s.phase) ==> s.descs[j] == RxDesc(s.base, j))
    && s.driverOk == !Initialising(s.phase)
  }

  // Each buffer the device has taken is either still with it or was handed
  // back exactly once.
  ghost predicate IdsOk(s: Rx) {
    && 0 <= s.usedIdx <= s.taken <= s.availIdx && |s.history| == s.usedIdx
    && (!s.driverOk ==> s.taken == 0)
    && (forall id :: id in s.inflight ==> 0 <= id < s.taken)
    && (forall j :: 0 <= j < s.usedIdx ==> 0 <= s.history[j].id < s.taken && s.history[j].id !in s.inflight)
    && (forall i, j :: 0 <= i < j < s.usedIdx ==> s.history[i].id != s.history[j].id)
    && |s.inflight| + s.usedIdx == s.taken
  }

  // The used ring names what was handed back, and it is still in memory.
  ghost predicate Holds(m: Mem, base: int, c: Completion) {
    |c.data| <= BUFFER_LEN && forall k :: 0 <= k < |c.data| ==> At(m, base + BUFFER_LEN * c.id + k) == c.data[k]
  }

  ghost predicate DataOk(s: Rx) {
    && s.usedIdx == |s.history| <= |s.used|
    && (forall j :: 0 <= j < s.usedIdx ==> s.used[j] == UsedElem(s.history[j].id, |s.history[j].data|))
    && (forall j :: 0 <= j < s.usedIdx ==> Holds(s.mem, s.base, s.history[j]))
  }

  ghost predicate DeviceOk(s: Rx) { IdsOk(s) && DataOk(s) }

  // The part of a buffer that is printed.
  function ShownLen(len: int): int {
    if len <= NET_HDR_LEN then 0 else if len - NET_HDR_LEN < SHOWN_MAX then len - NET_HDR_LEN else SHOWN_MAX
  }

  function Shown(data: seq<Byte>, k: int): seq<Byte>
    requires k == 0 || 0 < NET_HDR_LEN + k <= |data|
  {
    if k <= 0 then [] else data[NET_HDR_LEN..NET_HDR_LEN + k]
  }

  function AsPrinted(c: Completion): Printed {
    PrintOf(|c.data|, Shown(c.data, ShownLen(|c.data|)))
  }

  // How many completed buffers have been printed.
  function Processed(s: Rx): int {
    match s.phase
    case Scan(i, _) => i case ReadDesc(i, _, _) => i case Show(i, _, _, _, _, _) => i
    case _ => s.head
  }

  ghost predicate PhaseOk(s: Rx)
    requires QueueOk(s) && DeviceOk(s) && 0 <= s.head
  {
    match s.phase
    case ReadIdx => s.head < s.usedIdx
    case Scan(i, idx) => s.head <= i <= idx <= s.usedIdx
    case ReadDesc(i, idx, elem) =>
      s.head <= i < idx <= s.usedIdx && elem == UsedElem(s.history[i].id, |s.history[i].data|)
    case Show(i, idx, elem, desc, k, shown) =>
      && s.head <= i < idx <= s.usedIdx && elem == UsedElem(s.history[i].id, |s.history[i].data|)
      && desc == RxDesc(s.base, elem.id) && 0 <= k <= ShownLen(elem.len)
      && shown == Shown(s.history[i].data, k)
    case _ => true
  }

  ghost predicate Inv(s: Rx) {
    && QueueOk(s) && DeviceOk(s) && 0 <= s.head <= s.usedIdx && PhaseOk(s)
    && |s.log| == Processed(s)
    && (forall j :: 0 <= j < |s.log| ==> s.log[j] == AsPrinted(s.history[j]))
  }

  lemma StartInv(base: int, mem: Mem, q: nat)
    requires q >= N_RX_BUFFERS
    ensures Inv(Start(base, mem, q))
  {}

  lemma InitialiseInv(s: Rx)
    requires Inv(s) && Initialising(s.phase)
    ensures Inv(Initialise(s))
  {}

  // The driver's own steps leave the queue and the device alone.
  lemma DriverOnly(s: Rx, s': Rx)
    requires QueueOk(s) && DeviceOk(s) && !Initialising(s.phase) && !Initialising(s'.phase)
    requires s' == s.(phase := s'.phase, head := s'.head, log := s'.log)
    ensures QueueOk(s') && DeviceOk(s')
  {}

  // One more byte, read from memory, of a buffer that was handed back.
  lemma ShownMore(s: Rx, i: int, k: int)
    requires DeviceOk(s) && 0 <= i < s.usedIdx && 0 <= k && k + NET_HDR_LEN < |s.history[i].data|
    ensures var c := s.history[i];
            Shown(c.data, k + 1) == Shown(c.data, k) + [At(s.mem, s.base + BUFFER_LEN * c.id + k + NET_HDR_LEN)]
  {
    hide IdsOk;
    var c := s.history[i];
    assert Holds(s.mem, s.base, c);
    assert At(s.mem, s.base + BUFFER_LEN * c.id + (k + NET_HDR_LEN)) == c.data[k + NET_HDR_LEN];
  }

  lemma ShowInv(s: Rx)
    requires Inv(s) && s.phase.Show?
    ensures Inv(Receive(s, false))
  {
    hide QueueOk;
    hide DeviceOk;
    hide Shown;
    DriverOnly(s, Receive(s, false));
    DriverSizes(s);
    if MoreToShow(s.phase.elem, s.phase.k) {
      ShownMore(s, s.phase.i, s.phase.k);
    }
  }

  lemma ReceiveInv(s: Rx, calls: bool)
    requires Inv(s) && !Initialising(s.phase)
    ensures Inv(Receive(s, calls))
  {
    hide QueueOk;
    hide DeviceOk;
    hide PrintOf;
    DriverSizes(s);
    if s.phase.Show? {
      ShowInv(s);
    } else {
      DriverOnly(s, Receive(s, calls));
    }
  }

  // What the receive path needs to know about the queue.
  lemma DriverSizes(s: Rx)
    requires QueueOk(s) && DeviceOk(s) && !Initialising(s.phase)
    ensures 0 < |s.used| && s.usedIdx == |s.history| <= |s.used| == |s.descs|
    ensures forall j :: 0 <= j < s.usedIdx ==>
              && j % |s.used| == j && s.used[j] == UsedElem(s.history[j].id, |s.history[j].data|)
              && 0 <= s.history[j].id < |s.descs| && s.descs[s.history[j].id] == RxDesc(s.base, s.history[j].id)
  {
    hide Holds;
  }

  // Entries are taken in order, and entry number j of the ring is buffer j.
  lemma TakeNext(s: Rx)
    requires QueueOk(s) && Enabled(s, Take) && 0 <= s.taken
    ensures Next(s, Take) == s.(inflight := s.inflight + {s.taken}, taken := s.taken + 1)
    ensures QueueOk(Next(s, Take))
  {
    Bits.DivMod(s.taken, |s.ring|, 0, s.taken);
  }

  lemma TakeIds(s: Rx)
    requires IdsOk(s) && s.driverOk && s.taken < s.availIdx
    ensures IdsOk(s.(inflight := s.inflight + {s.taken}, taken := s.taken + 1)) && s.taken !in s.inflight
    ensures forall j :: 0 <= j < |s.history| ==> s.history[j].id != s.taken
  {}

  lemma TakeInv(s: Rx)
    requires Inv(s) && Enabled(s, Take)
    ensures Inv(Next(s, Take))
  {
    hide QueueOk;
    hide IdsOk;
    hide Holds;
    hide AsPrinted;
    IdsBounds(s);
    TakeNext(s);
    TakeIds(s);
  }

  lemma IdsBounds(s: Rx)
    requires IdsOk(s)
    ensures 0 <= s.usedIdx <= s.taken <= s.availIdx
  {}

  // A write to a buffer that the device holds is in none it has handed back.
  lemma FillKeeps(s: Rx, id: int, offset: int, b: Byte, j: int)
    requires QueueOk(s) && DeviceOk(s) && Enabled(s, Fill(id, offset, b)) && 0 <= j < s.usedIdx
    ensures Holds(s.mem[s.descs[id].addr + offset := b], s.base, s.history[j])
  {
    assert s.descs[id] == RxDesc(s.base, id);
    var c := s.history[j];
    assert Holds(s.mem, s.base, c) && c.id != id;
  }

  lemma FillInv(s: Rx, e: Event)
    requires Inv(s) && e.Fill? && Enabled(s, e)
    ensures Inv(Next(s, e))
  {
    hide Holds;
    hide Shown;
    forall j | 0 <= j < s.usedIdx ensures Holds(Next(s, e).mem, s.base, s.history[j]) {
      FillKeeps(s, e.id, e.offset, e.b, j);
    }
  }

  function HandedBack(s: Rx, id: int, len: nat): Completion
    requires 0 <= id < |s.descs|
  {
    Completion(id, Contents(s.mem, s.descs[id].addr, len))
  }

  lemma CompleteIds(s: Rx, e: Event)
    requires IdsOk(s) && e.Complete? && Enabled(s, e)
    ensures s.usedIdx < s.taken && IdsOk(Next(s, e))
  {
    hide Contents;
    var s' := Next(s, e);
    assert |s.inflight| > 0;
    assert s'.history == s.history + [HandedBack(s, e.id, e.len)];
  }

  // What the buffer holds when it is handed back is what the history records.
  lemma CompleteHolds(s: Rx, e: Event)
    requires QueueOk(s) && IdsOk(s) && e.Complete? && Enabled(s, e)
    ensures Holds(s.mem, s.base, HandedBack(s, e.id, e.len))
  {
    assert s.descs[e.id] == RxDesc(s.base, e.id);
  }

  lemma CompleteData(s: Rx, e: Event)
    requires QueueOk(s) && DeviceOk(s) && e.Complete? && Enabled(s, e) && s.usedIdx < s.taken
    ensures DataOk(Next(s, e))
  {
    hide Contents;
    hide Holds;
    CompleteHolds(s, e);
    Appended(s, HandedBack(s, e.id, e.len));
  }

  lemma Appended(s: Rx, c: Completion)
    requires DataOk(s) && s.usedIdx < |s.used| && Holds(s.mem, s.base, c)
    ensures DataOk(s.(used := s.used[s.usedIdx % |s.used| := UsedElem(c.id, |c.data|)], usedIdx := s.usedIdx + 1,
                      history := s.history + [c]))
  {
    hide Holds;
    assert s.usedIdx % |s.used| == s.usedIdx;
  }

  lemma CompleteInv(s: Rx, e: Event)
    requires Inv(s) && e.Complete? && Enabled(s, e)
    ensures Inv(Next(s, e))
  {
    hide Contents;
    hide Shown;
    hide Holds;
    CompleteIds(s, e);
    CompleteData(s, e);
    var s', c := Next(s, e), HandedBack(s, e.id, e.len);
    assert s'.history == s.history + [c];
    assert forall j :: 0 <= j < s.usedIdx ==> s'.history[j] == s.history[j];
    assert QueueOk(s');
    hide IdsOk;
    hide DataOk;
  }

  lemma NextInv(s: Rx, e: Event)
    requires Inv(s) && Enabled(s, e)
    ensures Inv(Next(s, e))
  {
    hide Inv;
    match e
    case DriverStep(calls) => if Initialising(s.phase) { InitialiseInv(s); } else { ReceiveInv(s, calls); }
    case Take => TakeInv(s);
    case Fill(_, _, _) => FillInv(s, e);
    case Complete(_, _) => CompleteInv(s, e);
  }

  // --- whole runs ---

  ghost predicate Run(ss: seq<Rx>, es: seq<Event>) {
    |ss| == |es| + 1 && forall k :: 0 <= k < |es| ==> Enabled(ss[k], es[k]) && ss[k + 1] == Next(ss[k], es[k])
  }

  lemma {:induction false} RunInv(ss: seq<Rx>, es: seq<Event>, k: nat)
    requires Run(ss, es) && Inv(ss[0]) && k <= |es|
    ensures Inv(ss[k])
    decreases k
  {
    hide Inv;
    hide Enabled;
    hide Next;
    if k == 0 {
    } else {
      RunInv(ss, es, k - 1);
      NextInv(ss[k - 1], es[k - 1]);
    }
  }

  // Exactly once, in used-ring order, in every interleaving: what has been
  // printed is what the device handed back, buffer by buffer, each buffer at
  // most once; and when receive_packet is not running, everything up to
  // receive_head has been printed and nothing else.
  lemma ExactlyOnce(base: int, mem: Mem, q: nat, ss: seq<Rx>, es: seq<Event>)
    requires q >= N_RX_BUFFERS && Run(ss, es) && ss[0] == Start(base, mem, q)
    ensures var s := ss[|es|];
            && 0 <= s.head <= s.usedIdx <= s.availIdx <= 16 <= |s.ring|
            && |s.log| <= s.usedIdx == |s.history|
            && (forall j :: 0 <= j < |s.log| ==> s.log[j] == AsPrinted(s.history[j]))
            && (forall i, j :: 0 <= i < j < |s.history| ==> s.history[i].id != s.history[j].id)
            && (s.phase.Idle? ==> |s.log| == s.head)
  {
    StartInv(base, mem, q);
    RunInv(ss, es, |es|);
  }

  // The DRIVER_OK gate suffices: in every interleaving each buffer that the
  // device takes has an initialised, device-writable descriptor for a
  // 4096-byte buffer of its own.
  lemma TakenDescribed(base: int, mem: Mem, q: nat, ss: seq<Rx>, es: seq<Event>, k: nat)
    requires q >= N_RX_BUFFERS && Run(ss, es) && ss[0] == Start(base, mem, q)
    requires k < |es| && es[k].Take?
    ensures var s, s' := ss[k], ss[k + 1];
            && s.taken !in s.inflight && s'.inflight == s.inflight + {s.taken} && HeldDescribed(s')
            && forall j :: 0 <= j < |s.history| ==> s.history[j].id != s.taken
  {
    hide Inv;
    StartInv(base, mem, q);
    RunInv(ss, es, k);
    assert Enabled(ss[k], es[k]) && ss[k + 1] == Next(ss[k], es[k]);
    TakeDescribed(ss[k]);
  }

  // What the device holds: for each buffer a descriptor that is writable and not
  // chained, for exactly the 4096 bytes of that buffer in rx_buffer, so that any
  // length up to 4096 can be handed back.
  ghost predicate HeldDescribed(s: Rx) {
    && (forall id :: id in s.inflight ==> 0 <= id < 16 && id < |s.descs|)
    && (forall id :: id in s.inflight ==>
          && s.descs[id].addr == s.base + 4096 * id && s.descs[id].len == 4096
          && s.descs[id].flags / 2 % 2 == 1 && s.descs[id].flags % 2 == 0
          && s.base <= s.descs[id].addr && s.descs[id].addr + s.descs[id].len <= s.base + 0x1_0000)
    && (forall i, j :: i in s.inflight && j in s.inflight && i < j ==>
          s.descs[i].addr + s.descs[i].len <= s.descs[j].addr)
    && (forall id, n :: id in s.inflight && 0 <= n <= 4096 ==> Enabled(s, Complete(id, n)))
  }

  lemma InflightDescribed(s: Rx)
    requires QueueOk(s) && IdsOk(s) && s.driverOk
    ensures HeldDescribed(s)
  {}

  lemma TakeDescribed(s: Rx)
    requires Inv(s) && Enabled(s, Take)
    ensures Next(s, Take).inflight == s.inflight + {s.taken} && s.taken !in s.inflight
    ensures HeldDescribed(Next(s, Take))
    ensures forall j :: 0 <= j < |s.history| ==> s.history[j].id != s.taken
  {
    hide QueueOk;
    hide IdsOk;
    hide DataOk;
    hide PhaseOk;
    hide AsPrinted;
    hide HeldDescribed;
    IdsBounds(s);
    TakeNext(s);
    TakeIds(s);
    InflightDescribed(Next(s, Take));
  }

  // The note that there is more is right unless the length is 257 to 266: then
  // all of the frame has been shown.
  lemma MoreIsRightIff(c: Completion)
    requires |c.data| <= BUFFER_LEN
    ensures (AsPrinted(c).more <==> 10 + |AsPrinted(c).content| < |c.data|)
            <==> !(257 <= |c.data| <= 266)
  {}
}
