// send_packet of kernel/virtio.c: the frame it builds in tx_buffer and the
// descriptor it offers to the device.
module VirtioTx {
  import opened Bytes
  import opened VirtioRx
  import opened VirtqLayout
  import opened Wrappers
  import Bits

  const ETH_HDR_LEN: int := 14 // sizeof(ethernet_frame)
  const HEAD_LEN: int := NET_HDR_LEN + ETH_HDR_LEN

  type Int32 = x: int | -0x8000_0000 <= x < 0x8000_0000
  type U16 = x: int | 0 <= x < 0x1_0000
  type Mac = s: seq<Byte> | |s| == 6 witness [0, 0, 0, 0, 0, 0]

  // The ASSERT: the sizes make the sum an unsigned 64-bit number.
  predicate Accepted(len: Int32) { (len + ETH_HDR_LEN + NET_HDR_LEN) % Bits.U64_LEN <= BUFFER_LEN }

  // A negative length is let through when the two headers make up for it.
  lemma AcceptedIff(len: Int32)
    ensures Accepted(len) <==> -24 <= len <= 4072
  {
    if len + HEAD_LEN < 0 {
      Bits.DivMod(len + HEAD_LEN, Bits.U64_LEN, -1, len + HEAD_LEN + Bits.U64_LEN);
    } else {
      Bits.DivMod(len + HEAD_LEN, Bits.U64_LEN, 0, len + HEAD_LEN);
    }
  }

  // A u16 in memory.
  function Le16(x: int): (s: seq<Byte>)
    ensures |s| == 2
  {
    [x % 256, x / 256 % 256]
  }

  function NetHdr(len: Int32): (s: seq<Byte>)
    ensures |s| == NET_HDR_LEN
  {
    [0, 0] + Le16(HEAD_LEN + len) + [0, 0, 0, 0, 0, 0]
  }

  function Head(len: Int32, src: Mac, dst: Mac): seq<Byte> { NetHdr(len) + dst + src + Le16(len) }

  // What the copying loop takes.
  function Payload(data: seq<Byte>, len: int): seq<Byte>
    requires len <= |data|
  {
    if len <= 0 then [] else data[..len]
  }

  // --- the receiving end ---

  datatype Packet = Packet(
    flags: Byte, gsoType: Byte, hdrLen: int, gsoSize: int, csumStart: int, csumOffset: int,
    dst: seq<Byte>, src: seq<Byte>, etherType: int, data: seq<Byte>)

  function ReadLe16(b: seq<Byte>, k: nat): int
    requires k + 2 <= |b|
  {
    var lo: int, hi: int := b[k], b[k + 1];
    lo + 256 * hi
  }

  // Clause 3.2.6 of IEEE 802.3 sends the high-order byte first.
  function ReadBe16(b: seq<Byte>, k: nat): int
    requires k + 2 <= |b|
  {
    var hi: int, lo: int := b[k], b[k + 1];
    256 * hi + lo
  }

  // What the n bytes of a transmit buffer hold, if they hold both headers.
  function ParsePacket(b: seq<Byte>, n: int): Option<Packet>
    requires n <= |b|
  {
    if n < 24 then None
    else Some(Packet(b[0], b[1], ReadLe16(b, 2), ReadLe16(b, 4), ReadLe16(b, 6), ReadLe16(b, 8),
                     b[10..16], b[16..22], ReadLe16(b, 22), b[24..n]))
  }

  lemma Le16Reads(x: U16)
    ensures ReadLe16(Le16(x), 0) == x
  {}

  lemma HeadReads(len: Int32, src: Mac, dst: Mac)
    requires 0 <= len <= BUFFER_LEN - HEAD_LEN
    ensures var h := Head(len, src, dst);
            && h[0] == h[1] == 0 && ReadLe16(h, 2) == HEAD_LEN + len
            && ReadLe16(h, 4) == ReadLe16(h, 6) == ReadLe16(h, 8) == 0
            && h[10..16] == dst && h[16..22] == src && ReadLe16(h, 22) == len
  {
    Le16Reads(HEAD_LEN + len);
    Le16Reads(len);
  }

  // What is offered to the device reads back as what was passed in, exactly
  // when the length is not negative.
  lemma PacketRoundTrip(data: seq<Byte>, len: Int32, src: Mac, dst: Mac, rest: seq<Byte>)
    requires Accepted(len) && len <= |data|
    ensures |Payload(data, len)| == (if len < 0 then 0 else len)
    ensures var sent := ParsePacket(Head(len, src, dst) + Payload(data, len) + rest, HEAD_LEN + len);
            if len < 0 then sent == None
            else sent == Some(Packet(0, 0, HEAD_LEN + len, 0, 0, 0, dst, src, len, data[..len]))
  {
    hide Accepted;
    hide NetHdr;
    AcceptedIff(len);
    if len >= 0 {
      HeadReads(len, src, dst);
      var h := Head(len, src, dst);
      var b := h + data[..len] + rest;
      assert forall k :: 0 <= k < HEAD_LEN ==> b[k] == h[k];
      assert b[10..16] == dst && b[16..22] == src && b[24..24 + len] == data[..len];
    }
  }

  // The length is stored low byte first, so a station that reads the field in
  // network order sees it exactly when its two bytes are equal.
  lemma NetworkOrderIff(data: seq<Byte>, len: Int32, src: Mac, dst: Mac)
    requires 0 <= len <= BUFFER_LEN - HEAD_LEN && len <= |data|
    ensures ReadBe16(Head(len, src, dst) + Payload(data, len), NET_HDR_LEN + 12) == len <==> len / 256 == len % 256
  {
    var b, h := Head(len, src, dst) + Payload(data, len), Head(len, src, dst);
    assert b[22] == h[22] == len % 256 && b[23] == h[23] == len / 256;
  }

  // The parts, each in its place, make up the buffer.
  lemma Assembled(b: seq<Byte>, b': seq<Byte>, data: seq<Byte>, len: Int32, src: Mac, dst: Mac)
    requires |b| == |b'| == BUFFER_LEN && len <= BUFFER_LEN - HEAD_LEN && len <= |data|
    requires forall k | 0 <= k < BUFFER_LEN :: b'[k] ==
               if 24 <= k < 24 + len then data[k - 24]
               else if 22 <= k < 24 then Le16(len)[k - 22]
               else if 10 <= k < 16 then dst[k - 10]
               else if 16 <= k < 22 then src[k - 16]
               else if k < 10 then NetHdr(len)[k]
               else b[k]
    ensures |Payload(data, len)| <= BUFFER_LEN - HEAD_LEN
    ensures b' == Head(len, src, dst) + Payload(data, len) + b[HEAD_LEN + |Payload(data, len)|..]
  {
    hide Le16;
    hide NetHdr;
    var h, p := Head(len, src, dst), Payload(data, len);
    assert forall k | 0 <= k < HEAD_LEN :: b'[k] == h[k];
    assert b'[..HEAD_LEN] == h;
    assert b'[HEAD_LEN..HEAD_LEN + |p|] == p;
  }

  // --- the queue in memory ---

  function StoreDesc(m: Mem, a: int, d: Desc): Mem
    requires 0 <= d.addr && 0 <= d.len && 0 <= d.flags && 0 <= d.next
  {
    Store(Store(Store(Store(m, a, 8, d.addr), a + 8, 4, d.len), a + 12, 2, d.flags), a + 14, 2, d.next)
  }

  function LoadDesc(m: Mem, a: int): Desc { Desc(Load(m, a, 8), Load(m, a + 8, 4), Load(m, a + 12, 2), Load(m,
          a + 14, 2)) }

  const IDX: int := 2

  function IdxAddr(q: nat): int { VIRTQ_TX + AvailStart(q) + IDX }
  function SlotAddr(q: nat, k: nat): int { VIRTQ_TX + AvailSlot(q, k) }

  // The descriptor, the ring entry at the unreduced index, and the index.
  function Offer(m: Mem, q: nat, d: Desc): Mem
    requires 0 <= d.addr && 0 <= d.len && 0 <= d.flags && 0 <= d.next
  {
    var idx := Load(m, IdxAddr(q), 2);
    var m1 := StoreDesc(m, VIRTQ_TX, d);
    Store(Store(m1, IdxAddr(q), 2, (idx + 1) % 0x1_0000), SlotAddr(q, idx), 2, 0)
  }

  lemma LoadApart(m: Mem, a: int, n: nat, v: nat, b: int, k: nat)
    requires a + n <= b || b + k <= a
    ensures Load(Store(m, a, n, v), b, k) == Load(m, b, k)
  {
    forall x | b <= x < b + k ensures At(Store(m, a, n, v), x) == At(m, x) { StoreElsewhere(m, a, n, v, x); }
    LoadSame(Store(m, a, n, v), m, b, k);
  }

  lemma DescRoundTrip(m: Mem, a: int, d: Desc)
    requires 0 <= d.addr < Pow256(8) && 0 <= d.len < Pow256(4) && 0 <= d.flags < Pow256(2) && 0 <= d.next < Pow256(2)
    ensures LoadDesc(StoreDesc(m, a, d), a) == d
    ensures forall b | b < a || a + 16 <= b :: At(StoreDesc(m, a, d), b) == At(m, b)
  {
    hide Store;
    hide Load;
    hide Pow256;
    var m1 := Store(m, a, 8, d.addr);
    var m2 := Store(m1, a + 8, 4, d.len);
    var m3 := Store(m2, a + 12, 2, d.flags);
    LoadStore(m, a, 8, d.addr);
    LoadStore(m1, a + 8, 4, d.len);
    LoadStore(m2, a + 12, 2, d.flags);
    LoadStore(m3, a + 14, 2, d.next);
    LoadApart(m1, a + 8, 4, d.len, a, 8);
    LoadApart(m2, a + 12, 2, d.flags, a, 8);
    LoadApart(m3, a + 14, 2, d.next, a, 8);
    LoadApart(m2, a + 12, 2, d.flags, a + 8, 4);
    LoadApart(m3, a + 14, 2, d.next, a + 8, 4);
    LoadApart(m3, a + 14, 2, d.next, a + 12, 2);
    forall b | b < a || a + 16 <= b ensures At(StoreDesc(m, a, d), b) == At(m, b) {
      StoreElsewhere(m, a, 8, d.addr, b);
      StoreElsewhere(m1, a + 8, 4, d.len, b);
      StoreElsewhere(m2, a + 12, 2, d.flags, b);
      StoreElsewhere(m3, a + 14, 2, d.next, b);
    }
  }

  // Every entry of the available ring names descriptor 0.
  ghost predicate RingOk(m: Mem, q: nat) { forall k: nat | k < q :: Load(m, SlotAddr(q, k), 2) == 0 }

  // What one send does to memory. The entry goes to the unreduced index, past
  // the ring once that has reached the queue size; the device looks for it at
  // the index modulo the queue size, and there it finds descriptor 0 all the
  // same, because every packet uses that one.
  lemma OfferEffect(m: Mem, q: nat, d: Desc)
    requires 1 <= q && RingOk(m, q)
    requires 0 <= d.addr < Pow256(8) && 0 <= d.len < Pow256(4) && 0 <= d.flags < Pow256(2) && 0 <= d.next < Pow256(2)
    ensures var m', idx := Offer(m, q, d), Load(m, IdxAddr(q), 2);
            && LoadDesc(m', VIRTQ_TX) == d && Load(m', IdxAddr(q), 2) == (idx + 1) % 0x1_0000
            && RingOk(m', q) && Load(m', SlotAddr(q, idx % q), 2) == 0 && Load(m', SlotAddr(q, idx), 2) == 0
            && forall a | !(VIRTQ_TX <= a < VIRTQ_TX + 16) && !(IdxAddr(q) <= a < IdxAddr(q) + 2)
                          && !(SlotAddr(q, idx) <= a < SlotAddr(q, idx) + 2) :: At(m', a) == At(m, a)
  {
    hide Store;
    hide Load;
    hide StoreDesc;
    var idx := Load(m, IdxAddr(q), 2);
    var m1 := StoreDesc(m, VIRTQ_TX, d);
    DescRoundTrip(m, VIRTQ_TX, d);
    var next := (idx + 1) % 0x1_0000;
    var m2 := Store(m1, IdxAddr(q), 2, next);
    var m' := Store(m2, SlotAddr(q, idx), 2, 0);
    assert Pow256(2) == 0x1_0000;
    LoadStore(m1, IdxAddr(q), 2, next);
    LoadApart(m2, SlotAddr(q, idx), 2, 0, IdxAddr(q), 2);
    LoadStore(m2, SlotAddr(q, idx), 2, 0);
    DescKept(m1, IdxAddr(q), next);
    DescKept(m2, SlotAddr(q, idx), 0);
    forall k: nat | k < q ensures Load(m', SlotAddr(q, k), 2) == 0 {
      LoadSame(m, m1, SlotAddr(q, k), 2);
      LoadApart(m1, IdxAddr(q), 2, next, SlotAddr(q, k), 2);
      if k != idx { LoadApart(m2, SlotAddr(q, idx), 2, 0, SlotAddr(q, k), 2); }
    }
    forall a | !(VIRTQ_TX <= a < VIRTQ_TX + 16) && !(IdxAddr(q) <= a < IdxAddr(q) + 2)
               && !(SlotAddr(q, idx) <= a < SlotAddr(q, idx) + 2) ensures At(m', a) == At(m, a)
    {
      StoreElsewhere(m1, IdxAddr(q), 2, next, a);
      StoreElsewhere(m2, SlotAddr(q, idx), 2, 0, a);
    }
  }

  lemma DescKept(m: Mem, a: int, v: nat)
    requires VIRTQ_TX + 16 <= a
    ensures LoadDesc(Store(m, a, 2, v), VIRTQ_TX) == LoadDesc(m, VIRTQ_TX)
  {
    LoadApart(m, a, 2, v, VIRTQ_TX, 8);
    LoadApart(m, a, 2, v, VIRTQ_TX + 8, 4);
    LoadApart(m, a, 2, v, VIRTQ_TX + 12, 2);
    LoadApart(m, a, 2, v, VIRTQ_TX + 14, 2);
  }

  // The same from the device's side, by the bytes of the queue at 0x71ff0000 that
  // it reads: the descriptor, flags and index, and the entry it looks for next.
  ghost predicate Announced(m: Mem, m': Mem, q: nat, addr: int, len: int)
    requires q >= 1
  {
    var a := 0x71ff_0000;
    var idx := Load(m, a + 16 * q + 2, 2);
    && Load(m', a, 8) == addr && Load(m', a + 8, 4) == len && Load(m', a + 12, 2) == 0 && Load(m', a + 14, 2) == 0
    && Load(m', a + 16 * q, 2) == Load(m, a + 16 * q, 2)
    && Load(m', a + 16 * q + 2, 2) == (idx + 1) % 0x1_0000
    && Load(m', a + 16 * q + 4 + 2 * (idx % q), 2) == 0
  }

  lemma OfferAnnounced(m: Mem, q: nat, d: Desc)
    requires 1 <= q && RingOk(m, q) && d.flags == d.next == 0
    requires 0 <= d.addr < Pow256(8) && 0 <= d.len < Pow256(4)
    ensures Announced(m, Offer(m, q, d), q, d.addr, d.len)
  {
    hide Load;
    hide Offer;
    hide RingOk;
    OfferEffect(m, q, d);
    var m' := Offer(m, q, d);
    LoadSame(m', m, 0x71ff_0000 + 16 * q, 2);
  }

  class Transmitter {
    const txBufferAddr: Word
    const txBuffer: array<Byte>
    const q: nat
    var mem: Mem // the memory that holds the queue

    // init_virtio_net has zeroed the queue.
    constructor (addr: Word, q: nat, mem: Mem)
      requires q >= 1 && RingOk(mem, q)
      ensures Valid() && fresh(txBuffer) && txBufferAddr == addr && this.q == q && this.mem == mem
    {
      txBufferAddr, this.q, this.mem := addr, q, mem;
      txBuffer := new Byte[BUFFER_LEN](_ => 0);
    }

    ghost predicate Valid()
      reads this
    {
      txBuffer.Length == BUFFER_LEN && q >= 1 && RingOk(mem, q)
    }

    // One of the three copying loops.
    method CopyIn(offset: nat, bytes: seq<Byte>, n: int)
      requires Valid() && n <= |bytes| && (0 <= n ==> offset + n <= BUFFER_LEN)
      modifies txBuffer
      ensures forall k | 0 <= k < BUFFER_LEN :: txBuffer[k] == if offset <= k < offset + n then bytes[k - offset] else old(txBuffer[k])
    {
      var i := 0;
      while i < n
        invariant 0 <= i <= |bytes| && (i <= n || i == 0)
        invariant forall k | 0 <= k < BUFFER_LEN :: txBuffer[k] == if offset <= k < offset + i then bytes[k - offset] else old(txBuffer[k])
      {
        txBuffer[offset + i] := bytes[i];
        i := i + 1;
      }
    }

    method Put16(offset: nat, x: int)
      requires Valid() && offset + 2 <= BUFFER_LEN
      modifies txBuffer
      ensures forall k | 0 <= k < BUFFER_LEN :: txBuffer[k] == if offset <= k < offset + 2 then Le16(x)[k - offset] else old(txBuffer[k])
    {
      txBuffer[offset] := x % 256;
      txBuffer[offset + 1] := x / 256 % 256;
    }

    method PutNetHdr(len: Int32)
      requires Valid()
      modifies txBuffer
      ensures forall k | 0 <= k < BUFFER_LEN :: txBuffer[k] == if k < NET_HDR_LEN then NetHdr(len)[k] else old(txBuffer[k])
    {
      txBuffer[0] := 0;
      txBuffer[1] := 0;
      Put16(2, HEAD_LEN + len);
      Put16(4, 0);
      Put16(6, 0);
      Put16(8, 0);
    }

    // The header and the frame.
    method PrepareBuffer(data: seq<Byte>, len: Int32, src: Mac, dst: Mac)
      requires Valid() && Accepted(len) && len <= |data|
      modifies txBuffer
      ensures |Payload(data, len)| <= BUFFER_LEN - HEAD_LEN
      ensures txBuffer[..] == Head(len, src, dst) + Payload(data, len) + old(txBuffer[..])[HEAD_LEN + |Payload(data, len)|..]
    {
      hide Accepted;
      AcceptedIff(len);
      hide NetHdr;
      hide Le16;
      hide Head;
      hide Payload;
      PutNetHdr(len);
      CopyIn(16, src, 6);
      CopyIn(10, dst, 6);
      Put16(22, len);
      CopyIn(24, data, len);
      Assembled(old(txBuffer[..]), txBuffer[..], data, len, src, dst);
    }

    // A rejected packet changes nothing: ASSERT reports it and spins. However
    // many packets have been sent, the device finds an accepted one: the entry
    // at the old index, as the device counts, names descriptor 0, and that is
    // the buffer with the packet.
    method SendPacket(data: seq<Byte>, len: Int32, src: Mac, dst: Mac) returns (sent: bool)
      requires Valid()
      requires Accepted(len) ==> len <= |data|
      modifies this`mem, txBuffer
      ensures Valid() && sent == Accepted(len)
      ensures !sent ==> mem == old(mem) && txBuffer[..] == old(txBuffer[..])
      ensures sent ==>
                && |Payload(data, len)| <= BUFFER_LEN - HEAD_LEN
                && txBuffer[..] == Head(len, src, dst) + Payload(data, len) + old(txBuffer[..])[HEAD_LEN + |Payload(data, len)|..]
                && OfferedIn(old(mem), mem, len) && Announced(old(mem), mem, q, txBufferAddr, 24 + len)
      ensures sent ==>
                ParsePacket(txBuffer[..], 24 + len) ==
                (if len < 0 then None else Some(Packet(0, 0, 24 + len, 0, 0, 0, dst, src, len, data[..len])))
    {
      hide Accepted;
      hide ParsePacket;
      hide Head;
      hide StoreDesc;
      hide Store;
      hide Load;
      hide RingOk;
      hide Announced;
      if !Accepted(len) {
        return false;
      }
      AcceptedIff(len);
      PrepareBuffer(data, len, src, dst);
      PacketRoundTrip(data, len, src, dst, old(txBuffer[..])[HEAD_LEN + |Payload(data, len)|..]);
      var desc := Desc(txBufferAddr, len + ETH_HDR_LEN + NET_HDR_LEN, 0, 0);
      Widths();
      OfferEffect(mem, q, desc);
      OfferAnnounced(mem, q, desc);
      var idx := Load(mem, IdxAddr(q), 2);
      mem := StoreDesc(mem, VIRTQ_TX, desc);
      mem := Store(mem, IdxAddr(q), 2, (idx + 1) % 0x1_0000);
      mem := Store(mem, SlotAddr(q, idx), 2, 0);
      sent := true;
    }

    // One more packet of HEAD_LEN + len bytes is on offer.
    ghost predicate OfferedIn(m: Mem, m': Mem, len: int)
    {
      var idx := Load(m, IdxAddr(q), 2);
      && q >= 1 && LoadDesc(m', VIRTQ_TX) == Desc(txBufferAddr, HEAD_LEN + len, 0, 0)
      && Load(m', IdxAddr(q), 2) == (idx + 1) % 0x1_0000 && Load(m', SlotAddr(q, idx % q), 2) == 0
      && Load(m', SlotAddr(q, idx), 2) == 0
      && forall a | !(VIRTQ_TX <= a < VIRTQ_TX + 16) && !(IdxAddr(q) <= a < IdxAddr(q) + 2)
                    && !(SlotAddr(q, idx) <= a < SlotAddr(q, idx) + 2) :: At(m', a) == At(m, a)
    }
  }

  lemma Widths()
    ensures Pow256(8) == Bits.U64_LEN && Pow256(4) == Bits.U32_LEN && Pow256(2) == 0x1_0000
  {
    assert Pow256(4) == 0x1_0000_0000;
  }
}
