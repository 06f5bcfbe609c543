// The text that receive_packet prints (kernel/virtio.c), and reading it back.
module VirtioReport {
  import opened Bytes
  import opened Hex
  import opened Text
  import opened VirtioRx
  import opened Wrappers
  import Bits

  const LENGTH_TEXT: string := "length of ethernet frame: "
  const CONTENT_TEXT: string := "content:\n"
  const MORE_TEXT: string := "...(more)\n"

  // One byte, in lines of sixteen.
  function ByteText(i: nat, b: Byte): seq<Byte> { Padded(b, 2) + if i % 16 == 15 then Ascii("\n") else Ascii(" ") }

  function ContentText(bs: seq<Byte>): seq<Byte> {
    if bs == [] then [] else ContentText(bs[..|bs| - 1]) + ByteText(|bs| - 1, bs[|bs| - 1])
  }

  function LengthText(p: Printed): seq<Byte> { Ascii(LENGTH_TEXT) + Padded(p.len, 4) + Ascii("\n") + Ascii(CONTENT_TEXT) }

  function MoreText(p: Printed): seq<Byte> { (if p.more then Ascii(MORE_TEXT) else []) + Ascii("\n") }

  function FrameText(p: Printed): seq<Byte> { LengthText(p) + ContentText(p.content) + MoreText(p) }

  function LogText(ps: seq<Printed>): seq<Byte> {
    if ps == [] then [] else LogText(ps[..|ps| - 1]) + FrameText(ps[|ps| - 1])
  }

  lemma ContentMore(bs: seq<Byte>, b: Byte)
    ensures ContentText(bs + [b]) == ContentText(bs) + ByteText(|bs|, b)
  {
    assert (bs + [b])[..|bs|] == bs;
  }

  lemma NoContent()
    ensures ContentText([]) == []
  {}

  lemma SameHeader(len: int, content: seq<Byte>)
    ensures LengthText(PrintOf(len, content)) == LengthText(PrintOf(len, []))
    ensures MoreText(PrintOf(len, content)) == MoreText(PrintOf(len, []))
  {}

  lemma Literals()
    ensures IsAscii(LENGTH_TEXT) && IsAscii(CONTENT_TEXT) && IsAscii(MORE_TEXT) && IsAscii("\n") && IsAscii(" ")
  {}

  lemma NoLog()
    ensures LogText([]) == []
  {}

  lemma LogMore(ps: seq<Printed>, p: Printed)
    ensures LogText(ps + [p]) == LogText(ps) + FrameText(p)
  {
    assert (ps + [p])[..|ps|] == ps;
  }

  // --- reading it back ---

  // What a reader makes of one frame's text.
  datatype Received = Received(len: int, bytes: seq<int>, more: bool)

  function LineLength(t: seq<Byte>): (n: nat)
    ensures n <= |t|
  {
    if t == [] || t[0] == 10 then 0 else 1 + LineLength(t[1..])
  }

  // Pairs of hexadecimal digits, from number i on, sixteen to a line.
  function ReadPairs(t: seq<Byte>, i: nat): (r: (seq<int>, seq<Byte>))
    ensures |r.1| <= |t|
    decreases |t|
  {
    if |t| >= 3 && IsHex(t[..2]) && t[2] == (if i % 16 == 15 then 10 else 32) then
      var (bytes, rest) := ReadPairs(t[3..], i + 1);
      ([Parse(t[..2])] + bytes, rest)
    else ([], t)
  }

  function ReadOne(t: seq<Byte>): (r: Option<(Received, seq<Byte>)>)
    ensures r.Some? ==> |r.value.1| < |t|
  {
    if !Begins(t, "length of ethernet frame: ") then None else
    var t1 := t[26..];
    var n := LineLength(t1);
    if !IsHex(t1[..n]) || !Begins(t1[n..], "\ncontent:\n") then None else
    var (bytes, t2) := ReadPairs(t1[n + 10..], 0);
    var more := Begins(t2, "...(more)\n");
    var t3 := if more then t2[10..] else t2;
    if t3 == [] || t3[0] != 10 then None else Some((Received(Parse(t1[..n]), bytes, more), t3[1..]))
  }

  function ReadReport(t: seq<Byte>): Option<seq<Received>>
    decreases |t|
  {
    if t == [] then Some([]) else
    match ReadOne(t)
    case None => None
    case Some((r, rest)) =>
      match ReadReport(rest)
      case None => None
      case Some(rs) => Some([r] + rs)
  }

  // A reader of the text finds, for each buffer that was handed back, the length
  // without the ten header bytes (an unsigned 64-bit difference), the bytes after
  // the header, up to 256, and the note that there are more.
  ghost predicate Reports(t: seq<Byte>, cs: seq<Completion>) {
    var read := ReadReport(t);
    && read.Some? && |read.value| == |cs|
    && forall j :: 0 <= j < |cs| ==> Tells(read.value[j], cs[j].data)
  }

  ghost predicate Tells(r: Received, data: seq<Byte>) {
    && r.len == (if |data| >= 10 then |data| - 10 else 0x1_0000_0000_0000_0000 + |data| - 10)
    && |r.bytes| == (if |data| <= 10 then 0 else if |data| <= 266 then |data| - 10 else 256)
    && (forall k :: 0 <= k < |r.bytes| ==> 10 + k < |data| && r.bytes[k] == data[10 + k])
    && (r.more <==> |data| > 256)
  }

  // The content by its first byte.
  function Pairs(bs: seq<Byte>, i: nat): seq<Byte> {
    if bs == [] then [] else ByteText(i, bs[0]) + Pairs(bs[1..], i + 1)
  }

  lemma {:induction false} PairsMore(bs: seq<Byte>, b: Byte, i: nat)
    ensures Pairs(bs + [b], i) == Pairs(bs, i) + ByteText(i + |bs|, b)
    decreases |bs|
  {
    hide ByteText;
    if bs == [] {
      assert (bs + [b])[1..] == [];
    } else {
      assert (bs + [b])[1..] == bs[1..] + [b];
      PairsMore(bs[1..], b, i + 1);
    }
  }

  lemma {:induction false} ContentIsPairs(bs: seq<Byte>)
    ensures ContentText(bs) == Pairs(bs, 0)
    decreases |bs|
  {
    hide ByteText;
    if bs == [] {
    } else {
      var n := |bs| - 1;
      ContentIsPairs(bs[..n]);
      PairsMore(bs[..n], bs[n], 0);
      assert bs[..n] + [bs[n]] == bs;
    }
  }

  lemma ByteReads(i: nat, b: Byte)
    ensures var t := ByteText(i, b);
            |t| == 3 && IsHex(t[..2]) && Parse(t[..2]) == b && t[2] == if i % 16 == 15 then 10 else 32
  {
    hide IsHex;
    hide Parse;
    hide Padded;
    RoundTrip(b, 2);
    TwoDigits(b);
    Separators();
    assert ByteText(i, b)[..2] == Padded(b, 2);
  }

  lemma TwoDigits(b: Byte)
    ensures |Padded(b, 2)| == 2
  {
    RoundTrip(b, 2);
    assert Pow16(1) == 16 && Pow16(2) == 256;
    DigitsBound(b, 2);
  }

  lemma Separators()
    ensures Ascii("\n") == [10] && Ascii(" ") == [32]
  {}

  // Where the pairs end.
  predicate Stops(rest: seq<Byte>) { rest == [] || DigitValue(rest[0]) < 0 }

  lemma NotHex(t: seq<Byte>)
    requires |t| >= 2 && DigitValue(t[0]) < 0
    ensures !IsHex(t[..2])
  {
    assert t[..2][0] == t[0];
  }

  lemma OnePair(pair: seq<Byte>, more: seq<Byte>, i: nat)
    requires |pair| == 3 && IsHex(pair[..2]) && pair[2] == (if i % 16 == 15 then 10 else 32)
    ensures ReadPairs(pair + more, i) == ([Parse(pair[..2])] + ReadPairs(more, i + 1).0, ReadPairs(more, i + 1).1)
  {
    hide IsHex;
    hide Parse;
    assert (pair + more)[..2] == pair[..2] && (pair + more)[3..] == more;
  }

  lemma {:induction false} PairsRead(bs: seq<Byte>, i: nat, rest: seq<Byte>)
    requires Stops(rest)
    ensures ReadPairs(Pairs(bs, i) + rest, i) == (bs, rest)
    decreases |bs|
  {
    hide ByteText;
    hide Parse;
    hide IsHex;
    hide DigitValue;
    if bs == [] {
      assert Pairs(bs, i) + rest == rest;
      if |rest| >= 3 { NotHex(rest); }
    } else {
      var more := Pairs(bs[1..], i + 1) + rest;
      PairsRead(bs[1..], i + 1, rest);
      ByteReads(i, bs[0]);
      assert Pairs(bs, i) + rest == ByteText(i, bs[0]) + more;
      OnePair(ByteText(i, bs[0]), more, i);
      assert [bs[0]] + bs[1..] == bs;
    }
  }

  lemma {:induction false} LineLengthIs(line: seq<Byte>, rest: seq<Byte>)
    requires forall k :: 0 <= k < |line| ==> line[k] != 10
    ensures LineLength(line + [10] + rest) == |line|
    decreases |line|
  {
    if line == [] {
    } else {
      assert (line + [10] + rest)[1..] == line[1..] + [10] + rest;
      LineLengthIs(line[1..], rest);
    }
  }

  lemma NumberReads(v: Word, rest: seq<Byte>)
    ensures var t, n := Padded(v, 4) + [10] + rest, |Padded(v, 4)|;
            LineLength(t) == n && t[..n] == Padded(v, 4) && t[n..] == [10] + rest && IsHex(t[..n]) && Parse(t[..n]) == v
  {
    hide Padded;
    hide Parse;
    RoundTrip(v, 4);
    forall k | 0 <= k < |Padded(v, 4)| ensures Padded(v, 4)[k] != 10 { assert DigitValue(Padded(v, 4)[k]) >= 0; }
    LineLengthIs(Padded(v, 4), rest);
  }

  // The end of a frame's text.
  lemma EndReads(p: Printed, rest: seq<Byte>)
    ensures var t := MoreText(p) + rest;
            && Stops(t) && (Begins(t, "...(more)\n") <==> p.more)
            && var t1 := if p.more then t[10..] else t;
            t1 == [10] + rest
  {
    Separators();
    if p.more {
      AsciiSays(MORE_TEXT, Ascii("\n") + rest);
      assert MoreText(p) + rest == Ascii(MORE_TEXT) + (Ascii("\n") + rest);
      assert (MoreText(p) + rest)[0] == 46;
    } else {
      assert MoreText(p) == [10];
    }
  }

  lemma HeadReads(p: Printed, rest: seq<Byte>)
    ensures var t := LengthText(p) + rest;
            && Begins(t, "length of ethernet frame: ")
            && t[26..] == Padded(p.len, 4) + [10] + (Ascii(CONTENT_TEXT) + rest)
            && Begins([10] + (Ascii(CONTENT_TEXT) + rest), "\ncontent:\n")
            && ([10] + (Ascii(CONTENT_TEXT) + rest))[10..] == rest
  {
    hide Padded;
    Separators();
    ContentLine(rest);
    var t1 := Padded(p.len, 4) + [10] + (Ascii(CONTENT_TEXT) + rest);
    AsciiSays(LENGTH_TEXT, t1);
    assert LengthText(p) + rest == Ascii(LENGTH_TEXT) + t1;
  }

  lemma ContentLine(rest: seq<Byte>)
    ensures |Ascii(CONTENT_TEXT)| == 9 && Begins([10] + (Ascii(CONTENT_TEXT) + rest), "\ncontent:\n")
    ensures ([10] + (Ascii(CONTENT_TEXT) + rest))[10..] == rest
  {
    var t := [10] + (Ascii(CONTENT_TEXT) + rest);
    AsciiSays(CONTENT_TEXT, rest);
    forall k | 0 <= k < 10 ensures t[k] == "\ncontent:\n"[k] as int {
      if k > 0 { assert "\ncontent:\n"[k] == CONTENT_TEXT[k - 1]; }
    }
  }

  lemma HeadLength(p: Printed)
    ensures |LengthText(p)| >= 26
  {}

  lemma FrameReads(p: Printed, rest: seq<Byte>)
    ensures ReadOne(FrameText(p) + rest) == Some((Received(p.len, p.content, p.more), rest))
  {
    hide LengthText;
    hide ContentText;
    hide MoreText;
    hide Padded;
    hide IsHex;
    hide Parse;
    hide ReadPairs;
    hide LineLength;
    hide Begins;
    var end := MoreText(p) + rest;
    var body := ContentText(p.content) + end;
    assert FrameText(p) + rest == LengthText(p) + body;
    HeadReads(p, body);
    NumberReads(p.len, Ascii(CONTENT_TEXT) + body);
    EndReads(p, rest);
    ContentIsPairs(p.content);
    PairsRead(p.content, 0, end);
    var t := FrameText(p) + rest;
    assert |t| >= 26 by { HeadLength(p); }
    var t1 := t[26..];
    var n := LineLength(t1);
    assert t1[n + 10..] == t1[n..][10..];
  }

  lemma {:induction false} LogFront(p: Printed, ps: seq<Printed>)
    ensures LogText([p] + ps) == FrameText(p) + LogText(ps)
    decreases |ps|
  {
    hide FrameText;
    if ps == [] {
      assert ([p] + ps)[..0] == [];
      assert [p] + ps == [p];
    } else {
      var n := |ps| - 1;
      LogFront(p, ps[..n]);
      assert ([p] + ps)[..n + 1] == [p] + ps[..n];
    }
  }

  function ReadBack(ps: seq<Printed>): seq<Received> {
    seq(|ps|, j requires 0 <= j < |ps| => Received(ps[j].len, ps[j].content, ps[j].more))
  }

  lemma {:induction false} LogReads(ps: seq<Printed>)
    ensures ReadReport(LogText(ps)) == Some(ReadBack(ps))
    decreases |ps|
  {
    hide FrameText;
    hide ReadOne;
    if ps == [] {
      assert LogText(ps) == [] && ReadReport([]) == Some([]) && ReadBack(ps) == [];
    } else {
      LogReads(ps[1..]);
      assert [ps[0]] + ps[1..] == ps;
      LogFront(ps[0], ps[1..]);
      FrameReads(ps[0], LogText(ps[1..]));
      assert ReadBack(ps) == [Received(ps[0].len, ps[0].content, ps[0].more)] + ReadBack(ps[1..]);
    }
  }

  lemma PrintedTells(c: Completion)
    requires |c.data| <= BUFFER_LEN
    ensures var p := AsPrinted(c); Tells(Received(p.len, p.content, p.more), c.data)
  {
    if |c.data| >= 10 {
      Bits.DivMod(|c.data| - 10, Bits.U64_LEN, 0, |c.data| - 10);
    } else {
      Bits.DivMod(|c.data| - 10, Bits.U64_LEN, -1, Bits.U64_LEN + |c.data| - 10);
    }
  }

  lemma AllTell(ps: seq<Printed>, cs: seq<Completion>)
    requires |ps| == |cs| && forall j :: 0 <= j < |cs| ==> |cs[j].data| <= BUFFER_LEN && ps[j] == AsPrinted(cs[j])
    ensures forall j :: 0 <= j < |cs| ==> Tells(ReadBack(ps)[j], cs[j].data)
  {
    hide AsPrinted;
    hide Tells;
    forall j | 0 <= j < |cs| ensures Tells(ReadBack(ps)[j], cs[j].data) { PrintedTells(cs[j]); }
  }

  // The text of what was printed for some completions reports them.
  lemma LogReports(ps: seq<Printed>, cs: seq<Completion>)
    requires |ps| == |cs| && forall j :: 0 <= j < |cs| ==> |cs[j].data| <= BUFFER_LEN && ps[j] == AsPrinted(cs[j])
    ensures Reports(LogText(ps), cs)
  {
    hide AsPrinted;
    hide Tells;
    hide ReadReport;
    hide LogText;
    LogReads(ps);
    AllTell(ps, cs);
  }
}
