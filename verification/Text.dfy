// String constants as the bytes that puts prints.
module Text {
  import opened Bytes

  predicate IsAscii(s: string) { forall i :: 0 <= i < |s| ==> 0 < s[i] as int < 256 }

  function Ascii(s: string): (bs: seq<Byte>)
    requires IsAscii(s)
    ensures |bs| == |s| && forall i :: 0 <= i < |bs| ==> bs[i] != 0
  {
    seq(|s|, i requires 0 <= i < |s| => s[i] as int)
  }

  // t begins with the characters of msg; t is the characters of msg.
  predicate Begins(t: seq<Byte>, msg: string) { |msg| <= |t| && forall k :: 0 <= k < |msg| ==> t[k] == msg[k] as int }
  predicate Says(t: seq<Byte>, msg: string) { |t| == |msg| && Begins(t, msg) }

  lemma AsciiSays(msg: string, rest: seq<Byte>)
    requires IsAscii(msg)
    ensures Says(Ascii(msg), msg) && Begins(Ascii(msg) + rest, msg)
  {}
}
