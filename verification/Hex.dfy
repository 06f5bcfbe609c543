// The hexadecimal numerals that puth prints (kernel/util.c).
module Hex {
  import opened Bytes

  const MAX_LEN: int := 16

  function HexChar(x: int): Byte
    requires 0 <= x < 16
  {
    if x < 10 then 48 + x else 65 + (x - 10)
  }

  lemma HexChars(x: int)
    requires 0 <= x < 16
    ensures HexChar(x) == "0123456789ABCDEF"[x] as int
  {}

  // The digits of a positive number, most significant first; none for zero.
  function Digits(v: nat): seq<Byte> {
    if v == 0 then [] else Digits(v / 16) + [HexChar(v % 16)]
  }

  function Numeral(v: nat): seq<Byte> { if v == 0 then [48] else Digits(v) }

  function Zeros(n: nat): seq<Byte> { seq(n, _ => 48) }

  // What puth(v, width) prints.
  function Padded(v: nat, width: nat): seq<Byte> {
    (if width > |Numeral(v)| then Zeros(width - |Numeral(v)|) else []) + Numeral(v)
  }

  // --- reading a numeral back ---

  function DigitValue(c: Byte): int {
    if 48 <= c < 58 then c - 48 else if 65 <= c < 71 then c - 55 else -1
  }

  predicate IsHex(s: seq<Byte>) { s != [] && forall k :: 0 <= k < |s| ==> DigitValue(s[k]) >= 0 }

  function Parse(s: seq<Byte>): int {
    if s == [] then 0 else 16 * Parse(s[..|s| - 1]) + DigitValue(s[|s| - 1])
  }

  function Pow16(n: nat): (p: nat)
    ensures p > 0
  {
    if n == 0 then 1 else 16 * Pow16(n - 1)
  }

  lemma {:induction false} DigitsParse(v: nat)
    ensures Parse(Digits(v)) == v
    ensures forall k :: 0 <= k < |Digits(v)| ==> DigitValue(Digits(v)[k]) >= 0
  {
    if v == 0 {
    } else {
      DigitsParse(v / 16);
      assert Digits(v)[..|Digits(v)| - 1] == Digits(v / 16);
    }
  }

  // n digits exactly when 16^(n-1) <= v < 16^n.
  lemma {:induction false} DigitsLength(v: nat, n: nat)
    requires n > 0 && v > 0
    ensures |Digits(v)| == n <==> Pow16(n - 1) <= v < Pow16(n)
  {
    if v < 16 {
      assert Digits(v / 16) == [];
      if n >= 2 { PowAtLeast(n - 1); }
    } else if n == 1 {
      assert Digits(v / 16) != [];
    } else {
      DigitsLength(v / 16, n - 1);
    }
  }

  lemma {:induction false} PowAtLeast(n: nat)
    requires n >= 1
    ensures Pow16(n) >= 16
  {
    if n == 1 {
    } else {
      PowAtLeast(n - 1);
    }
  }

  lemma {:induction false} DigitsBound(v: nat, n: nat)
    requires v < Pow16(n)
    ensures |Digits(v)| <= n
  {
    if v == 0 {
    } else {
      DigitsBound(v / 16, n - 1);
    }
  }

  lemma {:induction false} LeadingZeros(n: nat, s: seq<Byte>)
    ensures Parse(Zeros(n) + s) == Parse(s)
    decreases |s| + n
  {
    if s == [] && n == 0 {
      assert Zeros(0) + [] == [];
    } else if s == [] {
      assert Zeros(n) + s == Zeros(n) && Zeros(n)[..n - 1] == Zeros(n - 1) + [];
      LeadingZeros(n - 1, []);
    } else {
      assert (Zeros(n) + s)[..n + |s| - 1] == Zeros(n) + s[..|s| - 1];
      LeadingZeros(n, s[..|s| - 1]);
    }
  }

  lemma NumeralFacts(v: Word)
    ensures var s := Numeral(v);
            && IsHex(s) && Parse(s) == v && 1 <= |s| <= MAX_LEN
            && (v > 0 ==> Pow16(|s| - 1) <= v < Pow16(|s|))
  {
    if v == 0 {
      assert Numeral(v)[..0] == [];
      assert Parse(Numeral(v)) == 0;
    } else {
      assert Pow16(8) == 0x1_0000_0000;
      assert Pow16(16) == 0x1_0000_0000_0000_0000;
      DigitsParse(v);
      DigitsBound(v, 16);
      DigitsLength(v, |Digits(v)|);
    }
  }

  // For every 64-bit value and every width: the output is a hexadecimal
  // numeral, as long as the wider of the width and the number, and it reads
  // back as the value.
  lemma RoundTrip(v: Word, width: nat)
    ensures var s := Padded(v, width);
            && IsHex(s) && Parse(s) == v
            && |s| == (if width > |Numeral(v)| then width else |Numeral(v)|)
            && 1 <= |Numeral(v)| <= MAX_LEN
            && (v > 0 ==> Pow16(|Numeral(v)| - 1) <= v < Pow16(|Numeral(v)|))
  {
    hide Numeral;
    hide Parse;
    NumeralFacts(v);
    if width > |Numeral(v)| {
      LeadingZeros(width - |Numeral(v)|, Numeral(v));
    } else {
      assert Padded(v, width) == Numeral(v);
    }
  }
}
