// Bitwise "and" on natural numbers.
module Bits {
  const U32_LEN: int := 0x1_0000_0000
  const U64_LEN: int := 0x1_0000_0000_0000_0000

  function Pow2(n: nat): (p: nat)
    ensures p > 0
  {
    if n == 0 then 1 else 2 * Pow2(n - 1)
  }

  function And(x: nat, y: nat): nat {
    if x == 0 || y == 0 then 0 else (x % 2) * (y % 2) + 2 * And(x / 2, y / 2)
  }

  // Masking the low n bits.
  lemma {:induction false} AndMask(x: nat, n: nat)
    ensures And(x, Pow2(n) - 1) == x % Pow2(n)
    decreases n
  {
    if n == 0 {
    } else {
      var p := Pow2(n - 1);
      assert (Pow2(n) - 1) / 2 == p - 1 && (Pow2(n) - 1) % 2 == 1;
      AndMask(x / 2, n - 1);
      HalfDivMod(x, p);
    }
  }

  // Clearing the low n bits of an N-bit number.
  lemma {:induction false} AndHigh(x: nat, n: nat, N: nat)
    requires n <= N && x < Pow2(N)
    ensures Pow2(n) <= Pow2(N) && And(x, Pow2(N) - Pow2(n)) == x - x % Pow2(n)
    decreases n
  {
    if n == 0 {
      AndMask(x, N);
      DivMod(x, Pow2(N), 0, x);
    } else {
      var p, P := Pow2(n - 1), Pow2(N - 1);
      AndHigh(x / 2, n - 1, N - 1);
      assert (Pow2(N) - Pow2(n)) / 2 == P - p && (Pow2(N) - Pow2(n)) % 2 == 0;
      HalfDivMod(x, p);
    }
  }

  // Testing bit n.
  lemma {:induction false} AndBit(x: nat, n: nat)
    ensures And(x, Pow2(n)) == if x / Pow2(n) % 2 == 1 then Pow2(n) else 0
    decreases n
  {
    if n == 0 {
      if x > 0 { assert And(x / 2, 0) == 0; }
    } else {
      var p := Pow2(n - 1);
      AndBit(x / 2, n - 1);
      HalfDivMod(x, p);
    }
  }

  lemma HalfDivMod(x: nat, p: int)
    requires p > 0
    ensures x / (2 * p) == x / 2 / p && x % (2 * p) == x / 2 % p * 2 + x % 2
  {
    var q, r := x / 2 / p, x / 2 % p;
    assert x / 2 == q * p + r;
    assert q * (2 * p) == 2 * (q * p);
    DivMod(x, 2 * p, q, 2 * r + x % 2);
  }

  lemma {:induction false} Pow2Sum(m: nat, n: nat)
    ensures Pow2(m + n) == Pow2(m) * Pow2(n)
    decreases m
  {
    if m == 0 {
    } else {
      Pow2Sum(m - 1, n);
    }
  }

  lemma Powers()
    ensures Pow2(12) == 0x1000 && Pow2(23) == 0x80_0000 && Pow2(24) == 0x100_0000
    ensures Pow2(31) == 0x8000_0000 && Pow2(32) == 0x1_0000_0000
  {
    assert Pow2(7) == 0x80 && Pow2(8) == 0x100 && Pow2(12) == 0x1000;
    Pow2Sum(8, 8);
    Pow2Sum(16, 7);
    Pow2Sum(16, 8);
    Pow2Sum(24, 7);
    Pow2Sum(24, 8);
  }

  lemma DivMod(x: int, d: int, q: int, r: int)
    requires 0 < d && x == q * d + r && 0 <= r < d
    ensures x / d == q && x % d == r
  {
    var k := x / d - q;
    assert x == x / d * d + x % d;
    assert k * d == r - x % d;
    assert k >= 1 ==> k * d >= d;
    assert k <= -1 ==> k * d <= -d;
  }
}
