// Byte-addressed physical memory with little-endian multi-byte access.
module Bytes {
  type Byte = b: int | 0 <= b < 256
  type Word = w: int | 0 <= w < 0x1_0000_0000_0000_0000

  // An address that is not in the map holds 0, as zeroed memory does.
  type Mem = map<int, Byte>

  function At(m: Mem, a: int): Byte {
    if a in m then m[a] else 0
  }

  function Load(m: Mem, a: int, n: nat): (v: nat)
    decreases n, a
  {
    if n == 0 then 0 else At(m, a) + 256 * Load(m, a + 1, n - 1)
  }

  function Store(m: Mem, a: int, n: nat, v: nat): Mem
    decreases n, a
  {
    if n == 0 then m else Store(m[a := v % 256], a + 1, n - 1, v / 256)
  }

  function Pow256(n: nat): (p: nat)
  {
    if n == 0 then 1 else 256 * Pow256(n - 1)
  }

  ghost predicate SameBytes(m: Mem, m': Mem, lo: int, hi: int) {
    forall a :: lo <= a < hi ==> At(m, a) == At(m', a)
  }

  lemma {:induction false} StoreElsewhere(m: Mem, a: int, n: nat, v: nat, x: int)
    requires x < a || a + n <= x
    ensures At(Store(m, a, n, v), x) == At(m, x)
    decreases n
  {
    if n == 0 {
    } else {
      StoreElsewhere(m[a := v % 256], a + 1, n - 1, v / 256, x);
    }
  }

  lemma {:induction false} LoadSame(m: Mem, m': Mem, a: int, n: nat)
    requires SameBytes(m, m', a, a + n)
    ensures Load(m, a, n) == Load(m', a, n)
    decreases n
  {
    if n == 0 {
    } else {
      assert At(m, a) == At(m', a);
      LoadSame(m, m', a + 1, n - 1);
    }
  }

  lemma {:induction false} LoadStore(m: Mem, a: int, n: nat, v: nat)
    requires v < Pow256(n)
    ensures Load(Store(m, a, n, v), a, n) == v
    decreases n
  {
    if n == 0 {
    } else {
      var m1 := m[a := v % 256];
      assert v / 256 < Pow256(n - 1);
      LoadStore(m1, a + 1, n - 1, v / 256);
      StoreElsewhere(m1, a + 1, n - 1, v / 256, a);
    }
  }

  lemma {:induction false} LoadBound(m: Mem, a: int, n: nat)
    ensures Load(m, a, n) < Pow256(n)
    decreases n
  {
    if n == 0 {
    } else {
      LoadBound(m, a + 1, n - 1);
    }
  }

  function Load64(m: Mem, a: int): (w: Word) {
    LoadBound(m, a, 8);
    Load(m, a, 8)
  }

  function Store64(m: Mem, a: int, w: Word): Mem {
    Store(m, a, 8, w)
  }

  lemma Load64Store64(m: Mem, a: int, w: Word)
    ensures Load64(Store64(m, a, w), a) == w
  {
    assert Pow256(8) == 0x1_0000_0000_0000_0000;
    LoadStore(m, a, 8, w);
  }

  lemma Store64Elsewhere(m: Mem, a: int, w: Word, x: int)
    requires x < a || a + 8 <= x
    ensures At(Store64(m, a, w), x) == At(m, x)
  {
    StoreElsewhere(m, a, 8, w, x);
  }

  lemma Load64Same(m: Mem, m': Mem, a: int)
    requires SameBytes(m, m', a, a + 8)
    ensures Load64(m, a) == Load64(m', a)
  {
    LoadSame(m, m', a, 8);
  }

  lemma StoreApart(m: Mem, a: int, w: Word, a': int)
    requires a + 8 <= a' || a' + 8 <= a
    ensures Load64(Store64(m, a, w), a') == Load64(m, a')
  {
    forall x | a' <= x < a' + 8 ensures At(Store64(m, a, w), x) == At(m, x) { Store64Elsewhere(m, a, w, x); }
    Load64Same(Store64(m, a, w), m, a');
  }
}
