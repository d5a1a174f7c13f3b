/** The widths of registers, and sums and differences of remainders. */
module Arithmetic {
  const W28: nat := 0x1000_0000
  const W30: nat := 0x4000_0000
  const W32: nat := 0x1_0000_0000
  const W48: nat := 0x1_0000_0000_0000
  const W64: nat := 0x1_0000_0000_0000_0000
  const BILLION: nat := 1_000_000_000

  lemma RemainderIs(a: int, m: nat, q: int, r: nat)
    requires r < m && a == m * q + r
    ensures a % m == r
  {
    var d := a / m - q;
    assert m * d == r - a % m;
    assert d > 0 ==> m * d >= m;
    assert d < 0 ==> m * d + m <= 0;
  }

  lemma QuotientIs(a: int, m: nat, q: int, r: nat)
    requires r < m && a == m * q + r
    ensures a / m == q
  {
    RemainderIs(a, m, q, r);
    var d := a / m - q;
    assert m * d == 0;
  }

  lemma ModuloShift(a: int, q: int, m: nat)
    requires m > 0
    ensures (m * q + a) % m == a % m
  {
    assert m * q + a == m * (q + a / m) + a % m;
    RemainderIs(m * q + a, m, q + a / m, a % m);
  }

  lemma ModuloOfSum(a: nat, b: int, m: nat)
    requires m > 0
    ensures (a % m + b) % m == (a + b) % m
  {
    assert a + b == m * (a / m) + (a % m + b);
    ModuloShift(a % m + b, a / m, m);
  }

  lemma ModuloOfDifference(a: nat, b: nat, c: nat, m: nat)
    requires m > 0
    ensures (a % m - b % m - c) % m == (a - b - c) % m
  {
    var q := a / m - b / m;
    assert a - b - c == m * q + (a % m - b % m - c);
    ModuloShift(a % m - b % m - c, q, m);
  }

  lemma {:induction false} Multiply(p: nat, a: int, b: int)
    requires a <= b
    ensures p * a <= p * b
  {
    if p > 0 {
      Multiply(p - 1, a, b);
      assert p * a == (p - 1) * a + a && p * b == (p - 1) * b + b;
    }
  }

  /** The two words of a 64-bit register. */
  lemma Halves(v: nat)
    ensures v / W32 % W32 * W32 + v % W32 == v % W64
  {
    var q := v / W32 / W32;
    var r := v / W32 % W32 * W32 + v % W32;
    assert v == q * W64 + r && 0 <= r < W64;
  }
}
