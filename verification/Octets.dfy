/** Octets, their bits, and big-endian numbers.

  An octet is a number below 256. Its bits are numbered as in the Verilog
  source: bit 0 is the least significant one, which Ethernet sends first. */
module Octets {
  import opened Arithmetic

  type Octet = x: int | 0 <= x < 256
  type Bits8 = s: seq<bv1> | |s| == 8 witness [0, 0, 0, 0, 0, 0, 0, 0]

  /** The n low bits of v, bit 0 first. */
  function BitString(v: nat, n: nat): (s: seq<bv1>)
    ensures |s| == n
  {
    if n == 0 then [] else [if v % 2 == 1 then 1 else 0] + BitString(v / 2, n - 1)
  }

  function Power2(n: nat): (p: nat)
    ensures p >= 1
  {
    if n == 0 then 1 else 2 * Power2(n - 1)
  }

  /** The number whose bits, bit 0 first, are s. */
  function FromBitString(s: seq<bv1>): (v: nat)
    ensures v < Power2(|s|)
  {
    if s == [] then 0 else (if s[0] == 1 then 1 else 0) + 2 * FromBitString(s[1..])
  }

  lemma {:induction false} BitStringRoundTrip(v: nat, n: nat)
    requires v < Power2(n)
    ensures FromBitString(BitString(v, n)) == v
  {
    if n > 0 {
      assert BitString(v, n)[1..] == BitString(v / 2, n - 1);
      BitStringRoundTrip(v / 2, n - 1);
    }
  }

  lemma {:induction false} FromBitStringRoundTrip(s: seq<bv1>)
    ensures BitString(FromBitString(s), |s|) == s
  {
    if s != [] {
      var v := FromBitString(s);
      assert v / 2 == FromBitString(s[1..]);
      FromBitStringRoundTrip(s[1..]);
      assert s == [s[0]] + s[1..];
    }
  }

  function Bits(d: Octet): Bits8 {
    BitString(d, 8)
  }

  function OctetOf(b: Bits8): Octet {
    assert Power2(8) == 256;
    FromBitString(b)
  }

  lemma OctetOfBits(d: Octet)
    ensures OctetOf(Bits(d)) == d
  {
    assert Power2(8) == 256;
    BitStringRoundTrip(d, 8);
  }

  lemma BitsOfOctet(b: Bits8)
    ensures Bits(OctetOf(b)) == b
  {
    FromBitStringRoundTrip(b);
  }

  function Power256(n: nat): (p: nat)
    ensures p >= 1
  {
    if n == 0 then 1 else 256 * Power256(n - 1)
  }

  /** The n lowest octets of v, most significant first. */
  function BigEndian(v: nat, n: nat): (s: seq<Octet>)
    ensures |s| == n
  {
    if n == 0 then [] else BigEndian(v / 256, n - 1) + [v % 256]
  }

  /** The number whose big-endian octets are s. */
  function FromBigEndian(s: seq<Octet>): nat {
    if s == [] then 0 else 256 * FromBigEndian(s[..|s| - 1]) + s[|s| - 1]
  }

  lemma {:induction false} BigEndianRoundTrip(v: nat, n: nat)
    requires v < Power256(n)
    ensures FromBigEndian(BigEndian(v, n)) == v
  {
    if n > 0 {
      var s := BigEndian(v, n);
      assert s[..n - 1] == BigEndian(v / 256, n - 1);
      BigEndianRoundTrip(v / 256, n - 1);
    }
  }

  lemma Regroup(v: nat, u: nat, a: nat, p: nat, q: nat, x: nat, y: nat)
    requires v == a * u + y && u == p * q + x && x < p && y < a
    ensures v == a * p * q + (a * x + y) && a * x + y < a * p
  {
    assert a * (p * q + x) == a * p * q + a * x;
    assert a * (x + 1) <= a * p by {
      Multiply(a, x + 1, p);
    }
  }

  lemma DivideTwice(v: nat, a: nat, p: nat)
    requires a > 0 && p > 0
    ensures v / a / p == v / (a * p)
  {
    var u, y := v / a, v % a;
    var q, x := u / p, u % p;
    Regroup(v, u, a, p, q, x, y);
    QuotientIs(v, a * p, q, a * x + y);
  }

  /** Octet i of n counts 256 to the power n - 1 - i. */
  lemma {:induction false} BigEndianOctet(v: nat, n: nat, i: nat)
    requires i < n
    ensures BigEndian(v, n)[i] == v / Power256(n - 1 - i) % 256
  {
    if i == n - 1 {
      assert Power256(0) == 1;
    } else {
      BigEndianOctet(v / 256, n - 1, i);
      DivideTwice(v, 256, Power256(n - 2 - i));
    }
  }

  lemma {:induction false} FromBigEndianRoundTrip(s: seq<Octet>)
    ensures BigEndian(FromBigEndian(s), |s|) == s && FromBigEndian(s) < Power256(|s|)
  {
    if s != [] {
      FromBigEndianRoundTrip(s[..|s| - 1]);
      var v := FromBigEndian(s);
      assert v / 256 == FromBigEndian(s[..|s| - 1]) && v % 256 == s[|s| - 1];
      assert s == s[..|s| - 1] + [s[|s| - 1]];
    }
  }

  /** The number that is read from the octets s: octet i is its digit for 256 to the power
    |s| - 1 - i. */
  lemma {:induction false} FromBigEndianOctet(s: seq<Octet>, i: nat)
    requires i < |s|
    ensures FromBigEndian(s) < Power256(|s|) && FromBigEndian(s) / Power256(|s| - 1 - i) % 256 == s[i]
  {
    FromBigEndianRoundTrip(s);
    BigEndianOctet(FromBigEndian(s), |s|, i);
  }

  /** Bit i of an octet counts 2 to the power i. */
  lemma {:induction false} BitStringBit(v: nat, n: nat, i: nat)
    requires i < n
    ensures BitString(v, n)[i] == if v / Power2(i) % 2 == 1 then 1 else 0
  {
    if i == 0 {
      assert Power2(0) == 1;
    } else {
      BitStringBit(v / 2, n - 1, i - 1);
      DivideTwice(v, 2, Power2(i - 1));
    }
  }

  lemma {:induction false} BitsOf(d: Octet, i: nat)
    requires i < 8
    ensures Bits(d)[i] == if d / Power2(i) % 2 == 1 then 1 else 0
  {
    BitStringBit(d, 8, i);
  }

  lemma FieldWidths()
    ensures Power256(8) == W64 && Power256(6) == W48 && Power256(4) == W32
  {
    assert Power256(2) == 0x1_0000 && Power256(4) == W32 && Power256(6) == W48;
  }
}
