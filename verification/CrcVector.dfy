/** A test vector for the CRC circuit. */
module CrcVector {
  import opened Octets
  import opened EthernetCrc8
  import opened FrameCheck

  // The equations, for a register of ones and an octet 0.

  lemma OnesAndZero0(c: Bits32, d: Bits8)
    requires (forall i :: 0 <= i < 32 ==> c[i] == 1) && forall i :: 0 <= i < 8 ==> d[i] == 0
    ensures NextBit(c, d, 0) == 0 && NextBit(c, d, 1) == 0 && NextBit(c, d, 2) == 1 && NextBit(c, d, 3) == 0
    ensures NextBit(c, d, 4) == 1 && NextBit(c, d, 5) == 1 && NextBit(c, d, 6) == 0 && NextBit(c, d, 7) == 1
  {
  }

  lemma OnesAndZero1(c: Bits32, d: Bits8)
    requires (forall i :: 0 <= i < 32 ==> c[i] == 1) && forall i :: 0 <= i < 8 ==> d[i] == 0
    ensures NextBit(c, d, 8) == 1 && NextBit(c, d, 9) == 1 && NextBit(c, d, 10) == 1 && NextBit(c, d, 11) == 1
    ensures NextBit(c, d, 12) == 1 && NextBit(c, d, 13) == 1 && NextBit(c, d, 14) == 0 && NextBit(c, d, 15) == 1
  {
  }

  lemma OnesAndZero2(c: Bits32, d: Bits8)
    requires (forall i :: 0 <= i < 32 ==> c[i] == 1) && forall i :: 0 <= i < 8 ==> d[i] == 0
    ensures NextBit(c, d, 16) == 0 && NextBit(c, d, 17) == 0 && NextBit(c, d, 18) == 0 && NextBit(c, d, 19) == 1
    ensures NextBit(c, d, 20) == 0 && NextBit(c, d, 21) == 0 && NextBit(c, d, 22) == 0 && NextBit(c, d, 23) == 0
  {
  }

  lemma OnesAndZero3(c: Bits32, d: Bits8)
    requires (forall i :: 0 <= i < 32 ==> c[i] == 1) && forall i :: 0 <= i < 8 ==> d[i] == 0
    ensures NextBit(c, d, 24) == 0 && NextBit(c, d, 25) == 1 && NextBit(c, d, 26) == 1 && NextBit(c, d, 27) == 1
    ensures NextBit(c, d, 28) == 0 && NextBit(c, d, 29) == 0 && NextBit(c, d, 30) == 1 && NextBit(c, d, 31) == 0
  {
  }

  lemma RegisterOfZero(i: nat)
    requires i < 32
    ensures Bits(0) == [0, 0, 0, 0, 0, 0, 0, 0] && Crc([0])[i] == NextBit(Ones(), Bits(0), i)
  {
    hide NextBit;
    assert [0][..0] == [];
    assert Crc([0]) == NextCrc(Ones(), 0);
  }

  lemma OctetOfEight(s: Bits8)
    ensures OctetOf(s) == Weight(s[0]) + 2 * Weight(s[1]) + 4 * Weight(s[2]) + 8 * Weight(s[3])
                          + 16 * (Weight(s[4]) + 2 * Weight(s[5]) + 4 * Weight(s[6]) + 8 * Weight(s[7]))
  {
    FourBits(s);
    FourBits(s[4..]);
    assert s[4..][4..] == [];
    assert FromBitString([]) == 0;
    hide FromBitString;
    hide Weight;
  }

  lemma OctetOfZero0(c: Bits32)
    requires forall i :: 0 <= i < 32 ==> c[i] == NextBit(Ones(), Bits(0), i)
    requires Bits(0) == [0, 0, 0, 0, 0, 0, 0, 0]
    ensures FcsOctet(c, 0) == 0x8D && FcsOctet(c, 1) == 0xEF
  {
    OnesAndZero3(Ones(), Bits(0));
    OnesAndZero2(Ones(), Bits(0));
    hide NextBit;
    hide OctetOf;
    hide Bits;
    OctetOfEight(FcsOctetBits(c, 0));
    OctetOfEight(FcsOctetBits(c, 1));
  }

  lemma OctetOfZero2(c: Bits32)
    requires forall i :: 0 <= i < 32 ==> c[i] == NextBit(Ones(), Bits(0), i)
    requires Bits(0) == [0, 0, 0, 0, 0, 0, 0, 0]
    ensures FcsOctet(c, 2) == 0x02 && FcsOctet(c, 3) == 0xD2
  {
    OnesAndZero1(Ones(), Bits(0));
    OnesAndZero0(Ones(), Bits(0));
    hide NextBit;
    hide OctetOf;
    hide Bits;
    OctetOfEight(FcsOctetBits(c, 2));
    OctetOfEight(FcsOctetBits(c, 3));
  }

  /** The frame check sequence of a single octet 0 is 8D EF 02 D2, in the order in which it is
    sent. */
  lemma FcsOfZero()
    ensures Fcs(Crc([0])) == [0x8D, 0xEF, 0x02, 0xD2]
  {
    var c := Crc([0]);
    hide NextBit;
    hide FcsOctet;
    forall i | 0 <= i < 32
      ensures c[i] == NextBit(Ones(), Bits(0), i)
    {
      RegisterOfZero(i);
    }
    RegisterOfZero(0);
    hide Crc;
    hide Bits;
    OctetOfZero0(c);
    OctetOfZero2(c);
  }

  function Weight(b: bv1): nat {
    if b == 1 then 1 else 0
  }

  lemma {:induction false} FourBits(s: seq<bv1>)
    requires |s| >= 4
    ensures FromBitString(s)
         == Weight(s[0]) + 2 * Weight(s[1]) + 4 * Weight(s[2]) + 8 * Weight(s[3]) + 16 * FromBitString(s[4..])
  {
    assert s[1..][1..] == s[2..] && s[2..][1..] == s[3..] && s[3..][1..] == s[4..];
    assert FromBitString(s[3..]) == Weight(s[3]) + 2 * FromBitString(s[4..]);
    assert FromBitString(s[2..]) == Weight(s[2]) + 2 * FromBitString(s[3..]);
    assert FromBitString(s[1..]) == Weight(s[1]) + 2 * FromBitString(s[2..]);
  }
}
