/** The byte-wide CRC-32 circuit (lib/hw/lsi/cores/common/hdl/ethernet_crc_8.v). */
module EthernetCrc8 {
  import opened Octets

  /** A 32-bit register; index i is Verilog bit i. */
  type Bits32 = s: seq<bv1> | |s| == 32 witness seq(32, _ => 1)

  function Ones(): Bits32 {
    seq(32, _ => 1)
  }

  /** Bit i of `next_crc`: the XOR equations of the circuit, one for each bit. */
  function NextBit(c: Bits32, d: Bits8, i: nat): bv1
    requires i < 32
  {
    if i == 0 then
      c[30] ^ d[7] ^ c[24] ^ d[1]
    else if i == 1 then
      c[24] ^ d[0] ^ d[1] ^ d[7] ^ c[31] ^ c[25] ^ d[6] ^ c[30]
    else if i == 2 then
      d[0] ^ c[24] ^ d[1] ^ c[26] ^ d[7] ^ c[31] ^ d[5] ^ c[25] ^ d[6] ^ c[30]
    else if i == 3 then
      d[6] ^ c[31] ^ d[4] ^ c[25] ^ d[5] ^ c[26] ^ c[27] ^ d[0]
    else if i == 4 then
      c[24] ^ c[27] ^ d[1] ^ c[28] ^ c[26] ^ d[7] ^ d[5] ^ d[4] ^ c[30] ^ d[3]
    else if i == 5 then
      c[24] ^ d[2] ^ c[30] ^ d[7] ^ c[31] ^ d[4] ^ d[6] ^ d[0] ^ c[29] ^ d[1] ^ c[27] ^ c[28] ^ d[3] ^ c[25]
    else if i == 6 then
      d[3] ^ c[25] ^ c[28] ^ d[1] ^ c[29] ^ d[0] ^ c[30] ^ d[6] ^ d[5] ^ c[31] ^ c[26] ^ d[2]
    else if i == 7 then
      d[2] ^ c[24] ^ c[26] ^ d[5] ^ d[4] ^ d[7] ^ c[31] ^ c[29] ^ d[0] ^ c[27]
    else if i == 8 then
      c[24] ^ d[6] ^ d[7] ^ d[4] ^ c[27] ^ c[28] ^ c[0] ^ c[25] ^ d[3]
    else if i == 9 then
      c[26] ^ d[2] ^ c[1] ^ d[6] ^ d[5] ^ c[28] ^ c[29] ^ d[3] ^ c[25]
    else if i == 10 then
      d[2] ^ c[24] ^ c[26] ^ d[4] ^ d[5] ^ d[7] ^ c[29] ^ c[2] ^ c[27]
    else if i == 11 then
      c[3] ^ c[24] ^ d[7] ^ d[4] ^ d[6] ^ c[27] ^ c[28] ^ d[3] ^ c[25]
    else if i == 12 then
      d[1] ^ c[28] ^ c[29] ^ d[3] ^ c[25] ^ c[26] ^ c[4] ^ c[24] ^ d[2] ^ c[30] ^ d[6] ^ d[7] ^ d[5]
    else if i == 13 then
      c[26] ^ d[2] ^ c[30] ^ d[6] ^ c[31] ^ d[4] ^ d[5] ^ c[5] ^ d[1] ^ c[27] ^ d[0] ^ c[29] ^ c[25]
    else if i == 14 then
      c[27] ^ d[1] ^ c[28] ^ d[0] ^ d[3] ^ c[26] ^ c[6] ^ c[31] ^ d[4] ^ d[5] ^ c[30]
    else if i == 15 then
      d[4] ^ c[31] ^ d[2] ^ d[3] ^ c[7] ^ c[28] ^ c[27] ^ c[29] ^ d[0]
    else if i == 16 then
      d[7] ^ c[8] ^ c[24] ^ d[2] ^ d[3] ^ c[28] ^ c[29]
    else if i == 17 then
      d[2] ^ c[30] ^ d[6] ^ c[9] ^ d[1] ^ c[29] ^ c[25]
    else if i == 18 then
      d[1] ^ d[0] ^ c[30] ^ c[31] ^ c[10] ^ d[5] ^ c[26]
    else if i == 19 then
      c[11] ^ d[4] ^ c[31] ^ c[27] ^ d[0]
    else if i == 20 then
      d[3] ^ c[28] ^ c[12]
    else if i == 21 then
      d[2] ^ c[13] ^ c[29]
    else if i == 22 then
      c[14] ^ d[7] ^ c[24]
    else if i == 23 then
      d[1] ^ c[25] ^ c[24] ^ c[30] ^ d[6] ^ c[15] ^ d[7]
    else if i == 24 then
      d[5] ^ c[31] ^ d[6] ^ c[26] ^ c[25] ^ d[0] ^ c[16]
    else if i == 25 then
      c[27] ^ d[4] ^ d[5] ^ c[26] ^ c[17]
    else if i == 26 then
      d[3] ^ d[1] ^ c[27] ^ c[28] ^ d[7] ^ d[4] ^ c[30] ^ c[18] ^ c[24]
    else if i == 27 then
      d[2] ^ c[19] ^ d[6] ^ c[31] ^ c[28] ^ c[29] ^ d[0] ^ c[25] ^ d[3]
    else if i == 28 then
      d[2] ^ c[26] ^ d[5] ^ c[30] ^ d[1] ^ c[29] ^ c[20]
    else if i == 29 then
      c[27] ^ d[1] ^ d[0] ^ c[21] ^ d[4] ^ c[31] ^ c[30]
    else if i == 30 then
      c[31] ^ c[22] ^ c[28] ^ d[0] ^ d[3]
    else
      d[2] ^ c[23] ^ c[29]
  }

  function NextCrc(c: Bits32, d: Octet): Bits32 {
    var b := Bits(d);
    seq(32, i requires 0 <= i < 32 => NextBit(c, b, i))
  }

  /** `{crc_reg[23:0], 8'hFF}` */
  function ShiftCrc(c: Bits32): Bits32 {
    seq(32, i requires 0 <= i < 32 => if i < 8 then 1 else c[i - 8])
  }

  /** The bit-swapped, complemented most significant octet of the register. */
  function TopOctet(c: Bits32): Octet {
    OctetOf(seq(8, i requires 0 <= i < 8 => !c[31 - i]))
  }

  datatype CrcRegs = CrcRegs(crcReg: Bits32, crc: Octet)

  /** One clock edge of the circuit. */
  function CrcStep(r: CrcRegs, reset: bool, d: Octet, calculate: bool, init: bool, dValid: bool): CrcRegs {
    if reset || init then
      CrcRegs(Ones(), 0xFF)
    else if calculate && dValid then
      CrcRegs(NextCrc(r.crcReg, d), TopOctet(NextCrc(r.crcReg, d)))
    else if !calculate && dValid then
      CrcRegs(ShiftCrc(r.crcReg), TopOctet(ShiftCrc(r.crcReg)))
    else
      r
  }

  class Crc8 {
    var crcReg: Bits32
    var crc: Octet

    function Regs(): CrcRegs
      reads this
    {
      CrcRegs(crcReg, crc)
    }

    method Step(reset: bool, d: Octet, calculate: bool, init: bool, dValid: bool)
      modifies this
      ensures Regs() == CrcStep(old(Regs()), reset, d, calculate, init, dValid)
    {
      if reset {
        crcReg, crc := Ones(), 0xFF;
      } else if init {
        crcReg, crc := Ones(), 0xFF;
      } else if calculate && dValid {
        crcReg := NextCrc(crcReg, d);
        crc := TopOctet(crcReg);
      } else if !calculate && dValid {
        crcReg := ShiftCrc(crcReg);
        crc := TopOctet(crcReg);
      }
    }
  }
}
