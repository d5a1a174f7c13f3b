/** The dual-port frame memory
  (lib/hw/lsi/cores/traffic_analyzer_gmii/hdl/bram_io.v). */
module BramIo {
  import opened Octets

  /** A 32-bit word by octet lanes; lane 0 is bits 31 to 24. */
  datatype Word = Word(b0: Octet, b1: Octet, b2: Octet, b3: Octet)

  function Lane(w: Word, i: nat): Octet
    requires i < 4
  {
    if i == 0 then w.b0 else if i == 1 then w.b1 else if i == 2 then w.b2 else w.b3
  }

  function WithLane(w: Word, i: nat, d: Octet): Word
    requires i < 4
  {
    if i == 0 then w.(b0 := d) else if i == 1 then w.(b1 := d) else if i == 2 then w.(b2 := d) else w.(b3 := d)
  }

  type Address = a: nat | a < 512

  type Memory = m: seq<Word> | |m| == 512 witness seq(512, _ => Word(0, 0, 0, 0))

  function Written(m: Memory, wr: bool, addr: Address, data: Word): Memory {
    if wr then m[addr := data] else m
  }

  /** The first n octets of the memory are those of f. */
  ghost predicate Holds(m: Memory, f: seq<Octet>, n: nat)
    requires n <= |f| && n <= 2048
  {
    forall i :: 0 <= i < n ==> Lane(m[i / 4], i % 4) == f[i]
  }

  class Bram {
    const mem: array<Word>
    var oData: Word

    constructor (mem: array<Word>)
      requires mem.Length == 512
      ensures this.mem == mem
    {
      this.mem := mem;
      oData := Word(0, 0, 0, 0);
    }

    /** The edge of the write clock. */
    method WritePort(wr: bool, addr: Address, data: Word)
      requires mem.Length == 512
      modifies mem
      ensures mem[..] == Written(old(mem[..]), wr, addr, data)
    {
      if wr {
        mem[addr] := data;
      }
    }

    /** The edge of the read clock: the output register takes the addressed word. */
    method ReadPort(rst: bool, addr: Address)
      requires mem.Length == 512
      modifies this
      ensures oData == if rst then Word(0, 0, 0, 0) else mem[addr]
    {
      if rst {
        oData := Word(0, 0, 0, 0);
      } else {
        oData := mem[addr];
      }
    }
  }
}
